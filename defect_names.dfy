/**
  The three helpers nested in `generate_all`: turning a defect file or folder
  name into a defect name, and looking up a defect's charges and site in the
  `defects` section of the config file. doped's `format_defect_name` is a
  parameter: for a name it either raises or returns a (possibly empty) name
  or None.
 */
module DefectNames {
  import opened Python

  /** What one call of `format_defect_name` does. */
  datatype FormatResult = Raised | Returned(name: Option<string>)

  /**
    `format_defect_name(s)`, and if that raises, `format_defect_name(f"{s}_0")`;
    Raised when both raise (the assignment never happens).
   */
  function TryFormat(format: string -> FormatResult, s: string): FormatResult {
    if format(s).Returned? then format(s) else format(s + "_0")
  }

  /** Python truthiness of a name that may be None. */
  predicate TruthyName(n: Option<string>) {
    n.Some? && n.value != ""
  }

  /** The name is recognised as a defect name: the formatting above yields a truthy name. */
  predicate Recognised(format: string -> FormatResult, s: string) {
    TryFormat(format, s).Returned? && TruthyName(TryFormat(format, s).name)
  }

  // ---------------------------------------------------------------------------
  // parse_defect_name

  /** One pass of the first loop: remove `p` everywhere unless the name is exactly `p`. */
  function RemoveStep(s: string, p: string): string {
    if s == p then s else RemoveAll(s, p)
  }

  /** The first loop over all of `subs`, in order. */
  function RemoveEach(s: string, subs: seq<string>): string
    decreases |subs|
  {
    if subs == [] then s else RemoveStep(RemoveEach(s, subs[..|subs| - 1]), subs[|subs| - 1])
  }

  /** One pass of the second loop: drop one trailing `c`. */
  function TrimStep(s: string, c: char): string {
    if EndsWith(s, c) then s[..|s| - 1] else s
  }

  /** The second loop over all of `cs`, in order. */
  function TrimEach(s: string, cs: seq<char>): string
    decreases |cs|
  {
    if cs == [] then s else TrimStep(TrimEach(s, cs[..|cs| - 1]), cs[|cs| - 1])
  }

  /** The substrings removed from a name, in the order the source removes them. */
  function StructureSubstrings(structureFile: string): seq<string> {
    ["cif", "POSCAR", structureFile]
  }

  /** The trailing characters dropped from a name, in the order the source drops them. */
  const TrailingSymbols: seq<char> := ['-', '_', '.']

  /** The name after both loops of `parse_defect_name`. */
  function StrippedName(defect: string, structureFile: string): string {
    TrimEach(RemoveEach(defect, StructureSubstrings(structureFile)), TrailingSymbols)
  }

  /** The stripping of StrippedName written out step by step. */
  lemma StrippedNameSteps(defect: string, structureFile: string)
    ensures StrippedName(defect, structureFile)
         == TrimStep(TrimStep(TrimStep(
              RemoveStep(RemoveStep(RemoveStep(defect, "cif"), "POSCAR"), structureFile),
              '-'), '_'), '.')
  {
    var subs := StructureSubstrings(structureFile);
    assert RemoveEach(defect, subs[..1]) == RemoveStep(defect, "cif") by {
      assert subs[..1][..0] == [];
    }
    assert RemoveEach(defect, subs[..2]) == RemoveStep(RemoveEach(defect, subs[..1]), "POSCAR") by {
      assert subs[..2][..1] == subs[..1];
    }
    var m := RemoveEach(defect, subs);
    assert m == RemoveStep(RemoveEach(defect, subs[..2]), structureFile);
    var ts := TrailingSymbols;
    assert TrimEach(m, ts[..1]) == TrimStep(m, '-') by {
      assert ts[..1][..0] == [];
    }
    assert TrimEach(m, ts[..2]) == TrimStep(TrimEach(m, ts[..1]), '_') by {
      assert ts[..2][..1] == ts[..1];
    }
    assert TrimEach(m, ts) == TrimStep(TrimEach(m, ts[..2]), '.');
  }

  lemma {:induction false} TrimEachPrefix(s: string, cs: seq<char>)
    ensures var t := TrimEach(s, cs); |s| - |cs| <= |t| <= |s| && t == s[..|t|]
    decreases |cs|
  {
    if cs != [] {
      TrimEachPrefix(s, cs[..|cs| - 1]);
    }
  }

  lemma {:induction false} RemoveEachShorter(s: string, subs: seq<string>)
    ensures |RemoveEach(s, subs)| <= |s|
    decreases |subs|
  {
    if subs != [] {
      RemoveEachShorter(s, subs[..|subs| - 1]);
    }
  }

  /**
    The stripped name is never longer than the input, and it is the result
    of the substring removals with at most three trailing characters cut off.
   */
  lemma StrippedNameShape(defect: string, structureFile: string)
    ensures var m := RemoveEach(defect, StructureSubstrings(structureFile));
      var r := StrippedName(defect, structureFile);
      && |r| <= |m| <= |defect|
      && |m| - 3 <= |r| && r == m[..|r|]
  {
    RemoveEachShorter(defect, StructureSubstrings(structureFile));
    TrimEachPrefix(RemoveEach(defect, StructureSubstrings(structureFile)), TrailingSymbols);
  }

  /**
    A name with none of "cif", "POSCAR" and the structure file name in it,
    and no '-', '_' or '.' at its end, is left as it is.
   */
  lemma StrippedNameIdentity(defect: string, structureFile: string)
    requires !Contains(defect, "cif") && !Contains(defect, "POSCAR")
    requires structureFile == [] || !Contains(defect, structureFile)
    requires !EndsWith(defect, '-') && !EndsWith(defect, '_') && !EndsWith(defect, '.')
    ensures StrippedName(defect, structureFile) == defect
  {
    StrippedNameSteps(defect, structureFile);
    RemoveAllIdentity(defect, "cif");
    RemoveAllIdentity(defect, "POSCAR");
    if structureFile != [] {
      RemoveAllIdentity(defect, structureFile);
    }
  }

  /** A file named exactly "POSCAR" keeps that name: each removal is skipped on an exact match. */
  lemma ExactPoscarKept()
    ensures StrippedName("POSCAR", "POSCAR") == "POSCAR"
  {
    StrippedNameSteps("POSCAR", "POSCAR");
    NoCifInPoscar();
  }

  lemma NoCifInPoscar()
    ensures RemoveAll("POSCAR", "cif") == "POSCAR"
  {
    assert !Contains("POSCAR", "cif") by {
      forall i | 0 <= i <= 3 ensures !OccursAt("POSCAR", "cif", i) {
        assert "POSCAR"[i..i + 3][0] != 'c';
      }
    }
    RemoveAllIdentity("POSCAR", "cif");
  }

  // `"XPOSPOSCARCAR".replace("POSCAR", "")` (for any first character other
  // than 'P'), one character or one match at a time.

  lemma RemovePoscarFromDoubled(x: char)
    requires x != 'P'
    ensures RemoveAll([x] + "POSPOSCARCAR", "POSCAR") == [x] + "POSCAR"
  {
    var s := [x] + "POSPOSCARCAR";
    RemoveAllKeepsFirst(s, "POSCAR", 0);
    assert s[1..] == "POSPOSCARCAR";
    RemovePoscarFromPosPoscarCar();
  }

  lemma RemovePoscarFromPosPoscarCar()
    ensures RemoveAll("POSPOSCARCAR", "POSCAR") == "POSCAR"
  {
    var s := "POSPOSCARCAR";
    RemoveAllKeepsFirst(s, "POSCAR", 3);
    RemovePoscarFromOsPoscarCar();
  }

  lemma RemovePoscarFromOsPoscarCar()
    ensures RemoveAll("OSPOSCARCAR", "POSCAR") == "OSCAR"
  {
    var s := "OSPOSCARCAR";
    RemoveAllKeepsFirst(s, "POSCAR", 0);
    RemovePoscarFromSPoscarCar();
  }

  lemma RemovePoscarFromSPoscarCar()
    ensures RemoveAll("SPOSCARCAR", "POSCAR") == "SCAR"
  {
    var s := "SPOSCARCAR";
    RemoveAllKeepsFirst(s, "POSCAR", 0);
    RemovePoscarFromPoscarCar();
  }

  lemma RemovePoscarFromPoscarCar()
    ensures RemoveAll("POSCARCAR", "POSCAR") == "CAR"
  {
    assert "POSCARCAR"[..6] == "POSCAR";
    assert "POSCARCAR"[6..] == "CAR";
  }

  lemma RemovePoscarFromJoined()
    ensures RemoveAll("XPOSCAR", "POSCAR") == "X"
  {
    var t := "XPOSCAR";
    assert t[..6][0] != "POSCAR"[0];
    assert t[1..][..6] == "POSCAR";
    assert t[1..][6..] == "";
    assert RemoveAll("X", "POSCAR") == "X";
  }

  lemma NoCifInDoubled()
    ensures RemoveAll("XPOSPOSCARCAR", "cif") == "XPOSPOSCARCAR"
  {
    var s := "XPOSPOSCARCAR";
    assert !Contains(s, "cif") by {
      forall i | 0 <= i <= |s| - 3 ensures !OccursAt(s, "cif", i) {
        assert s[i..i + 3][0] != 'c';
      }
    }
    RemoveAllIdentity(s, "cif");
  }

  /**
    The source removes one substring after another, so with the default
    structure file "POSCAR" (the value both call sites in `generate_all` use)
    a second "POSCAR" that the first removal brings together is removed too:
    "XPOSPOSCARCAR" becomes "X", where removing "POSCAR" once gives "XPOSCAR".
   */
  lemma DefaultStructureFileRemovesPoscarTwice()
    ensures RemoveAll("XPOSPOSCARCAR", "POSCAR") == "XPOSCAR"
    ensures StrippedName("XPOSPOSCARCAR", "POSCAR") == "X"
  {
    StrippedNameSteps("XPOSPOSCARCAR", "POSCAR");
    NoCifInDoubled();
    RemovePoscarFromDoubled('X');
    assert "XPOSPOSCARCAR" == ['X'] + "POSPOSCARCAR";
    RemovePoscarFromJoined();
  }

  /**
    The config lookup and the recognition step of `parse_defect_name`, on
    the stripped name: the defect name (None when unrecognised) and whether
    the "not found in config file" warning is raised.
   */
  function NameFromStripped(stripped: string, settings: map<string, Value>,
                            format: string -> FormatResult): (Option<string>, bool)
  {
    var fromConfig := if settings != map[] && stripped in settings then Some(stripped) else None;
    var warned := settings != map[] && stripped !in settings;
    if TruthyName(fromConfig) then (fromConfig, warned)
    else
      var t := TryFormat(format, stripped);
      var named := if t.Raised? then fromConfig else t.name;
      (if TruthyName(named) then Some(stripped) else named, warned)
  }

  /**
    `parse_defect_name`: the two loops that rebind the name, then the config
    lookup, then the recognition.
   */
  method ParseDefectName(defect: string, settings: map<string, Value>, structureFile: string,
                         format: string -> FormatResult)
    returns (name: Option<string>, warned: bool)
    ensures (name, warned) == NameFromStripped(StrippedName(defect, structureFile), settings, format)
  {
    var d := defect;
    var subs := StructureSubstrings(structureFile);
    for i := 0 to |subs|
      invariant d == RemoveEach(defect, subs[..i])
    {
      assert subs[..i + 1][..i] == subs[..i];
      if d != subs[i] {
        d := RemoveAll(d, subs[i]);
      }
    }
    assert subs[..|subs|] == subs;
    ghost var removed := d;
    for j := 0 to |TrailingSymbols|
      invariant d == TrimEach(removed, TrailingSymbols[..j])
    {
      assert TrailingSymbols[..j + 1][..j] == TrailingSymbols[..j];
      if EndsWith(d, TrailingSymbols[j]) {
        d := d[..|d| - 1];
      }
    }
    assert TrailingSymbols[..|TrailingSymbols|] == TrailingSymbols;
    name := None;
    warned := false;
    if settings != map[] {
      if d in settings {
        name := Some(d);
      } else {
        warned := true;
      }
    }
    if !TruthyName(name) {
      var first := format(d);
      if first.Returned? {
        name := first.name;
      } else {
        var second := format(d + "_0");
        if second.Returned? {
          name := second.name;
        }
      }
      if TruthyName(name) {
        name := Some(d);
      }
    }
  }

  /**
    Whatever the formatter does, a truthy result is exactly the stripped
    name; a falsy one is None or the empty string.
   */
  lemma NameIsStrippedOrFalsy(stripped: string, settings: map<string, Value>, format: string -> FormatResult)
    ensures var n := NameFromStripped(stripped, settings, format).0;
      && (n == None || n == Some(stripped) || n == Some(""))
      && (TruthyName(n) ==> n == Some(stripped))
  {
  }

  /** A non-empty name listed in a non-empty `defects` section is taken as it is, without asking the formatter. */
  lemma ConfigNameWins(stripped: string, settings: map<string, Value>, format: string -> FormatResult)
    requires stripped != "" && stripped in settings
    ensures NameFromStripped(stripped, settings, format) == (Some(stripped), false)
  {
  }

  /**
    A non-empty name the config does not list is kept exactly when the
    formatter recognises it; the warning is raised exactly when there is a `defects`
    section that does not list it.
   */
  lemma UnlistedNameNeedsRecognition(stripped: string, settings: map<string, Value>, format: string -> FormatResult)
    requires stripped !in settings
    ensures var r := NameFromStripped(stripped, settings, format);
      && (stripped != "" ==> (TruthyName(r.0) <==> Recognised(format, stripped)))
      && (r.1 <==> settings != map[])
  {
  }

  // ---------------------------------------------------------------------------
  // parse_defect_charges and parse_defect_position

  /**
    `parse_defect_charges`: the `charges` entry of the defect's section if it is
    not None, else the one-element list of its `charge` entry (possibly
    `[None]`); None for a defect the section does not list, AttributeError
    when the defect's entry is not a mapping.
   */
  function ParseDefectCharges(name: Option<string>, settings: map<string, Value>): Result<Option<Value>> {
    if name.Some? && name.value in settings then
      var entry := settings[name.value];
      match DictGet(entry, "charges")
      case Err(e) => Err(e)
      case Ok(charges) =>
        if charges != Null then Ok(Some(charges))
        else Ok(Some(List([DictGet(entry, "charge").value])))
    else Ok(None)
  }

  lemma ParseDefectChargesCases(name: Option<string>, settings: map<string, Value>)
    ensures name.None? || name.value !in settings ==> ParseDefectCharges(name, settings) == Ok(None)
    ensures name.Some? && name.value in settings && !settings[name.value].Dict? ==>
              ParseDefectCharges(name, settings) == Err(AttributeError)
    ensures name.Some? && name.value in settings && settings[name.value].Dict? ==>
              var entry := settings[name.value].entries;
              ParseDefectCharges(name, settings) ==
                if "charges" in entry && entry["charges"] != Null then Ok(Some(entry["charges"]))
                else Ok(Some(List([if "charge" in entry then entry["charge"] else Null])))
  {
  }

  /**
    The charges `generate_all` assigns to a defect: looked up under the
    parsed defect name, or under the defect object's own name when that is
    falsy (`defect_name or defect_object.name`).
   */
  function ChargesForDefect(defectName: Option<string>, objectName: string, settings: map<string, Value>)
    : (r: Result<Option<Value>>)
    ensures TruthyName(defectName) ==> r == ParseDefectCharges(defectName, settings)
    ensures !TruthyName(defectName) ==> r == ParseDefectCharges(Some(objectName), settings)
  {
    ParseDefectCharges(Some(if TruthyName(defectName) then defectName.value else objectName), settings)
  }

  /** The site the config gives for a defect: an index, or coordinates (None is Null). */
  datatype Position = Position(index: Option<int>, coords: Value)

  /**
    `parse_defect_position`: `(int(defect_index), None)` when the defect's
    `defect_index` is truthy, otherwise `(None, defect_coords)`;
    `(None, None)` for a defect the section does not list.
   */
  function ParseDefectPosition(name: Option<string>, settings: map<string, Value>): Result<Position> {
    if settings != map[] && name.Some? && name.value in settings then
      var entry := settings[name.value];
      match DictGet(entry, "defect_index")
      case Err(e) => Err(e)
      case Ok(index) =>
        if Truthy(index) then
          match PyInt(index)
          case Err(e) => Err(e)
          case Ok(i) => Ok(Position(Some(i), Null))
        else Ok(Position(None, DictGet(entry, "defect_coords").value))
    else Ok(Position(None, Null))
  }

  /**
    An index and coordinates are never both returned; an index is returned
    exactly when the entry's `defect_index` is truthy, and it is then that
    value as an integer; otherwise the entry's `defect_coords` (or None) is
    returned; an unlisted defect gets neither, and an entry that is not a
    dict raises AttributeError.
   */
  lemma ParseDefectPositionExclusive(name: Option<string>, settings: map<string, Value>)
    ensures var r := ParseDefectPosition(name, settings);
      && (r.Ok? && r.value.index.Some? ==> r.value.coords == Null)
      && (name.None? || name.value !in settings ==> r == Ok(Position(None, Null)))
      && (r.Ok? && r.value.index.Some? <==>
            name.Some? && name.value in settings && settings[name.value].Dict?
            && "defect_index" in settings[name.value].entries
            && Truthy(settings[name.value].entries["defect_index"])
            && PyInt(settings[name.value].entries["defect_index"]).Ok?)
      && (name.Some? && name.value in settings && !settings[name.value].Dict? ==> r == Err(AttributeError))
  {
  }

  /** The values returned for a listed defect whose entry is a dict. */
  lemma ParseDefectPositionValues(name: string, settings: map<string, Value>)
    requires name in settings && settings[name].Dict?
    ensures var entries := settings[name].entries;
      var index := if "defect_index" in entries then entries["defect_index"] else Null;
      var r := ParseDefectPosition(Some(name), settings);
      && (Truthy(index) && PyInt(index).Ok? ==> r == Ok(Position(Some(PyInt(index).value), Null)))
      && (Truthy(index) && PyInt(index).Err? ==> r == Err(PyInt(index).error))
      && (!Truthy(index) ==>
            r == Ok(Position(None, if "defect_coords" in entries then entries["defect_coords"] else Null)))
  {
  }

  /** A `defect_index` of 0 is falsy, so it is ignored and the coordinates are used. */
  lemma ZeroIndexIgnored(name: string, settings: map<string, Value>)
    requires name in settings && settings[name].Dict?
    requires "defect_index" in settings[name].entries && settings[name].entries["defect_index"] == Int(0)
    ensures ParseDefectPosition(Some(name), settings)
         == Ok(Position(None, if "defect_coords" in settings[name].entries then settings[name].entries["defect_coords"] else Null))
  {
  }
}
