/**
  How `plot` groups the defect folders it found into a map from defect name
  to charge states: each folder name `{defect}_{charge}` is split at its last
  underscore, the part before it is the defect and `int` of the part after it
  is appended to that defect's list, in listing order.
 */
module PlotGrouping {
  import opened Python

  /** The exception grouping raises on folder name `d`, if any. */
  function DirError(d: string): Option<PyError> {
    match RSplitTail(d)
    case None => Some(IndexError)
    case Some(t) => if ParseInt(t).None? then Some(ValueError) else None
  }

  predicate WellFormedDir(d: string) {
    DirError(d).None?
  }

  /** The charge a well-formed folder name ends in. */
  function ChargeOf(d: string): int
    requires WellFormedDir(d)
  {
    ParseInt(RSplitTail(d).value).value
  }

  /** The exception of the first folder, in listing order, that raises one. */
  function FirstError(dirs: seq<string>): Option<PyError> {
    if dirs == [] then None
    else if DirError(dirs[0]).Some? then DirError(dirs[0])
    else FirstError(dirs[1..])
  }

  /** Grouping raises nothing exactly when every folder name is well formed. */
  lemma {:induction false} FirstErrorNone(dirs: seq<string>)
    ensures FirstError(dirs).None? <==> forall i :: 0 <= i < |dirs| ==> WellFormedDir(dirs[i])
  {
    if dirs != [] {
      FirstErrorNone(dirs[1..]);
      assert forall i :: 1 <= i < |dirs| ==> dirs[1..][i - 1] == dirs[i];
    }
  }

  /** The exception raised is the one of the first malformed folder. */
  lemma {:induction false} FirstErrorIsFirst(dirs: seq<string>, i: nat)
    requires i < |dirs| && !WellFormedDir(dirs[i])
    requires forall j :: 0 <= j < i ==> WellFormedDir(dirs[j])
    ensures FirstError(dirs) == DirError(dirs[i])
  {
    if i > 0 {
      var rest := dirs[1..];
      assert rest[i - 1] == dirs[i];
      forall j | 0 <= j < i - 1
        ensures WellFormedDir(rest[j])
      {
        assert rest[j] == dirs[j + 1];
      }
      FirstErrorIsFirst(rest, i - 1);
    }
  }

  /** The charges of defect `key` among the well-formed folders, in listing order. */
  function ChargesOf(dirs: seq<string>, key: string): seq<int> {
    if dirs == [] then []
    else
      var d := dirs[|dirs| - 1];
      ChargesOf(dirs[..|dirs| - 1], key)
        + (if WellFormedDir(d) && RSplitHead(d) == key then [ChargeOf(d)] else [])
  }

  /** The defect names, that is the keys of the grouped map. */
  function DefectKeys(dirs: seq<string>): set<string> {
    set i | 0 <= i < |dirs| :: RSplitHead(dirs[i])
  }

  /** The lists built from the folders `ds`, for each name in `keys`. */
  function PartialGroups(ds: seq<string>, keys: set<string>): map<string, seq<int>> {
    map k | k in keys :: ChargesOf(ds, k)
  }

  lemma PartialGroupsEmpty(keys: set<string>)
    ensures PartialGroups([], keys) == map k | k in keys :: []
  {
  }

  /** One more well-formed folder appends its charge to its own defect's list and to no other. */
  lemma PartialGroupsStep(dirs: seq<string>, i: nat, keys: set<string>)
    requires i < |dirs| && WellFormedDir(dirs[i]) && RSplitHead(dirs[i]) in keys
    ensures var g := PartialGroups(dirs[..i], keys);
      PartialGroups(dirs[..i + 1], keys) == g[RSplitHead(dirs[i]) := g[RSplitHead(dirs[i])] + [ChargeOf(dirs[i])]]
  {
    var d := dirs[i];
    var g := PartialGroups(dirs[..i], keys);
    var g' := PartialGroups(dirs[..i + 1], keys);
    var h := g[RSplitHead(d) := g[RSplitHead(d)] + [ChargeOf(d)]];
    assert dirs[..i + 1][..i] == dirs[..i] && dirs[..i + 1][i] == d;
    forall k | k in keys
      ensures g'[k] == h[k]
    {
      assert g'[k] == ChargesOf(dirs[..i], k) + (if RSplitHead(d) == k then [ChargeOf(d)] else []);
    }
    assert g'.Keys == h.Keys;
  }

  /** The `defects_dict` that `plot` builds, or the exception it raises. */
  function Grouped(dirs: seq<string>): Result<map<string, seq<int>>> {
    match FirstError(dirs)
    case Some(e) => Err(e)
    case None => Ok(PartialGroups(dirs, DefectKeys(dirs)))
  }

  /** The two loops of `plot` that build `defects_dict`. */
  method GroupCharges(dirs: seq<string>) returns (r: Result<map<string, seq<int>>>)
    ensures r == Grouped(dirs)
  {
    var keys := DefectKeys(dirs);
    var groups: map<string, seq<int>> := map k | k in keys :: [];
    PartialGroupsEmpty(keys);
    assert dirs[..0] == [];
    var i := 0;
    while i < |dirs|
      invariant 0 <= i <= |dirs|
      invariant FirstError(dirs) == FirstError(dirs[i..])
      invariant groups == PartialGroups(dirs[..i], keys)
    {
      var d := dirs[i];
      assert dirs[i..][0] == d && dirs[i..][1..] == dirs[i + 1..];
      var tail := RSplitTail(d);
      if tail.None? {
        return Err(IndexError);
      }
      var c := ParseInt(tail.value);
      if c.None? {
        return Err(ValueError);
      }
      var key := RSplitHead(d);
      assert key in keys;
      PartialGroupsStep(dirs, i, keys);
      groups := groups[key := groups[key] + [c.value]];
      i := i + 1;
    }
    assert dirs[..i] == dirs;
    return Ok(groups);
  }

  /** Every folder's charge is in the list of its own defect. */
  lemma {:induction false} ChargesOfComplete(dirs: seq<string>, i: nat)
    requires i < |dirs| && WellFormedDir(dirs[i])
    ensures ChargeOf(dirs[i]) in ChargesOf(dirs, RSplitHead(dirs[i]))
  {
    var front := dirs[..|dirs| - 1];
    if i < |dirs| - 1 {
      assert front[i] == dirs[i];
      ChargesOfComplete(front, i);
    }
  }

  /** Every charge in a defect's list comes from a folder of that defect. */
  lemma {:induction false} ChargesOfSound(dirs: seq<string>, key: string, c: int)
    requires c in ChargesOf(dirs, key)
    ensures exists i :: 0 <= i < |dirs| && WellFormedDir(dirs[i]) && RSplitHead(dirs[i]) == key && ChargeOf(dirs[i]) == c
  {
    var front := dirs[..|dirs| - 1];
    var d := dirs[|dirs| - 1];
    if c in ChargesOf(front, key) {
      ChargesOfSound(front, key, c);
      var i :| 0 <= i < |front| && WellFormedDir(front[i]) && RSplitHead(front[i]) == key && ChargeOf(front[i]) == c;
      assert front[i] == dirs[i];
    } else {
      assert WellFormedDir(d) && RSplitHead(d) == key && ChargeOf(d) == c;
    }
  }

  /**
    When grouping succeeds, its keys are the defect names of the folders, each
    folder's charge is under its defect, and every listed charge belongs to a
    folder of that defect.
   */
  lemma GroupedContents(dirs: seq<string>)
    requires Grouped(dirs).Ok?
    ensures Grouped(dirs).value.Keys == DefectKeys(dirs)
    ensures forall i :: 0 <= i < |dirs| ==>
      WellFormedDir(dirs[i]) && ChargeOf(dirs[i]) in Grouped(dirs).value[RSplitHead(dirs[i])]
    ensures forall k, c :: k in Grouped(dirs).value && c in Grouped(dirs).value[k] ==>
      exists i :: 0 <= i < |dirs| && RSplitHead(dirs[i]) == k && WellFormedDir(dirs[i]) && ChargeOf(dirs[i]) == c
  {
    FirstErrorNone(dirs);
    var g := Grouped(dirs).value;
    forall i | 0 <= i < |dirs|
      ensures WellFormedDir(dirs[i]) && ChargeOf(dirs[i]) in g[RSplitHead(dirs[i])]
    {
      assert RSplitHead(dirs[i]) in DefectKeys(dirs);
      ChargesOfComplete(dirs, i);
    }
    forall k, c | k in g && c in g[k]
      ensures exists i :: 0 <= i < |dirs| && RSplitHead(dirs[i]) == k && WellFormedDir(dirs[i]) && ChargeOf(dirs[i]) == c
    {
      ChargesOfSound(dirs, k, c);
    }
  }

  /** How many folders name defect `key`. */
  function DirsOf(dirs: seq<string>, key: string): nat {
    if dirs == [] then 0
    else DirsOf(dirs[..|dirs| - 1], key) + (if RSplitHead(dirs[|dirs| - 1]) == key then 1 else 0)
  }

  /** With every folder well formed, a defect's list has one charge per folder of that defect. */
  lemma {:induction false} ChargesOfLength(dirs: seq<string>, key: string)
    requires forall i :: 0 <= i < |dirs| ==> WellFormedDir(dirs[i])
    ensures |ChargesOf(dirs, key)| == DirsOf(dirs, key)
  {
    if dirs != [] {
      ChargesOfLength(dirs[..|dirs| - 1], key);
    }
  }

  predicate Distinct(ks: seq<string>) {
    forall i, j :: 0 <= i < j < |ks| ==> ks[i] != ks[j]
  }

  /** The lengths of the lists under `ks`, added up: `sum(len(defects_dict[k]) for k in ks)`. */
  function TotalLength(g: map<string, seq<int>>, ks: seq<string>): nat
    requires forall i :: 0 <= i < |ks| ==> ks[i] in g
  {
    if ks == [] then 0 else |g[ks[0]]| + TotalLength(g, ks[1..])
  }

  /** The number of folders naming one of `ks`, counted defect by defect. */
  function DirsOfAll(dirs: seq<string>, ks: seq<string>): nat {
    if ks == [] then 0 else DirsOf(dirs, ks[0]) + DirsOfAll(dirs, ks[1..])
  }

  lemma {:induction false} DirsOfAllEmpty(ks: seq<string>)
    ensures DirsOfAll([], ks) == 0
  {
    if ks != [] {
      DirsOfAllEmpty(ks[1..]);
    }
  }

  /** One more folder adds one to the count exactly when its defect is among `ks`, counted once. */
  lemma {:induction false} DirsOfAllStep(dirs: seq<string>, d: string, ks: seq<string>)
    requires Distinct(ks)
    ensures DirsOfAll(dirs + [d], ks) == DirsOfAll(dirs, ks) + (if RSplitHead(d) in ks then 1 else 0)
  {
    if ks != [] {
      assert (dirs + [d])[..|dirs + [d]| - 1] == dirs;
      DirsOfAllStep(dirs, d, ks[1..]);
      assert RSplitHead(d) in ks <==> RSplitHead(d) == ks[0] || RSplitHead(d) in ks[1..];
      assert ks[0] !in ks[1..];
    }
  }

  /** When `ks` lists every folder's defect once, the count is the number of folders. */
  lemma {:induction false} DirsOfAllCovers(dirs: seq<string>, ks: seq<string>)
    requires Distinct(ks)
    requires forall i :: 0 <= i < |dirs| ==> RSplitHead(dirs[i]) in ks
    ensures DirsOfAll(dirs, ks) == |dirs|
  {
    if dirs == [] {
      DirsOfAllEmpty(ks);
    } else {
      var front := dirs[..|dirs| - 1];
      assert dirs == front + [dirs[|dirs| - 1]];
      DirsOfAllCovers(front, ks);
      DirsOfAllStep(front, dirs[|dirs| - 1], ks);
    }
  }

  /**
    When grouping succeeds, each defect's list holds one charge per folder of
    that defect, so the lists together hold exactly one charge per folder:
    added up over the defects in any order, their lengths give the number of
    folders.
   */
  lemma GroupedTotal(dirs: seq<string>, ks: seq<string>)
    requires Grouped(dirs).Ok?
    requires Distinct(ks) && forall k :: k in ks <==> k in Grouped(dirs).value
    ensures forall k :: k in Grouped(dirs).value ==> |Grouped(dirs).value[k]| == DirsOf(dirs, k)
    ensures TotalLength(Grouped(dirs).value, ks) == |dirs|
  {
    FirstErrorNone(dirs);
    var g := Grouped(dirs).value;
    forall k | k in g
      ensures |g[k]| == DirsOf(dirs, k)
    {
      ChargesOfLength(dirs, k);
    }
    forall i | 0 <= i < |dirs|
      ensures RSplitHead(dirs[i]) in ks
    {
      assert RSplitHead(dirs[i]) in DefectKeys(dirs);
    }
    TotalIsCount(dirs, g, ks);
    DirsOfAllCovers(dirs, ks);
  }

  lemma {:induction false} TotalIsCount(dirs: seq<string>, g: map<string, seq<int>>, ks: seq<string>)
    requires forall i :: 0 <= i < |ks| ==> ks[i] in g && |g[ks[i]]| == DirsOf(dirs, ks[i])
    ensures TotalLength(g, ks) == DirsOfAll(dirs, ks)
  {
    if ks != [] {
      TotalIsCount(dirs, g, ks[1..]);
    }
  }

  /** The folder name the generator gives a defect in a charge state, `{name}_{charge}`. */
  function DirName(name: string, charge: int): string {
    name + "_" + IntToDecimal(charge)
  }

  /** Splitting a folder name at its last underscore recovers the defect name and the charge. */
  lemma DirNameRoundTrip(name: string, charge: int)
    ensures RSplitHead(DirName(name, charge)) == name
    ensures WellFormedDir(DirName(name, charge)) && ChargeOf(DirName(name, charge)) == charge
  {
    var s := DirName(name, charge);
    var dec := IntToDecimal(charge);
    assert s[|name|] == '_';
    var last := LastIndexOf(s, '_');
    assert last.Some?;
    if last.value < |name| {
      assert false;
    } else if last.value > |name| {
      assert false;
    }
    assert s[..|name|] == name && s[|name| + 1..] == dec;
    ParseIntOfDecimal(charge);
  }

  /** The folders the generator writes for one defect, one per charge state. */
  function DirNames(name: string, charges: seq<int>): (dirs: seq<string>)
    ensures |dirs| == |charges|
  {
    if charges == [] then []
    else DirNames(name, charges[..|charges| - 1]) + [DirName(name, charges[|charges| - 1])]
  }

  /** Each of those folders is well formed and names its defect. */
  lemma {:induction false} DirNamesWellFormed(name: string, charges: seq<int>, i: nat)
    requires i < |charges|
    ensures WellFormedDir(DirNames(name, charges)[i]) && RSplitHead(DirNames(name, charges)[i]) == name
  {
    var n := |charges| - 1;
    if i == n {
      DirNameRoundTrip(name, charges[n]);
    } else {
      DirNamesWellFormed(name, charges[..n], i);
    }
  }

  /** The charges grouped under the defect are the charge states, in order. */
  lemma {:induction false} ChargesOfDirNames(name: string, charges: seq<int>)
    ensures ChargesOf(DirNames(name, charges), name) == charges
  {
    if charges != [] {
      var n := |charges| - 1;
      assert charges == charges[..n] + [charges[n]];
      var dirs := DirNames(name, charges);
      assert dirs[..n] == DirNames(name, charges[..n]);
      ChargesOfDirNames(name, charges[..n]);
      DirNameRoundTrip(name, charges[n]);
    }
  }

  /** Folders that all name one defect and are all well formed group under that defect alone. */
  lemma GroupedOneDefect(dirs: seq<string>, name: string)
    requires dirs != []
    requires forall i :: 0 <= i < |dirs| ==> WellFormedDir(dirs[i]) && RSplitHead(dirs[i]) == name
    ensures Grouped(dirs) == Ok(map[name := ChargesOf(dirs, name)])
  {
    FirstErrorNone(dirs);
    assert FirstError(dirs) == None;
    OneDefectKeys(dirs, name);
    var g := PartialGroups(dirs, {name});
    assert g == map[name := ChargesOf(dirs, name)] by {
      assert g.Keys == {name};
    }
  }

  lemma OneDefectKeys(dirs: seq<string>, name: string)
    requires dirs != []
    requires forall i :: 0 <= i < |dirs| ==> RSplitHead(dirs[i]) == name
    ensures DefectKeys(dirs) == {name}
  {
    assert RSplitHead(dirs[0]) in DefectKeys(dirs);
  }

  /** `plot` recovers, from one defect's folders, that defect with all its charge states in order. */
  lemma GroupedDirNames(name: string, charges: seq<int>)
    requires charges != []
    ensures Grouped(DirNames(name, charges)) == Ok(map[name := charges])
  {
    var dirs := DirNames(name, charges);
    forall i | 0 <= i < |dirs|
      ensures WellFormedDir(dirs[i]) && RSplitHead(dirs[i]) == name
    {
      DirNamesWellFormed(name, charges, i);
    }
    GroupedOneDefect(dirs, name);
    ChargesOfDirNames(name, charges);
  }
}
