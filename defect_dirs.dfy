/**
  The two folder tests of the command-line layer. `_parse_defect_dirs`
  picks, from a listing, the folders that hold at least one entry whose name
  starts with a distortion label. `_running_in_defect_dir` asks whether the
  working directory itself holds a folder whose name contains a distortion
  label, and warns about the first folder there that looks like a defect
  folder. It always lists the working directory; its `path` argument is not
  used, so it takes no path here.
 */
module DefectDirs {
  import opened Python
  import opened DefectNames

  /** A directory entry: its name, whether it is a folder, and what a folder lists. */
  datatype Entry = Entry(name: string, isDir: bool, children: seq<Entry>)

  /** The fnmatch patterns `{dist}*` of `_parse_defect_dirs`, as the prefixes they match. */
  const DistortionPrefixes: seq<string> := ["Rattled", "Unperturbed", "Bond_Distortion", "Dimer"]

  /** The substrings `_running_in_defect_dir` looks for. */
  const DistortionSubstrings: seq<string> := ["Bond_Distortion", "Rattled", "Unperturbed", "Dimer"]

  /** `fnmatch(name, f"{dist}*")` for some `dist` of `labels`: the name starts with one of them. */
  predicate StartsWithAnyOf(name: string, labels: seq<string>)
    decreases |labels|
  {
    labels != [] && (StartsWith(name, labels[0]) || StartsWithAnyOf(name, labels[1..]))
  }

  /** Some entry of `entries` has a name starting with a distortion label. */
  predicate HasLabelledEntry(entries: seq<Entry>)
    decreases |entries|
  {
    entries != [] && (StartsWithAnyOf(entries[0].name, DistortionPrefixes) || HasLabelledEntry(entries[1..]))
  }

  /** A folder with an entry (file or folder) whose name starts with a distortion label. */
  predicate HoldsDistortionFolders(e: Entry) {
    e.isDir && HasLabelledEntry(e.children)
  }

  lemma {:induction false} StartsWithAnyOfIff(name: string, labels: seq<string>)
    ensures StartsWithAnyOf(name, labels) <==> exists i :: 0 <= i < |labels| && StartsWith(name, labels[i])
    decreases |labels|
  {
    if labels != [] {
      StartsWithAnyOfIff(name, labels[1..]);
      assert forall i :: 1 <= i < |labels| ==> labels[1..][i - 1] == labels[i];
      if exists i :: 0 <= i < |labels| && StartsWith(name, labels[i]) {
        var i :| 0 <= i < |labels| && StartsWith(name, labels[i]);
        if i > 0 {
          assert StartsWith(name, labels[1..][i - 1]);
        }
      }
    }
  }

  /** The two loops of the test, written as one condition: some entry starts with some label. */
  lemma {:induction false} HasLabelledEntryIff(entries: seq<Entry>)
    ensures HasLabelledEntry(entries) <==>
              exists i, j :: 0 <= i < |DistortionPrefixes| && 0 <= j < |entries| &&
                             StartsWith(entries[j].name, DistortionPrefixes[i])
    decreases |entries|
  {
    if entries != [] {
      HasLabelledEntryIff(entries[1..]);
      StartsWithAnyOfIff(entries[0].name, DistortionPrefixes);
      if exists i, j :: 0 <= i < |DistortionPrefixes| && 0 <= j < |entries| &&
                        StartsWith(entries[j].name, DistortionPrefixes[i]) {
        var i, j :| 0 <= i < |DistortionPrefixes| && 0 <= j < |entries| &&
                    StartsWith(entries[j].name, DistortionPrefixes[i]);
        if j > 0 {
          assert entries[1..][j - 1] == entries[j];
        }
      }
      if HasLabelledEntry(entries[1..]) && !StartsWithAnyOf(entries[0].name, DistortionPrefixes) {
        var i, j :| 0 <= i < |DistortionPrefixes| && 0 <= j < |entries[1..]| &&
                    StartsWith(entries[1..][j].name, DistortionPrefixes[i]);
        assert entries[1..][j] == entries[j + 1];
      }
    }
  }

  /**
    The positions, from `from` on, of the folders `_parse_defect_dirs`
    picks: ascending, so each position appears once, and covering every
    such folder at or after `from`.
   */
  ghost function DefectDirIndicesFrom(listing: seq<Entry>, from: nat): (idx: seq<nat>)
    requires from <= |listing|
    ensures forall i :: 0 <= i < |idx| ==> from <= idx[i] < |listing| && HoldsDistortionFolders(listing[idx[i]])
    ensures forall i, j :: 0 <= i < j < |idx| ==> idx[i] < idx[j]
    ensures forall k :: from <= k < |listing| && HoldsDistortionFolders(listing[k]) ==> k in idx
    decreases |listing| - from
  {
    if from == |listing| then []
    else (if HoldsDistortionFolders(listing[from]) then [from] else []) + DefectDirIndicesFrom(listing, from + 1)
  }

  /** The names at those positions, in order. */
  function DefectDirsFrom(listing: seq<Entry>, from: nat): (r: seq<string>)
    requires from <= |listing|
    ensures |r| == |DefectDirIndicesFrom(listing, from)|
    ensures forall i :: 0 <= i < |r| ==> r[i] == listing[DefectDirIndicesFrom(listing, from)[i]].name
    decreases |listing| - from
  {
    if from == |listing| then []
    else (if HoldsDistortionFolders(listing[from]) then [listing[from].name] else []) + DefectDirsFrom(listing, from + 1)
  }

  /**
    `_parse_defect_dirs` on a listing: the names of the folders that hold a
    distortion entry, each once and in listing order.
   */
  function ParseDefectDirs(listing: seq<Entry>): (r: seq<string>)
    ensures |r| == |DefectDirIndicesFrom(listing, 0)|
    ensures forall i :: 0 <= i < |r| ==> r[i] == listing[DefectDirIndicesFrom(listing, 0)[i]].name
  {
    DefectDirsFrom(listing, 0)
  }

  /** A name is returned exactly when some folder of that name holds a distortion entry. */
  lemma ParseDefectDirsMembers(listing: seq<Entry>)
    ensures |ParseDefectDirs(listing)| <= |listing|
    ensures forall n :: n in ParseDefectDirs(listing) <==>
              exists k :: 0 <= k < |listing| && listing[k].name == n && HoldsDistortionFolders(listing[k])
  {
    IndicesBounded(DefectDirIndicesFrom(listing, 0), |listing|);
    forall n | n in ParseDefectDirs(listing)
      ensures exists k :: 0 <= k < |listing| && listing[k].name == n && HoldsDistortionFolders(listing[k])
    {
      ParseDefectDirsSound(listing, n);
    }
    forall k | 0 <= k < |listing| && HoldsDistortionFolders(listing[k])
      ensures listing[k].name in ParseDefectDirs(listing)
    {
      ParseDefectDirsComplete(listing, k);
    }
  }

  lemma ParseDefectDirsSound(listing: seq<Entry>, n: string)
    requires n in ParseDefectDirs(listing)
    ensures exists k :: 0 <= k < |listing| && listing[k].name == n && HoldsDistortionFolders(listing[k])
  {
    var r := ParseDefectDirs(listing);
    var idx := DefectDirIndicesFrom(listing, 0);
    var i :| 0 <= i < |r| && r[i] == n;
    assert listing[idx[i]].name == n && HoldsDistortionFolders(listing[idx[i]]);
  }

  lemma ParseDefectDirsComplete(listing: seq<Entry>, k: nat)
    requires k < |listing| && HoldsDistortionFolders(listing[k])
    ensures listing[k].name in ParseDefectDirs(listing)
  {
    var r := ParseDefectDirs(listing);
    var idx := DefectDirIndicesFrom(listing, 0);
    var i :| 0 <= i < |idx| && idx[i] == k;
    assert r[i] == listing[k].name;
  }

  /** A strictly ascending sequence of positions below `n` has at most `n` elements. */
  lemma {:induction false} IndicesBounded(idx: seq<nat>, n: nat)
    requires forall i :: 0 <= i < |idx| ==> idx[i] < n
    requires forall i, j :: 0 <= i < j < |idx| ==> idx[i] < idx[j]
    ensures |idx| <= n
  {
    if idx != [] {
      var last := idx[|idx| - 1];
      IndicesBounded(idx[..|idx| - 1], last);
    }
  }

  /**
    A folder of the working directory that counts as a distortion folder:
    its name is truthy and contains a distortion label.
   */
  predicate IsDistortionDir(e: Entry) {
    e.isDir && e.name != "" &&
    exists i :: 0 <= i < |DistortionSubstrings| && Contains(e.name, DistortionSubstrings[i])
  }

  predicate HasDistortionDir(cwd: seq<Entry>) {
    exists k :: 0 <= k < |cwd| && IsDistortionDir(cwd[k])
  }

  /** A folder whose name the defect-name formatter recognises. */
  predicate IsDefectFolder(format: string -> FormatResult, e: Entry) {
    e.isDir && Recognised(format, e.name)
  }

  /** The first folder of the listing that looks like a defect folder. */
  function FirstDefectFolder(format: string -> FormatResult, cwd: seq<Entry>): (r: Option<string>)
    ensures r.None? <==> forall k :: 0 <= k < |cwd| ==> !IsDefectFolder(format, cwd[k])
    ensures r.Some? ==> exists k :: 0 <= k < |cwd| && IsDefectFolder(format, cwd[k]) && cwd[k].name == r.value
                          && forall j :: 0 <= j < k ==> !IsDefectFolder(format, cwd[j])
  {
    if cwd == [] then None
    else if IsDefectFolder(format, cwd[0]) then Some(cwd[0].name)
    else
      var r := FirstDefectFolder(format, cwd[1..]);
      assert forall k :: 1 <= k < |cwd| ==> cwd[1..][k - 1] == cwd[k];
      if r.Some? then
        var k :| 0 <= k < |cwd[1..]| && IsDefectFolder(format, cwd[1..][k]) && cwd[1..][k].name == r.value
                 && forall j :: 0 <= j < k ==> !IsDefectFolder(format, cwd[1..][j]);
        assert IsDefectFolder(format, cwd[k + 1]) && forall j :: 0 <= j < k + 1 ==> !IsDefectFolder(format, cwd[j]);
        r
      else r
  }

  /**
    `_running_in_defect_dir` on the listing of the working directory: whether
    it is a defect folder, and the folder the "defect folders will be
    ignored" warning names, if any.
   */
  method RunningInDefectDir(cwd: seq<Entry>, format: string -> FormatResult)
    returns (inDefectDir: bool, warnedAbout: Option<string>)
    ensures inDefectDir <==> HasDistortionDir(cwd)
    ensures warnedAbout == if inDefectDir then FirstDefectFolder(format, cwd) else None
  {
    warnedAbout := None;
    if HasDistortionDir(cwd) {
      var k := 0;
      while k < |cwd|
        invariant 0 <= k <= |cwd|
        invariant FirstDefectFolder(format, cwd) == FirstDefectFolder(format, cwd[k..])
        invariant warnedAbout == None
      {
        assert cwd[k..][0] == cwd[k] && cwd[k..][1..] == cwd[k + 1..];
        assert FirstDefectFolder(format, cwd[k..])
            == if IsDefectFolder(format, cwd[k]) then Some(cwd[k].name) else FirstDefectFolder(format, cwd[k + 1..]);
        if cwd[k].isDir {
          var name := None;
          var first := format(cwd[k].name);
          if first.Returned? {
            name := first.name;
          } else {
            var second := format(cwd[k].name + "_0");
            if second.Returned? {
              name := second.name;
            }
          }
          assert TruthyName(name) <==> IsDefectFolder(format, cwd[k]);
          if TruthyName(name) {
            warnedAbout := Some(cwd[k].name);
            break;
          }
        }
        k := k + 1;
      }
      return true, warnedAbout;
    }
    return false, None;
  }

  /**
    A folder that `_parse_defect_dirs` picks because of an entry that is
    itself a folder, and whose name starts with a distortion label, is one
    that `_running_in_defect_dir` run inside it takes for a defect folder:
    a name that starts with a label contains it.
   */
  lemma DefectDirSeenFromInside(e: Entry)
    requires exists i, j :: 0 <= i < |DistortionPrefixes| && 0 <= j < |e.children| &&
                            StartsWith(e.children[j].name, DistortionPrefixes[i]) && e.children[j].isDir
    ensures HasDistortionDir(e.children)
  {
    var i, j :| 0 <= i < |DistortionPrefixes| && 0 <= j < |e.children| &&
      StartsWith(e.children[j].name, DistortionPrefixes[i]) && e.children[j].isDir;
    StartsWithContains(e.children[j].name, DistortionPrefixes[i]);
    var i' := [1, 2, 0, 3][i];
    assert DistortionSubstrings[i'] == DistortionPrefixes[i];
    assert IsDistortionDir(e.children[j]);
  }

  /**
    The converse fails: a folder whose only subfolder merely contains a
    label inside its name is a defect folder from within, but
    `_parse_defect_dirs` does not pick it from its parent.
   */
  lemma SubstringTestIsLooser()
    ensures var e := Entry("v_Cd_0", true, [Entry("old_Rattled", true, [])]);
      HasDistortionDir(e.children) && !HoldsDistortionFolders(e) && ParseDefectDirs([e]) == []
  {
    var c := Entry("old_Rattled", true, []);
    var e := Entry("v_Cd_0", true, [c]);
    assert c.name[4..4 + 7] == "Rattled";
    assert Contains(c.name, DistortionSubstrings[1]) by {
      assert OccursAt(c.name, "Rattled", 4);
    }
    assert IsDistortionDir(e.children[0]);
    forall i | 0 <= i < |DistortionPrefixes|
      ensures !StartsWith(c.name, DistortionPrefixes[i])
    {
      if |DistortionPrefixes[i]| <= |c.name| {
        assert c.name[..|DistortionPrefixes[i]|][0] != DistortionPrefixes[i][0];
      }
    }
  }
}
