/** The parts of `pathlib.PurePath` the sidecar lookup uses: `suffix`, `stem` and
    `with_suffix`, by the rule of CPython 3.11 (the last `.` of the final component
    starts the suffix unless it is the first or the last character). */
module PyPath {
  import opened Types

  /** `name.rfind('.')`: the index of the last `.`, or -1. */
  function LastDot(name: string): (i: int)
    ensures -1 <= i < |name|
    ensures i >= 0 ==> name[i] == '.'
    ensures forall j :: i < j < |name| ==> name[j] != '.'
  {
    if name == [] then -1
    else if name[|name| - 1] == '.' then |name| - 1
    else LastDot(name[..|name| - 1])
  }

  predicate HasSuffix(name: string) {
    0 < LastDot(name) < |name| - 1
  }

  /** `PurePath(name).suffix`. */
  function Suffix(name: string): (r: string)
    ensures HasSuffix(name) ==> |r| >= 2 && r[0] == '.' && forall j :: 0 < j < |r| ==> r[j] != '.'
    ensures !HasSuffix(name) ==> r == ""
  {
    if HasSuffix(name) then name[LastDot(name)..] else ""
  }

  /** `PurePath(name).stem`. */
  function Stem(name: string): (r: string)
    ensures r + Suffix(name) == name
    ensures HasSuffix(name) ==> 0 < |r|
  {
    if HasSuffix(name) then name[..LastDot(name)] else name
  }

  /** `path.with_suffix(suffix)`: the stem followed by the new suffix. CPython raises for
      an empty final component, which the caller here never passes. */
  function WithSuffix(p: FilePath, suffix: string): (r: FilePath)
    requires p.name != ""
    ensures r.dir == p.dir
    ensures r.name == Stem(p.name) + suffix
  {
    FilePath(p.dir, Stem(p.name) + suffix)
  }

  /** Replacing the suffix by itself followed by more text only appends that text. */
  lemma WithOwnSuffix(p: FilePath, more: string)
    requires p.name != ""
    ensures WithSuffix(p, Suffix(p.name) + more) == FilePath(p.dir, p.name + more)
  {
    assert Stem(p.name) + (Suffix(p.name) + more) == (Stem(p.name) + Suffix(p.name)) + more;
  }

  /** "IMG_1.JPG" has the suffix ".JPG"; a leading-dot name and a trailing dot have none. */
  lemma SuffixExamples()
    ensures Suffix("IMG_1.JPG") == ".JPG" && Stem("IMG_1.JPG") == "IMG_1"
    ensures Suffix("a.tar.gz") == ".gz"
    ensures Suffix(".hidden") == "" && Suffix("photo.") == "" && Suffix("photo") == ""
  {
    var jpg, hidden := "IMG_1.JPG", ".hidden";
    assert jpg[5] == '.' && jpg[6] != '.' && jpg[7] != '.' && jpg[8] != '.';
    assert LastDot(jpg) == 5;
    assert LastDot("a.tar.gz") == 5;
    assert hidden[0] == '.' && forall j :: 0 < j < |hidden| ==> hidden[j] != '.';
    assert LastDot(hidden) == 0;
  }
}
