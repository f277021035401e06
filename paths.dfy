/**
  File-system paths as the scripts use `pathlib`: a path is a directory and a final
  name, and `stem` and `suffix` split the name at its last dot.
*/
module Paths {

  /** `parent / name`. */
  datatype Path = Path(parent: string, name: string)

  /** `s.rfind(c)`: the index of the last `c` in `s`, or -1. */
  function RFind(s: string, c: char): (i: int)
    ensures -1 <= i < |s|
    ensures i >= 0 ==> s[i] == c
    ensures forall k :: i < k < |s| ==> s[k] != c
  {
    if s == [] then -1
    else if s[|s| - 1] == c then |s| - 1
    else RFind(s[..|s| - 1], c)
  }

  /** The name has a suffix: its last dot is neither its first nor its last character. */
  predicate HasSuffix(name: string) {
    var i := RFind(name, '.');
    0 < i < |name| - 1
  }

  /** `PurePath(name).suffix`: from the last dot to the end, or empty. */
  function Suffix(name: string): (r: string)
    ensures r == [] || (r[0] == '.' && 2 <= |r| < |name| && '.' !in r[1..])
    ensures |r| <= |name| && name[|name| - |r|..] == r
  {
    if HasSuffix(name) then name[RFind(name, '.')..] else []
  }

  /** `PurePath(name).stem`: the name without its suffix. */
  function Stem(name: string): (r: string)
    ensures r + Suffix(name) == name
  {
    if HasSuffix(name) then name[..RFind(name, '.')] else name
  }

  /** The stem of `base + ext`, for a non-empty `base` and an extension made of a dot and non-dot characters, is `base`. */
  lemma StemOfExtension(base: string, ext: string)
    requires base != []
    requires |ext| >= 2 && ext[0] == '.' && '.' !in ext[1..]
    ensures Stem(base + ext) == base
    ensures Suffix(base + ext) == ext
  {
    var name := base + ext;
    var i := RFind(name, '.');
    assert name[|base|] == '.';
    forall k | |base| < k < |name| ensures name[k] != '.' {
      assert name[k] == ext[1..][k - |base| - 1];
    }
    assert i == |base|;
  }
}
