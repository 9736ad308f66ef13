/**
 * The two `pathlib.PurePath` properties the catalog uses: `suffix` (the
 * extension, from the last dot) and `stem` (the name without it).
 */
module PathNames {

  import opened Text

  /** `s.rfind(c)`: the index of the last occurrence of `c`, or -1. */
  function RFind(s: string, c: char): (i: int)
    ensures -1 <= i < |s|
    ensures 0 <= i ==> s[i] == c
    ensures forall j :: i < j < |s| ==> s[j] != c
  {
    if s == [] then -1
    else if s[|s| - 1] == c then |s| - 1
    else RFind(s[..|s| - 1], c)
  }

  /** The dot that starts the suffix exists, and is neither the first nor the last character. */
  predicate HasSuffix(name: string)
  {
    0 < RFind(name, '.') < |name| - 1
  }

  /** `PurePath(name).suffix` */
  function Suffix(name: string): (r: string)
  {
    if HasSuffix(name) then name[RFind(name, '.')..] else ""
  }

  /** `PurePath(name).stem` */
  function Stem(name: string): (r: string)
  {
    if HasSuffix(name) then name[..RFind(name, '.')] else name
  }

  /**
   * A name splits into stem and suffix; a suffix is empty or a dot followed
   * by at least one character, none of them a dot; a non-empty name has a
   * non-empty stem.
   */
  lemma StemSuffixSplit(name: string)
    ensures Stem(name) + Suffix(name) == name
    ensures Suffix(name) == "" || (|Suffix(name)| >= 2 && Suffix(name)[0] == '.' && '.' !in Suffix(name)[1..])
    ensures name != "" ==> Stem(name) != ""
    ensures Suffix(name) == "" <==> Stem(name) == name
  {
    if HasSuffix(name) {
      var i := RFind(name, '.');
      assert name[..i] + name[i..] == name;
      assert forall j :: 0 <= j < |name[i..]| - 1 ==> name[i..][1..][j] == name[i + 1 + j];
    }
  }

  /** The suffix starts at the last dot of the name, when that dot is neither first nor last. */
  lemma SplitAtLastDot(name: string, i: nat)
    requires 0 < i < |name| - 1 && name[i] == '.'
    requires forall j :: i < j < |name| ==> name[j] != '.'
    ensures Suffix(name) == name[i..] && Stem(name) == name[..i]
  {
    var k := RFind(name, '.');
    assert k >= i;
  }
}
