/**
 * The functions of Go's `strings` package that the modelled code calls,
 * over `string` = `seq<char>`.
 */
module GoStrings {

  /** `strings.HasPrefix(s, prefix)`. */
  predicate HasPrefix(s: string, prefix: string) {
    |prefix| <= |s| && s[..|prefix|] == prefix
  }

  /** `strings.HasSuffix(s, suffix)`. */
  predicate HasSuffix(s: string, suffix: string) {
    |suffix| <= |s| && s[|s| - |suffix|..] == suffix
  }

  /** A suffix of a suffix is a suffix. */
  lemma SuffixOfSuffix(s: string, mid: string, suffix: string)
    requires HasSuffix(s, mid) && HasSuffix(mid, suffix)
    ensures HasSuffix(s, suffix)
  {
    assert s[|s| - |suffix|..] == s[|s| - |mid|..][|mid| - |suffix|..];
  }

  /** Text put in front keeps a suffix. */
  lemma SuffixAfterPrefix(prefix: string, s: string, suffix: string)
    requires HasSuffix(s, suffix)
    ensures HasSuffix(prefix + s, suffix)
  {
    var ps := prefix + s;
    assert ps[|ps| - |suffix|..] == s[|s| - |suffix|..];
  }

  /** `strings.TrimPrefix(s, prefix)`: removes `prefix` once, and only when `s` starts with it. */
  function TrimPrefix(s: string, prefix: string): (r: string)
    ensures HasPrefix(s, prefix) ==> prefix + r == s
    ensures !HasPrefix(s, prefix) ==> r == s
  {
    if HasPrefix(s, prefix) then s[|prefix|..] else s
  }

  /** `sub` occurs in `s` starting at index `i`. */
  ghost predicate OccursAt(s: string, sub: string, i: int) {
    0 <= i && i + |sub| <= |s| && s[i..i + |sub|] == sub
  }

  /** `strings.Contains(s, sub)`: a left-to-right search for `sub`. */
  function Contains(s: string, sub: string): (b: bool)
    ensures b <==> exists i :: OccursAt(s, sub, i)
    decreases |s|
  {
    if HasPrefix(s, sub) then
      assert OccursAt(s, sub, 0);
      true
    else if |s| == 0 then
      assert forall i :: !OccursAt(s, sub, i);
      false
    else
      var b := Contains(s[1..], sub);
      assert forall i :: OccursAt(s[1..], sub, i) <==> OccursAt(s, sub, i + 1);
      assert !OccursAt(s, sub, 0);
      assert forall i :: OccursAt(s, sub, i) ==> OccursAt(s[1..], sub, i - 1);
      b
  }
}
