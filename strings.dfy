/**
 * The few Python `str` operations docgrep relies on, over `seq<char>`:
 * `startswith`, `endswith` and the containment operator `in`.
 */
module Strings {

  /** `s.startswith(p)` */
  predicate StartsWith(s: string, p: string) {
    |p| <= |s| && s[..|p|] == p
  }

  /** `s.endswith(p)` */
  predicate EndsWith(s: string, p: string) {
    |p| <= |s| && s[|s| - |p|..] == p
  }

  /** `term in s`, stated as: term occurs in s at some offset. */
  ghost predicate OccursIn(term: string, s: string) {
    exists i :: 0 <= i <= |s| && StartsWith(s[i..], term)
  }

  /**
   * Executable form of `term in s`: try each offset from the left.
   * The empty term occurs in every string, as in Python.
   */
  function Contains(term: string, s: string): (r: bool)
    ensures r <==> OccursIn(term, s)
    decreases |s|
  {
    if StartsWith(s, term) then
      assert StartsWith(s[0..], term);
      true
    else if s == [] then
      false
    else
      OccursInTail(term, s);
      Contains(term, s[1..])
  }

  /** When term is not a prefix of a non-empty s, it occurs in s iff it occurs in s's tail. */
  lemma OccursInTail(term: string, s: string)
    requires s != [] && !StartsWith(s, term)
    ensures OccursIn(term, s) <==> OccursIn(term, s[1..])
  {
    if OccursIn(term, s) {
      var i :| 0 <= i <= |s| && StartsWith(s[i..], term);
      assert i != 0;
      assert s[i..] == s[1..][i - 1..];
    }
    if OccursIn(term, s[1..]) {
      var j :| 0 <= j <= |s[1..]| && StartsWith(s[1..][j..], term);
      assert s[1..][j..] == s[j + 1..];
    }
  }
}
