/**
 * The append-then-trim idiom the control plane uses for its histories
 * and audit trails: the new entry goes last and only the newest `keep`
 * entries survive.
 */
module BoundedLog {
  function AppendNewest<T>(s: seq<T>, x: T, keep: nat): (r: seq<T>)
    requires keep >= 1
    ensures |r| == if |s| + 1 > keep then keep else |s| + 1
    ensures r[|r| - 1] == x
    ensures r == (s + [x])[|s| + 1 - |r|..]
  {
    var all := s + [x];
    if |all| > keep then all[|all| - keep..] else all
  }

  /**
   * Below the bound nothing is dropped; at or above it, what precedes the
   * new entry is the tail of the old log.
   */
  lemma AppendBelowBoundIfShort<T>(s: seq<T>, x: T, keep: nat)
    requires keep >= 1
    ensures |s| < keep ==> AppendNewest(s, x, keep) == s + [x]
    ensures var r := AppendNewest(s, x, keep); r[..|r| - 1] == s[|s| + 1 - |r|..]
  {
    var r := AppendNewest(s, x, keep);
    assert r == (s + [x])[|s| + 1 - |r|..];
    assert (s + [x])[|s| + 1 - |r|..|s|] == s[|s| + 1 - |r|..];
  }
}
