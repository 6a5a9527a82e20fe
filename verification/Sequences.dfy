/** Histories are read from their end. */
module Sequences {
  function Init<T>(s: seq<T>): seq<T>
    requires s != []
  {
    s[..|s| - 1]
  }

  function Last<T>(s: seq<T>): T
    requires s != []
  {
    s[|s| - 1]
  }

  lemma PrefixEnds<T>(s: seq<T>, i: nat)
    requires i < |s|
    ensures Init(s[..i + 1]) == s[..i] && Last(s[..i + 1]) == s[i]
  {
  }

  /** n copies of x. */
  function Copies<T>(x: T, n: nat): (c: seq<T>)
    ensures |c| == n && forall i :: 0 <= i < n ==> c[i] == x
  {
    seq(n, _ => x)
  }

  lemma CopiesGrow<T>(s: seq<T>, x: T, n: nat)
    requires n > 0
    ensures Init(s + Copies(x, n)) == s + Copies(x, n - 1)
    ensures Last(s + Copies(x, n)) == x
  {
  }
}
