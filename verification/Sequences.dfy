/** Small notions about sequences that several models use. */
module Sequences {
  function Last<T>(s: seq<T>): T
    requires s != []
  {
    s[|s| - 1]
  }

  function Front<T>(s: seq<T>): seq<T>
    requires s != []
  {
    s[..|s| - 1]
  }

  lemma AppendAssoc<T>(a: seq<T>, b: seq<T>, c: seq<T>)
    ensures a + b + c == a + (b + c)
  {}

  lemma AppendEmpty<T>(a: seq<T>)
    ensures a + [] == a == [] + a
  {}

  lemma DropTwice<T>(s: seq<T>, m: nat, n: nat)
    requires m + n <= |s|
    ensures s[m..][n..] == s[m + n..]
  {}

  lemma SplitTwice<T>(s: seq<T>, m: nat, n: nat)
    requires m + n <= |s|
    ensures s[..m + n] == s[..m] + s[m..][..n] && s[m + n..] == s[m..][n..]
  {}
}
