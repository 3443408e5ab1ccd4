/** Small facts about slices, kept apart so that larger proofs need not rediscover them. */
module Sequences {

  lemma SliceSnoc<T>(s: seq<T>, i: nat, e: nat)
    requires i <= e < |s|
    ensures s[i..e + 1] == s[i..e] + [s[e]]
  {}

  lemma SliceOfPrefix<T>(s: seq<T>, n: nat, i: nat, e: nat)
    requires i <= e <= n <= |s|
    ensures s[..n][i..e] == s[i..e]
  {}

  lemma Unsnoc<T>(s: seq<T>)
    requires |s| > 0
    ensures s == s[..|s| - 1] + [s[|s| - 1]]
  {}

  lemma PrefixSnoc<T>(s: seq<T>, i: nat)
    requires i < |s|
    ensures s[..i + 1] == s[..i] + [s[i]]
    ensures s[..i + 1][..i] == s[..i]
  {}

  lemma AppendOne<T>(a: seq<T>, b: seq<T>, x: T)
    ensures a + (b + [x]) == (a + b) + [x]
  {}

  lemma Assoc<T>(a: seq<T>, b: seq<T>, c: seq<T>)
    ensures (a + b) + c == a + (b + c)
  {}

  lemma Assoc4<T>(a: seq<T>, b: seq<T>, c: seq<T>, d: seq<T>)
    ensures a + b + c + d == a + (b + c + d) && a + b + (c + d) == a + b + c + d
  {}

  lemma ConsTail<T>(a: seq<T>, b: seq<T>)
    requires |a| > 0
    ensures (a + b)[0] == a[0] && (a + b)[1..] == a[1..] + b
  {}
}
