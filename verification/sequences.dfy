/**
  Small facts about sequence slicing and concatenation, each proved on its
  own so that the proofs using them do not have to rediscover them.
*/
module Sequences {

  /** Concatenation is associative. */
  lemma Associates<T>(a: seq<T>, b: seq<T>, c: seq<T>)
    ensures a + (b + c) == (a + b) + c
  {
  }

  /** Slicing a suffix again is slicing the original. */
  lemma Slices<T>(s: seq<T>, i: nat, j: nat)
    requires i <= j <= |s|
    ensures s[i..][j - i..] == s[j..]
    ensures s[i..][..j - i] == s[i..j]
    ensures s[..0] == [] && s[0..] == s
  {
  }

  /** The first element followed by the next ones is a prefix. */
  lemma ConsSlice<T>(s: seq<T>, n: nat)
    requires 1 <= n <= |s|
    ensures [s[0]] + s[1..n] == s[..n]
  {
  }

  /** A non-empty sequence is its front followed by its last element. */
  lemma LastSplit<T>(s: seq<T>)
    requires |s| > 0
    ensures s == s[..|s| - 1] + [s[|s| - 1]]
  {
  }

  /** A suffix around one of its elements. */
  lemma Around<T>(s: seq<T>, i: nat, j: nat)
    requires i <= j < |s|
    ensures s[i..] == s[i..j] + [s[j]] + s[j + 1..]
  {
  }
}
