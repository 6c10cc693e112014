/** Facts about sequences that proofs name instead of finding them. */
module Sequences {
  lemma Regroup<T>(a: seq<T>, b: seq<T>, c: seq<T>)
    ensures a + (b + c) == a + b + c
  {
  }

  lemma Nothing<T>(a: seq<T>)
    ensures [] + a == a && a + [] == a
  {
  }

  lemma Halves<T>(s: seq<T>, k: nat)
    requires k <= |s|
    ensures s == s[..k] + s[k..]
  {
  }

  /** Going on from a place that has been gone on to. */
  lemma Later<T>(s: seq<T>, i: nat, k: nat)
    requires i + k <= |s|
    ensures s[i..][k..] == s[i + k..] && (i + k < |s| ==> s[i..][k] == s[i + k])
  {
  }

  /** One step on. */
  lemma Step<T>(s: seq<T>, i: nat)
    requires i < |s|
    ensures s[i..] != [] && s[i..][0] == s[i] && s[i..][1..] == s[i + 1..] && s[i..] == [s[i]] + s[i + 1..]
  {
  }

  lemma Ends<T>(s: seq<T>)
    ensures s[0..] == s && s[|s|..] == [] && s[..0] == [] && s[..|s|] == s
  {
  }

  /** One element more of what has been passed. */
  lemma Passed<T>(s: seq<T>, i: nat, k: nat)
    requires i <= k < |s|
    ensures s[i..k + 1] == s[i..k] + [s[k]] && s[i..][..k - i] == s[i..k]
  {
  }

  /** The beginning and the end of two sequences joined. */
  lemma Joined<T>(a: seq<T>, b: seq<T>)
    ensures (a + b)[..|a|] == a && (a + b)[|a|..] == b
  {
  }

  /** What is between two other sequences. */
  lemma Between<T>(a: seq<T>, m: seq<T>, b: seq<T>)
    ensures |a| + |m| <= |a + (m + b)| && (a + (m + b))[|a|..|a| + |m|] == m
  {
  }
}
