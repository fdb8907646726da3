/** Runs of characters: the loops that skip blanks or read up to a stop character. */
module Runs {

  /** The length of the longest prefix of `t` made of characters of `cs`. */
  function RunIn(t: string, cs: set<char>): (n: nat)
    ensures n <= |t|
    ensures forall i :: 0 <= i < n ==> t[i] in cs
    ensures n < |t| ==> t[n] !in cs
  {
    if t != "" && t[0] in cs then 1 + RunIn(t[1..], cs) else 0
  }

  /** The length of the longest prefix of `t` free of characters of `cs`. */
  function RunOut(t: string, cs: set<char>): (n: nat)
    ensures n <= |t|
    ensures forall i :: 0 <= i < n ==> t[i] !in cs
    ensures n < |t| ==> t[n] in cs
  {
    if t != "" && t[0] !in cs then 1 + RunOut(t[1..], cs) else 0
  }

  lemma {:induction false} RunOutIs(t: string, cs: set<char>, n: nat)
    requires n <= |t| && (forall i :: 0 <= i < n ==> t[i] !in cs) && (n < |t| ==> t[n] in cs)
    ensures RunOut(t, cs) == n
    decreases n
  {
    if n > 0 { RunOutIs(t[1..], cs, n - 1); }
  }

  /** The skipping loop at index `start`. */
  method SkipIn(line: string, start: nat, cs: set<char>) returns (i: nat)
    requires start <= |line|
    ensures i == start + RunIn(line[start..], cs)
  {
    i := start;
    while i < |line| && line[i] in cs
      invariant start <= i <= |line|
      invariant i + RunIn(line[i..], cs) == start + RunIn(line[start..], cs)
    {
      assert line[i..][1..] == line[i + 1..];
      i := i + 1;
    }
  }

  /** The copying loop at index `start`. */
  method TakeOut(line: string, start: nat, cs: set<char>) returns (i: nat, taken: string)
    requires start <= |line|
    ensures i == start + RunOut(line[start..], cs) && taken == line[start..i]
  {
    i, taken := start, "";
    while i < |line| && line[i] !in cs
      invariant start <= i <= |line| && taken == line[start..i]
      invariant i + RunOut(line[i..], cs) == start + RunOut(line[start..], cs)
    {
      assert line[i..][1..] == line[i + 1..];
      taken := taken + [line[i]];
      i := i + 1;
    }
  }
}
