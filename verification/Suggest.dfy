/** The spelling suggestion: restricted Damerau-Levenshtein distance and the search over commands. */
module Suggest {
  import opened Text

  // Edit scripts and their cost.

  datatype Edit = Keep | Subst(c: char) | Insert(c: char) | Delete | Swap

  function Append(prefix: Option<string>, last: string): Option<string> {
    if prefix.None? then None else Some(prefix.value + last)
  }

  /** What a script makes of `a`, its edits lying left to right; `None` when it does not fit `a`. */
  function Output(script: seq<Edit>, a: string): Option<string>
    decreases |script|
  {
    var n := |a|;
    if script == [] then (if a == "" then Some("") else None)
    else
      var first := script[..|script| - 1];
      match script[|script| - 1]
      case Keep => if n < 1 then None else Append(Output(first, a[..n - 1]), [a[n - 1]])
      case Subst(c) => if n < 1 then None else Append(Output(first, a[..n - 1]), [c])
      case Insert(c) => Append(Output(first, a), [c])
      case Delete => if n < 1 then None else Output(first, a[..n - 1])
      case Swap => if n < 2 then None else Append(Output(first, a[..n - 2]), [a[n - 1], a[n - 2]])
  }

  function Cost(script: seq<Edit>): nat {
    if script == [] then 0
    else Cost(script[..|script| - 1]) + if script[|script| - 1].Keep? then 0 else 1
  }

  // The recurrence of the table.

  function Min(x: nat, y: nat): nat {
    if y < x then y else x
  }

  predicate Swapped(a: string, b: string) {
    |a| > 1 && |b| > 1 && a[|a| - 1] == b[|b| - 2] && a[|a| - 2] == b[|b| - 1]
  }

  function Distance(a: string, b: string): nat
    decreases |a| + |b|
  {
    var m, n := |a|, |b|;
    if m == 0 then n
    else if n == 0 then m
    else
      Least(Distance(a[..m - 1], b), Distance(a, b[..n - 1]),
            Distance(a[..m - 1], b[..n - 1]) + Mismatch(a[m - 1], b[n - 1]),
            if Swapped(a, b) then Some(Distance(a[..m - 2], b[..n - 2])) else None)
  }

  /** The least of deleting, inserting, keeping or substituting, and swapping. */
  function Least(delete: nat, insert: nat, subst: nat, swap: Option<nat>): nat {
    var plain := Min(Min(delete + 1, insert + 1), subst);
    if swap.Some? then Min(plain, swap.value + 1) else plain
  }

  function Mismatch(x: char, y: char): nat {
    if x == y then 0 else 1
  }

  /** The distance is at most what each last edit costs. */
  lemma AtMost(a: string, b: string)
    ensures var m, n := |a|, |b|;
            && (m > 0 ==> Distance(a, b) <= Distance(a[..m - 1], b) + 1)
            && (n > 0 ==> Distance(a, b) <= Distance(a, b[..n - 1]) + 1)
            && (m > 0 && n > 0 ==>
                  Distance(a, b) <= Distance(a[..m - 1], b[..n - 1]) + Mismatch(a[m - 1], b[n - 1]))
            && (Swapped(a, b) ==> Distance(a, b) <= Distance(a[..m - 2], b[..n - 2]) + 1)
  {
  }

  /** No script is cheaper than the distance. */
  lemma {:induction false} DistanceIsLowerBound(script: seq<Edit>, a: string, b: string)
    requires Output(script, a) == Some(b)
    ensures Distance(a, b) <= Cost(script)
    decreases |script|
  {
    AtMost(a, b);
    if script == [] {
      assert a == "" && b == "";
    } else {
      hide Distance;
      var m, n, first := |a|, |b|, script[..|script| - 1];
      match script[|script| - 1]
      case Keep =>
        assert b[..n - 1] == Output(first, a[..m - 1]).value;
        DistanceIsLowerBound(first, a[..m - 1], b[..n - 1]);
      case Subst(c) =>
        assert b[..n - 1] == Output(first, a[..m - 1]).value;
        DistanceIsLowerBound(first, a[..m - 1], b[..n - 1]);
      case Insert(c) =>
        assert b[..n - 1] == Output(first, a).value;
        DistanceIsLowerBound(first, a, b[..n - 1]);
      case Delete =>
        DistanceIsLowerBound(first, a[..m - 1], b);
      case Swap =>
        assert b[..n - 2] == Output(first, a[..m - 2]).value;
        DistanceIsLowerBound(first, a[..m - 2], b[..n - 2]);
    }
  }

  /** One more edit at the end of a script. */
  lemma Extend(first: seq<Edit>, e: Edit, a: string)
    ensures Cost(first + [e]) == Cost(first) + if e.Keep? then 0 else 1
    ensures e.Keep? && a != "" ==>
              Output(first + [e], a) == Append(Output(first, a[..|a| - 1]), [a[|a| - 1]])
    ensures e.Subst? && a != "" ==> Output(first + [e], a) == Append(Output(first, a[..|a| - 1]), [e.c])
    ensures e.Insert? ==> Output(first + [e], a) == Append(Output(first, a), [e.c])
    ensures e.Delete? && a != "" ==> Output(first + [e], a) == Output(first, a[..|a| - 1])
    ensures e.Swap? && |a| > 1 ==>
              Output(first + [e], a) == Append(Output(first, a[..|a| - 2]), [a[|a| - 1], a[|a| - 2]])
  {
    var script := first + [e];
    assert script[..|script| - 1] == first && script[|script| - 1] == e;
  }

  /** Which neighbour the least distance comes from. */
  lemma LeastComesFrom(a: string, b: string)
    requires a != "" || b != ""
    ensures var m, n := |a|, |b|;
            || (n > 0 && Distance(a, b) == Distance(a, b[..n - 1]) + 1)
            || (m > 0 && Distance(a, b) == Distance(a[..m - 1], b) + 1)
            || (m > 0 && n > 0
                && Distance(a, b) == Distance(a[..m - 1], b[..n - 1]) + Mismatch(a[m - 1], b[n - 1]))
            || (Swapped(a, b) && Distance(a, b) == Distance(a[..m - 2], b[..n - 2]) + 1)
  {
  }

  lemma LastTwo(a: string, b: string)
    requires Swapped(a, b)
    ensures b == b[..|b| - 2] + [a[|a| - 1], a[|a| - 2]]
  {
  }

  /** Some script costs exactly the distance. */
  lemma {:induction false} DistanceIsAttained(a: string, b: string) returns (script: seq<Edit>)
    ensures Output(script, a) == Some(b) && Cost(script) == Distance(a, b)
    decreases |a| + |b|
  {
    var m, n := |a|, |b|;
    if m == 0 && n == 0 {
      return [];
    }
    LeastComesFrom(a, b);
    if n > 0 { assert b == b[..n - 1] + [b[n - 1]]; }
    hide Distance, Swapped, Output, Cost;
    if n > 0 && Distance(a, b) == Distance(a, b[..n - 1]) + 1 {
      script := DistanceIsAttained(a, b[..n - 1]);
      Extend(script, Insert(b[n - 1]), a);
      script := script + [Insert(b[n - 1])];
    } else if m > 0 && Distance(a, b) == Distance(a[..m - 1], b) + 1 {
      script := DistanceIsAttained(a[..m - 1], b);
      Extend(script, Delete, a);
      script := script + [Delete];
    } else if m > 0 && n > 0
              && Distance(a, b) == Distance(a[..m - 1], b[..n - 1]) + Mismatch(a[m - 1], b[n - 1]) {
      script := DistanceIsAttained(a[..m - 1], b[..n - 1]);
      var e := if a[m - 1] == b[n - 1] then Keep else Subst(b[n - 1]);
      Extend(script, e, a);
      script := script + [e];
    } else {
      assert Swapped(a, b);
      LastTwo(a, b);
      SwapLengths(a, b);
      script := DistanceIsAttained(a[..m - 2], b[..n - 2]);
      Extend(script, Swap, a);
      script := script + [Swap];
    }
  }

  lemma SwapLengths(a: string, b: string)
    requires Swapped(a, b)
    ensures |a| > 1 && |b| > 1
  {
  }

  /** The distance is the least cost of a script that turns `a` into `b`. */
  lemma DistanceIsLeastCost(a: string, b: string)
    ensures exists script :: Output(script, a) == Some(b) && Cost(script) == Distance(a, b)
    ensures forall script :: Output(script, a) == Some(b) ==> Distance(a, b) <= Cost(script)
  {
    var s := DistanceIsAttained(a, b);
    forall script | Output(script, a) == Some(b) ensures Distance(a, b) <= Cost(script) {
      DistanceIsLowerBound(script, a, b);
    }
  }

  lemma {:induction false} DistanceIsSymmetric(a: string, b: string)
    ensures Distance(a, b) == Distance(b, a)
    decreases |a| + |b|
  {
    var m, n := |a|, |b|;
    if m > 0 && n > 0 {
      DistanceIsSymmetric(a[..m - 1], b);
      DistanceIsSymmetric(a, b[..n - 1]);
      DistanceIsSymmetric(a[..m - 1], b[..n - 1]);
      if Swapped(a, b) { DistanceIsSymmetric(a[..m - 2], b[..n - 2]); }
    }
  }

  lemma {:induction false} ZeroIffEqual(a: string, b: string)
    ensures Distance(a, b) == 0 <==> a == b
    decreases |a| + |b|
  {
    var m, n := |a|, |b|;
    if m > 0 && n > 0 {
      ZeroIffEqual(a[..m - 1], b[..n - 1]);
      assert a == a[..m - 1] + [a[m - 1]] && b == b[..n - 1] + [b[n - 1]];
    }
  }

  lemma {:induction false} AtLeastLengthDifference(a: string, b: string)
    ensures Distance(a, b) >= |a| - |b| && Distance(a, b) >= |b| - |a|
    decreases |a| + |b|
  {
    var m, n := |a|, |b|;
    if m > 0 && n > 0 {
      AtLeastLengthDifference(a[..m - 1], b);
      AtLeastLengthDifference(a, b[..n - 1]);
      AtLeastLengthDifference(a[..m - 1], b[..n - 1]);
      if Swapped(a, b) { AtLeastLengthDifference(a[..m - 2], b[..n - 2]); }
    }
  }

  /** The table's cell (i, j): the distance of two prefixes. */
  function Prefixes(a: string, b: string, i: nat, j: nat): nat
    requires i <= |a| && j <= |b|
  {
    Distance(a[..i], b[..j])
  }

  predicate SwappedAt(a: string, b: string, i: nat, j: nat)
    requires 0 < i <= |a| && 0 < j <= |b|
  {
    i > 1 && j > 1 && a[i - 1] == b[j - 2] && a[i - 2] == b[j - 1]
  }

  /** One cell from its neighbours. */
  lemma Cell(a: string, b: string, i: nat, j: nat)
    requires 0 < i <= |a| && 0 < j <= |b|
    ensures Prefixes(a, b, i, j)
            == Least(Prefixes(a, b, i - 1, j), Prefixes(a, b, i, j - 1),
                     Prefixes(a, b, i - 1, j - 1) + Mismatch(a[i - 1], b[j - 1]),
                     if SwappedAt(a, b, i, j) then Some(Prefixes(a, b, i - 2, j - 2)) else None)
  {
    var x, y := a[..i], b[..j];
    hide Least, Mismatch;
    assert x[..i - 1] == a[..i - 1] && y[..j - 1] == b[..j - 1];
    assert Swapped(x, y) == SwappedAt(a, b, i, j);
    if SwappedAt(a, b, i, j) {
      assert x[..i - 2] == a[..i - 2] && y[..j - 2] == b[..j - 2];
    }
  }

  lemma Borders(a: string, b: string)
    ensures forall j :: 0 <= j <= |b| ==> Prefixes(a, b, 0, j) == j
    ensures forall i :: 0 <= i <= |a| ==> Prefixes(a, b, i, 0) == i
  {
  }

  /** The body of the table's inner loop. */
  method NextCell(a: string, b: string, dp: array2<nat>, i: nat, j: nat) returns (d: nat)
    requires 0 < i <= |a| && 0 < j <= |b| && dp.Length0 == |a| + 1 && dp.Length1 == |b| + 1
    requires dp[i - 1, j] == Prefixes(a, b, i - 1, j) && dp[i, j - 1] == Prefixes(a, b, i, j - 1)
    requires dp[i - 1, j - 1] == Prefixes(a, b, i - 1, j - 1)
    requires i > 1 && j > 1 ==> dp[i - 2, j - 2] == Prefixes(a, b, i - 2, j - 2)
    ensures d == Prefixes(a, b, i, j)
  {
    Cell(a, b, i, j);
    hide Distance, Prefixes;
    var cost := if a[i - 1] == b[j - 1] then 0 else 1;
    d := Min(Min(dp[i - 1, j] + 1, dp[i, j - 1] + 1), dp[i - 1, j - 1] + cost);
    if i > 1 && j > 1 && a[i - 1] == b[j - 2] && a[i - 2] == b[j - 1] {
      d := Min(d, dp[i - 2, j - 2] + 1);
    }
  }

  /** One row of the table. */
  method FillRow(a: string, b: string, dp: array2<nat>, i: nat)
    requires 0 < i <= |a| && dp.Length0 == |a| + 1 && dp.Length1 == |b| + 1
    requires forall x :: 0 <= x <= |a| ==> dp[x, 0] == Prefixes(a, b, x, 0)
    requires forall x, y :: 0 <= x < i && 0 <= y <= |b| ==> dp[x, y] == Prefixes(a, b, x, y)
    modifies dp
    ensures forall x :: 0 <= x <= |a| ==> dp[x, 0] == Prefixes(a, b, x, 0)
    ensures forall x, y :: 0 <= x <= i && 0 <= y <= |b| ==> dp[x, y] == Prefixes(a, b, x, y)
  {
    hide Distance, Prefixes;
    for j := 1 to |b| + 1
      invariant forall x :: 0 <= x <= |a| ==> dp[x, 0] == Prefixes(a, b, x, 0)
      invariant forall x, y :: 0 <= x < i && 0 <= y <= |b| ==> dp[x, y] == Prefixes(a, b, x, y)
      invariant forall y :: 0 <= y < j ==> dp[i, y] == Prefixes(a, b, i, y)
    {
      var d := NextCell(a, b, dp, i, j);
      dp[i, j] := d;
    }
  }

  /** Filling the table. */
  method DamerauLevenshtein(a: string, b: string) returns (d: nat)
    ensures d == Distance(a, b)
  {
    var m, n := |a|, |b|;
    var dp := new nat[m + 1, n + 1]((_, _) => 0);
    Borders(a, b);
    assert a[..m] == a && b[..n] == b && Prefixes(a, b, m, n) == Distance(a, b);
    hide Distance, Prefixes;
    for i := 0 to m + 1
      invariant forall x :: 0 <= x < i ==> dp[x, 0] == Prefixes(a, b, x, 0)
    {
      dp[i, 0] := i;
    }
    for j := 0 to n + 1
      invariant forall x :: 0 <= x <= m ==> dp[x, 0] == Prefixes(a, b, x, 0)
      invariant forall y :: 0 <= y < j ==> dp[0, y] == Prefixes(a, b, 0, y)
    {
      dp[0, j] := j;
    }
    for i := 1 to m + 1
      invariant forall x :: 0 <= x <= m ==> dp[x, 0] == Prefixes(a, b, x, 0)
      invariant forall x, y :: 0 <= x < i && 0 <= y <= n ==> dp[x, y] == Prefixes(a, b, x, y)
    {
      FillRow(a, b, dp, i);
    }
    return dp[m, n];
  }

  // The search.

  function MaxDistance(cmd: string): int {
    var third := |cmd| / 3 + 1;
    if 1 < third then third else 1
  }

  /** Close enough to be offered, and not the command itself; 999 is the search's initial best distance. */
  predicate Eligible(cmd: string, candidate: string) {
    0 < Distance(cmd, candidate) <= MaxDistance(cmd) && Distance(cmd, candidate) < 999
  }

  /** Candidate `k` is the first of those at the least distance. */
  predicate FirstNearest(cmd: string, candidates: seq<string>, k: nat) {
    && k < |candidates| && Eligible(cmd, candidates[k])
    && (forall j :: 0 <= j < |candidates| && Eligible(cmd, candidates[j]) ==>
          Distance(cmd, candidates[k]) <= Distance(cmd, candidates[j]))
    && (forall j :: 0 <= j < k && Eligible(cmd, candidates[j]) ==>
          Distance(cmd, candidates[k]) < Distance(cmd, candidates[j]))
  }

  /** The length filter drops no eligible candidate. */
  lemma FilterIsSound(cmd: string, candidate: string)
    ensures Eligible(cmd, candidate) ==> -MaxDistance(cmd) <= |candidate| - |cmd| <= MaxDistance(cmd)
    ensures !Eligible(cmd, cmd)
  {
    AtLeastLengthDifference(cmd, candidate);
    ZeroIffEqual(cmd, cmd);
  }

  /** Eligible are the names at a distance between 1 and a third of the length plus 1, below 999. */
  lemma EligibleIff(cmd: string, candidate: string)
    ensures Eligible(cmd, candidate) <==>
            1 <= Distance(cmd, candidate) <= |cmd| / 3 + 1 && Distance(cmd, candidate) <= 998
  {
    hide Distance;
  }

  /**
   The first nearest eligible candidate, and none exactly when no candidate is eligible. (Names of
   commands are never empty; an empty candidate found first would count as no suggestion.)
   */
  method SuggestCommand(cmd: string, candidates: seq<string>) returns (r: Option<string>)
    ensures r.Some? ==> r.value != "" && exists k: nat :: FirstNearest(cmd, candidates, k) && candidates[k] == r.value
    ensures r.None? ==> (forall k :: 0 <= k < |candidates| ==> !Eligible(cmd, candidates[k]))
                        || exists k: nat :: FirstNearest(cmd, candidates, k) && candidates[k] == ""
    ensures "" !in candidates ==>
              (r.None? <==> forall k :: 0 <= k < |candidates| ==> !Eligible(cmd, candidates[k]))
    ensures r.Some? ==> 1 <= Distance(cmd, r.value) <= |cmd| / 3 + 1 && Distance(cmd, r.value) <= 998
    ensures r.None? && "" !in candidates ==>
              forall k :: 0 <= k < |candidates| ==>
                var n := Distance(cmd, candidates[k]); n == 0 || n > |cmd| / 3 + 1 || n > 998
  {
    var best := "";
    var bestDist := 999;
    var maxDist := MaxDistance(cmd);
    ghost var at: int := -1;
    hide Distance, MaxDistance;
    for i := 0 to |candidates|
      invariant at == -1 ==> best == "" && bestDist == 999
      invariant at == -1 ==> forall j :: 0 <= j < i ==> !Eligible(cmd, candidates[j])
      invariant at != -1 ==> at >= 0 && FirstNearest(cmd, candidates[..i], at)
      invariant at != -1 ==> best == candidates[at] && bestDist == Distance(cmd, best)
    {
      var candidate := candidates[i];
      FilterIsSound(cmd, candidate);
      assert candidates[..i + 1] == candidates[..i] + [candidate];
      var lenDiff := |candidate| - |cmd|;
      if lenDiff > maxDist || lenDiff < -maxDist { continue; }
      var dist := DamerauLevenshtein(cmd, candidate);
      if dist < bestDist && dist > 0 && dist <= maxDist {
        bestDist := dist;
        best := candidate;
        at := i;
      }
    }
    assert candidates[..|candidates|] == candidates;
    forall k | 0 <= k < |candidates|
      ensures Eligible(cmd, candidates[k]) <==>
              1 <= Distance(cmd, candidates[k]) <= |cmd| / 3 + 1 && Distance(cmd, candidates[k]) <= 998
    {
      EligibleIff(cmd, candidates[k]);
    }
    if best == "" { return None; }
    return Some(best);
  }
}
