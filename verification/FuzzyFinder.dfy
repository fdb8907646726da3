/** The fuzzy scorer: the best-scoring way to find a query as a subsequence of a candidate. */
module FuzzyFinder {
  import opened Text

  const CONSECUTIVE_BONUS := 5
  const BOUNDARY_BONUS := 5
  const START_BONUS := 7
  const GAP_PENALTY := -1
  const BASE_MATCH := 1

  /** `tolower` in the C locale. */
  function Lower(c: char): char {
    if 'A' <= c <= 'Z' then (c as int + 32) as char else c
  }

  predicate EqualCi(a: char, b: char) {
    Lower(a) == Lower(b)
  }

  predicate IsSeparator(c: char) {
    c == ' ' || c == '-' || c == '_' || c == '/'
  }

  predicate IsBoundary(s: string, pos: nat)
    requires pos < |s|
  {
    pos == 0 || IsSeparator(s[pos - 1])
  }

  /** The score of matching at `j` when the previous match was at `prev`, -1 for none. */
  function Local(c: string, j: nat, prev: int): int
    requires j < |c|
  {
    var consecutive := prev >= 0 && prev == j - 1;
    BASE_MATCH
    + (if consecutive then CONSECUTIVE_BONUS else 0)
    + (if IsBoundary(c, j) then BOUNDARY_BONUS + (if j == 0 then START_BONUS else 0) else 0)
    + (if prev >= 0 && !IsBoundary(c, j) && !consecutive && j - prev - 1 > 0 then (j - prev - 1) * GAP_PENALTY
       else 0)
  }

  /** Where each character of a query is found: in order, ignoring case. */
  predicate Embedding(q: string, c: string, at: seq<nat>) {
    && |at| == |q|
    && (forall i :: 0 <= i < |at| ==> at[i] < |c| && EqualCi(q[i], c[at[i]]))
    && (forall i, k :: 0 <= i < k < |at| ==> at[i] < at[k])
  }

  /** The sum of the local scores of an embedding. */
  function Total(c: string, at: seq<nat>, prev: int): int
    requires forall i :: 0 <= i < |at| ==> at[i] < |c|
    decreases |at|
  {
    if at == [] then 0 else Local(c, at[0], prev) + Total(c, at[1..], at[0])
  }

  function Better(a: Option<int>, b: Option<int>): Option<int> {
    if a.None? then b
    else if b.None? then a
    else if a.value < b.value then b else a
  }

  function Plus(local: int, rest: Option<int>): Option<int> {
    if rest.None? then None else Some(local + rest.value)
  }

  /** The best total for `q[qi..]` in `c[j..]`; `None` stands for `INT_MIN`, "no path". */
  function Best(q: string, c: string, qi: nat, j: nat, prev: int): Option<int>
    requires qi <= |q|
    decreases |q| - qi, |c| - j
  {
    if qi == |q| then Some(0)
    else if j >= |c| then None
    else
      var later := Best(q, c, qi, j + 1, prev);
      if EqualCi(q[qi], c[j]) then Better(Plus(Local(c, j, prev), Best(q, c, qi + 1, j + 1, j)), later)
      else later
  }

  // `Best` is the maximum over all embeddings.

  /** `at` embeds `q[qi..]` into `c[j..]`. */
  predicate EmbedsFrom(q: string, c: string, qi: nat, j: nat, at: seq<nat>)
    requires qi <= |q|
    decreases |at|
  {
    && |at| == |q| - qi
    && (at != [] ==> j <= at[0] < |c| && EqualCi(q[qi], c[at[0]])
                     && EmbedsFrom(q, c, qi + 1, at[0] + 1, at[1..]))
  }

  lemma {:induction false} EmbedsInRange(q: string, c: string, qi: nat, j: nat, at: seq<nat>)
    requires qi <= |q| && EmbedsFrom(q, c, qi, j, at)
    ensures forall i :: 0 <= i < |at| ==> j <= at[i] < |c| && EqualCi(q[qi + i], c[at[i]])
    ensures forall i, k :: 0 <= i < k < |at| ==> at[i] < at[k]
    decreases |at|
  {
    if at != [] {
      EmbedsInRange(q, c, qi + 1, at[0] + 1, at[1..]);
      forall i | 0 <= i < |at| ensures j <= at[i] < |c| && EqualCi(q[qi + i], c[at[i]]) {
        if i > 0 { assert at[1..][i - 1] == at[i]; }
      }
      forall i, k | 0 <= i < k < |at| ensures at[i] < at[k] {
        assert at[1..][k - 1] == at[k];
        if i > 0 { assert at[1..][i - 1] == at[i]; }
      }
    }
  }

  lemma {:induction false} EmbeddingEmbeds(q: string, c: string, qi: nat, j: nat, at: seq<nat>)
    requires qi <= |q| && |at| == |q| - qi
    requires forall i :: 0 <= i < |at| ==> j <= at[i] < |c| && EqualCi(q[qi + i], c[at[i]])
    requires forall i, k :: 0 <= i < k < |at| ==> at[i] < at[k]
    ensures EmbedsFrom(q, c, qi, j, at)
    decreases |at|
  {
    if at != [] {
      assert forall i :: 0 <= i < |at[1..]| ==> at[1..][i] == at[i + 1] && q[qi + 1 + i] == q[qi + (i + 1)];
      EmbeddingEmbeds(q, c, qi + 1, at[0] + 1, at[1..]);
    }
  }

  lemma {:induction false} BestBounds(q: string, c: string, qi: nat, j: nat, prev: int, at: seq<nat>)
    requires qi <= |q| && EmbedsFrom(q, c, qi, j, at)
    requires forall i :: 0 <= i < |at| ==> at[i] < |c|
    ensures Best(q, c, qi, j, prev).Some? && Total(c, at, prev) <= Best(q, c, qi, j, prev).value
    decreases |q| - qi, |c| - j
  {
    hide Local;
    if qi < |q| {
      if at[0] == j {
        assert forall i :: 0 <= i < |at[1..]| ==> at[1..][i] == at[i + 1];
        BestBounds(q, c, qi + 1, j + 1, j, at[1..]);
      } else {
        BestBounds(q, c, qi, j + 1, prev, at);
      }
    }
  }

  lemma {:induction false} BestAttained(q: string, c: string, qi: nat, j: nat, prev: int) returns (at: seq<nat>)
    requires qi <= |q| && Best(q, c, qi, j, prev).Some?
    ensures EmbedsFrom(q, c, qi, j, at) && (forall i :: 0 <= i < |at| ==> at[i] < |c|)
    ensures Total(c, at, prev) == Best(q, c, qi, j, prev).value
    decreases |q| - qi, |c| - j
  {
    hide Local;
    if qi == |q| {
      at := [];
    } else if EqualCi(q[qi], c[j])
              && Best(q, c, qi, j, prev) == Plus(Local(c, j, prev), Best(q, c, qi + 1, j + 1, j)) {
      var rest := BestAttained(q, c, qi + 1, j + 1, j);
      at := [j] + rest;
      assert at[1..] == rest;
    } else {
      at := BestAttained(q, c, qi, j + 1, prev);
    }
  }

  ghost predicate HasEmbedding(q: string, c: string) {
    exists at: seq<nat> :: Embedding(q, c, at)
  }

  /** `solve(0, 0, -1)` is the maximum over all embeddings, and "no path" exactly when there is none. */
  lemma BestIsMaximum(q: string, c: string)
    ensures Best(q, c, 0, 0, -1).Some? <==> exists at: seq<nat> :: Embedding(q, c, at)
    ensures forall at: seq<nat> :: Embedding(q, c, at) ==> Total(c, at, -1) <= Best(q, c, 0, 0, -1).value
    ensures Best(q, c, 0, 0, -1).Some? ==>
              exists at: seq<nat> :: Embedding(q, c, at) && Total(c, at, -1) == Best(q, c, 0, 0, -1).value
  {
    forall at: seq<nat> | Embedding(q, c, at)
      ensures Best(q, c, 0, 0, -1).Some? && Total(c, at, -1) <= Best(q, c, 0, 0, -1).value
    {
      EmbeddingEmbeds(q, c, 0, 0, at);
      BestBounds(q, c, 0, 0, -1, at);
    }
    if Best(q, c, 0, 0, -1).Some? {
      var at := BestAttained(q, c, 0, 0, -1);
      EmbedsInRange(q, c, 0, 0, at);
      assert Embedding(q, c, at);
    }
  }

  /** Too little room left: the two early exits of the scorer lose nothing. */
  lemma {:induction false} NoRoom(q: string, c: string, qi: nat, j: nat, prev: int)
    requires qi < |q| && |c| - j < |q| - qi
    ensures Best(q, c, qi, j, prev).None?
    decreases |q| - qi, |c| - j
  {
    hide Local, EqualCi;
    if j < |c| {
      NoRoom(q, c, qi, j + 1, prev);
      assert qi + 1 < |q|;
      NoRoom(q, c, qi + 1, j + 1, j);
    }
  }

  /** One position of the scorer's loop. */
  lemma BestStep(q: string, c: string, qi: nat, j: nat, prev: int, best: Option<int>)
    requires qi < |q| && j < |c|
    ensures Better(best, Best(q, c, qi, j, prev))
            == if EqualCi(q[qi], c[j])
               then Better(Better(best, Plus(Local(c, j, prev), Best(q, c, qi + 1, j + 1, j))),
                           Best(q, c, qi, j + 1, prev))
               else Better(best, Best(q, c, qi, j + 1, prev))
  {
    hide Local, EqualCi;
  }

  /** `ScorerState::solve`. */
  method Solve(q: string, c: string, qi: nat, ci: nat, prev: int) returns (best: Option<int>)
    requires qi <= |q|
    ensures best == Best(q, c, qi, ci, prev)
    decreases |q| - qi
  {
    if qi == |q| { return Some(0); }
    if ci >= |c| { return None; }
    if |c| - ci < |q| - qi {
      NoRoom(q, c, qi, ci, prev);
      return None;
    }
    best := None;
    var j := ci;
    hide Best, EqualCi;
    while j < |c|
      invariant ci <= j <= |c|
      invariant Better(best, Best(q, c, qi, j, prev)) == Best(q, c, qi, ci, prev)
    {
      if |c| - j < |q| - qi {
        NoRoom(q, c, qi, j, prev);
        return;
      }
      BestStep(q, c, qi, j, prev, best);
      if EqualCi(q[qi], c[j]) {
        var local := BASE_MATCH;
        var consecutive := prev >= 0 && prev == j - 1;
        var atBoundary := IsBoundary(c, j);
        if consecutive {
          local := local + CONSECUTIVE_BONUS;
        }
        if atBoundary {
          local := local + BOUNDARY_BONUS;
          if j == 0 { local := local + START_BONUS; }
        }
        if prev >= 0 && !atBoundary && !consecutive {
          var gap := j - prev - 1;
          if gap > 0 { local := local + gap * GAP_PENALTY; }
        }
        assert local == Local(c, j, prev);
        var rest := Solve(q, c, qi + 1, j + 1, j);
        if rest.Some? {
          var total := local + rest.value;
          if best.None? || total > best.value { best := Some(total); }
        }
      }
      j := j + 1;
    }
    NoRoom(q, c, qi, j, prev);
  }

  // The table keyed on (qi, ci).

  /** A call of `solve`, and the calls one call makes. */
  datatype Call = Call(qi: nat, ci: nat, prev: int)

  predicate Calls(q: string, c: string, a: Call, b: Call) {
    a.qi < |q| && b.qi == a.qi + 1
    && exists j: nat :: a.ci <= j < |c| && EqualCi(q[a.qi], c[j]) && b == Call(b.qi, j + 1, j)
  }

  /** Every call reached from `solve(0, 0, -1)` has its previous match just before `ci`. */
  lemma ReachedCallsAreKeyed(q: string, c: string, run: seq<Call>)
    requires |run| > 0 && run[0] == Call(0, 0, -1)
    requires forall i :: 0 <= i < |run| - 1 ==> Calls(q, c, run[i], run[i + 1])
    ensures forall i :: 0 <= i < |run| ==> run[i].prev == run[i].ci - 1
  {
    forall i | 0 <= i < |run| ensures run[i].prev == run[i].ci - 1 {
      if i > 0 { assert Calls(q, c, run[i - 1], run[i - 1 + 1]); }
    }
  }

  /** The scorer with the table its comment describes: one entry per (query index, candidate index). */
  class ScorerState {
    const query: string
    const candidate: string
    var memo: map<Key, Option<int>>
    /** How many calls were not answered from the table. */
    ghost var loops: nat

    constructor (query: string, candidate: string)
      ensures this.query == query && this.candidate == candidate && memo == map[] && Valid()
    {
      this.query, this.candidate, memo, loops := query, candidate, map[], 0;
    }

    ghost predicate Valid()
      reads this
    {
      loops == |memo| && TableHolds(query, candidate, memo)
    }

    /**
     Looking a call up under (qi, ci), whatever its `prev`, gives the score of the plain recursion.
     New keys lie at or below the call.
     */
    method Solve(qi: nat, ci: nat, prev: int) returns (best: Option<int>)
      requires Valid() && qi <= |query| && ci <= |candidate| && prev == ci - 1
      modifies `memo, `loops
      ensures Valid() && best == Best(query, candidate, qi, ci, prev)
      ensures NewKeysFrom(old(memo), memo, qi)
      decreases |query| - qi, 1
    {
      var key := Key(qi, ci);
      hide TableHolds, Best, NewKeysFrom;
      NoNewKeys(memo, qi);
      if key in memo {
        TableGives(query, candidate, memo, key);
        return memo[key];
      }
      best := Loop(qi, ci, prev);
      OneNewKey(old(memo), memo, key, best);
      TableExtends(query, candidate, memo, key);
      TableGrows(memo, key, best);
      loops := loops + 1;
      memo := memo[key := best];
    }

    /** A call that is not in the table. */
    method Loop(qi: nat, ci: nat, prev: int) returns (best: Option<int>)
      requires Valid() && qi <= |query| && ci <= |candidate| && prev == ci - 1
      modifies `memo, `loops
      ensures Valid() && best == Best(query, candidate, qi, ci, prev)
      ensures NewKeysFrom(old(memo), memo, qi + 1)
      decreases |query| - qi, 0
    {
      BestAtEnds(query, candidate, prev);
      hide EqualCi, Local, TableHolds, Better, Plus, Best, NewKeysFrom;
      NoNewKeys(memo, qi + 1);
      if qi == |query| {
        return Some(0);
      }
      best := None;
      var j := ci;
      NothingYet(Best(query, candidate, qi, ci, prev));
      while j < |candidate|
        invariant ci <= j <= |candidate| && Valid()
        invariant Better(best, Best(query, candidate, qi, j, prev)) == Best(query, candidate, qi, ci, prev)
        invariant NewKeysFrom(old(memo), memo, qi + 1)
      {
        BestStep(query, candidate, qi, j, prev, best);
        if EqualCi(query[qi], candidate[j]) {
          ghost var now := memo;
          var rest := Solve(qi + 1, j + 1, j);
          MoreNewKeys(old(memo), now, memo, qi + 1);
          best := Better(best, Plus(Local(candidate, j, prev), rest));
        }
        j := j + 1;
      }
      NothingYet(best);
    }

    /** The cost: never more loops than there are keys. */
    lemma LoopsAreBounded()
      requires Valid()
      ensures loops <= (|query| + 1) * (|candidate| + 1)
    {
      KeysAreFew(memo.Keys, |query|, |candidate|);
    }
  }

  /** An index into the query and one into the candidate. */
  datatype Key = Key(qi: nat, ci: nat)

  predicate InRange(q: string, c: string, k: Key) {
    k.qi <= |q| && k.ci <= |c|
  }

  function KeyScore(q: string, c: string, k: Key): Option<int>
    requires InRange(q, c, k)
  {
    Best(q, c, k.qi, k.ci, k.ci - 1)
  }

  /** Every entry is the score of its key. */
  predicate TableHolds(q: string, c: string, memo: map<Key, Option<int>>) {
    forall k :: k in memo ==> InRange(q, c, k) && memo[k] == KeyScore(q, c, k)
  }

  predicate NewKeysFrom(before: map<Key, Option<int>>, after: map<Key, Option<int>>, qi: nat) {
    forall k :: k in after && k !in before ==> k.qi >= qi
  }

  lemma TableExtends(q: string, c: string, memo: map<Key, Option<int>>, k: Key)
    requires TableHolds(q, c, memo) && InRange(q, c, k) && k !in memo
    ensures TableHolds(q, c, memo[k := KeyScore(q, c, k)])
  {
    hide KeyScore, InRange;
  }

  lemma TableGives(q: string, c: string, memo: map<Key, Option<int>>, k: Key)
    requires TableHolds(q, c, memo) && k in memo
    ensures k.qi <= |q| && memo[k] == Best(q, c, k.qi, k.ci, k.ci - 1)
  {
  }

  lemma NoNewKeys(memo: map<Key, Option<int>>, qi: nat)
    ensures NewKeysFrom(memo, memo, qi)
  {
  }

  lemma MoreNewKeys(a: map<Key, Option<int>>, b: map<Key, Option<int>>, c: map<Key, Option<int>>, qi: nat)
    requires NewKeysFrom(a, b, qi) && NewKeysFrom(b, c, qi)
    ensures NewKeysFrom(a, c, qi)
  {
  }

  /** A key above all new ones was not among them. */
  lemma OneNewKey(before: map<Key, Option<int>>, after: map<Key, Option<int>>, k: Key, v: Option<int>)
    requires NewKeysFrom(before, after, k.qi + 1) && k !in before
    ensures k !in after && NewKeysFrom(before, after[k := v], k.qi)
  {
  }

  lemma BestAtEnds(q: string, c: string, prev: int)
    ensures forall j: nat :: Best(q, c, |q|, j, prev) == Some(0)
    ensures forall qi: nat :: qi < |q| ==> Best(q, c, qi, |c|, prev) == None
  {
  }

  lemma NothingYet(best: Option<int>)
    ensures Better(None, best) == best && Better(best, None) == best
  {
  }

  lemma TableGrows(memo: map<Key, Option<int>>, k: Key, v: Option<int>)
    requires k !in memo
    ensures |memo[k := v]| == |memo| + 1
  {
    assert memo[k := v].Keys == memo.Keys + {k};
  }

  lemma {:induction false} RowIsShort(keys: set<Key>, qi: nat, n: nat)
    requires forall k :: k in keys ==> k.qi == qi && k.ci <= n
    ensures |keys| <= n + 1
    decreases n
  {
    var rest := keys - {Key(qi, n)};
    assert |keys| <= |rest| + 1;
    if n == 0 {
      assert rest == {};
    } else {
      RowIsShort(rest, qi, n - 1);
    }
  }

  lemma {:induction false} KeysAreFew(keys: set<Key>, m: nat, n: nat)
    requires forall k :: k in keys ==> k.qi <= m && k.ci <= n
    ensures |keys| <= (m + 1) * (n + 1)
    decreases m
  {
    var row := set k | k in keys && k.qi == m;
    var rest := keys - row;
    assert keys == row + rest;
    RowIsShort(row, m, n);
    if m == 0 {
      assert rest == {};
    } else {
      KeysAreFew(rest, m - 1, n);
      assert (m + 1) * (n + 1) == m * (n + 1) + (n + 1);
    }
  }

  // The range of the totals, and the published score.

  lemma {:induction false} TotalRange(c: string, at: seq<nat>, prev: int)
    requires prev >= -1
    requires forall i :: 0 <= i < |at| ==> prev < at[i] < |c|
    requires forall i, k :: 0 <= i < k < |at| ==> at[i] < at[k]
    ensures at != [] ==> Total(c, at, prev) >= prev + 1 - |c|
    ensures Total(c, at, prev) <= 11 * |at| + (if at != [] && at[0] == 0 then 7 else 0)
    decreases |at|
  {
    if at != [] {
      assert forall i :: 0 <= i < |at[1..]| ==> at[1..][i] == at[i + 1];
      TotalRange(c, at[1..], at[0]);
      assert Local(c, at[0], prev) >= prev + 1 - at[0];
      assert Local(c, at[0], prev) <= if at[0] == 0 then 18 else 11;
    }
  }

  /** No total is `INT_MIN` for candidates shorter than 2^31, so the sentinel is never a score. */
  lemma ScoreRange(q: string, c: string)
    requires Best(q, c, 0, 0, -1).Some?
    ensures -|c| <= Best(q, c, 0, 0, -1).value <= 11 * |q| + 7
  {
    BestIsMaximum(q, c);
    var at: seq<nat> :| Embedding(q, c, at) && Total(c, at, -1) == Best(q, c, 0, 0, -1).value;
    TotalRange(c, at, -1);
  }

  /**
   Positive exactly on the candidates that contain the query as a subsequence; there, the best
   total, raised to 1.
   */
  method FuzzyScore(query: string, candidate: string) returns (score: int)
    ensures score == Score(query, candidate) && score >= 0
    ensures score > 0 <==> HasEmbedding(query, candidate)
    ensures query != "" && score > 0 ==>
              (exists at: seq<nat> :: Embedding(query, candidate, at)
                                      && score == if Total(candidate, at, -1) < 1 then 1 else Total(candidate, at, -1))
    ensures query != "" ==>
              forall at: seq<nat> :: Embedding(query, candidate, at) ==> Total(candidate, at, -1) <= score
  {
    BestIsMaximum(query, candidate);
    if query == "" {
      assert Embedding(query, candidate, []);
      return 1;
    }
    if candidate == "" {
      NoRoom(query, candidate, 0, 0, -1);
      return 0;
    }
    if |query| > |candidate| {
      NoRoom(query, candidate, 0, 0, -1);
      return 0;
    }
    var result := Solve(query, candidate, 0, 0, -1);
    if result.None? { return 0; }
    return if result.value < 1 then 1 else result.value;
  }

  /** What `fuzzy_score` returns. */
  function Score(query: string, candidate: string): int {
    if query == "" then 1
    else if Best(query, candidate, 0, 0, -1).None? then 0
    else if Best(query, candidate, 0, 0, -1).value < 1 then 1
    else Best(query, candidate, 0, 0, -1).value
  }

  datatype FuzzyResult = FuzzyResult(text: string, score: int)

  /** May stand before: a higher score, or the same score and a text that is no longer. */
  predicate MayPrecede(a: FuzzyResult, b: FuzzyResult) {
    a.score > b.score || (a.score == b.score && |a.text| <= |b.text|)
  }

  predicate Ranked(s: seq<FuzzyResult>) {
    forall i, k :: 0 <= i < k < |s| ==> MayPrecede(s[i], s[k])
  }

  /** The candidates with a positive score, in their own order. */
  function Matching(query: string, candidates: seq<string>): seq<FuzzyResult> {
    if candidates == [] then []
    else
      var last := candidates[|candidates| - 1];
      Matching(query, candidates[..|candidates| - 1])
      + if Score(query, last) > 0 then [FuzzyResult(last, Score(query, last))] else []
  }

  lemma {:induction false} MatchingIsExact(query: string, candidates: seq<string>, r: FuzzyResult)
    ensures r in Matching(query, candidates) <==>
              r.text in candidates && HasEmbedding(query, r.text) && r.score == Score(query, r.text)
  {
    ScoreIsPositive(query, r.text);
    if candidates != [] {
      var rest := candidates[..|candidates| - 1];
      var last := candidates[|candidates| - 1];
      assert candidates == rest + [last];
      MatchingIsExact(query, rest, r);
    }
  }

  lemma ScoreIsPositive(query: string, candidate: string)
    ensures Score(query, candidate) > 0 <==> HasEmbedding(query, candidate)
  {
    BestIsMaximum(query, candidate);
    if query == "" { assert Embedding(query, candidate, []); }
  }

  lemma InsertedElements<T>(s: seq<T>, k: nat, x: T)
    requires k <= |s|
    ensures multiset(s[..k] + [x] + s[k..]) == multiset(s) + multiset{x}
  {
    assert s == s[..k] + s[k..];
  }

  lemma InsertedRanked(s: seq<FuzzyResult>, k: nat, x: FuzzyResult)
    requires Ranked(s) && k <= |s|
    requires k > 0 ==> MayPrecede(s[k - 1], x)
    requires forall j :: k <= j < |s| ==> MayPrecede(x, s[j])
    ensures Ranked(s[..k] + [x] + s[k..])
  {
    var r := s[..k] + [x] + s[k..];
    forall i, j | 0 <= i < j < |r| ensures MayPrecede(r[i], r[j]) {
      assert i < k ==> r[i] == s[i];
      assert i > k ==> r[i] == s[i - 1];
      assert j < k ==> r[j] == s[j];
      assert j > k ==> r[j] == s[j - 1];
      assert i < k - 1 ==> MayPrecede(s[i], s[k - 1]);
    }
  }

  /** Insertion into a ranked list; how equals are ordered is not fixed by `std::sort`. */
  method Insert(s: seq<FuzzyResult>, x: FuzzyResult) returns (r: seq<FuzzyResult>)
    requires Ranked(s)
    ensures Ranked(r) && multiset(r) == multiset(s) + multiset{x}
  {
    var k := |s|;
    while k > 0 && !MayPrecede(s[k - 1], x)
      invariant 0 <= k <= |s|
      invariant forall j :: k <= j < |s| ==> MayPrecede(x, s[j])
    {
      k := k - 1;
    }
    InsertedElements(s, k, x);
    InsertedRanked(s, k, x);
    hide Ranked;
    r := s[..k] + [x] + s[k..];
  }

  /** `scored` is the ranked form of the matches among `candidates`. */
  predicate RankedMatches(scored: seq<FuzzyResult>, query: string, candidates: seq<string>) {
    Ranked(scored) && multiset(scored) == multiset(Matching(query, candidates))
  }

  method AddCandidate(query: string, c: string, scored: seq<FuzzyResult>, ghost before: seq<string>)
    returns (r: seq<FuzzyResult>)
    requires RankedMatches(scored, query, before)
    ensures RankedMatches(r, query, before + [c])
  {
    var s := FuzzyScore(query, c);
    hide Score, Ranked, HasEmbedding, Embedding, Total;
    assert (before + [c])[..|before|] == before;
    if s > 0 {
      r := Insert(scored, FuzzyResult(c, s));
    } else {
      r := scored;
      assert Matching(query, before) + [] == Matching(query, before);
    }
  }

  lemma RankedSize(scored: seq<FuzzyResult>, query: string, candidates: seq<string>)
    requires RankedMatches(scored, query, candidates)
    ensures |scored| == |Matching(query, candidates)|
  {
    assert |multiset(scored)| == |multiset(Matching(query, candidates))|;
  }

  lemma NothingMatchesNothing(query: string)
    ensures RankedMatches([], query, [])
  {
  }

  /**
   The ranked matches, cut to the best `maxResults` when there are more: nothing dropped ranks
   strictly before anything kept.
   */
  method FuzzyFilter(query: string, candidates: seq<string>, maxResults: int) returns (r: seq<FuzzyResult>)
    ensures exists dropped :: RankedMatches(r + dropped, query, candidates)
    ensures |r| == if 0 < maxResults < |Matching(query, candidates)| then maxResults
                   else |Matching(query, candidates)|
  {
    var scored: seq<FuzzyResult> := [];
    NothingMatchesNothing(query);
    hide RankedMatches, Matching;
    assert candidates[..0] == [];
    var i := 0;
    while i < |candidates|
      invariant 0 <= i <= |candidates|
      invariant RankedMatches(scored, query, candidates[..i])
    {
      assert candidates[..i + 1] == candidates[..i] + [candidates[i]];
      scored := AddCandidate(query, candidates[i], scored, candidates[..i]);
      i := i + 1;
    }
    assert candidates[..i] == candidates;
    RankedSize(scored, query, candidates);
    if 0 < maxResults < |scored| {
      r := scored[..maxResults];
      assert scored == r + scored[maxResults..];
    } else {
      r := scored;
      assert scored == r + [];
    }
  }

  /** In a ranked list scores do not grow, and among equal scores lengths do not shrink. */
  lemma RankedIs(s: seq<FuzzyResult>, i: nat, k: nat)
    requires Ranked(s) && i < k < |s|
    ensures s[i].score >= s[k].score && (s[i].score == s[k].score ==> |s[i].text| <= |s[k].text|)
  {
    assert MayPrecede(s[i], s[k]);
  }

  // Letters and numbers, spelled out.

  /** The same letter, or one the small form of the other. */
  predicate SameLetter(a: char, b: char) {
    var x, y := a as int, b as int;
    x == y || (65 <= x <= 90 && y == x + 32) || (65 <= y <= 90 && x == y + 32)
  }

  predicate SameLetters(a: string, b: string) {
    |a| == |b| && forall i :: 0 <= i < |a| ==> SameLetter(a[i], b[i])
  }

  lemma EqualCiIff(a: char, b: char)
    ensures EqualCi(a, b) <==> SameLetter(a, b)
  {
  }

  /**
   1 for a match; 5 more right after the previous one; 5 more at a word's start and 12 at the text's;
   1 off per gap.
   */
  lemma LocalIs(c: string, j: nat, prev: int)
    requires j < |c| && -1 <= prev < j
    ensures var start := j > 0 && c[j - 1] in {' ', '-', '_', '/'};
            Local(c, j, prev) ==
            1 + (if prev >= 0 && prev + 1 == j then 5 else 0) + (if j == 0 then 12 else if start then 5 else 0)
            - (if prev >= 0 && prev + 1 < j && !start then j - prev - 1 else 0)
  {
  }

  lemma {:induction false} BestIgnoresCase(q: string, c: string, r: string, d: string, qi: nat, j: nat, prev: int)
    requires SameLetters(q, r) && SameLetters(c, d) && qi <= |q| && -1 <= prev < j
    ensures Best(q, c, qi, j, prev) == Best(r, d, qi, j, prev)
    decreases |q| - qi, |c| - j
  {
    hide Local, EqualCi;
    if qi < |q| && j < |c| {
      BestIgnoresCase(q, c, r, d, qi, j + 1, prev);
      BestIgnoresCase(q, c, r, d, qi + 1, j + 1, j);
      LocalIs(c, j, prev);
      LocalIs(d, j, prev);
      EqualCiIff(q[qi], c[j]);
      EqualCiIff(r[qi], d[j]);
      if j > 0 { assert SameLetter(c[j - 1], d[j - 1]); }
      assert SameLetter(q[qi], r[qi]) && SameLetter(c[j], d[j]);
    }
  }

  /** Writing letters of the query or of the candidate large or small does not change the score. */
  lemma ScoreIgnoresCase(q: string, c: string, r: string, d: string)
    requires SameLetters(q, r) && SameLetters(c, d)
    ensures Score(q, c) == Score(r, d)
  {
    BestIgnoresCase(q, c, r, d, 0, 0, -1);
  }
}
