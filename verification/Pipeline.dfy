/** The descriptor wiring of `execute_pipeline`: pipes, forks, `dup2` and the closing loops. */
module Pipeline {
  import opened Descriptors
  import opened BuiltinRedirection

  /** No descriptor of pipe number `base` or later is open. */
  predicate NoPipesFrom(t: Table, base: nat) {
    forall fd :: fd in t ==>
      !(t[fd].PipeRead? && t[fd].pipe >= base) && !(t[fd].PipeWrite? && t[fd].pipe >= base)
  }

  /** The table stage `i` of `n` should end with: pipes number `base + 0 .. base + n - 2`. */
  function StageTable(t: Table, i: nat, n: nat, base: nat): Table {
    var wired := if i > 0 then t[0 := PipeRead(base + i - 1)] else t;
    if i + 1 < n then wired[1 := PipeWrite(base + i)] else wired
  }

  function EndSet(ends: seq<nat>): set<nat> {
    set j | 0 <= j < |ends| :: ends[j]
  }

  /** `now` is `before` plus the two ends of each pipe, kept in `ends` as `pipefds` keeps them. */
  ghost predicate PipesMade(before: Table, now: Table, ends: seq<nat>, base: nat) {
    && |ends| % 2 == 0
    && (forall j :: 0 <= j < |ends| ==> ends[j] !in before && ends[j] in now)
    && (forall j :: 0 <= j < |ends| ==>
          now[ends[j]] == if j % 2 == 0 then PipeRead(base + j / 2) else PipeWrite(base + j / 2))
    && now.Keys == before.Keys + EndSet(ends)
    && (forall fd :: fd in before ==> now[fd] == before[fd])
  }

  /** The closing loop. */
  method CloseAll(p: Process, ends: seq<nat>)
    modifies p
    ensures p.fds == old(p.fds) - EndSet(ends)
  {
    var j := 0;
    while j < |ends|
      invariant 0 <= j <= |ends|
      invariant p.fds == old(p.fds) - EndSet(ends[..j])
    {
      p.Close(ends[j]);
      assert EndSet(ends[..j + 1]) == EndSet(ends[..j]) + {ends[j]} by { EndSetSnoc(ends, j); }
      j := j + 1;
    }
    assert ends[..j] == ends;
  }

  lemma EndSetSnoc(ends: seq<nat>, j: nat)
    requires j < |ends|
    ensures EndSet(ends[..j + 1]) == EndSet(ends[..j]) + {ends[j]}
  {
    forall x | x in EndSet(ends[..j]) + {ends[j]} ensures x in EndSet(ends[..j + 1]) {
      if x == ends[j] {
        assert ends[..j + 1][j] == x;
      } else {
        var k :| 0 <= k < j && ends[..j][k] == x;
        assert ends[..j + 1][k] == x;
      }
    }
    forall x | x in EndSet(ends[..j + 1]) ensures x in EndSet(ends[..j]) + {ends[j]} {
      var k :| 0 <= k < j + 1 && ends[..j + 1][k] == x;
      if k < j { assert ends[..j][k] == x; }
    }
  }

  lemma EndSetPair(ends: seq<nat>, r: nat, w: nat)
    ensures EndSet(ends + [r, w]) == EndSet(ends) + {r, w}
  {
    var all := ends + [r, w];
    EndSetSnoc(all, |ends|);
    EndSetSnoc(all, |ends| + 1);
    assert all[..|ends|] == ends && all[..|ends| + 2] == all;
  }

  lemma PipeAdded(before: Table, now: Table, ends: seq<nat>, base: nat, r: nat, w: nat)
    requires PipesMade(before, now, ends, base)
    requires r != w && r !in now && w !in now
    ensures PipesMade(before, now[r := PipeRead(base + |ends| / 2)][w := PipeWrite(base + |ends| / 2)],
                      ends + [r, w], base)
  {
    var all := ends + [r, w];
    var later := now[r := PipeRead(base + |ends| / 2)][w := PipeWrite(base + |ends| / 2)];
    EndSetPair(ends, r, w);
    hide EndSet;
    assert later.Keys == before.Keys + EndSet(all);
    forall j | 0 <= j < |all|
      ensures all[j] !in before && all[j] in later
      ensures later[all[j]] == if j % 2 == 0 then PipeRead(base + j / 2) else PipeWrite(base + j / 2)
    {
      if j < |ends| {
        assert all[j] == ends[j];
      } else if j == |ends| {
        assert all[j] == r;
      } else {
        assert all[j] == w;
      }
    }
  }

  /** Closing the pipe ends after the `dup2` calls leaves exactly the stage's table. */
  lemma StageIsWired(before: Table, now: Table, ends: seq<nat>, base: nat, i: nat, n: nat)
    requires StandardOpen(before) && i < n && |ends| == 2 * (n - 1)
    requires PipesMade(before, now, ends, base)
    ensures var a := if i > 0 then now[0 := now[ends[2 * (i - 1)]]] else now;
            var b := if i + 1 < n then a[1 := a[ends[2 * i + 1]]] else a;
            b - EndSet(ends) == StageTable(before, i, n, base)
  {
    var a := if i > 0 then now[0 := now[ends[2 * (i - 1)]]] else now;
    var b := if i + 1 < n then a[1 := a[ends[2 * i + 1]]] else a;
    if i > 0 { assert now[ends[2 * (i - 1)]] == PipeRead(base + (i - 1)); }
    if i + 1 < n { assert now[ends[2 * i + 1]] == PipeWrite(base + i); }
    assert forall fd :: fd in EndSet(ends) ==> fd !in before;
    assert b.Keys - EndSet(ends) == before.Keys;
  }

  /** The parent's closing loop undoes every `pipe` call. */
  lemma ParentIsRestored(before: Table, now: Table, ends: seq<nat>, base: nat)
    requires PipesMade(before, now, ends, base)
    ensures now - EndSet(ends) == before
  {
    assert forall fd :: fd in EndSet(ends) ==> fd !in before;
    assert now.Keys - EndSet(ends) == before.Keys;
  }

  /** What a child does with its copy of the table before running its command. */
  method WireStage(child: Process, pipefds: seq<nat>, i: nat, n: nat, ghost before: Table, base: nat)
    requires StandardOpen(before) && i < n && |pipefds| == 2 * (n - 1)
    requires PipesMade(before, child.fds, pipefds, base)
    modifies child
    ensures child.fds == StageTable(before, i, n, base)
  {
    StageIsWired(before, child.fds, pipefds, base, i, n);
    hide EndSet, StageTable;
    if i > 0 {
      child.Dup2(pipefds[2 * (i - 1)], 0);
    }
    if i < n - 1 {
      child.Dup2(pipefds[2 * i + 1], 1);
    }
    CloseAll(child, pipefds);
  }

  /**
   In the wired tables pipe `k` has one writer, descriptor 1 of stage `k`, and one reader,
   descriptor 0 of stage `k + 1`; the parent holds neither end of any.
   */
  lemma OneWriterOneReader(t: Table, n: nat, base: nat, i: nat, fd: nat, k: nat)
    requires n >= 1 && i < n && k + 1 < n && NoPipesFrom(t, base) && StandardOpen(t)
    ensures var s := StageTable(t, i, n, base);
            && ((fd in s && s[fd] == PipeWrite(base + k)) <==> (i == k && fd == 1))
            && ((fd in s && s[fd] == PipeRead(base + k)) <==> (i == k + 1 && fd == 0))
    ensures !(fd in t && (t[fd] == PipeWrite(base + k) || t[fd] == PipeRead(base + k)))
  {
    var s := StageTable(t, i, n, base);
    if fd in s && fd in t && s[fd] == t[fd] {
      assert !(t[fd].PipeRead? && t[fd].pipe >= base) && !(t[fd].PipeWrite? && t[fd].pipe >= base);
    }
  }

  /** A stage keeps every descriptor it inherited, apart from its two wired ends. */
  lemma StageKeepsTheRest(t: Table, n: nat, base: nat, i: nat, fd: nat)
    requires i < n && StandardOpen(t)
    requires !(fd == 0 && i > 0) && !(fd == 1 && i + 1 < n)
    ensures var s := StageTable(t, i, n, base);
            (fd in s <==> fd in t) && (fd in t ==> s[fd] == t[fd])
  {
  }

  /** A stage with its redirections, which are applied after the wiring and so override it. */
  method SetUpStage(child: Process, pipefds: seq<nat>, i: nat, n: nat, redirections: seq<Redir>,
                    ghost before: Table, base: nat) returns (exited: bool)
    requires StandardOpen(before) && i < n && |pipefds| == 2 * (n - 1)
    requires PipesMade(before, child.fds, pipefds, base)
    modifies child
    ensures exited == !AllOpen(redirections)
    ensures child.fds == RedirectedStage(before, i, n, base, redirections)
  {
    WireStage(child, pipefds, i, n, before, base);
    hide Bound, AllOpen;
    exited := SetupChildIo(child, redirections);
  }

  function RedirectedStage(t: Table, i: nat, n: nat, base: nat, redirections: seq<Redir>): Table
    requires StandardOpen(t)
  {
    var wired := StageTable(t, i, n, base);
    WithStd(wired, Bound(redirections, StdOf(wired)))
  }

  lemma UnredirectedStage(t: Table, i: nat, n: nat, base: nat)
    requires StandardOpen(t)
    ensures RedirectedStage(t, i, n, base, []) == StageTable(t, i, n, base)
  {
    var wired := StageTable(t, i, n, base);
    assert WithStd(wired, StdOf(wired)) == wired;
  }

  /** A stage's own redirection of a descriptor overrides the pipe that was wired to it. */
  lemma RedirectionOverridesPipe(t: Table, i: nat, n: nat, base: nat, a: seq<Redir>, r: Redir, b: seq<Redir>)
    requires StandardOpen(t) && AllOpen(a) && !r.dupToStdout && 0 <= r.fd <= 2 && r.file.Some?
    requires forall j :: 0 <= j < |b| ==> Target(b[j]) != r.fd
    ensures var s := RedirectedStage(t, i, n, base, a + [r] + b); r.fd in s && s[r.fd] == r.file.value
  {
    LastWins(a, r, b, StdOf(StageTable(t, i, n, base)));
    hide Bound, StageTable;
  }

  /** Without a redirection of its own a descriptor keeps its pipe. */
  lemma UnredirectedKeepsPipe(t: Table, i: nat, n: nat, base: nat, redirections: seq<Redir>, k: nat)
    requires StandardOpen(t) && k <= 2 && forall j :: 0 <= j < |redirections| ==> Target(redirections[j]) != k
    ensures var s := RedirectedStage(t, i, n, base, redirections);
            k in s && k in StageTable(t, i, n, base) && s[k] == StageTable(t, i, n, base)[k]
  {
    SlotKept(redirections, StdOf(StageTable(t, i, n, base)), k);
    hide Bound;
  }

  /**
   Redirections to files give no stage another stage's pipe: only stage `k` can write to pipe `k`,
   through stdout or a stderr joined to it, and only stage `k + 1` can read from it; descriptors
   above 2 are those of the parent.
   */
  lemma RedirectionsKeepPipesApart(t: Table, n: nat, base: nat, i: nat, redirections: seq<Redir>, fd: nat, k: nat)
    requires n >= 1 && i < n && k + 1 < n && NoPipesFrom(t, base) && StandardOpen(t)
    requires forall j :: 0 <= j < |redirections| && redirections[j].file.Some? ==> redirections[j].file.value.File?
    ensures var s := RedirectedStage(t, i, n, base, redirections);
            && (fd in s && s[fd] == PipeWrite(base + k) ==> i == k && (fd == 1 || fd == 2))
            && (fd in s && s[fd] == PipeRead(base + k) ==> i == k + 1 && fd == 0)
            && (fd > 2 ==> (fd in s <==> fd in t) && (fd in t ==> s[fd] == t[fd]))
  {
    var wired := StageTable(t, i, n, base);
    if fd > 2 { StageKeepsTheRest(t, n, base, i, fd); }
    BoundSources(redirections, StdOf(wired));
    OneWriterOneReader(t, n, base, i, fd, k);
    OneWriterOneReader(t, n, base, i, 0, k);
    OneWriterOneReader(t, n, base, i, 1, k);
    OneWriterOneReader(t, n, base, i, 2, k);
    hide Bound, StageTable, NoPipesFrom;
  }

  /**
   Stage `i` ends with its stdin and stdout on the neighbouring pipes, as far as its redirections
   do not override them, and with no other descriptor of any pipe; the parent ends with the table
   it started from. Pipes and forks succeed.
   */
  method WirePipeline(parent: Process, redirections: seq<seq<Redir>>, base: nat)
    returns (children: seq<Process>, exited: seq<bool>)
    requires |redirections| >= 1 && StandardOpen(parent.fds)
    modifies parent
    ensures parent.fds == old(parent.fds)
    ensures |children| == |exited| == |redirections|
    ensures forall i :: 0 <= i < |children| ==> children[i] != parent && fresh(children[i])
    ensures forall i :: 0 <= i < |children| ==> exited[i] == !AllOpen(redirections[i])
    ensures forall i :: 0 <= i < |children| ==>
              children[i].fds == RedirectedStage(old(parent.fds), i, |redirections|, base, redirections[i])
  {
    var n := |redirections|;
    ghost var before := parent.fds;
    var pipefds: seq<nat> := [];
    var k := 0;
    assert EndSet(pipefds) == {};
    hide EndSet, RedirectedStage, AllOpen;
    while k < n - 1
      invariant 0 <= k <= n - 1 && |pipefds| == 2 * k
      invariant PipesMade(before, parent.fds, pipefds, base)
    {
      hide PipesMade;
      ghost var now := parent.fds;
      var r, w := parent.Pipe(base + k);
      assert |pipefds| / 2 == k;
      PipeAdded(before, now, pipefds, base, r, w);
      pipefds := pipefds + [r, w];
      k := k + 1;
    }
    ghost var now := parent.fds;
    hide PipesMade;
    children, exited := ForkStages(parent, pipefds, redirections, before, base);
    CloseAll(parent, pipefds);
    ParentIsRestored(before, now, pipefds, base);
  }

  /** The loop over the stages. */
  method ForkStages(parent: Process, pipefds: seq<nat>, redirections: seq<seq<Redir>>, ghost before: Table, base: nat)
    returns (children: seq<Process>, exited: seq<bool>)
    requires |redirections| >= 1 && StandardOpen(before) && |pipefds| == 2 * (|redirections| - 1)
    requires PipesMade(before, parent.fds, pipefds, base)
    ensures |children| == |exited| == |redirections|
    ensures forall i :: 0 <= i < |children| ==> children[i] != parent && fresh(children[i])
    ensures forall i :: 0 <= i < |children| ==> exited[i] == !AllOpen(redirections[i])
    ensures forall i :: 0 <= i < |children| ==>
              children[i].fds == RedirectedStage(before, i, |redirections|, base, redirections[i])
  {
    hide EndSet, RedirectedStage, AllOpen, PipesMade, StandardOpen;
    children, exited := [], [];
    var n, i := |redirections|, 0;
    while i < n
      invariant 0 <= i <= n && |children| == |exited| == i
      invariant forall j :: 0 <= j < i ==> children[j] != parent && fresh(children[j])
      invariant forall j :: 0 <= j < i ==> exited[j] == !AllOpen(redirections[j])
      invariant forall j :: 0 <= j < i ==> children[j].fds == RedirectedStage(before, j, n, base, redirections[j])
    {
      var child := parent.Fork();
      assert child !in children;
      var gone := SetUpStage(child, pipefds, i, n, redirections[i], before, base);
      children := children + [child];
      exited := exited + [gone];
      i := i + 1;
    }
  }
}
