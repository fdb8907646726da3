/**
 Which here-document bodies arrive: what a dispatched command delivers to the redirections of its
 processes, and exactly when every written body is among them.
 */
module BodyArrival {
  import opened Text
  import opened QuoteStates
  import opened CommandLine
  import opened Heredocs
  import opened RedirectionPass
  import opened HeredocBodies
  import opened CommandDispatch

  // ---- What a plan delivers ----

  function StageEntries(stages: seq<Stage>): seq<PendingHeredoc> {
    if stages == [] then [] else HeredocEntries(stages[0].redirections) + StageEntries(stages[1..])
  }

  /** The heredoc redirections of the processes a plan starts, in order. */
  function Delivered(plan: Plan): seq<PendingHeredoc> {
    if plan.Run? then StageEntries(plan.stages) else []
  }

  /** The heredocs with something in them. */
  function Written(hs: seq<PendingHeredoc>): seq<PendingHeredoc> {
    if hs == [] then [] else (if hs[0].body != "" then [hs[0]] else []) + Written(hs[1..])
  }

  /** Every non-empty body reaches a redirection of its own delimiter and flags, in order, and no other does. */
  predicate Arrive(plan: Plan, hs: seq<PendingHeredoc>) {
    Written(Delivered(plan)) == Written(hs)
  }

  // ---- Where the supplied bodies go ----

  /** The heredoc entries that the redirection pass makes of a text by itself. */
  function Own(t: string): seq<PendingHeredoc> {
    HeredocEntries(Pass(t, []))
  }

  /** Where one supplied body goes: to an entry of a process, or nowhere. */
  type Slot = Option<PendingHeredoc>

  /** One slot per entry. */
  function Present(entries: seq<PendingHeredoc>): seq<Slot> {
    if entries == [] then [] else [Some(entries[0])] + Present(entries[1..])
  }

  /** One slot per marker of the scan, holding the entry of its position when there is one. */
  function Paired(markers: seq<PendingHeredoc>, entries: seq<PendingHeredoc>): seq<Slot>
    decreases |markers|
  {
    if markers == [] then []
    else if entries == [] then [None] + Paired(markers[1..], [])
    else [Some(entries[0])] + Paired(markers[1..], entries[1..])
  }

  /** A stage has one slot per scanned marker; a subshell has none. */
  function StageSlots(part: string): seq<Slot> {
    if IsSubshellPart(part) then [] else Paired(Scan(part, UNQUOTED), Own(part))
  }

  function PartSlots(parts: seq<string>): seq<Slot> {
    if parts == [] then [] else StageSlots(parts[0]) + PartSlots(parts[1..])
  }

  function ExpandedSlots(x: string): seq<Slot> {
    if NoWords(x) then []
    else if |Parts(x)| == 1 then Present(Own(x))
    else if Stages(Parts(x), []).None? then []
    else PartSlots(Parts(x))
  }

  /** The slots of a command, in the order in which they take the bodies supplied with it. */
  function Slots(env: Env, c: string): seq<Slot> {
    var p := Prepare(env, c);
    if p.None? || LoneSubshell(p.value) != NotLone || HasStructuredPipe(p.value, UNQUOTED) then []
    else ExpandedSlots(env.expand(p.value))
  }

  /** The entries of the slots, each with the body that comes to it. */
  function Serve(slots: seq<Slot>, hs: seq<PendingHeredoc>): seq<PendingHeredoc>
    decreases |slots|
  {
    if slots == [] || hs == [] then []
    else
      (if slots[0].Some? then [slots[0].value.(body := hs[0].body)] else []) + Serve(slots[1..], hs[1..])
  }

  // ---- Without bodies nothing is written ----

  predicate AllEmpty(hs: seq<PendingHeredoc>) {
    forall i :: 0 <= i < |hs| ==> hs[i].body == ""
  }

  lemma {:induction false} WrittenAppend(a: seq<PendingHeredoc>, b: seq<PendingHeredoc>)
    ensures Written(a + b) == Written(a) + Written(b)
    decreases |a|
  {
    if a == [] {
      assert a + b == b;
    } else {
      assert (a + b)[1..] == a[1..] + b;
      WrittenAppend(a[1..], b);
    }
  }

  lemma {:induction false} NothingWrittenIff(hs: seq<PendingHeredoc>)
    ensures Written(hs) == [] <==> AllEmpty(hs)
  {
    if hs != [] {
      NothingWrittenIff(hs[1..]);
      assert forall i :: 1 <= i < |hs| ==> hs[i] == hs[1..][i - 1];
    }
  }

  lemma {:induction false} NothingFilled(p: seq<PendingHeredoc>, hs: seq<PendingHeredoc>)
    requires AllEmpty(hs)
    ensures AllEmpty(Fill(p, hs))
  {
    hide Fill;
    FillLength(p, hs);
    forall i | 0 <= i < |p| ensures Fill(p, hs)[i].body == "" { FillAt(p, hs, i); }
  }

  lemma NothingWritten(p: seq<PendingHeredoc>, hs: seq<PendingHeredoc>)
    requires AllEmpty(hs)
    ensures Written(Fill(p, hs)) == []
  {
    hide Fill, Written;
    NothingFilled(p, hs);
    NothingWrittenIff(Fill(p, hs));
  }

  lemma NothingIsEmpty()
    ensures AllEmpty([])
  {
  }

  // ---- What arrives ----

  /** What the pass makes of a text: its own entries, filled in order. */
  lemma PassFills(t: string, hs: seq<PendingHeredoc>)
    ensures HeredocEntries(Pass(t, hs)) == Fill(Own(t), hs)
  {
    hide Events, HeredocEntries, Redirections, Fill;
    EntriesAreFilled(t, UNQUOTED, hs);
  }

  lemma OwnEmpty(t: string)
    ensures AllEmpty(Own(t))
  {
    hide Own, AllEmpty, Fill, Pass, HeredocEntries;
    PassFills(t, []);
    NothingIsEmpty();
    NothingFilled(Own(t), []);
    assert HeredocEntries(Pass(t, [])) == Own(t) by { OwnIs(t); }
  }

  lemma OwnIs(t: string)
    ensures HeredocEntries(Pass(t, [])) == Own(t)
  {
  }

  lemma PassOfTail(t: string)
    ensures Written(HeredocEntries(Pass(t, []))) == []
  {
    hide Pass, HeredocEntries, Written, AllEmpty;
    OwnEmpty(t);
    NothingWrittenIff(Own(t));
  }

  lemma EmptyScan(t: string)
    ensures AllEmpty(Scan(t, UNQUOTED))
  {
    hide Scan;
    ScanBodiesEmpty(t, UNQUOTED);
  }

  lemma {:induction false} ServePresent(entries: seq<PendingHeredoc>, hs: seq<PendingHeredoc>)
    ensures Written(Serve(Present(entries), hs)) == Written(Fill(entries, hs))
    decreases |entries|
  {
    if hs == [] {
      NothingWritten(entries, hs);
    } else if entries != [] {
      var first, rest := entries[0].(body := hs[0].body), Present(entries[1..]);
      assert ([Some(entries[0])] + rest)[1..] == rest;
      ServePresent(entries[1..], hs[1..]);
      hide Written, Present, AllEmpty;
      WrittenAppend([first], Serve(rest, hs[1..]));
      WrittenAppend([first], Fill(entries[1..], hs[1..]));
    }
  }

  lemma {:induction false} ServeAppend(a: seq<Slot>, b: seq<Slot>, hs: seq<PendingHeredoc>)
    ensures Serve(a + b, hs) == Serve(a, hs) + Serve(b, Drop(hs, |a|))
    decreases |a|
  {
    if a == [] {
      assert a + b == b && Drop(hs, 0) == hs;
    } else if hs != [] {
      assert (a + b)[1..] == a[1..] + b && (a + b)[0] == a[0];
      ServeAppend(a[1..], b, hs[1..]);
      assert Drop(hs[1..], |a| - 1) == Drop(hs, |a|);
    }
  }

  lemma {:induction false} PairedLength(markers: seq<PendingHeredoc>, entries: seq<PendingHeredoc>)
    ensures |Paired(markers, entries)| == |markers|
    decreases |markers|
  {
    if markers != [] { PairedLength(markers[1..], if entries == [] then [] else entries[1..]); }
  }

  /** A stage takes one body per scanned marker and puts them on its entries in order. */
  lemma {:induction false} PairedServes(markers: seq<PendingHeredoc>, entries: seq<PendingHeredoc>,
                                        hs: seq<PendingHeredoc>)
    requires AllEmpty(markers)
    ensures Written(Fill(entries, Taken(markers, hs))) == Written(Serve(Paired(markers, entries), hs))
    decreases |markers|
  {
    if markers == [] || hs == [] {
      NothingWritten(entries, Taken(markers, hs));
    } else {
      var later := if entries == [] then [] else entries[1..];
      var slots := Paired(markers[1..], later);
      var taken := Taken(markers[1..], hs[1..]);
      PairedServes(markers[1..], later, hs[1..]);
      PairedCons(markers, entries);
      assert ([hs[0]] + taken)[1..] == taken;
      hide Written, Paired, AllEmpty, Taken;
      if entries != [] {
        var first := entries[0].(body := hs[0].body);
        WrittenAppend([first], Serve(slots, hs[1..]));
        WrittenAppend([first], Fill(later, taken));
      } else {
        NothingToFill(taken);
        NothingToFill([hs[0]] + taken);
        assert [] + Serve(slots, hs[1..]) == Serve(slots, hs[1..]);
      }
    }
  }

  lemma PairedCons(markers: seq<PendingHeredoc>, entries: seq<PendingHeredoc>)
    requires markers != []
    ensures var slots := Paired(markers, entries);
            && slots != [] && slots[0] == (if entries == [] then None else Some(entries[0]))
            && slots[1..] == Paired(markers[1..], if entries == [] then [] else entries[1..])
  {
  }

  lemma {:induction false} SameStages(parts: seq<string>, hs: seq<PendingHeredoc>, other: seq<PendingHeredoc>)
    ensures Stages(parts, hs).Some? <==> Stages(parts, other).Some?
    decreases |parts|
  {
    hide Scan, Pass, CloseAt, Taken, Trim;
    if parts != [] {
      SameStages(parts[1..], hs, other);
      var n := |Scan(parts[0], UNQUOTED)|;
      SameStages(parts[1..], Drop(hs, n), Drop(other, n));
    }
  }

  lemma OneMoreStage(stage: Stage, stages: seq<Stage>)
    ensures StageEntries([stage] + stages) == HeredocEntries(stage.redirections) + StageEntries(stages)
  {
    assert ([stage] + stages)[1..] == stages;
  }

  /** Together the stages deliver the bodies to the slots of the parts in order, and nothing else. */
  lemma {:induction false} StagesDeliver(parts: seq<string>, hs: seq<PendingHeredoc>)
    requires Stages(parts, hs).Some?
    ensures Written(StageEntries(Stages(parts, hs).value)) == Written(Serve(PartSlots(parts), hs))
    decreases |parts|
  {
    hide Scan, Pass, CloseAt, Taken, Trim, Fill, Written, Own, Paired, Serve, Drop;
    if parts == [] {
      ServeNothing(hs);
    } else {
      var now, later := StageSlots(parts[0]), PartSlots(parts[1..]);
      ServeAppend(now, later, hs);
      WrittenAppend(Serve(now, hs), Serve(later, Drop(hs, |now|)));
      StageDelivers(parts, hs);
      StagesDeliver(parts[1..], Drop(hs, |now|));
    }
  }

  lemma ServeNothing(hs: seq<PendingHeredoc>)
    ensures Serve([], hs) == []
  {
  }

  lemma StageDelivers(parts: seq<string>, hs: seq<PendingHeredoc>)
    requires parts != [] && Stages(parts, hs).Some?
    ensures var now := StageSlots(parts[0]);
            var rest := Stages(parts[1..], Drop(hs, |now|));
            && rest.Some?
            && Written(StageEntries(Stages(parts, hs).value)) ==
               Written(Serve(now, hs)) + Written(StageEntries(rest.value))
  {
    hide Scan, Pass, CloseAt, Taken, Trim, Written, HeredocEntries, StageEntries, Fill, AllEmpty, Paired, Own, Serve;
    if IsSubshellPart(parts[0]) {
      var t := Trim(parts[0]);
      var close := CloseAt(t, UNQUOTED, 0);
      var stage := Stage(Some(t[1..close.value]), Pass(t[close.value + 1..], []));
      var rest := Stages(parts[1..], hs).value;
      assert Drop(hs, 0) == hs;
      OneMoreStage(stage, rest);
      WrittenAppend(HeredocEntries(stage.redirections), StageEntries(rest));
      PassOfTail(t[close.value + 1..]);
      ServeNothing(hs);
      WrittenNothing();
    } else {
      var markers := Scan(parts[0], UNQUOTED);
      var stage := Stage(None, Pass(parts[0], Taken(markers, hs)));
      var rest := Stages(parts[1..], Drop(hs, |markers|)).value;
      OneMoreStage(stage, rest);
      WrittenAppend(HeredocEntries(stage.redirections), StageEntries(rest));
      PassFills(parts[0], Taken(markers, hs));
      EmptyScan(parts[0]);
      PairedServes(markers, Own(parts[0]), hs);
      PairedLength(markers, Own(parts[0]));
    }
  }

  lemma OneStageDelivers(stage: Stage)
    ensures StageEntries([stage]) == HeredocEntries(stage.redirections)
  {
    assert [stage][1..] == [];
    assert HeredocEntries(stage.redirections) + [] == HeredocEntries(stage.redirections);
  }

  lemma ExpandedDelivers(x: string, hs: seq<PendingHeredoc>)
    ensures Written(Delivered(PlanExpanded(x, hs))) == Written(Serve(ExpandedSlots(x), hs))
  {
    hide Scan, Pass, Stages, Written, HeredocEntries, StageEntries, Fill, Parts, NoWords, Own, Present, PartSlots,
         Serve;
    ServeNothing(hs);
    if NoWords(x) {
    } else if |Parts(x)| == 1 {
      OneStageDelivers(Stage(None, Pass(x, hs)));
      PassFills(x, hs);
      ServePresent(Own(x), hs);
    } else {
      SameStages(Parts(x), hs, []);
      if Stages(Parts(x), hs).Some? { StagesDeliver(Parts(x), hs); }
    }
  }

  /** Exactly what arrives, for every command: the supplied bodies at its slots, in order. */
  lemma DispatchDelivers(env: Env, c: string, hs: seq<PendingHeredoc>)
    ensures Written(Delivered(Dispatch(env, c, hs))) == Written(Serve(Slots(env, c), hs))
  {
    hide Pass, Written, HeredocEntries, StageEntries, PlanExpanded, ExpandedSlots, Serve, Prepare, LoneSubshell,
         HasStructuredPipe;
    ServeNothing(hs);
    var p := Prepare(env, c);
    if p.Some? {
      var lone := LoneSubshell(p.value);
      if lone.Lone? {
        OneStageDelivers(Stage(Some(lone.inner), Pass(lone.trailing, [])));
        PassOfTail(lone.trailing);
        WrittenNothing();
      } else if lone.NotLone? && !HasStructuredPipe(p.value, UNQUOTED) {
        ExpandedDelivers(env.expand(p.value), hs);
      }
    }
  }

  lemma WrittenNothing()
    ensures Written([]) == []
  {
  }

  // ---- Exactly when everything arrives ----

  predicate Full(hs: seq<PendingHeredoc>) {
    forall i :: 0 <= i < |hs| ==> hs[i].body != ""
  }

  lemma {:induction false} WrittenFull(hs: seq<PendingHeredoc>)
    requires Full(hs)
    ensures Written(hs) == hs
  {
    if hs != [] {
      assert forall i :: 0 <= i < |hs[1..]| ==> hs[1..][i] == hs[i + 1];
      WrittenFull(hs[1..]);
      assert hs == [hs[0]] + hs[1..];
    }
  }

  /** A list of bodies as long as `p`, none of them empty. */
  function Samples(p: seq<PendingHeredoc>): seq<PendingHeredoc> {
    seq(|p|, i requires 0 <= i < |p| => p[i].(body := "x"))
  }

  lemma SamplesFill(p: seq<PendingHeredoc>)
    ensures Fill(p, Samples(p)) == Samples(p) && Written(Samples(p)) == Samples(p)
  {
    var hs := Samples(p);
    FillLength(p, hs);
    forall i | 0 <= i < |p| ensures Fill(p, hs)[i] == hs[i] { FillAt(p, hs, i); }
    hide Fill;
    WrittenFull(hs);
  }

  /** The first slots are the given markers, one by one. */
  predicate Begins(slots: seq<Slot>, markers: seq<PendingHeredoc>) {
    |markers| <= |slots| && forall k :: 0 <= k < |markers| ==> slots[k] == Some(markers[k])
  }

  predicate SlotsEmpty(slots: seq<Slot>) {
    forall k :: 0 <= k < |slots| && slots[k].Some? ==> slots[k].value.body == ""
  }

  lemma {:induction false} BeginsServe(slots: seq<Slot>, p: seq<PendingHeredoc>, bodies: seq<PendingHeredoc>)
    requires Begins(slots, p)
    ensures Serve(slots, Fill(p, bodies)) == Fill(p, bodies)
    decreases |p|
  {
    if p != [] {
      var later := if bodies == [] then [] else bodies[1..];
      assert forall k :: 0 <= k < |p[1..]| ==> p[1..][k] == p[k + 1] && slots[1..][k] == slots[k + 1];
      BeginsServe(slots[1..], p[1..], later);
      FillHead(p, bodies);
      hide Fill;
      assert slots[0] == Some(p[0]);
      assert Fill(p, bodies) == [Fill(p, bodies)[0]] + Fill(p, bodies)[1..];
    }
  }

  lemma FillHead(p: seq<PendingHeredoc>, bodies: seq<PendingHeredoc>)
    requires p != []
    ensures var all := Fill(p, bodies);
            && all != [] && all[0] == p[0].(body := all[0].body)
            && all[1..] == Fill(p[1..], if bodies == [] then [] else bodies[1..])
  {
  }

  lemma {:induction false} ServeShort(slots: seq<Slot>, hs: seq<PendingHeredoc>)
    ensures |Serve(slots, hs)| <= |hs|
    ensures Full(hs) ==> Full(Serve(slots, hs))
    decreases |slots|
  {
    if slots != [] && hs != [] {
      assert Full(hs) ==> Full(hs[1..]);
      ServeShort(slots[1..], hs[1..]);
    }
  }

  lemma BeginsCons(slots: seq<Slot>, markers: seq<PendingHeredoc>)
    requires slots != [] && markers != []
    ensures Begins(slots, markers) <==> slots[0] == Some(markers[0]) && Begins(slots[1..], markers[1..])
  {
    assert forall k :: 0 <= k < |markers[1..]| ==> markers[1..][k] == markers[k + 1];
    assert forall k :: 0 <= k < |slots[1..]| ==> slots[1..][k] == slots[k + 1];
    if slots[0] == Some(markers[0]) && Begins(slots[1..], markers[1..]) {
      forall k | 0 <= k < |markers| ensures slots[k] == Some(markers[k]) {
        if k > 0 { assert slots[1..][k - 1] == Some(markers[1..][k - 1]); }
      }
    }
  }

  /** What the first slot gives back, and what the others do. */
  lemma ServedHead(slots: seq<Slot>, hs: seq<PendingHeredoc>)
    requires hs != [] && Serve(slots, hs) == hs
    ensures slots != [] && slots[0].Some? && hs[0] == slots[0].value.(body := hs[0].body)
    ensures Serve(slots[1..], hs[1..]) == hs[1..]
  {
    ServeShort(slots[1..], hs[1..]);
  }

  /** Slots that give a list of bodies back are its markers. */
  lemma {:induction false} ServedBegins(slots: seq<Slot>, p: seq<PendingHeredoc>, hs: seq<PendingHeredoc>)
    requires SlotsEmpty(slots) && AllEmpty(p) && |hs| == |p|
    requires forall k :: 0 <= k < |p| ==> hs[k] == p[k].(body := hs[k].body)
    requires Serve(slots, hs) == hs
    ensures Begins(slots, p)
    decreases |p|
  {
    if p != [] {
      hide Serve;
      ServedHead(slots, hs);
      assert p[0] == hs[0].(body := "") == slots[0].value;
      assert forall k :: 0 <= k < |p[1..]| ==> p[1..][k] == p[k + 1] && hs[1..][k] == hs[k + 1];
      assert forall k :: 0 <= k < |slots[1..]| ==> slots[1..][k] == slots[k + 1];
      ServedBegins(slots[1..], p[1..], hs[1..]);
      BeginsCons(slots, p);
    }
  }

  /** Slots serve every list of bodies for some markers if and only if they begin with these markers. */
  lemma ServeAllIff(p: seq<PendingHeredoc>, slots: seq<Slot>)
    requires AllEmpty(p) && SlotsEmpty(slots)
    ensures (forall bodies: seq<PendingHeredoc> ::
              Written(Serve(slots, Fill(p, bodies))) == Written(Fill(p, bodies))) <==> Begins(slots, p)
  {
    hide Fill, Written, Serve;
    if Begins(slots, p) {
      forall bodies: seq<PendingHeredoc> ensures Written(Serve(slots, Fill(p, bodies))) == Written(Fill(p, bodies)) {
        BeginsServe(slots, p, bodies);
      }
    } else {
      var hs := Samples(p);
      SamplesFill(p);
      ServeShort(slots, hs);
      WrittenFull(Serve(slots, hs));
      if Written(Serve(slots, Fill(p, hs))) == Written(Fill(p, hs)) {
        ServedBegins(slots, p, hs);
      }
    }
  }

  lemma {:induction false} PresentEmpty(entries: seq<PendingHeredoc>)
    requires AllEmpty(entries)
    ensures SlotsEmpty(Present(entries))
  {
    if entries != [] {
      assert AllEmpty(entries[1..]);
      PresentEmpty(entries[1..]);
    }
  }

  lemma {:induction false} PairedEmpty(markers: seq<PendingHeredoc>, entries: seq<PendingHeredoc>)
    requires AllEmpty(entries)
    ensures SlotsEmpty(Paired(markers, entries))
    decreases |markers|
  {
    if markers != [] {
      var later := if entries == [] then [] else entries[1..];
      assert AllEmpty(later);
      PairedEmpty(markers[1..], later);
    }
  }

  lemma {:induction false} PartsEmpty(parts: seq<string>)
    ensures SlotsEmpty(PartSlots(parts))
  {
    if parts != [] {
      PartsEmpty(parts[1..]);
      OwnEmpty(parts[0]);
      PairedEmpty(Scan(parts[0], UNQUOTED), Own(parts[0]));
      hide Scan, IsSubshellPart, Own, Paired, AllEmpty;
    }
  }

  lemma CommandSlotsEmpty(env: Env, c: string)
    ensures SlotsEmpty(Slots(env, c))
  {
    hide Prepare, LoneSubshell, Own, Parts, NoWords, HasStructuredPipe, PartSlots, Present, Stages, AllEmpty;
    var p := Prepare(env, c);
    if p.Some? {
      var x := env.expand(p.value);
      OwnEmpty(x);
      PresentEmpty(Own(x));
      PartsEmpty(Parts(x));
    }
  }

  /** All bodies written for the markers of a command arrive, whatever they are. */
  ghost predicate AllArrive(env: Env, c: string) {
    forall bodies: seq<PendingHeredoc> ::
      Arrive(Dispatch(env, c, Fill(Scan(c, UNQUOTED), bodies)), Fill(Scan(c, UNQUOTED), bodies))
  }

  /**
   For every command: the bodies arrive at their markers, whatever is written in them, if and only
   if the slots of the command begin with its markers.
   */
  lemma AllArriveIff(env: Env, c: string)
    ensures AllArrive(env, c) <==> Begins(Slots(env, c), Scan(c, UNQUOTED))
  {
    hide Scan, Slots, Dispatch, Fill, Written, AllEmpty, SlotsEmpty, Delivered, Serve, Begins;
    var p, slots := Scan(c, UNQUOTED), Slots(env, c);
    EmptyScan(c);
    CommandSlotsEmpty(env, c);
    ServeAllIff(p, slots);
    forall bodies: seq<PendingHeredoc>
      ensures Arrive(Dispatch(env, c, Fill(p, bodies)), Fill(p, bodies)) <==>
              Written(Serve(slots, Fill(p, bodies))) == Written(Fill(p, bodies))
    {
      DispatchDelivers(env, c, Fill(p, bodies));
    }
    if AllArrive(env, c) {
      forall bodies: seq<PendingHeredoc> ensures Written(Serve(slots, Fill(p, bodies))) == Written(Fill(p, bodies)) {
        assert Arrive(Dispatch(env, c, Fill(p, bodies)), Fill(p, bodies));
      }
    }
    if Begins(slots, p) {
      forall bodies: seq<PendingHeredoc>
        ensures Arrive(Dispatch(env, c, Fill(p, bodies)), Fill(p, bodies))
      {
        assert Written(Serve(slots, Fill(p, bodies))) == Written(Fill(p, bodies));
      }
    }
  }

  // ---- Subshells ----

  lemma ServeNobody(slots: seq<Slot>)
    ensures Serve(slots, []) == []
  {
  }

  /** A command given no bodies starts no process with one, whatever it is. */
  lemma NothingFromNothing(env: Env, c: string)
    ensures Written(Delivered(Dispatch(env, c, []))) == []
  {
    hide Dispatch, Delivered, Slots, Written, Serve;
    DispatchDelivers(env, c, []);
    ServeNobody(Slots(env, c));
    WrittenNothing();
  }

  lemma {:induction false} SplitKeepsNone(t: string, s: Splitter)
    requires forall i :: 0 <= i < |s.segments| ==> s.segments[i].heredocs == []
    ensures forall i :: 0 <= i < |Split(t, s).segments| ==> Split(t, s).segments[i].heredocs == []
    decreases |t|
  {
    if t != "" {
      var sep := SeparatorAt(t, s.ctl);
      hide SeparatorAt, Trim, StepControl, Split;
      SplitCons(t, s);
      if sep.Some? {
        SplitKeepsNone(t[sep.value.1..], Reduce(s, sep.value.0));
      } else {
        SplitKeepsNone(t[1..], CommandLine.Shift(s, t[0]));
      }
    }
  }

  /** The commands inside a subshell are dispatched without bodies, so that none has one. */
  lemma NothingReachesInside(env: Env, inner: string, i: nat)
    requires i < |Parse(inner)|
    ensures Parse(inner)[i].heredocs == []
    ensures Written(Delivered(Dispatch(env, Parse(inner)[i].command, Parse(inner)[i].heredocs))) == []
  {
    assert Parse(inner)[i].heredocs == [] by {
      var t := StripComment(inner, UNQUOTED);
      SplitKeepsNone(t, INITIAL);
      hide Split, StripComment, Trim;
    }
    NothingFromNothing(env, Parse(inner)[i].command);
  }

  /** A subshell command's bodies arrive if and only if all of them are empty. */
  lemma SubshellArrivesIff(env: Env, c: string, hs: seq<PendingHeredoc>)
    requires Prepare(env, c).Some? && LoneSubshell(Prepare(env, c).value).Lone?
    ensures Arrive(Dispatch(env, c, hs), hs) <==> AllEmpty(hs)
  {
    hide Prepare, LoneSubshell, Pass, Written, HeredocEntries, StageEntries, AllEmpty;
    var lone := LoneSubshell(Prepare(env, c).value);
    OneStageDelivers(Stage(Some(lone.inner), Pass(lone.trailing, [])));
    PassOfTail(lone.trailing);
    NothingWrittenIff(hs);
  }

  /** And all bodies arrive, whatever they are, if and only if the command has no marker. */
  lemma SubshellAllArriveIff(env: Env, c: string)
    requires Prepare(env, c).Some? && LoneSubshell(Prepare(env, c).value).Lone?
    ensures AllArrive(env, c) <==> Scan(c, UNQUOTED) == []
  {
    hide Prepare, LoneSubshell, Scan, Dispatch, Fill, AllEmpty, Arrive;
    var p := Scan(c, UNQUOTED);
    forall bodies: seq<PendingHeredoc>
      ensures Arrive(Dispatch(env, c, Fill(p, bodies)), Fill(p, bodies)) <==> AllEmpty(Fill(p, bodies))
    {
      SubshellArrivesIff(env, c, Fill(p, bodies));
    }
    SamplesFill(p);
    if p == [] {
      forall bodies: seq<PendingHeredoc> ensures AllEmpty(Fill(p, bodies)) {
        NothingToFill(bodies);
        NothingIsEmpty();
      }
    } else {
      assert !AllEmpty(Fill(p, Samples(p))) by { FirstSample(p); }
    }
  }

  lemma FirstSample(p: seq<PendingHeredoc>)
    requires p != []
    ensures !AllEmpty(Samples(p))
  {
    assert Samples(p)[0].body == "x";
  }

  // ---- Pipelines ----

  function AllMarkers(parts: seq<string>): seq<PendingHeredoc> {
    if parts == [] then [] else Scan(parts[0], UNQUOTED) + AllMarkers(parts[1..])
  }

  /** Every part that is no subshell has the entries its scan announces; a subshell part has no marker. */
  predicate StagesServed(parts: seq<string>) {
    forall i :: 0 <= i < |parts| ==>
      if IsSubshellPart(parts[i]) then Scan(parts[i], UNQUOTED) == [] else Scan(parts[i], UNQUOTED) <= Own(parts[i])
  }

  lemma {:induction false} PairedBegins(markers: seq<PendingHeredoc>, entries: seq<PendingHeredoc>)
    ensures Begins(Paired(markers, entries), markers) <==> markers <= entries
    decreases |markers|
  {
    PairedLength(markers, entries);
    if markers != [] {
      var later := if entries == [] then [] else entries[1..];
      var slots := Paired(markers, entries);
      PairedCons(markers, entries);
      PairedBegins(markers[1..], later);
      PairedLength(markers[1..], later);
      hide Paired;
      BeginsCons(slots, markers);
      if entries != [] && entries[0] == markers[0] {
        assert entries == [entries[0]] + later && markers == [markers[0]] + markers[1..];
        assert markers <= entries <==> markers[1..] <= later;
      }
    }
  }

  lemma BeginsSplit(a: seq<Slot>, b: seq<Slot>, p: seq<PendingHeredoc>, q: seq<PendingHeredoc>)
    requires |a| == |p|
    ensures Begins(a + b, p + q) <==> Begins(a, p) && Begins(b, q)
  {
    if Begins(a + b, p + q) {
      forall k | 0 <= k < |p| ensures a[k] == Some(p[k]) { assert (a + b)[k] == Some((p + q)[k]); }
      forall k | 0 <= k < |q| ensures b[k] == Some(q[k]) { assert (a + b)[|a| + k] == Some((p + q)[|p| + k]); }
    }
  }

  lemma {:induction false} PartSlotsFit(parts: seq<string>)
    ensures |PartSlots(parts)| <= |AllMarkers(parts)|
    decreases |parts|
  {
    if parts != [] {
      PairedLength(Scan(parts[0], UNQUOTED), Own(parts[0]));
      PartSlotsFit(parts[1..]);
      hide Scan, Own, Paired, IsSubshellPart;
    }
  }

  lemma {:induction false} PartsBegin(parts: seq<string>)
    ensures Begins(PartSlots(parts), AllMarkers(parts)) <==> StagesServed(parts)
    decreases |parts|
  {
    hide Scan, Own, Paired, IsSubshellPart, Begins;
    if parts == [] {
      assert Begins([], []) by { NoMarkersBegin(); }
    } else {
      var markers, later := Scan(parts[0], UNQUOTED), AllMarkers(parts[1..]);
      var slots := PartSlots(parts[1..]);
      PartsBegin(parts[1..]);
      ServedParts(parts);
      if !IsSubshellPart(parts[0]) {
        PairedLength(markers, Own(parts[0]));
        PairedBegins(markers, Own(parts[0]));
        BeginsSplit(Paired(markers, Own(parts[0])), slots, markers, later);
      } else {
        assert [] + slots == slots;
        if markers == [] {
          assert [] + later == later;
        } else {
          PartSlotsFit(parts[1..]);
          TooFewSlots(slots, markers + later);
        }
      }
    }
  }

  lemma NoMarkersBegin()
    ensures Begins([], [])
  {
  }

  lemma TooFewSlots(slots: seq<Slot>, markers: seq<PendingHeredoc>)
    requires |slots| < |markers|
    ensures !Begins(slots, markers)
  {
  }

  lemma ServedParts(parts: seq<string>)
    requires parts != []
    ensures var markers := Scan(parts[0], UNQUOTED);
            StagesServed(parts) <==>
            StagesServed(parts[1..]) && if IsSubshellPart(parts[0]) then markers == [] else markers <= Own(parts[0])
  {
    hide Scan, Own, IsSubshellPart;
    assert forall i :: 0 <= i < |parts[1..]| ==> parts[1..][i] == parts[i + 1];
    assert forall i :: 1 <= i < |parts| ==> parts[i] == parts[1..][i - 1];
  }

  function JoinBars(parts: seq<string>): string
    requires parts != []
    decreases |parts|
  {
    if |parts| == 1 then parts[0] else parts[0] + ("|" + JoinBars(parts[1..]))
  }

  lemma {:induction false} SplitJoins(t: string, q: Quotes, depth: nat, cur: string)
    ensures JoinBars(SplitPipes(t, q, depth, cur)) == cur + t
    decreases |t|
  {
    if t == "" {
      assert cur + t == cur;
    } else {
      assert t == [t[0]] + t[1..];
      assert cur + [t[0]] + t[1..] == cur + t;
      if IsBoundary(q, t[0]) || q.Active() {
        SplitJoins(t[1..], Toggle(q, t[0]), depth, cur + [t[0]]);
      } else if depth == 0 && BarAt(t) {
        var rest := SplitPipes(t[1..], q, 0, "");
        SplitJoins(t[1..], q, 0, "");
        assert ([cur] + rest)[1..] == rest;
        assert "" + t[1..] == t[1..];
      } else {
        SplitJoins(t[1..], q, DepthWithin(t[0], depth), cur + [t[0]]);
      }
    }
  }

  predicate PartsClose(parts: seq<string>) {
    forall i :: 0 <= i < |parts| ==> ScanCloses(parts[i], UNQUOTED)
  }

  lemma BarHasNoMarker(u: string)
    ensures Scan("|" + u, UNQUOTED) == Scan(u, UNQUOTED) && Ends("|" + u)
  {
    PlainIsNeutral("|");
    hide Scan;
    ScanSkipsNeutral("|", u, UNQUOTED);
  }

  lemma {:induction false} ScanJoinedParts(parts: seq<string>)
    requires parts != [] && PartsClose(parts)
    ensures Scan(JoinBars(parts), UNQUOTED) == AllMarkers(parts)
    decreases |parts|
  {
    hide Scan, ScanCloses;
    var first := Scan(parts[0], UNQUOTED);
    if |parts| == 1 {
      assert parts[1..] == [] && first + [] == first;
    } else {
      var rest := JoinBars(parts[1..]);
      assert forall i :: 0 <= i < |parts[1..]| ==> parts[1..][i] == parts[i + 1];
      BarHasNoMarker(rest);
      ScanAppend(parts[0], "|" + rest, UNQUOTED);
      ScanJoinedParts(parts[1..]);
    }
  }

  /** A pipeline that expansion leaves as it is, with every quote, delimiter and parenthesis closed in its own stage. */
  predicate IsPipeline(env: Env, c: string) {
    var p := Prepare(env, c);
    && p.Some? && LoneSubshell(p.value).NotLone? && !HasStructuredPipe(p.value, UNQUOTED)
    && var x := env.expand(p.value);
       && Scan(x, UNQUOTED) == Scan(c, UNQUOTED) && !NoWords(x)
       && |Parts(x)| > 1 && PartsClose(Parts(x)) && Stages(Parts(x), []).Some?
  }

  /**
   The bodies of a pipeline arrive, whatever they are, if and only if no subshell stage has a marker
   and every other stage has the entries that its scan announces.
   */
  lemma PipelineArrivesIff(env: Env, c: string)
    requires IsPipeline(env, c)
    ensures AllArrive(env, c) <==> StagesServed(Parts(Expanded(env, c)))
  {
    hide Prepare, LoneSubshell, HasStructuredPipe, Scan, NoWords, Stages, PartsClose, StagesServed, Parts,
         AllArrive, PartSlots, AllMarkers, Begins;
    var x := Expanded(env, c);
    var parts := Parts(x);
    AllArriveIff(env, c);
    PartsJoin(x);
    ScanJoinedParts(parts);
    PartsBegin(parts);
    assert Slots(env, c) == PartSlots(parts);
  }

  lemma PartsJoin(x: string)
    ensures JoinBars(Parts(x)) == x
  {
    SplitJoins(x, UNQUOTED, 0, "");
    assert "" + x == x;
  }

  /** A subshell and a plain stage: the first is read without bodies, the second takes them from the start. */
  lemma TwoStages(sub: string, plain: string, hs: seq<PendingHeredoc>)
    requires IsSubshellPart(sub) && CloseAt(Trim(sub), UNQUOTED, 0).Some? && !IsSubshellPart(plain)
    ensures var t := Trim(sub);
            var close := CloseAt(t, UNQUOTED, 0).value;
            Stages([sub, plain], hs) ==
            Some([Stage(Some(t[1..close]), Pass(t[close + 1..], [])),
                  Stage(None, Pass(plain, Taken(Scan(plain, UNQUOTED), hs)))])
  {
    hide Scan, Trim, CloseAt, Pass, Taken, IsSubshellPart;
    var markers := Scan(plain, UNQUOTED);
    var second := Stage(None, Pass(plain, Taken(markers, hs)));
    assert [sub, plain][1..] == [plain] && [plain][1..] == [];
    assert Stages([], Drop(hs, |markers|)) == Some([]);
    assert [second] + [] == [second];
    assert Stages([plain], hs) == Prepend(second, Some([]));
    var t := Trim(sub);
    var close := CloseAt(t, UNQUOTED, 0).value;
    var first := Stage(Some(t[1..close]), Pass(t[close + 1..], []));
    assert Stages([sub, plain], hs) == Prepend(first, Some([second]));
    assert [first] + [second] == [first, second];
  }

  /** A marked subshell stage hands its body on: the next stage's first entry gets it. */
  lemma SubshellShiftsBodies(sub: string, plain: string, hs: seq<PendingHeredoc>)
    requires IsSubshellPart(sub) && Scan(sub, UNQUOTED) != [] && CloseAt(Trim(sub), UNQUOTED, 0).Some?
    requires !IsSubshellPart(plain) && Scan(plain, UNQUOTED) != [] && Own(plain) != [] && hs != []
    ensures var stages := Stages([sub, plain], hs);
            && stages.Some? && |stages.value| == 2
            && Written(HeredocEntries(stages.value[0].redirections)) == []
            && var got := HeredocEntries(stages.value[1].redirections);
               got != [] && got[0] == Own(plain)[0].(body := hs[0].body)
  {
    var bodies := Taken(Scan(plain, UNQUOTED), hs);
    hide Scan, Trim, CloseAt, Pass, Written, HeredocEntries, Own, Stages;
    TwoStages(sub, plain, hs);
    PassOfTail(Trim(sub)[CloseAt(Trim(sub), UNQUOTED, 0).value + 1..]);
    PassFills(plain, bodies);
    FillAt(Own(plain), bodies, 0);
    assert bodies != [] && bodies[0] == hs[0];
    hide Fill, Taken;
  }

  // ---- Commands passed whole ----

  /** What the redirection pass reads when the command is neither subshell nor pipeline: the expanded text. */
  predicate IsPlain(env: Env, c: string) {
    var p := Prepare(env, c);
    && p.Some? && LoneSubshell(p.value).NotLone? && !HasStructuredPipe(p.value, UNQUOTED)
    && var x := env.expand(p.value);
       !NoWords(x) && |Parts(x)| == 1
  }

  function Expanded(env: Env, c: string): string {
    if Prepare(env, c).Some? then env.expand(Prepare(env, c).value) else ""
  }

  /** A plain command gets its bodies at the entries that the pass makes of its expanded text, in order. */
  lemma PlainDelivers(env: Env, c: string, hs: seq<PendingHeredoc>)
    requires IsPlain(env, c)
    ensures Delivered(Dispatch(env, c, hs)) == Fill(Own(Expanded(env, c)), hs)
  {
    hide Prepare, LoneSubshell, HasStructuredPipe, NoWords, Stages, Parts, Pass, Own, HeredocEntries, StageEntries,
         Fill;
    var x := Expanded(env, c);
    OneStageDelivers(Stage(None, Pass(x, hs)));
    PassFills(x, hs);
  }

  lemma {:induction false} PresentBegins(entries: seq<PendingHeredoc>, markers: seq<PendingHeredoc>)
    ensures |Present(entries)| == |entries|
    ensures Begins(Present(entries), markers) <==> markers <= entries
    decreases |entries|
  {
    if entries != [] {
      var slots := Present(entries);
      assert slots[1..] == Present(entries[1..]) && slots[0] == Some(entries[0]);
      PresentBegins(entries[1..], if markers == [] then [] else markers[1..]);
      hide Present;
      if markers != [] {
        BeginsCons(slots, markers);
        assert entries == [entries[0]] + entries[1..] && markers == [markers[0]] + markers[1..];
      }
    }
  }

  /** All its bodies arrive, whatever they are, if and only if the pass makes its markers first. */
  lemma PlainAllArriveIff(env: Env, c: string)
    requires IsPlain(env, c)
    ensures AllArrive(env, c) <==> Scan(c, UNQUOTED) <= Own(Expanded(env, c))
  {
    hide Prepare, LoneSubshell, HasStructuredPipe, NoWords, Parts, Scan, Own, AllArrive, Begins, Present;
    AllArriveIff(env, c);
    PresentBegins(Own(Expanded(env, c)), Scan(c, UNQUOTED));
    assert Slots(env, c) == Present(Own(Expanded(env, c)));
  }

  /** Each of its markers gets its own body if and only if the pass makes these markers of the expanded text. */
  lemma PlainArrivesIff(env: Env, c: string, bodies: seq<PendingHeredoc>)
    requires IsPlain(env, c)
    ensures var hs := Fill(Scan(c, UNQUOTED), bodies);
            Delivered(Dispatch(env, c, hs)) == hs <==> Own(Expanded(env, c)) == Scan(c, UNQUOTED)
  {
    hide IsPlain, Scan, Own, Dispatch, Delivered, Fill, Expanded;
    var p, r := Scan(c, UNQUOTED), Own(Expanded(env, c));
    var hs := Fill(p, bodies);
    PlainDelivers(env, c, hs);
    FillTwice(p, bodies);
    if Fill(r, hs) == hs {
      FillLength(p, bodies);
      FillLength(r, hs);
      EmptyScan(c);
      OwnEmpty(Expanded(env, c));
      forall i | 0 <= i < |p| ensures p[i] == r[i] {
        FillAt(p, bodies, i);
        FillAt(r, hs, i);
        assert p[i].body == "" == r[i].body;
        assert p[i] == hs[i].(body := "") == r[i];
      }
    }
  }

  /** On agreeable texts the pass makes the markers of the scan. */
  lemma OwnAreScanned(t: string)
    requires Agreeable(t, UNQUOTED)
    ensures Own(t) == Scan(t, UNQUOTED)
  {
    hide Agreeable, Events, HeredocEntries, Redirections, Fill, Scan, AllEmpty;
    EntriesAreScannedMarkers(t, UNQUOTED, []);
    EmptyScan(t);
    FillWithOwn(Scan(t, UNQUOTED));
  }

  lemma {:induction false} FillWithOwn(pending: seq<PendingHeredoc>)
    requires AllEmpty(pending)
    ensures Fill(pending, []) == pending
  {
    if pending != [] {
      assert AllEmpty(pending[1..]);
      FillWithOwn(pending[1..]);
      assert pending == [pending[0].(body := "")] + pending[1..];
    }
  }
}
