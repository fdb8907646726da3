/**
 Whole lines: from the bodies written in the input to the redirections of the commands that run,
 each command meeting the world that the ones before it left.
 */
module LineArrival {
  import opened CommandLine
  import opened QuoteStates
  import opened Heredocs
  import opened RedirectionPass
  import opened HeredocBodies
  import opened CommandDispatch
  import opened ListExecutor
  import opened BodyArrival

  // ---- The commands that run ----

  /** A segment that runs, and the world it meets. */
  datatype Step<W> = Step(segment: Segment, before: W)

  /** What `RunFlat` runs, with its statuses deciding at `&&` and `||`. */
  function Ran<W>(host: Host<W>, segments: seq<Segment>, w: W, status: int): seq<Step<W>>
    decreases |segments|
  {
    if segments == [] then []
    else if ShouldRun(segments[0].op, status) then
      var (w1, s1) := RunSegment(host, segments[0].command, segments[0].heredocs, w);
      [Step(segments[0], w)] + Ran(host, segments[1..], w1, s1)
    else Ran(host, segments[1..], w, status)
  }

  function SegmentsOf<W>(steps: seq<Step<W>>): seq<Segment> {
    if steps == [] then [] else [steps[0].segment] + SegmentsOf(steps[1..])
  }

  /** The same commands without conditions. */
  function Unconditional(segments: seq<Segment>): seq<Segment> {
    if segments == [] then [] else [segments[0].(op := Semicolon)] + Unconditional(segments[1..])
  }

  /** Running exactly these segments, unconditionally, is the run of the line. */
  lemma {:induction false} RanIsTheRun<W>(host: Host<W>, segments: seq<Segment>, w: W, status: int)
    ensures RunFlat(host, Unconditional(SegmentsOf(Ran(host, segments, w, status))), w, status) ==
            RunFlat(host, segments, w, status)
    decreases |segments|
  {
    if segments != [] {
      if ShouldRun(segments[0].op, status) {
        var (w1, s1) := RunSegment(host, segments[0].command, segments[0].heredocs, w);
        var later := Ran(host, segments[1..], w1, s1);
        RanIsTheRun(host, segments[1..], w1, s1);
        hide RunSegment;
        assert ([Step(segments[0], w)] + later)[1..] == later;
        var first, rest := segments[0].(op := Semicolon), Unconditional(SegmentsOf(later));
        assert ([segments[0]] + SegmentsOf(later))[1..] == SegmentsOf(later);
        assert ([first] + rest)[1..] == rest;
      } else {
        RanIsTheRun(host, segments[1..], w, status);
      }
    }
  }

  lemma {:induction false} AllRan<W>(host: Host<W>, segments: seq<Segment>, w: W, status: int)
    ensures |Ran(host, segments, w, status)| <= |segments|
    ensures |Ran(host, segments, w, status)| == |segments| ==> SegmentsOf(Ran(host, segments, w, status)) == segments
    decreases |segments|
  {
    if segments != [] {
      if ShouldRun(segments[0].op, status) {
        var (w1, s1) := RunSegment(host, segments[0].command, segments[0].heredocs, w);
        var later := Ran(host, segments[1..], w1, s1);
        AllRan(host, segments[1..], w1, s1);
        hide RunSegment;
        assert ([Step(segments[0], w)] + later)[1..] == later;
      } else {
        AllRan(host, segments[1..], w, status);
      }
    }
  }

  // ---- What they deliver ----

  /** The heredoc redirections of the commands that run, each dispatched in the environment of its moment. */
  function AllDelivered<W>(envOf: W -> Env, steps: seq<Step<W>>): seq<PendingHeredoc> {
    if steps == [] then []
    else
      Delivered(Dispatch(envOf(steps[0].before), steps[0].segment.command, steps[0].segment.heredocs))
      + AllDelivered(envOf, steps[1..])
  }

  /** A plain command of whose expanded text the pass makes the markers of the command. */
  predicate PassedWhole(env: Env, c: string) {
    IsPlain(env, c) && Own(Expanded(env, c)) == Scan(c, UNQUOTED)
  }

  /** A command for which `AllArriveIff` says yes. */
  predicate Receives(env: Env, c: string) {
    Begins(Slots(env, c), Scan(c, UNQUOTED))
  }

  predicate AllPassedWhole<W>(envOf: W -> Env, steps: seq<Step<W>>) {
    forall i :: 0 <= i < |steps| ==> PassedWhole(envOf(steps[i].before), steps[i].segment.command)
  }

  predicate AllReceive<W>(envOf: W -> Env, steps: seq<Step<W>>) {
    forall i :: 0 <= i < |steps| ==> Receives(envOf(steps[i].before), steps[i].segment.command)
  }

  /** The segment has its own markers, each with some body. */
  predicate HasOwnMarkers(s: Segment) {
    s.heredocs == Fill(Scan(s.command, UNQUOTED), s.heredocs)
  }

  predicate AllOwn(segments: seq<Segment>) {
    forall i :: 0 <= i < |segments| ==> HasOwnMarkers(segments[i])
  }

  lemma {:induction false} DistributedAreOwn(segments: seq<Segment>, bodies: seq<PendingHeredoc>)
    ensures AllOwn(Distribute(segments, bodies))
    decreases |segments|
  {
    hide Scan, Fill;
    if segments != [] {
      var p := Scan(segments[0].command, UNQUOTED);
      FillTwice(p, bodies);
      DistributedAreOwn(segments[1..], Drop(bodies, |p|));
    }
  }

  lemma {:induction false} RanAreOwn<W>(host: Host<W>, segments: seq<Segment>, w: W, status: int)
    requires AllOwn(segments)
    ensures AllOwn(SegmentsOf(Ran(host, segments, w, status)))
    decreases |segments|
  {
    hide HasOwnMarkers;
    if segments != [] {
      assert AllOwn(segments[1..]) by {
        assert forall i :: 0 <= i < |segments[1..]| ==> segments[1..][i] == segments[i + 1];
      }
      if ShouldRun(segments[0].op, status) {
        var (w1, s1) := RunSegment(host, segments[0].command, segments[0].heredocs, w);
        var later := Ran(host, segments[1..], w1, s1);
        RanAreOwn(host, segments[1..], w1, s1);
        hide RunSegment;
        assert ([Step(segments[0], w)] + later)[1..] == later;
      } else {
        RanAreOwn(host, segments[1..], w, status);
      }
    }
  }

  lemma {:induction false} StepsTail<W>(steps: seq<Step<W>>)
    requires steps != [] && AllOwn(SegmentsOf(steps))
    ensures HasOwnMarkers(steps[0].segment) && AllOwn(SegmentsOf(steps[1..]))
    ensures AllHeredocs(SegmentsOf(steps)) == steps[0].segment.heredocs + AllHeredocs(SegmentsOf(steps[1..]))
  {
    hide HasOwnMarkers;
    var all, rest := SegmentsOf(steps), SegmentsOf(steps[1..]);
    assert all[0] == steps[0].segment && all[1..] == rest;
    assert forall i :: 0 <= i < |rest| ==> rest[i] == all[i + 1];
  }

  lemma {:induction false} StepsDeliver<W>(envOf: W -> Env, steps: seq<Step<W>>)
    requires AllOwn(SegmentsOf(steps)) && AllPassedWhole(envOf, steps)
    ensures AllDelivered(envOf, steps) == AllHeredocs(SegmentsOf(steps))
    decreases |steps|
  {
    hide Scan, Fill, IsPlain, Expanded, Own, Delivered, Dispatch, AllOwn;
    if steps != [] {
      var s := steps[0].segment;
      StepsTail(steps);
      assert PassedWhole(envOf(steps[0].before), s.command);
      PlainArrivesIff(envOf(steps[0].before), s.command, s.heredocs);
      assert forall i :: 0 <= i < |steps[1..]| ==> steps[1..][i] == steps[i + 1];
      StepsDeliver(envOf, steps[1..]);
    }
  }

  lemma {:induction false} StepsDeliverWritten<W>(envOf: W -> Env, steps: seq<Step<W>>)
    requires AllOwn(SegmentsOf(steps)) && AllReceive(envOf, steps)
    ensures Written(AllDelivered(envOf, steps)) == Written(AllHeredocs(SegmentsOf(steps)))
    decreases |steps|
  {
    hide Scan, Fill, Slots, Begins, Delivered, Dispatch, AllOwn, Written;
    if steps != [] {
      var s, env := steps[0].segment, envOf(steps[0].before);
      StepsTail(steps);
      assert Receives(env, s.command);
      AllArriveIff(env, s.command);
      assert Arrive(Dispatch(env, s.command, s.heredocs), s.heredocs);
      assert forall i :: 0 <= i < |steps[1..]| ==> steps[1..][i] == steps[i + 1];
      StepsDeliverWritten(envOf, steps[1..]);
      WrittenAppend(Delivered(Dispatch(env, s.command, s.heredocs)), AllDelivered(envOf, steps[1..]));
      WrittenAppend(s.heredocs, AllHeredocs(SegmentsOf(steps[1..])));
    }
  }

  /** Commands passed whole deliver exactly the bodies distributed to those that run. */
  lemma EntriesAreDistributed<W>(envOf: W -> Env, host: Host<W>, segments: seq<Segment>, bodies: seq<PendingHeredoc>,
                                 w: W, status: int)
    requires AllPassedWhole(envOf, Ran(host, Distribute(segments, bodies), w, status))
    ensures var steps := Ran(host, Distribute(segments, bodies), w, status);
            AllDelivered(envOf, steps) == AllHeredocs(SegmentsOf(steps))
  {
    hide Distribute, Ran, AllOwn, AllPassedWhole, AllDelivered, SegmentsOf;
    DistributedAreOwn(segments, bodies);
    RanAreOwn(host, Distribute(segments, bodies), w, status);
    StepsDeliver(envOf, Ran(host, Distribute(segments, bodies), w, status));
  }

  /** Commands that receive everything deliver every non-empty body distributed to those that run, and no other. */
  lemma WrittenAreDistributed<W>(envOf: W -> Env, host: Host<W>, segments: seq<Segment>, bodies: seq<PendingHeredoc>,
                                 w: W, status: int)
    requires AllReceive(envOf, Ran(host, Distribute(segments, bodies), w, status))
    ensures var steps := Ran(host, Distribute(segments, bodies), w, status);
            Written(AllDelivered(envOf, steps)) == Written(AllHeredocs(SegmentsOf(steps)))
  {
    hide Distribute, Ran, AllOwn, AllReceive, AllDelivered, SegmentsOf, Written;
    DistributedAreOwn(segments, bodies);
    RanAreOwn(host, Distribute(segments, bodies), w, status);
    StepsDeliverWritten(envOf, Ran(host, Distribute(segments, bodies), w, status));
  }

  // ---- From the input ----

  /** The segments of a joined line. */
  function LineSegments(c: string, tails: seq<Tail>): seq<Segment> {
    [Segment(c, NoOp, [])] + TailSegments(tails)
  }

  /** A line of closed commands, with documents written for its markers. */
  predicate WrittenLine(c: string, tails: seq<Tail>, docs: seq<Document>) {
    && Whole(c) && WholeTails(tails) && ScanCloses(c, UNQUOTED) && TailsClose(tails)
    && WrittenForAll(docs, Scan(c + JoinTails(tails), UNQUOTED))
  }

  /** The bodies of a line, read and handed out to its segments. */
  function Prepared(line: string, input: seq<string>): seq<Segment> {
    Distribute(Parse(line), Collect(Scan(line, UNQUOTED), input).pending)
  }

  /** Each segment with the documents written for its own markers. */
  function Dealt(segments: seq<Segment>, docs: seq<Document>): seq<Segment>
    requires |docs| == |SegmentMarkers(segments)|
    decreases |segments|
  {
    if segments == [] then [] else
      var p := Scan(segments[0].command, UNQUOTED);
      [segments[0].(heredocs := WithBodies(p, docs[..|p|]))] + Dealt(segments[1..], docs[|p|..])
  }

  lemma {:induction false} WithBodiesSplit(p: seq<PendingHeredoc>, q: seq<PendingHeredoc>, docs: seq<Document>)
    requires |docs| == |p| + |q|
    ensures WithBodies(p + q, docs) == WithBodies(p, docs[..|p|]) + WithBodies(q, docs[|p|..])
    decreases |p|
  {
    hide BodyOf;
    if p == [] {
      assert p + q == q && docs[0..] == docs;
    } else {
      assert (p + q)[1..] == p[1..] + q;
      assert docs[1..][..|p| - 1] == docs[..|p|][1..] && docs[1..][|p| - 1..] == docs[|p|..];
      WithBodiesSplit(p[1..], q, docs[1..]);
    }
  }

  lemma {:induction false} WithBodiesLength(p: seq<PendingHeredoc>, docs: seq<Document>)
    requires |docs| == |p|
    ensures |WithBodies(p, docs)| == |p|
  {
    hide BodyOf;
    if p != [] { WithBodiesLength(p[1..], docs[1..]); }
  }

  lemma FillFront(p: seq<PendingHeredoc>, bodies: seq<PendingHeredoc>, more: seq<PendingHeredoc>)
    requires |bodies| == |p|
    ensures Fill(p, bodies + more) == Fill(p, bodies) && Drop(bodies + more, |p|) == more
  {
    hide Fill;
    FillLength(p, bodies);
    FillLength(p, bodies + more);
    forall k | 0 <= k < |p| ensures Fill(p, bodies + more)[k] == Fill(p, bodies)[k] {
      FillAt(p, bodies, k);
      FillAt(p, bodies + more, k);
    }
  }

  lemma {:induction false} DealtIsDistributed(segments: seq<Segment>, docs: seq<Document>)
    requires |docs| == |SegmentMarkers(segments)|
    ensures Distribute(segments, WithBodies(SegmentMarkers(segments), docs)) == Dealt(segments, docs)
    decreases |segments|
  {
    hide Scan, Fill, WithBodies, Drop;
    if segments != [] {
      var p, later := Scan(segments[0].command, UNQUOTED), SegmentMarkers(segments[1..]);
      var own, others := docs[..|p|], docs[|p|..];
      WithBodiesSplit(p, later, docs);
      WithBodiesLength(p, own);
      FillFront(p, WithBodies(p, own), WithBodies(later, others));
      FillWithBodies(p, own);
      DealtIsDistributed(segments[1..], others);
    }
  }

  /** After reading and handing out, each command of the line has the documents written for its own markers. */
  lemma DealtIsPrepared(c: string, tails: seq<Tail>, docs: seq<Document>, rest: seq<string>)
    requires WrittenLine(c, tails, docs)
    ensures |docs| == |SegmentMarkers(LineSegments(c, tails))|
    ensures Prepared(c + JoinTails(tails), InputOf(docs) + rest) == Dealt(LineSegments(c, tails), docs)
  {
    hide Scan, Parse, Whole, ScanCloses, WithBodies, Collect, Distribute, JoinTails, WholeTails, TailsClose,
         SegmentMarkers, WrittenFor, Dealt;
    ParseJoined(c, tails);
    ScanJoined(c, NoOp, tails);
    CollectsWritten(Scan(c + JoinTails(tails), UNQUOTED), docs, rest);
    DealtIsDistributed(LineSegments(c, tails), docs);
  }

  /**
   From the input to the redirections, however the statuses decide at `&&` and `||`, when each
   command that runs is passed whole to the redirection pass: its heredoc redirections are its
   markers in order, each with the body written for it.
   */
  lemma BodiesReachTheRedirections<W>(envOf: W -> Env, host: Host<W>, w: W, c: string, tails: seq<Tail>,
                                      docs: seq<Document>, rest: seq<string>)
    requires WrittenLine(c, tails, docs)
    requires AllPassedWhole(envOf, Ran(host, Prepared(c + JoinTails(tails), InputOf(docs) + rest), w, 0))
    ensures var segments := Prepared(c + JoinTails(tails), InputOf(docs) + rest);
            var steps := Ran(host, segments, w, 0);
            && |docs| == |SegmentMarkers(LineSegments(c, tails))|
            && segments == Dealt(LineSegments(c, tails), docs)
            && AllDelivered(envOf, steps) == AllHeredocs(SegmentsOf(steps))
  {
    hide Scan, Parse, Collect, Distribute, Ran, AllPassedWhole, AllDelivered, SegmentsOf, Dealt, WrittenLine,
         SegmentMarkers, LineSegments, JoinTails;
    DealtIsPrepared(c, tails, docs, rest);
    var line := c + JoinTails(tails);
    EntriesAreDistributed(envOf, host, Parse(line), Collect(Scan(line, UNQUOTED), InputOf(docs) + rest).pending, w, 0);
  }

  /**
   For every kind of command, subshells and pipelines included: when each command that runs receives
   what is written for it, every non-empty body reaches a redirection of its own marker, in order.
   */
  lemma WrittenBodiesArrive<W>(envOf: W -> Env, host: Host<W>, w: W, c: string, tails: seq<Tail>,
                               docs: seq<Document>, rest: seq<string>)
    requires WrittenLine(c, tails, docs)
    requires AllReceive(envOf, Ran(host, Prepared(c + JoinTails(tails), InputOf(docs) + rest), w, 0))
    ensures var segments := Prepared(c + JoinTails(tails), InputOf(docs) + rest);
            var steps := Ran(host, segments, w, 0);
            && |docs| == |SegmentMarkers(LineSegments(c, tails))|
            && segments == Dealt(LineSegments(c, tails), docs)
            && Written(AllDelivered(envOf, steps)) == Written(AllHeredocs(SegmentsOf(steps)))
  {
    hide Scan, Parse, Collect, Distribute, Ran, AllReceive, AllDelivered, SegmentsOf, Dealt, WrittenLine,
         SegmentMarkers, LineSegments, JoinTails, Written;
    DealtIsPrepared(c, tails, docs, rest);
    var line := c + JoinTails(tails);
    WrittenAreDistributed(envOf, host, Parse(line), Collect(Scan(line, UNQUOTED), InputOf(docs) + rest).pending, w, 0);
  }

  /** When every command of the line runs, these are all the documents of the line. */
  lemma AllDocumentsArrive<W>(envOf: W -> Env, host: Host<W>, w: W, c: string, tails: seq<Tail>,
                              docs: seq<Document>, rest: seq<string>)
    requires WrittenLine(c, tails, docs)
    requires var steps := Ran(host, Prepared(c + JoinTails(tails), InputOf(docs) + rest), w, 0);
             AllReceive(envOf, steps) && |steps| == 1 + |tails|
    ensures var line := c + JoinTails(tails);
            var steps := Ran(host, Prepared(line, InputOf(docs) + rest), w, 0);
            Written(AllDelivered(envOf, steps)) == Written(WithBodies(Scan(line, UNQUOTED), docs))
  {
    hide Scan, Parse, Collect, Distribute, Ran, AllReceive, AllDelivered, SegmentsOf, Dealt, Whole, ScanCloses,
         WholeTails, TailsClose, WrittenForAll, JoinTails, Written, WithBodies, AllHeredocs;
    WrittenBodiesArrive(envOf, host, w, c, tails, docs, rest);
    LineGetsItsBodies(c, tails, docs, rest);
    AllRan(host, Prepared(c + JoinTails(tails), InputOf(docs) + rest), w, 0);
  }
}
