/**
 From a line to the bodies of its heredocs: `collect_heredoc_bodies` reads them from the input
 and `execute_script_file` distributes them over the segments of the line
 (section 2.7.4 of POSIX.1-2017 XCU Shell Command Language).
 */
module HeredocBodies {
  import opened Text
  import opened Runs
  import opened QuoteStates
  import opened CommandLine
  import opened Heredocs
  import opened RedirectionPass

  // ---- Collecting bodies ----

  function StripTabs(line: string): string {
    if line != "" && line[0] == '\t' then StripTabs(line[1..]) else line
  }

  /** The line as the marker compares and keeps it. */
  function Seen(h: PendingHeredoc, line: string): string {
    if h.stripTabs then StripTabs(line) else line
  }

  /** What reading the bodies of some markers did: the markers, the lines left, and success. */
  datatype Collected = Collected(pending: seq<PendingHeredoc>, rest: seq<string>, ok: bool)

  /** The body of one marker and the lines after its delimiter line; None when the input ends first. */
  function ReadBody(h: PendingHeredoc, lines: seq<string>): Option<(string, seq<string>)>
    decreases |lines|
  {
    if lines == [] then None
    else if Seen(h, lines[0]) == h.delim then Some(("", lines[1..]))
    else
      match ReadBody(h, lines[1..])
      case None => None
      case Some((body, rest)) => Some((Seen(h, lines[0]) + "\n" + body, rest))
  }

  function Collect(pending: seq<PendingHeredoc>, lines: seq<string>): Collected
    decreases |pending|
  {
    if pending == [] then Collected([], lines, true)
    else
      match ReadBody(pending[0], lines)
      case None => Collected(pending, [], false)
      case Some((body, rest)) =>
        var c := Collect(pending[1..], rest);
        Collected([pending[0].(body := body)] + c.pending, c.rest, c.ok)
  }

  class LineSource {
    var lines: seq<string>

    constructor (lines: seq<string>)
      ensures this.lines == lines
    {
      this.lines := lines;
    }

    method ReadLine() returns (ok: bool, line: string)
      modifies this
      ensures ok == (old(lines) != [])
      ensures ok ==> line == old(lines)[0] && lines == old(lines)[1..]
      ensures !ok ==> lines == []
    {
      if lines == [] { return false, ""; }
      ok, line, lines := true, lines[0], lines[1..];
    }

    /** The inner loop: lines of one body, until its delimiter. */
    method CollectOne(h: PendingHeredoc) returns (ok: bool, body: string)
      modifies this
      ensures var r := ReadBody(h, old(lines));
              && ok == r.Some?
              && (ok ==> (body, lines) == r.value)
              && (!ok ==> lines == [])
    {
      hide Seen;
      body := "";
      ghost var all := ReadBody(h, lines);
      assert all.Some? ==> "" + all.value.0 == all.value.0;
      while true
        invariant ReadBody(h, old(lines)).Some? == ReadBody(h, lines).Some?
        invariant ReadBody(h, lines).Some? ==>
                    ReadBody(h, old(lines)).value == (body + ReadBody(h, lines).value.0, ReadBody(h, lines).value.1)
        decreases |lines|
      {
        var raw;
        ok, raw := ReadLine();
        if !ok { return; }
        var test := Seen(h, raw);
        if test == h.delim {
          assert body + "" == body;
          return;
        }
        ghost var later := ReadBody(h, lines);
        assert later.Some? ==> body + (test + "\n" + later.value.0) == body + test + "\n" + later.value.0;
        body := body + test + "\n";
      }
    }

    method CollectHeredocBodies(pending: seq<PendingHeredoc>) returns (filled: seq<PendingHeredoc>, ok: bool)
      modifies this
      ensures Collected(filled, lines, ok) == Collect(pending, old(lines))
    {
      hide ReadBody;
      filled := [];
      var i := 0;
      assert pending[0..] == pending;
      while i < |pending|
        invariant 0 <= i <= |pending|
        invariant var c := Collect(pending[i..], lines);
                  Collected(filled + c.pending, c.rest, c.ok) == Collect(pending, old(lines))
      {
        assert pending[i..][1..] == pending[i + 1..];
        ghost var later := Collect(pending[i..], lines);
        var body;
        ok, body := CollectOne(pending[i]);
        if !ok { return filled + pending[i..], false; }
        ghost var c := Collect(pending[i + 1..], lines);
        assert filled + ([pending[i].(body := body)] + c.pending) == filled + [pending[i].(body := body)] + c.pending;
        filled := filled + [pending[i].(body := body)];
        i := i + 1;
      }
      assert pending[i..] == [] && filled + [] == filled;
      return filled, true;
    }
  }

  /** What the writer puts in the input for one marker: body lines and a delimiter line. */
  datatype Document = Document(lines: seq<string>, last: string)

  predicate WrittenFor(d: Document, h: PendingHeredoc) {
    && Seen(h, d.last) == h.delim
    && forall i :: 0 <= i < |d.lines| ==> Seen(h, d.lines[i]) != h.delim
  }

  function BodyOf(lines: seq<string>, h: PendingHeredoc): string {
    if lines == [] then "" else Seen(h, lines[0]) + "\n" + BodyOf(lines[1..], h)
  }

  function InputOf(docs: seq<Document>): seq<string> {
    if docs == [] then [] else docs[0].lines + [docs[0].last] + InputOf(docs[1..])
  }

  predicate WrittenForAll(docs: seq<Document>, pending: seq<PendingHeredoc>) {
    |docs| == |pending| && forall i :: 0 <= i < |docs| ==> WrittenFor(docs[i], pending[i])
  }

  function WithBodies(pending: seq<PendingHeredoc>, docs: seq<Document>): seq<PendingHeredoc>
    requires |docs| == |pending|
  {
    if pending == [] then []
    else [pending[0].(body := BodyOf(docs[0].lines, pending[0]))] + WithBodies(pending[1..], docs[1..])
  }

  lemma {:induction false} ReadsOneDocument(h: PendingHeredoc, lines: seq<string>, last: string, rest: seq<string>)
    requires WrittenFor(Document(lines, last), h)
    ensures ReadBody(h, lines + [last] + rest) == Some((BodyOf(lines, h), rest))
    decreases |lines|
  {
    hide Seen;
    var all := lines + [last] + rest;
    if lines == [] {
      assert all[1..] == rest;
    } else {
      assert all[1..] == lines[1..] + [last] + rest;
      ReadsOneDocument(h, lines[1..], last, rest);
    }
  }

  /** Collection reads exactly the written bodies, tabs stripped for `<<-`, and leaves the rest. */
  lemma {:induction false} CollectsWritten(pending: seq<PendingHeredoc>, docs: seq<Document>, rest: seq<string>)
    requires WrittenForAll(docs, pending)
    ensures Collect(pending, InputOf(docs) + rest) == Collected(WithBodies(pending, docs), rest, true)
    decreases |pending|
  {
    hide ReadBody, BodyOf;
    if pending == [] {
      assert [] + rest == rest;
    } else {
      var d := docs[0];
      var later := InputOf(docs[1..]) + rest;
      assert InputOf(docs) + rest == d.lines + [d.last] + later;
      assert d == Document(d.lines, d.last);
      ReadsOneDocument(pending[0], d.lines, d.last, later);
      CollectsWritten(pending[1..], docs[1..], rest);
    }
  }

  // ---- The scan of a joined line ----

  /** The marker at `t` ends inside `t`: its delimiter starts there and a quoted one is closed. */
  predicate MarkerInside(t: string)
    requires "<<" <= t
  {
    var b := DelimStart(t);
    && b < |t|
    && (QuotedDelim(t) ==> RunOut(t[b + 1..], {t[b]}) < |t| - b - 1)
  }

  /** The scan of `t` from state `q` ends outside quotes, with every delimiter inside `t`. */
  predicate ScanCloses(t: string, q: Quotes)
    decreases |t|
  {
    if t == "" then q == UNQUOTED
    else if IsBoundary(q, t[0]) || q.Active() || !("<<" <= t) then ScanCloses(t[1..], Toggle(q, t[0]))
    else MarkerInside(t) && ScanCloses(t[ReadMarker(t).len..], q)
  }

  /** Nothing follows, or a blank does: no word goes on. */
  predicate Parted(u: string) {
    u == "" || u[0] == ' ' || u[0] == '\t'
  }

  /** Nothing follows, or a blank or a pipe does: no plain delimiter goes on. */
  predicate Ends(u: string) {
    Parted(u) || u[0] == '|'
  }

  lemma {:induction false} RunInExtends(t: string, u: string, cs: set<char>)
    requires RunIn(t, cs) < |t|
    ensures RunIn(t + u, cs) == RunIn(t, cs)
    decreases |t|
  {
    assert (t + u)[1..] == t[1..] + u;
    if t[0] in cs { RunInExtends(t[1..], u, cs); }
  }

  lemma {:induction false} RunOutExtends(t: string, u: string, cs: set<char>)
    requires RunOut(t, cs) < |t| || u == "" || u[0] in cs
    ensures RunOut(t + u, cs) == RunOut(t, cs)
    decreases |t|
  {
    if t == "" {
      assert t + u == u;
    } else {
      assert (t + u)[1..] == t[1..] + u;
      if t[0] !in cs { RunOutExtends(t[1..], u, cs); }
    }
  }

  lemma DelimStartExtends(t: string, u: string)
    requires "<<" <= t && DelimStart(t) < |t|
    ensures "<<" <= t + u && DelimStart(t + u) == DelimStart(t)
  {
    var a := if |t| > 2 && t[2] == '-' then 3 else 2;
    assert (t + u)[a..] == t[a..] + u;
    hide RunIn;
    RunInExtends(t[a..], u, BLANKS);
  }

  lemma SlicesOfConcat(t: string, u: string, b: nat, e: nat)
    requires b <= e <= |t|
    ensures (t + u)[b..e] == t[b..e] && (t + u)[b..] == t[b..] + u
  {
  }

  lemma SameDelimKind(t: string, u: string)
    requires "<<" <= t && DelimStart(t) < |t|
    ensures "<<" <= t + u && QuotedDelim(t + u) == QuotedDelim(t) && StripFlag(t + u) == StripFlag(t)
    ensures DelimStart(t + u) == DelimStart(t)
  {
    DelimStartExtends(t, u);
    hide DelimStart;
  }

  lemma QuotedRunExtends(t: string, u: string, b: nat)
    requires b < |t| && RunOut(t[b + 1..], {t[b]}) < |t| - b - 1
    ensures var k := RunOut(t[b + 1..], {t[b]});
            RunOut((t + u)[b + 1..], {t[b]}) == k && (t + u)[b + 1..b + 1 + k] == t[b + 1..b + 1 + k]
  {
    SlicesOfConcat(t, u, b + 1, |t|);
    RunOutExtends(t[b + 1..], u, {t[b]});
    hide RunOut;
    SlicesOfConcat(t, u, b + 1, b + 1 + RunOut(t[b + 1..], {t[b]}));
  }

  lemma QuotedMarkerExtends(t: string, u: string)
    requires "<<" <= t && MarkerInside(t) && QuotedDelim(t)
    ensures "<<" <= t + u && ReadMarker(t + u) == ReadMarker(t)
  {
    hide RunOut;
    SameDelimKind(t, u);
    QuotedRunExtends(t, u, DelimStart(t));
    hide DelimStart, QuotedDelim;
    assert (t + u)[DelimStart(t)] == t[DelimStart(t)];
  }

  lemma PlainMarkerExtends(t: string, u: string)
    requires "<<" <= t && MarkerInside(t) && !QuotedDelim(t) && Ends(u)
    ensures "<<" <= t + u && ReadMarker(t + u) == ReadMarker(t)
  {
    var b := DelimStart(t);
    SameDelimKind(t, u);
    hide DelimStart, QuotedDelim;
    SlicesOfConcat(t, u, b, |t|);
    RunOutExtends(t[b..], u, DELIM_STOPS);
    hide RunOut;
    var k := RunOut(t[b..], DELIM_STOPS);
    SlicesOfConcat(t, u, b, b + k);
  }

  lemma MarkerExtends(t: string, u: string)
    requires "<<" <= t && MarkerInside(t) && Ends(u)
    ensures "<<" <= t + u && ReadMarker(t + u) == ReadMarker(t)
  {
    hide ReadMarker, QuotedDelim, MarkerInside;
    if QuotedDelim(t) { QuotedMarkerExtends(t, u); } else { PlainMarkerExtends(t, u); }
  }

  lemma ScanUnfoldPlain(t: string, q: Quotes)
    requires t != "" && (IsBoundary(q, t[0]) || q.Active() || !("<<" <= t))
    ensures Scan(t, q) == Scan(t[1..], Toggle(q, t[0]))
  {
  }

  lemma ScanUnfoldMarker(t: string, q: Quotes)
    requires "<<" <= t && !q.Active()
    ensures var m := ReadMarker(t);
            Scan(t, q) == (if m.delim != "" then [Pending(m)] else []) + Scan(t[m.len..], q)
  {
    hide ReadMarker;
  }

  /** A part on which the scan closes contributes exactly its own markers. */
  lemma {:induction false} ScanAppend(t: string, u: string, q: Quotes)
    requires ScanCloses(t, q) && Ends(u)
    ensures Scan(t + u, q) == Scan(t, q) + Scan(u, UNQUOTED)
    decreases |t|
  {
    hide ReadMarker, Scan, MarkerInside;
    if t == "" {
      assert t + u == u;
      ScanNothing(q);
    } else if IsBoundary(q, t[0]) || q.Active() || !("<<" <= t) {
      assert (t + u)[1..] == t[1..] + u;
      assert IsBoundary(q, t[0]) || q.Active() || !("<<" <= t + u);
      ScanUnfoldPlain(t, q);
      ScanUnfoldPlain(t + u, q);
      ScanAppend(t[1..], u, Toggle(q, t[0]));
    } else {
      var m := ReadMarker(t);
      MarkerExtends(t, u);
      assert (t + u)[m.len..] == t[m.len..] + u;
      ScanUnfoldMarker(t, q);
      ScanUnfoldMarker(t + u, q);
      ScanAppend(t[m.len..], u, q);
      var first := if m.delim != "" then [Pending(m)] else [];
      assert first + (Scan(t[m.len..], q) + Scan(u, UNQUOTED)) == first + Scan(t[m.len..], q) + Scan(u, UNQUOTED);
    }
  }

  lemma ScanNothing(q: Quotes)
    ensures Scan("", q) == []
  {
  }

  lemma OperatorHasNoMarker(op: OperatorType, u: string)
    requires op != NoOp
    ensures Scan(OperatorText(op) + u, UNQUOTED) == Scan(u, UNQUOTED)
  {
    PlainIsNeutral(OperatorText(op));
    hide Scan;
    ScanSkipsNeutral(OperatorText(op), u, UNQUOTED);
  }

  /** The markers of the segments, each scanned on its own. */
  function SegmentMarkers(segments: seq<Segment>): seq<PendingHeredoc> {
    if segments == [] then [] else Scan(segments[0].command, UNQUOTED) + SegmentMarkers(segments[1..])
  }

  predicate TailsClose(tails: seq<Tail>) {
    forall i :: 0 <= i < |tails| ==> tails[i].op != NoOp && ScanCloses(tails[i].command, UNQUOTED)
  }

  /** Scanning the whole line is scanning its commands one by one. */
  lemma {:induction false} ScanJoined(c: string, op: OperatorType, tails: seq<Tail>)
    requires ScanCloses(c, UNQUOTED) && TailsClose(tails)
    ensures Scan(c + JoinTails(tails), UNQUOTED) == SegmentMarkers([Segment(c, op, [])] + TailSegments(tails))
    decreases |tails|
  {
    hide Scan, ScanCloses, OperatorText;
    var segments := [Segment(c, op, [])] + TailSegments(tails);
    assert segments[1..] == TailSegments(tails);
    JoinedParted(tails);
    ScanAppend(c, JoinTails(tails), UNQUOTED);
    if tails == [] {
      ScanNothing(UNQUOTED);
    } else {
      var d := tails[0].command;
      OperatorHasNoMarker(tails[0].op, d + JoinTails(tails[1..]));
      ScanJoined(d, tails[0].op, tails[1..]);
    }
  }

  lemma JoinedParted(tails: seq<Tail>)
    requires TailsClose(tails)
    ensures Parted(JoinTails(tails))
  {
  }

  // ---- Distribution over segments ----

  function Drop(bodies: seq<PendingHeredoc>, n: nat): seq<PendingHeredoc> {
    if n <= |bodies| then bodies[n..] else []
  }

  /** Each segment takes as many bodies as its own scan finds markers, in order. */
  function Distribute(segments: seq<Segment>, bodies: seq<PendingHeredoc>): seq<Segment>
    decreases |segments|
  {
    if segments == [] then [] else
      var p := Scan(segments[0].command, UNQUOTED);
      [segments[0].(heredocs := Fill(p, bodies))] + Distribute(segments[1..], Drop(bodies, |p|))
  }

  lemma {:induction false} FillLength(pending: seq<PendingHeredoc>, bodies: seq<PendingHeredoc>)
    ensures |Fill(pending, bodies)| == |pending|
    decreases |pending|
  {
    if pending != [] { FillLength(pending[1..], if bodies == [] then [] else bodies[1..]); }
  }

  lemma {:induction false} ScanBodiesEmpty(t: string, q: Quotes)
    ensures forall i :: 0 <= i < |Scan(t, q)| ==> Scan(t, q)[i].body == ""
    decreases |t|
  {
    hide ReadMarker;
    if t == "" {
    } else if IsBoundary(q, t[0]) {
      ScanBodiesEmpty(t[1..], Toggle(q, t[0]));
    } else if !q.Active() && "<<" <= t {
      ScanBodiesEmpty(t[ReadMarker(t).len..], q);
    } else {
      ScanBodiesEmpty(t[1..], q);
    }
  }

  /** The inner loop: writes bodies into the markers of one segment. */
  method FillOne(pending: seq<PendingHeredoc>, all: seq<PendingHeredoc>, start: nat)
    returns (filled: seq<PendingHeredoc>, next: nat)
    requires start <= |all|
    requires forall i :: 0 <= i < |pending| ==> pending[i].body == ""
    ensures filled == Fill(pending, all[start..])
    ensures next <= |all| && all[next..] == Drop(all[start..], |pending|)
  {
    hide Fill;
    ghost var bodies := all[start..];
    filled := pending;
    next := start;
    var k := 0;
    while k < |pending| && next < |all|
      invariant 0 <= k <= |pending| && next == start + k <= |all|
      invariant |filled| == |pending| && filled[k..] == pending[k..]
      invariant forall j :: 0 <= j < k ==> filled[j] == pending[j].(body := bodies[j].body)
    {
      assert filled[k] == filled[k..][0] == pending[k];
      filled := filled[k := filled[k].(body := all[next].body)];
      k, next := k + 1, next + 1;
    }
    FillLength(pending, bodies);
    forall j | 0 <= j < |pending| ensures filled[j] == Fill(pending, bodies)[j] {
      FillAt(pending, bodies, j);
      if j >= k { assert filled[j] == filled[k..][j - k]; }
    }
  }

  method DistributeBodies(segments: seq<Segment>, all: seq<PendingHeredoc>) returns (r: seq<Segment>)
    ensures r == Distribute(segments, all)
  {
    hide Scan, Fill;
    r := [];
    var next := 0;
    var i := 0;
    assert segments[0..] == segments && all[0..] == all;
    while i < |segments|
      invariant 0 <= i <= |segments| && 0 <= next <= |all|
      invariant r + Distribute(segments[i..], all[next..]) == Distribute(segments, all)
    {
      assert segments[i..][1..] == segments[i + 1..];
      var pending := ScanPendingHeredocs(segments[i].command);
      ScanBodiesEmpty(segments[i].command, UNQUOTED);
      ghost var before := next;
      var filled;
      filled, next := FillOne(pending, all, next);
      ghost var later := Distribute(segments[i + 1..], all[next..]);
      assert r + ([segments[i].(heredocs := filled)] + later) == r + [segments[i].(heredocs := filled)] + later;
      r := r + [segments[i].(heredocs := filled)];
      i := i + 1;
    }
    assert segments[i..] == [] && r + [] == r;
  }

  // ---- From the line to its segments' bodies ----

  /** All heredocs of the segments, left to right. */
  function AllHeredocs(segments: seq<Segment>): seq<PendingHeredoc> {
    if segments == [] then [] else segments[0].heredocs + AllHeredocs(segments[1..])
  }

  lemma {:induction false} FillSplit(a: seq<PendingHeredoc>, b: seq<PendingHeredoc>, bodies: seq<PendingHeredoc>)
    ensures Fill(a + b, bodies) == Fill(a, bodies) + Fill(b, Drop(bodies, |a|))
    decreases |a|
  {
    if a == [] {
      assert a + b == b;
    } else {
      assert a + b == [a[0]] + (a[1..] + b);
      var rest := if bodies == [] then [] else bodies[1..];
      FillCons(a[0], a[1..] + b, bodies);
      assert a == [a[0]] + a[1..];
      FillCons(a[0], a[1..], bodies);
      FillSplit(a[1..], b, rest);
      assert Drop(rest, |a| - 1) == Drop(bodies, |a|);
      hide Fill;
    }
  }

  lemma {:induction false} DistributesAll(segments: seq<Segment>, bodies: seq<PendingHeredoc>)
    ensures AllHeredocs(Distribute(segments, bodies)) == Fill(SegmentMarkers(segments), bodies)
    decreases |segments|
  {
    hide Scan, Fill;
    if segments == [] {
      NothingToFill(bodies);
    } else {
      var p := Scan(segments[0].command, UNQUOTED);
      var first := segments[0].(heredocs := Fill(p, bodies));
      var rest := Distribute(segments[1..], Drop(bodies, |p|));
      DistributesAll(segments[1..], Drop(bodies, |p|));
      FillSplit(p, SegmentMarkers(segments[1..]), bodies);
      assert ([first] + rest)[1..] == rest;
    }
  }

  lemma {:induction false} KeepsCommands(segments: seq<Segment>, bodies: seq<PendingHeredoc>)
    ensures var r := Distribute(segments, bodies);
            && |r| == |segments|
            && forall i :: 0 <= i < |r| ==>
                 && r[i].command == segments[i].command && r[i].op == segments[i].op
                 && |r[i].heredocs| == |Scan(segments[i].command, UNQUOTED)|
    decreases |segments|
  {
    hide Scan, Fill;
    if segments != [] {
      var p := Scan(segments[0].command, UNQUOTED);
      FillLength(p, bodies);
      KeepsCommands(segments[1..], Drop(bodies, |p|));
    }
  }

  lemma {:induction false} FillWithBodies(pending: seq<PendingHeredoc>, docs: seq<Document>)
    requires |docs| == |pending|
    ensures Fill(pending, WithBodies(pending, docs)) == WithBodies(pending, docs)
    decreases |pending|
  {
    hide BodyOf;
    if pending != [] { FillWithBodies(pending[1..], docs[1..]); }
  }

  /**
   The whole way of a script line: scan, collect, parse, distribute. When every document is
   written for its marker, the line yields its commands, each with as many heredocs as it
   declares; read left to right these are the markers with exactly the bodies written for them,
   and the rest of the input is untouched.
   */
  lemma LineGetsItsBodies(c: string, tails: seq<Tail>, docs: seq<Document>, rest: seq<string>)
    requires Whole(c) && WholeTails(tails) && ScanCloses(c, UNQUOTED) && TailsClose(tails)
    requires WrittenForAll(docs, Scan(c + JoinTails(tails), UNQUOTED))
    ensures var line := c + JoinTails(tails);
            var collected := Collect(Scan(line, UNQUOTED), InputOf(docs) + rest);
            var segments := Distribute(Parse(line), collected.pending);
            && collected.ok && collected.rest == rest
            && |segments| == 1 + |tails|
            && AllHeredocs(segments) == WithBodies(Scan(line, UNQUOTED), docs)
            && forall i :: 0 <= i < |segments| ==>
                 && segments[i].command == (if i == 0 then c else tails[i - 1].command)
                 && |segments[i].heredocs| == |Scan(segments[i].command, UNQUOTED)|
  {
    hide Scan, Parse, Whole, ScanCloses, Fill, WithBodies, Collect, Distribute, JoinTails;
    var line := c + JoinTails(tails);
    var pending := Scan(line, UNQUOTED);
    var segments := [Segment(c, NoOp, [])] + TailSegments(tails);
    CollectsWritten(pending, docs, rest);
    ParseJoined(c, tails);
    ScanJoined(c, NoOp, tails);
    DistributesAll(segments, WithBodies(pending, docs));
    FillWithBodies(pending, docs);
    KeepsCommands(segments, WithBodies(pending, docs));
    TailSegmentsAre(tails);
  }

  lemma {:induction false} TailSegmentsAre(tails: seq<Tail>)
    ensures |TailSegments(tails)| == |tails|
    ensures forall i :: 0 <= i < |tails| ==> TailSegments(tails)[i].command == tails[i].command
    decreases |tails|
  {
    if tails != [] { TailSegmentsAre(tails[1..]); }
  }

  // ---- Up to the redirections of each command ----

  lemma FillTwice(pending: seq<PendingHeredoc>, bodies: seq<PendingHeredoc>)
    ensures Fill(pending, Fill(pending, bodies)) == Fill(pending, bodies)
  {
    hide Fill;
    var once := Fill(pending, bodies);
    FillLength(pending, bodies);
    FillLength(pending, once);
    forall k | 0 <= k < |pending| ensures Fill(pending, once)[k] == once[k] {
      FillAt(pending, bodies, k);
      FillAt(pending, once, k);
    }
  }

  // ---- Bodies as written ----

  function Tabs(n: nat): string {
    if n == 0 then "" else [9 as char] + Tabs(n - 1)
  }

  /** A body line: its leading tabs and the rest. */
  datatype BodyLine = BodyLine(tabs: nat, text: string)

  function Raw(ls: seq<BodyLine>): seq<string> {
    if ls == [] then [] else [Tabs(ls[0].tabs) + ls[0].text] + Raw(ls[1..])
  }

  /** The body, each line ended by a newline: with its tabs, or without. */
  function Body(ls: seq<BodyLine>, strip: bool): string {
    if ls == [] then ""
    else (if strip then ls[0].text else Tabs(ls[0].tabs) + ls[0].text) + ([10 as char] + Body(ls[1..], strip))
  }

  predicate StartsPlain(t: string) {
    t == "" || t[0] as int != 9
  }

  lemma {:induction false} TabsAreStripped(n: nat, t: string)
    requires StartsPlain(t)
    ensures StripTabs(Tabs(n) + t) == t
    decreases n
  {
    if n == 0 {
      assert Tabs(n) + t == t;
    } else {
      assert (Tabs(n) + t)[1..] == Tabs(n - 1) + t;
      TabsAreStripped(n - 1, t);
    }
  }

  lemma {:induction false} BodyIsWritten(ls: seq<BodyLine>, h: PendingHeredoc)
    requires forall i :: 0 <= i < |ls| ==> StartsPlain(ls[i].text)
    ensures BodyOf(Raw(ls), h) == Body(ls, h.stripTabs)
    decreases |ls|
  {
    hide StripTabs, Tabs;
    if ls != [] {
      TabsAreStripped(ls[0].tabs, ls[0].text);
      assert forall i :: 0 <= i < |ls[1..]| ==> ls[1..][i] == ls[i + 1];
      BodyIsWritten(ls[1..], h);
      assert Raw(ls)[1..] == Raw(ls[1..]);
    }
  }

  /**
   A document is read up to the first line that is the delimiter, leading tabs not counted for `<<-`: the
   marker's body is the lines before it, each with its newline, and without those tabs for `<<-`.
   */
  lemma DocumentIsRead(h: PendingHeredoc, ls: seq<BodyLine>, tabs: nat, rest: seq<string>)
    requires forall i :: 0 <= i < |ls| ==> StartsPlain(ls[i].text)
    requires StartsPlain(h.delim) && (!h.stripTabs ==> tabs == 0)
    requires forall i :: 0 <= i < |ls| ==>
               if h.stripTabs then ls[i].text != h.delim else Tabs(ls[i].tabs) + ls[i].text != h.delim
    ensures Collect([h], Raw(ls) + [Tabs(tabs) + h.delim] + rest) ==
            Collected([h.(body := Body(ls, h.stripTabs))], rest, true)
  {
    hide StripTabs, Body, ReadBody, BodyOf;
    var last := Tabs(tabs) + h.delim;
    RawLines(ls);
    TabsAreStripped(tabs, h.delim);
    assert Tabs(0) + h.delim == h.delim;
    forall i | 0 <= i < |ls| ensures Seen(h, Raw(ls)[i]) != h.delim { TabsAreStripped(ls[i].tabs, ls[i].text); }
    ReadsOneDocument(h, Raw(ls), last, rest);
    BodyIsWritten(ls, h);
    assert [h][1..] == [] && Collect([], rest) == Collected([], rest, true);
  }

  lemma {:induction false} RawLines(ls: seq<BodyLine>)
    ensures |Raw(ls)| == |ls| && forall i :: 0 <= i < |ls| ==> Raw(ls)[i] == Tabs(ls[i].tabs) + ls[i].text
  {
    hide Tabs;
    if ls != [] {
      RawLines(ls[1..]);
      assert forall i :: 1 <= i < |ls| ==> ls[i] == ls[1..][i - 1];
    }
  }
}
