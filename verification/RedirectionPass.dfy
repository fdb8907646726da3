/**
 The redirection pass of `parse_redirections`, and its agreement with the scan for heredoc
 markers: bodies are matched to markers by position, so the two must see the same markers.
 */
module RedirectionPass {
  import opened Text
  import opened Runs
  import opened QuoteStates
  import opened CommandLine
  import opened Heredocs

  datatype Redirection = Redirection(
    fd: int, filename: string, append: bool, dupToStdout: bool,
    isHeredoc: bool, heredoc: PendingHeredoc)

  const NO_HEREDOC := PendingHeredoc("", false, true, "")

  function FileRedirection(fd: int, filename: string, append: bool): Redirection {
    Redirection(fd, filename, append, false, false, NO_HEREDOC)
  }

  /** What one step of the pass does: keep a character, record a redirection, report an operator without operand. */
  datatype Event = Keep(c: char) | Redirect(r: Redirection) | Missing(operator: string)

  /** The operand after a file operator: spaces, then everything up to a blank. */
  function TargetLength(t: string): (n: nat)
    ensures n <= |t|
  {
    var a := RunIn(t, {' '});
    a + RunOut(t[a..], BLANKS)
  }

  function TargetName(t: string): string {
    Trim(t[RunIn(t, {' '})..TargetLength(t)])
  }

  /** One step: how far it reads, what it does, and the bodies left. */
  datatype Reading = Reading(len: nat, events: seq<Event>, bodies: seq<PendingHeredoc>)

  function ReadFile(t: string, op: string, fd: int, append: bool, bodies: seq<PendingHeredoc>): Reading
    requires op <= t
  {
    var operand := t[|op|..];
    Reading(|op| + TargetLength(operand),
            if TargetName(operand) != "" then [Redirect(FileRedirection(fd, TargetName(operand), append))]
            else [Missing(op)],
            bodies)
  }

  function ReadHeredoc(t: string, bodies: seq<PendingHeredoc>): Reading
    requires "<<" <= t
  {
    var m := ReadMarker(t);
    var h := Pending(m).(body := if bodies == [] then "" else bodies[0].body);
    Reading(m.len,
            (if m.delim == "" then [Missing("<<")] else []) + [Redirect(Redirection(0, "", false, false, true, h))],
            if bodies == [] then [] else bodies[1..])
  }

  function ReadUnquoted(t: string, bodies: seq<PendingHeredoc>): (r: Reading)
    requires t != ""
    ensures 1 <= r.len <= |t|
  {
    if "2>&1" <= t then Reading(4, [Redirect(Redirection(2, "", false, true, false, NO_HEREDOC))], bodies)
    else if "2>" <= t then ReadFile(t, "2>", 2, false, bodies)
    else if ">>" <= t then ReadFile(t, ">>", 1, true, bodies)
    else if ">" <= t then ReadFile(t, ">", 1, false, bodies)
    else if "<<" <= t then ReadHeredoc(t, bodies)
    else if "<" <= t then ReadFile(t, "<", 0, false, bodies)
    else Reading(1, [Keep(t[0])], bodies)
  }

  function Events(t: string, q: Quotes, bodies: seq<PendingHeredoc>): seq<Event>
    decreases |t|
  {
    if t == "" then []
    else if IsBoundary(q, t[0]) then [Keep(t[0])] + Events(t[1..], Toggle(q, t[0]), bodies)
    else if q.Active() then [Keep(t[0])] + Events(t[1..], q, bodies)
    else
      var r := ReadUnquoted(t, bodies);
      r.events + Events(t[r.len..], q, r.bodies)
  }

  function RedirectionOf(e: Event): seq<Redirection> {
    if e.Redirect? then [e.r] else []
  }

  function KeptOf(e: Event): string {
    if e.Keep? then [e.c] else ""
  }

  function MissingOf(e: Event): seq<string> {
    if e.Missing? then [e.operator] else []
  }

  function Redirections(events: seq<Event>): seq<Redirection> {
    if events == [] then [] else RedirectionOf(events[0]) + Redirections(events[1..])
  }

  function Remaining(events: seq<Event>): string {
    if events == [] then "" else KeptOf(events[0]) + Remaining(events[1..])
  }

  function MissingOperands(events: seq<Event>): seq<string> {
    if events == [] then [] else MissingOf(events[0]) + MissingOperands(events[1..])
  }

  // ---- The original's loop ----

  lemma {:induction false} RedirectionsSnoc(done: seq<Event>, e: Event)
    ensures Redirections(done + [e]) == Redirections(done) + RedirectionOf(e)
    decreases |done|
  {
    hide RedirectionOf;
    if done == [] {
      assert [] + [e] == [e] && [e][1..] == [];
      assert RedirectionOf(e) + [] == RedirectionOf(e);
    } else {
      assert (done + [e])[1..] == done[1..] + [e];
      RedirectionsSnoc(done[1..], e);
      var first, rest := RedirectionOf(done[0]), Redirections(done[1..]);
      assert first + (rest + RedirectionOf(e)) == first + rest + RedirectionOf(e);
    }
  }

  lemma {:induction false} RemainingSnoc(done: seq<Event>, e: Event)
    ensures Remaining(done + [e]) == Remaining(done) + KeptOf(e)
    decreases |done|
  {
    hide KeptOf;
    if done == [] {
      assert [] + [e] == [e] && [e][1..] == [];
      assert KeptOf(e) + "" == KeptOf(e);
    } else {
      assert (done + [e])[1..] == done[1..] + [e];
      RemainingSnoc(done[1..], e);
      assert KeptOf(done[0]) + (Remaining(done[1..]) + KeptOf(e)) == KeptOf(done[0]) + Remaining(done[1..]) + KeptOf(e);
    }
  }

  lemma {:induction false} MissingSnoc(done: seq<Event>, e: Event)
    ensures MissingOperands(done + [e]) == MissingOperands(done) + MissingOf(e)
    decreases |done|
  {
    hide MissingOf;
    if done == [] {
      assert [] + [e] == [e] && [e][1..] == [];
      assert MissingOf(e) + [] == MissingOf(e);
    } else {
      assert (done + [e])[1..] == done[1..] + [e];
      MissingSnoc(done[1..], e);
      var first, rest := MissingOf(done[0]), MissingOperands(done[1..]);
      assert first + (rest + MissingOf(e)) == first + rest + MissingOf(e);
    }
  }

  /** Spaces, then the target up to a blank, trimmed. */
  method ReadTarget(s: string, start: nat) returns (i: nat, name: string)
    requires start <= |s|
    ensures i == start + TargetLength(s[start..]) && name == TargetName(s[start..])
  {
    hide RunIn, RunOut, Trim;
    ghost var operand := s[start..];
    var first := SkipIn(s, start, {' '});
    assert operand[first - start..] == s[first..];
    i, name := TakeOut(s, first, BLANKS);
    assert operand[first - start..i - start] == s[first..i];
    name := Trim(name);
  }

  /** The `Command` under construction; `done` lists what has been recorded so far. */
  class CommandBuilder {
    var redirections: seq<Redirection>
    var remaining: string
    var missing: seq<string>
    ghost var done: seq<Event>

    ghost predicate Valid()
      reads this
    {
      redirections == Redirections(done) && remaining == Remaining(done) && missing == MissingOperands(done)
    }

    constructor ()
      ensures Valid() && done == []
    {
      redirections, remaining, missing, done := [], "", [], [];
    }

    method Record(e: Event)
      requires Valid()
      modifies this
      ensures Valid() && done == old(done) + [e]
    {
      RedirectionsSnoc(done, e);
      RemainingSnoc(done, e);
      MissingSnoc(done, e);
      match e {
        case Keep(c) => remaining := remaining + [c];
        case Redirect(r) => redirections := redirections + [r];
        case Missing(operator) => missing := missing + [operator];
      }
      done := done + [e];
    }

    /** A file operator of the given length at index `start`; returns the index after its operand. */
    method FileOperand(s: string, start: nat, op: string, fd: int, append: bool,
                       ghost bodies: seq<PendingHeredoc>) returns (i: nat)
      requires Valid() && start <= |s| && op <= s[start..]
      modifies this
      ensures Valid()
      ensures var r := ReadFile(s[start..], op, fd, append, bodies);
              i == start + r.len && done == old(done) + r.events && bodies == r.bodies
    {
      hide TargetLength, TargetName;
      assert s[start..][|op|..] == s[start + |op|..];
      var name: string;
      i, name := ReadTarget(s, start + |op|);
      if name != "" {
        Record(Redirect(FileRedirection(fd, name, append)));
      } else {
        Record(Missing(op));
      }
    }

    /** A heredoc marker at index `start`, with the body of that index when there is one. */
    method HeredocMarker(s: string, start: nat, bodies: seq<PendingHeredoc>, bodyIndex: nat) returns (i: nat, next: nat)
      requires Valid() && start <= |s| && "<<" <= s[start..] && bodyIndex <= |bodies|
      modifies this
      ensures Valid() && next <= |bodies|
      ensures var r := ReadHeredoc(s[start..], bodies[bodyIndex..]);
              i == start + r.len && done == old(done) + r.events && bodies[next..] == r.bodies
    {
      hide ReadMarker;
      var m := ReadMarkerLoop(s, start);
      if m.delim == "" { Record(Missing("<<")); }
      var h := Pending(m);
      next := bodyIndex;
      if bodyIndex < |bodies| {
        h := h.(body := bodies[bodyIndex].body);
        next := bodyIndex + 1;
      }
      Record(Redirect(Redirection(0, "", false, false, true, h)));
      i := start + m.len;
    }

    /** The operator or plain character at index `start`, outside quotes. */
    method UnquotedStep(s: string, start: nat, bodies: seq<PendingHeredoc>, bodyIndex: nat) returns (i: nat, next: nat)
      requires Valid() && start < |s| && bodyIndex <= |bodies|
      modifies this
      ensures Valid() && next <= |bodies|
      ensures var r := ReadUnquoted(s[start..], bodies[bodyIndex..]);
              i == start + r.len && done == old(done) + r.events && bodies[next..] == r.bodies
    {
      hide ReadFile, ReadHeredoc, Redirections, Remaining, MissingOperands;
      ghost var left := bodies[bodyIndex..];
      next := bodyIndex;
      if "2>&1" <= s[start..] {
        Record(Redirect(Redirection(2, "", false, true, false, NO_HEREDOC)));
        i := start + 4;
      } else if "2>" <= s[start..] {
        i := FileOperand(s, start, "2>", 2, false, left);
      } else if ">>" <= s[start..] {
        i := FileOperand(s, start, ">>", 1, true, left);
      } else if ">" <= s[start..] {
        i := FileOperand(s, start, ">", 1, false, left);
      } else if "<<" <= s[start..] {
        i, next := HeredocMarker(s, start, bodies, bodyIndex);
      } else if "<" <= s[start..] {
        i := FileOperand(s, start, "<", 0, false, left);
      } else {
        Record(Keep(s[start]));
        i := start + 1;
      }
    }
  }

  method ParseRedirections(s: string, bodies: seq<PendingHeredoc>)
    returns (redirections: seq<Redirection>, remaining: string, missing: seq<string>)
    ensures redirections == Redirections(Events(s, UNQUOTED, bodies))
    ensures remaining == Remaining(Events(s, UNQUOTED, bodies))
    ensures missing == MissingOperands(Events(s, UNQUOTED, bodies))
  {
    hide ReadUnquoted, Redirections, Remaining, MissingOperands;
    var cmd := new CommandBuilder();
    var qs := new QuoteState();
    var i, bodyIndex := 0, 0;
    assert s[0..] == s && bodies[0..] == bodies;
    assert [] + Events(s, UNQUOTED, bodies) == Events(s, UNQUOTED, bodies);
    while i < |s|
      invariant 0 <= i <= |s| && 0 <= bodyIndex <= |bodies|
      invariant cmd.Valid()
      invariant cmd.done + Events(s[i..], qs.Fields(), bodies[bodyIndex..]) == Events(s, UNQUOTED, bodies)
    {
      ghost var t, start := s[i..], i;
      EventsStep(t, qs.Fields(), bodies[bodyIndex..], cmd.done);
      assert t[1..] == s[i + 1..];
      var boundary := qs.Consume(s[i]);
      if boundary || qs.AnyActive() {
        cmd.Record(Keep(s[i]));
        i := i + 1;
      } else {
        i, bodyIndex := cmd.UnquotedStep(s, i, bodies, bodyIndex);
        assert s[i..] == t[i - start..];
      }
    }
    assert s[i..] == "" && cmd.done + [] == cmd.done;
    return cmd.redirections, cmd.remaining, cmd.missing;
  }

  /** One unfolding of `Events`, after what has been recorded. */
  lemma EventsStep(t: string, q: Quotes, bodies: seq<PendingHeredoc>, done: seq<Event>)
    requires t != ""
    ensures IsBoundary(q, t[0]) ==>
              done + Events(t, q, bodies) == done + [Keep(t[0])] + Events(t[1..], Toggle(q, t[0]), bodies)
    ensures !IsBoundary(q, t[0]) && q.Active() ==>
              done + Events(t, q, bodies) == done + [Keep(t[0])] + Events(t[1..], q, bodies)
    ensures !IsBoundary(q, t[0]) && !q.Active() ==>
              var r := ReadUnquoted(t, bodies);
              done + Events(t, q, bodies) == done + r.events + Events(t[r.len..], q, r.bodies)
  {
    hide ReadUnquoted;
  }

  // ---- Agreement with the scan ----

  /** Reading `f` from state `q`, the scan meets no marker and ends outside quotes. */
  predicate Neutral(f: string, q: Quotes)
    decreases |f|
  {
    if f == "" then q == UNQUOTED
    else (IsBoundary(q, f[0]) || q.Active() || !("<<" <= f)) && Neutral(f[1..], Toggle(q, f[0]))
  }

  lemma {:induction false} ScanSkipsNeutral(f: string, u: string, q: Quotes)
    requires Neutral(f, q)
    requires u == "" || u[0] != '<' || f == "" || f[|f| - 1] != '<'
    ensures Scan(f + u, q) == Scan(u, UNQUOTED)
    decreases |f|
  {
    hide ReadMarker;
    if f == "" {
      assert f + u == u;
    } else {
      assert (f + u)[1..] == f[1..] + u;
      ScanSkipsNeutral(f[1..], u, Toggle(q, f[0]));
      if !IsBoundary(q, f[0]) && !q.Active() {
        assert !("<<" <= f + u);
      }
    }
  }

  /** Without quotes and without `<` a text is neutral. */
  lemma {:induction false} PlainIsNeutral(f: string)
    requires forall i :: 0 <= i < |f| ==> f[i] != '"' && f[i] != '\'' && f[i] != '<'
    ensures Neutral(f, UNQUOTED)
    decreases |f|
  {
    if f != "" { PlainIsNeutral(f[1..]); }
  }

  /** The operand read by a file operator whose text is followed by `operand`. */
  predicate NeutralOperand(operand: string) {
    Neutral(operand[..TargetLength(operand)], UNQUOTED)
  }

  /** At `t`, outside quotes: a file operand is neutral and a heredoc delimiter is not empty. */
  predicate StepAgrees(t: string)
    requires t != ""
  {
    if "2>&1" <= t then true
    else if "2>" <= t then NeutralOperand(t[2..])
    else if ">>" <= t then NeutralOperand(t[2..])
    else if ">" <= t then NeutralOperand(t[1..])
    else if "<<" <= t then ReadMarker(t).delim != ""
    else if "<" <= t then NeutralOperand(t[1..])
    else true
  }

  /** Every operator the pass meets satisfies `StepAgrees`. */
  predicate Agreeable(t: string, q: Quotes)
    decreases |t|
  {
    if t == "" then true
    else if IsBoundary(q, t[0]) || q.Active() then Agreeable(t[1..], Toggle(q, t[0]))
    else StepAgrees(t) && Agreeable(t[ReadUnquoted(t, []).len..], q)
  }

  /** `pending` with the bodies of `bodies` in order of appearance; none left means an empty body. */
  function Fill(pending: seq<PendingHeredoc>, bodies: seq<PendingHeredoc>): seq<PendingHeredoc> {
    if pending == [] then []
    else if bodies == [] then [pending[0].(body := "")] + Fill(pending[1..], [])
    else [pending[0].(body := bodies[0].body)] + Fill(pending[1..], bodies[1..])
  }

  lemma {:induction false} FillAt(pending: seq<PendingHeredoc>, bodies: seq<PendingHeredoc>, k: nat)
    requires k < |pending|
    ensures |Fill(pending, bodies)| == |pending|
    ensures Fill(pending, bodies)[k] == pending[k].(body := if k < |bodies| then bodies[k].body else "")
    decreases |pending|
  {
    var rest := if bodies == [] then [] else bodies[1..];
    if |pending| > 1 { FillAt(pending[1..], rest, if k > 0 then k - 1 else 0); }
  }

  function HeredocEntries(rs: seq<Redirection>): seq<PendingHeredoc> {
    if rs == [] then [] else EntryOf(rs[0]) + HeredocEntries(rs[1..])
  }

  function EntryOf(r: Redirection): seq<PendingHeredoc> {
    if r.isHeredoc then [r.heredoc] else []
  }

  lemma {:induction false} EntriesAppend(a: seq<Redirection>, b: seq<Redirection>)
    ensures HeredocEntries(a + b) == HeredocEntries(a) + HeredocEntries(b)
    decreases |a|
  {
    hide EntryOf;
    if a == [] {
      assert a + b == b;
    } else {
      assert (a + b)[1..] == a[1..] + b;
      EntriesAppend(a[1..], b);
    }
  }

  lemma {:induction false} RedirectionsAppend(a: seq<Event>, b: seq<Event>)
    ensures Redirections(a + b) == Redirections(a) + Redirections(b)
    decreases |a|
  {
    hide RedirectionOf;
    if a == [] {
      assert a + b == b;
    } else {
      assert (a + b)[1..] == a[1..] + b;
      RedirectionsAppend(a[1..], b);
    }
  }

  lemma {:induction false} RemainingAppend(a: seq<Event>, b: seq<Event>)
    ensures Remaining(a + b) == Remaining(a) + Remaining(b)
    decreases |a|
  {
    hide KeptOf;
    if a == [] {
      assert a + b == b;
    } else {
      assert (a + b)[1..] == a[1..] + b;
      RemainingAppend(a[1..], b);
    }
  }

  lemma {:induction false} MissingAppend(a: seq<Event>, b: seq<Event>)
    ensures MissingOperands(a + b) == MissingOperands(a) + MissingOperands(b)
    decreases |a|
  {
    hide MissingOf;
    if a == [] {
      assert a + b == b;
    } else {
      assert (a + b)[1..] == a[1..] + b;
      MissingAppend(a[1..], b);
    }
  }

  function Entries(events: seq<Event>): seq<PendingHeredoc> {
    HeredocEntries(Redirections(events))
  }

  lemma EntriesOfEvents(a: seq<Event>, b: seq<Event>)
    ensures Entries(a + b) == Entries(a) + Entries(b)
  {
    RedirectionsAppend(a, b);
    EntriesAppend(Redirections(a), Redirections(b));
  }

  lemma OneEntry(e: Event)
    ensures Entries([e]) == if e.Redirect? && e.r.isHeredoc then [e.r.heredoc] else []
  {
    assert Redirections([e]) == RedirectionOf(e) by { assert [e][1..] == []; }
    if e.Redirect? {
      assert [e.r][1..] == [];
      assert HeredocEntries([e.r]) == EntryOf(e.r) + HeredocEntries([]);
    }
  }

  lemma NeutralOperator(op: string, f: string)
    requires op == "2>" || op == ">>" || op == ">" || (op == "<" && (f == "" || f[0] != '<'))
    requires Neutral(f, UNQUOTED)
    ensures Neutral(op + f, UNQUOTED)
  {
    var t := op + f;
    assert t[|op|..] == f;
    if |op| == 2 {
      assert t[1..][1..] == f;
      assert Neutral(t[1..], UNQUOTED);
    }
  }

  lemma FileHasNoEntries(t: string, op: string, fd: int, append: bool, bodies: seq<PendingHeredoc>)
    requires op <= t
    ensures Entries(ReadFile(t, op, fd, append, bodies).events) == []
  {
    hide Entries, TargetName, TargetLength;
    OneEntry(Missing(op));
    OneEntry(Redirect(FileRedirection(fd, TargetName(t[|op|..]), append)));
  }

  lemma ScanSkipsOperator(op: string, f: string, u: string)
    requires FileSign(op, op + f + u)
    requires Neutral(f, UNQUOTED)
    requires u == "" || u[0] == ' ' || u[0] == '\t'
    ensures Scan(op + f + u, UNQUOTED) == Scan(u, UNQUOTED)
  {
    hide Scan;
    assert op == "<" && f != "" ==> (op + f + u)[1] == f[0];
    NeutralOperator(op, f);
    hide Neutral;
    ScanSkipsNeutral(op + f, u, UNQUOTED);
  }

  lemma Recompose(t: string, op: string, n: nat)
    requires op <= t && |op| + n <= |t|
    ensures t == op + t[|op|..][..n] + t[|op|..][n..]
    ensures t[|op|..][n..] == t[|op| + n..]
  {
  }

  /** A file operator of the pass; a `<` that is not the first of two. */
  predicate FileSign(op: string, t: string) {
    op == "2>" || op == ">>" || op == ">" || (op == "<" && !("<<" <= t))
  }

  /** A file operator and its operand hide nothing from the scan. */
  lemma ScanSkipsFile(t: string, op: string, fd: int, append: bool)
    requires FileSign(op, t) && op <= t
    requires NeutralOperand(t[|op|..])
    ensures var r := ReadFile(t, op, fd, append, []);
            Scan(t, UNQUOTED) == Scan(t[r.len..], UNQUOTED) && Entries(r.events) == []
  {
    hide Scan, Entries, TargetName, FileSign;
    FileHasNoEntries(t, op, fd, append, []);
    var operand := t[|op|..];
    OperandStops(operand);
    hide TargetLength, Neutral;
    var n := TargetLength(operand);
    Recompose(t, op, n);
    ScanSkipsOperator(op, operand[..n], operand[n..]);
  }

  lemma OperandStops(operand: string)
    ensures var n := TargetLength(operand); n < |operand| ==> operand[n] == ' ' || operand[n] == '\t'
  {
  }

  lemma ReadsMarker(t: string, bodies: seq<PendingHeredoc>)
    requires "<<" <= t
    ensures ReadUnquoted(t, bodies) == ReadHeredoc(t, bodies)
  {
    hide ReadHeredoc, ReadFile;
    assert t[0] == '<';
  }

  /** What a step that reads no marker does, whatever the bodies. */
  lemma ReadsOther(t: string, bodies: seq<PendingHeredoc>)
    requires t != "" && !("<<" <= t)
    ensures var r := ReadUnquoted(t, bodies);
            && r.len == ReadUnquoted(t, []).len && r.events == ReadUnquoted(t, []).events && r.bodies == bodies
            && |r.events| == 1 && !(r.events[0].Redirect? && r.events[0].r.isHeredoc)
  {
    hide ReadHeredoc, TargetName, TargetLength;
  }

  /** The two see the same marker. */
  lemma MarkerStep(t: string, bodies: seq<PendingHeredoc>)
    requires "<<" <= t && ReadMarker(t).delim != ""
    ensures var r := ReadUnquoted(t, bodies);
            && r.len == ReadMarker(t).len
            && Entries(r.events) == Fill([Pending(ReadMarker(t))], bodies)
            && Scan(t, UNQUOTED) == [Pending(ReadMarker(t))] + Scan(t[r.len..], UNQUOTED)
            && r.bodies == if bodies == [] then [] else bodies[1..]
  {
    hide Entries, ReadMarker, ReadUnquoted;
    ReadsMarker(t, bodies);
    var r := ReadHeredoc(t, bodies);
    OneEntry(r.events[0]);
    assert r.events == [r.events[0]];
    assert [Pending(ReadMarker(t))][1..] == [];
    assert t[0] == '<';
  }

  /** Neither sees one. */
  lemma OtherStep(t: string)
    requires t != "" && !IsBoundary(UNQUOTED, t[0]) && StepAgrees(t) && !("<<" <= t)
    ensures Scan(t, UNQUOTED) == Scan(t[ReadUnquoted(t, []).len..], UNQUOTED)
  {
    hide Entries, NeutralOperand, ReadMarker, TargetLength, TargetName, ReadHeredoc;
    if "2>&1" <= t {
      JoinStep(t);
    } else if "2>" <= t {
      ScanSkipsFile(t, "2>", 2, false);
    } else if ">>" <= t {
      ScanSkipsFile(t, ">>", 1, true);
    } else if ">" <= t {
      ScanSkipsFile(t, ">", 1, false);
    } else if "<" <= t {
      ScanSkipsFile(t, "<", 0, false);
    }
  }

  lemma JoinStep(t: string)
    requires "2>&1" <= t
    ensures Scan(t, UNQUOTED) == Scan(t[4..], UNQUOTED)
  {
    hide Scan;
    assert t == "2>&1" + t[4..];
    PlainIsNeutral("2>&1");
    ScanSkipsNeutral("2>&1", t[4..], UNQUOTED);
  }

  /** One step outside quotes, seen by both. */
  lemma StepAgreement(t: string, bodies: seq<PendingHeredoc>)
    requires t != "" && !IsBoundary(UNQUOTED, t[0]) && StepAgrees(t)
    ensures var r := ReadUnquoted(t, bodies);
            && r.len == ReadUnquoted(t, []).len
            && if "<<" <= t then
                 && Entries(r.events) == Fill([Pending(ReadMarker(t))], bodies)
                 && Scan(t, UNQUOTED) == [Pending(ReadMarker(t))] + Scan(t[r.len..], UNQUOTED)
                 && r.bodies == if bodies == [] then [] else bodies[1..]
               else
                 Entries(r.events) == [] && Scan(t, UNQUOTED) == Scan(t[r.len..], UNQUOTED) && r.bodies == bodies
  {
    if "<<" <= t {
      MarkerNamed(t);
      hide StepAgrees, ReadUnquoted, Scan, Entries, ReadMarker, Fill;
      MarkerStep(t, bodies);
      MarkerStep(t, []);
    } else {
      hide StepAgrees, ReadUnquoted, Scan, Entries;
      ReadsOther(t, bodies);
      OtherStep(t);
      var r := ReadUnquoted(t, bodies);
      assert r.events == [r.events[0]];
      OneEntry(r.events[0]);
    }
  }

  lemma MarkerNamed(t: string)
    requires "<<" <= t && StepAgrees(t)
    ensures ReadMarker(t).delim != ""
  {
    hide ReadMarker, NeutralOperand;
    assert t[0] == '<';
  }

  /**
   For every agreeable command the heredoc entries of the redirection pass are the markers of
   the scan, in count, order, delimiter and both flags, each with the body of its position.
   */
  lemma {:induction false} EntriesAreScannedMarkers(t: string, q: Quotes, bodies: seq<PendingHeredoc>)
    requires Agreeable(t, q)
    ensures HeredocEntries(Redirections(Events(t, q, bodies))) == Fill(Scan(t, q), bodies)
    decreases |t|
  {
    hide ReadUnquoted, StepAgrees, ReadMarker, Fill;
    if t == "" {
      NothingToFill(bodies);
    } else if IsBoundary(q, t[0]) || q.Active() {
      OneEntry(Keep(t[0]));
      EntriesOfEvents([Keep(t[0])], Events(t[1..], Toggle(q, t[0]), bodies));
      EntriesAreScannedMarkers(t[1..], Toggle(q, t[0]), bodies);
      hide Entries;
    } else {
      var r := ReadUnquoted(t, bodies);
      StepAgreement(t, bodies);
      EntriesOfEvents(r.events, Events(t[r.len..], q, r.bodies));
      EntriesAreScannedMarkers(t[r.len..], q, r.bodies);
      if "<<" <= t { FillCons(Pending(ReadMarker(t)), Scan(t[r.len..], q), bodies); }
      assert Events(t, q, bodies) == r.events + Events(t[r.len..], q, r.bodies);
      hide Scan;
    }
  }

  /** The bodies decide nothing but the bodies: the entries are those of a pass without any, filled in order. */
  lemma {:induction false} EntriesAreFilled(t: string, q: Quotes, bodies: seq<PendingHeredoc>)
    ensures Entries(Events(t, q, bodies)) == Fill(Entries(Events(t, q, [])), bodies)
    decreases |t|
  {
    hide ReadUnquoted, ReadMarker, Fill, Entries;
    if t == "" {
      NothingToFill(bodies);
      NoEntries();
    } else if IsBoundary(q, t[0]) || q.Active() {
      var later := Toggle(q, t[0]);
      OneEntry(Keep(t[0]));
      EntriesOfEvents([Keep(t[0])], Events(t[1..], later, bodies));
      EntriesOfEvents([Keep(t[0])], Events(t[1..], later, []));
      EntriesAreFilled(t[1..], later, bodies);
      var own := Entries(Events(t[1..], later, []));
      assert [] + own == own && [] + Fill(own, bodies) == Fill(own, bodies);
    } else {
      var r, own := ReadUnquoted(t, bodies), ReadUnquoted(t, []);
      StepFills(t, bodies);
      EntriesOfEvents(r.events, Events(t[r.len..], q, r.bodies));
      EntriesOfEvents(own.events, Events(t[r.len..], q, []));
      EntriesAreFilled(t[r.len..], q, r.bodies);
      var later := Entries(Events(t[r.len..], q, []));
      if "<<" <= t {
        FillCons(Pending(ReadMarker(t)), later, bodies);
      } else {
        assert [] + later == later && [] + Fill(later, bodies) == Fill(later, bodies);
      }
    }
  }

  lemma NoEntries()
    ensures Entries([]) == []
  {
  }

  /** One step outside quotes, with bodies and without. */
  lemma StepFills(t: string, bodies: seq<PendingHeredoc>)
    requires t != ""
    ensures var r, own := ReadUnquoted(t, bodies), ReadUnquoted(t, []);
            && r.len == own.len && own.bodies == []
            && if "<<" <= t then
                 && Entries(r.events) == Fill([Pending(ReadMarker(t))], bodies)
                 && Entries(own.events) == [Pending(ReadMarker(t))]
                 && r.bodies == if bodies == [] then [] else bodies[1..]
               else Entries(r.events) == [] == Entries(own.events) && r.bodies == bodies
  {
    hide ReadUnquoted, Entries, ReadMarker, ReadHeredoc;
    if "<<" <= t {
      ReadsMarker(t, bodies);
      ReadsMarker(t, []);
      MarkerEntry(t, bodies);
      MarkerEntry(t, []);
      assert [Pending(ReadMarker(t))][1..] == [];
    } else {
      ReadsOther(t, bodies);
      var r := ReadUnquoted(t, bodies);
      ReadsOther(t, []);
      assert r.events == [r.events[0]];
      OneEntry(r.events[0]);
    }
  }

  /** A marker makes one entry, with or without a delimiter. */
  lemma MarkerEntry(t: string, bodies: seq<PendingHeredoc>)
    requires "<<" <= t
    ensures var r := ReadHeredoc(t, bodies);
            && r.len == ReadMarker(t).len
            && Entries(r.events) == [Pending(ReadMarker(t)).(body := if bodies == [] then "" else bodies[0].body)]
            && r.bodies == if bodies == [] then [] else bodies[1..]
  {
    hide Entries, ReadMarker;
    var r := ReadHeredoc(t, bodies);
    var front, e := r.events[..|r.events| - 1], r.events[|r.events| - 1];
    assert r.events == front + [e];
    EntriesOfEvents(front, [e]);
    OneEntry(e);
    OneEntry(Missing("<<"));
    NoEntries();
    assert front == [] || front == [Missing("<<")];
  }

  lemma NothingToFill(bodies: seq<PendingHeredoc>)
    ensures Fill([], bodies) == []
  {
  }

  lemma FillCons(p: PendingHeredoc, ps: seq<PendingHeredoc>, bodies: seq<PendingHeredoc>)
    ensures Fill([p] + ps, bodies) == Fill([p], bodies) + Fill(ps, if bodies == [] then [] else bodies[1..])
  {
    var rest := if bodies == [] then [] else bodies[1..];
    var first := [p.(body := if bodies == [] then "" else bodies[0].body)];
    assert ([p] + ps)[1..] == ps && [p][1..] == [];
    NothingToFill(rest);
    assert Fill([p] + ps, bodies) == first + Fill(ps, rest);
    hide Fill;
    assert first + [] == first;
  }

  const EXAMPLE := ">a\" <<E"

  /** A quote inside a file name: the pass sees a marker that the scan takes for quoted text. */
  lemma QuoteInTargetHidesMarker()
    ensures Scan(EXAMPLE, UNQUOTED) == []
    ensures HeredocEntries(Redirections(Events(EXAMPLE, UNQUOTED, []))) == [PendingHeredoc("E", false, true, "")]
  {
    hide Scan, Events, Redirections, HeredocEntries;
    ScanOfExample();
    EventsOfExample();
    MarkerAfterBlank();
    var r := ReadFile(EXAMPLE, ">", 1, false, []);
    FileHasNoEntries(EXAMPLE, ">", 1, false, []);
    hide ReadFile;
    EntriesOfEvents(r.events, Events(" <<E", UNQUOTED, []));
  }

  lemma ExampleStart()
    ensures ">" <= EXAMPLE && EXAMPLE[3..] == " <<E" && !IsBoundary(UNQUOTED, EXAMPLE[0])
    ensures ReadUnquoted(EXAMPLE, []) == ReadFile(EXAMPLE, ">", 1, false, [])
  {
    hide ReadFile, ReadHeredoc;
    assert EXAMPLE[0] == '>' && EXAMPLE[1] == 'a';
  }

  /** The pass reads `>a"` as one redirection and goes on at the blank. */
  lemma EventsOfExample()
    ensures ">" <= EXAMPLE
    ensures Events(EXAMPLE, UNQUOTED, []) ==
            ReadFile(EXAMPLE, ">", 1, false, []).events + Events(" <<E", UNQUOTED, [])
  {
    ExampleStart();
    LengthOfExample();
    FileKeepsBodies(EXAMPLE, ">", 1, false, []);
    hide ReadFile, ReadUnquoted;
  }

  lemma FileKeepsBodies(t: string, op: string, fd: int, append: bool, bodies: seq<PendingHeredoc>)
    requires op <= t
    ensures ReadFile(t, op, fd, append, bodies).bodies == bodies
  {
  }

  lemma ScanOfExample()
    ensures Scan(">a\" <<E", UNQUOTED) == []
  {
    var rest := " <<E";
    assert ">a\" <<E" == ">a" + "\" <<E";
    PlainIsNeutral(">a");
    ScanSkipsNeutral(">a", "\" <<E", UNQUOTED);
    assert "\" <<E"[1..] == rest;
    ScanInsideDouble(rest);
  }

  lemma LengthOfExample()
    ensures ReadFile(">a\" <<E", ">", 1, false, []).len == 3
  {
    var operand := "a\" <<E";
    assert ">a\" <<E"[1..] == operand;
    RunOutIs(operand, BLANKS, 2);
    assert RunIn(operand, {' '}) == 0 && operand[0..] == operand;
    hide RunIn, RunOut, TargetName;
    assert TargetLength(operand) == 2;
  }

  lemma {:induction false} ScanInsideDouble(t: string)
    requires '"' !in t
    ensures Scan(t, Quotes(false, true)) == []
    decreases |t|
  {
    if t != "" { ScanInsideDouble(t[1..]); }
  }

  lemma MarkerOfExample()
    ensures ReadMarker("<<E") == Marker("E", false, true, 3)
  {
    assert "<<E"[2..] == "E";
    RunOutIs("E", DELIM_STOPS, 1);
    assert RunIn("E", BLANKS) == 0;
    hide RunIn, RunOut;
  }

  lemma AgreeableMarker(t: string)
    requires "<<" <= t && ReadMarker(t).delim != "" && Agreeable(t[ReadMarker(t).len..], UNQUOTED)
    ensures Agreeable(t, UNQUOTED)
  {
    hide ReadMarker;
    assert t[0] == '<' && !IsBoundary(UNQUOTED, t[0]);
    ReadsMarker(t, []);
    assert StepAgrees(t);
    hide ReadUnquoted, StepAgrees;
  }

  lemma MarkerAtEnd(t: string)
    requires "<<" <= t && ReadMarker(t).delim != "" && ReadMarker(t).len == |t|
    ensures Scan(t, UNQUOTED) == [Pending(ReadMarker(t))] && Agreeable(t, UNQUOTED)
  {
    hide ReadMarker, ReadUnquoted, Entries;
    assert t[ReadMarker(t).len..] == "" && Scan("", UNQUOTED) == [] && Agreeable("", UNQUOTED);
    hide Scan, Agreeable;
    MarkerStep(t, []);
    AgreeableMarker(t);
    assert [Pending(ReadMarker(t))] + [] == [Pending(ReadMarker(t))];
  }

  lemma ScanOfMarker()
    ensures Scan("<<E", UNQUOTED) == [PendingHeredoc("E", false, true, "")]
    ensures Agreeable("<<E", UNQUOTED)
  {
    MarkerOfExample();
    hide ReadMarker, Scan, Agreeable;
    MarkerAtEnd("<<E");
  }

  lemma LeadingBlank(u: string)
    ensures Scan(" " + u, UNQUOTED) == Scan(u, UNQUOTED)
    ensures Agreeable(u, UNQUOTED) ==> Agreeable(" " + u, UNQUOTED)
  {
    var t := " " + u;
    assert t[1..] == u;
    assert t[0] == ' ' && "2>&1"[0] == '2' && "2>"[0] == '2' && ">>"[0] == '>';
    assert ReadUnquoted(t, []) == Reading(1, [Keep(' ')], []);
    hide ReadUnquoted, ReadMarker;
  }

  lemma MarkerAfterBlank()
    ensures Entries(Events(" <<E", UNQUOTED, [])) == [PendingHeredoc("E", false, true, "")]
  {
    var one := PendingHeredoc("E", false, true, "");
    hide Scan, Agreeable, Events;
    ScanOfMarker();
    LeadingBlank("<<E");
    assert " " + "<<E" == " <<E";
    EntriesAreScannedMarkers(" <<E", UNQUOTED, []);
    assert Fill([one], []) == [one] by { assert [one][1..] == []; }
  }
}
