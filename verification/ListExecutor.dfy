/**
 `execute_command_line`: a flat list of segments run with one `last_exit` variable, against the
 AND-OR lists of section 2.9.3 of POSIX.1-2017 XCU Shell Command Language.
 */
module ListExecutor {
  import opened CommandLine

  /**
   What running one segment does to the world `W`: the command itself, the write of
   `last_exit_status`, and the hooks, history and traps that follow.
   */
  datatype Host<!W> = Host(
    single: (string, seq<PendingHeredoc>, W) -> (W, int),
    setStatus: (W, int) -> W,
    after: (string, int, W) -> W)

  function RunSegment<W>(host: Host<W>, command: string, heredocs: seq<PendingHeredoc>, w: W): (W, int) {
    var (w1, status) := host.single(command, heredocs, w);
    (host.after(command, status, host.setStatus(w1, status)), status)
  }

  function ShouldRun(op: OperatorType, lastExit: int): bool {
    match op
    case NoOp => true
    case And => lastExit == 0
    case Or => lastExit != 0
    case Semicolon => true
  }

  /** The world and status after the segments, from `w` with `last_exit` = `status`. */
  function RunFlat<W>(host: Host<W>, segments: seq<Segment>, w: W, status: int): (W, int)
    decreases |segments|
  {
    if segments == [] then (w, status)
    else if ShouldRun(segments[0].op, status) then
      var (w1, s1) := RunSegment(host, segments[0].command, segments[0].heredocs, w);
      RunFlat(host, segments[1..], w1, s1)
    else RunFlat(host, segments[1..], w, status)
  }

  class Shell<W> {
    const host: Host<W>
    var world: W

    constructor (host: Host<W>, world: W)
      ensures this.host == host && this.world == world
    {
      this.host, this.world := host, world;
    }

    method ExecuteCommandLine(segments: seq<Segment>) returns (lastExit: int)
      modifies this
      ensures (world, lastExit) == RunFlat(host, segments, old(world), 0)
    {
      lastExit := 0;
      var i := 0;
      while i < |segments|
        invariant 0 <= i <= |segments|
        invariant RunFlat(host, segments[i..], world, lastExit) == RunFlat(host, segments, old(world), 0)
      {
        assert segments[i..][1..] == segments[i + 1..];
        var shouldRun := false;
        match segments[i].op {
          case NoOp => shouldRun := true;
          case And => shouldRun := lastExit == 0;
          case Or => shouldRun := lastExit != 0;
          case Semicolon => shouldRun := true;
        }
        if shouldRun {
          var (w1, status) := host.single(segments[i].command, segments[i].heredocs, world);
          lastExit := status;
          world := host.setStatus(w1, status);
          world := host.after(segments[i].command, status, world);
        }
        i := i + 1;
      }
    }
  }

  // ---- AND-OR lists ----

  /** `&&` and `||` have equal precedence and associate to the left. */
  datatype AndOr =
    | Command(command: string)
    | AndThen(left: AndOr, right: string)
    | OrElse(left: AndOr, right: string)

  /** AND-OR lists separated by `;`. */
  datatype Program = One(list: AndOr) | Then(first: Program, list: AndOr)

  /** The right command runs only when the left list has the status the operator asks for. */
  function EvalAndOr<W>(host: Host<W>, a: AndOr, w: W): (W, int) {
    match a
    case Command(c) => RunSegment(host, c, [], w)
    case AndThen(l, c) =>
      var (w1, status) := EvalAndOr(host, l, w);
      if status == 0 then RunSegment(host, c, [], w1) else (w1, status)
    case OrElse(l, c) =>
      var (w1, status) := EvalAndOr(host, l, w);
      if status != 0 then RunSegment(host, c, [], w1) else (w1, status)
  }

  function Eval<W>(host: Host<W>, p: Program, w: W): (W, int) {
    match p
    case One(a) => EvalAndOr(host, a, w)
    case Then(q, a) => EvalAndOr(host, a, Eval(host, q, w).0)
  }

  function PrintAndOr(a: AndOr): string {
    match a
    case Command(c) => c
    case AndThen(l, c) => PrintAndOr(l) + " && " + c
    case OrElse(l, c) => PrintAndOr(l) + " || " + c
  }

  function Print(p: Program): string {
    match p
    case One(a) => PrintAndOr(a)
    case Then(q, a) => Print(q) + " ; " + PrintAndOr(a)
  }

  predicate WholeAndOr(a: AndOr) {
    match a
    case Command(c) => Whole(c)
    case AndThen(l, c) => WholeAndOr(l) && Whole(c)
    case OrElse(l, c) => WholeAndOr(l) && Whole(c)
  }

  predicate WholeProgram(p: Program) {
    match p
    case One(a) => WholeAndOr(a)
    case Then(q, a) => WholeProgram(q) && WholeAndOr(a)
  }

  /** The segments of one list, the first under operator `first`. */
  function FlattenAndOr(a: AndOr, first: OperatorType): (r: seq<Segment>)
    ensures r != []
  {
    match a
    case Command(c) => [Segment(c, first, [])]
    case AndThen(l, c) => FlattenAndOr(l, first) + [Segment(c, And, [])]
    case OrElse(l, c) => FlattenAndOr(l, first) + [Segment(c, Or, [])]
  }

  function Flatten(p: Program): seq<Segment> {
    match p
    case One(a) => FlattenAndOr(a, NoOp)
    case Then(q, a) => Flatten(q) + FlattenAndOr(a, Semicolon)
  }

  // ---- Parsing the printed form ----

  /** A printed list: its first command and the operators and commands that follow. */
  function Head(a: AndOr): string {
    match a
    case Command(c) => c
    case AndThen(l, _) => Head(l)
    case OrElse(l, _) => Head(l)
  }

  function Tails(a: AndOr): seq<Tail> {
    match a
    case Command(_) => []
    case AndThen(l, c) => Tails(l) + [Tail(And, c)]
    case OrElse(l, c) => Tails(l) + [Tail(Or, c)]
  }

  function ProgramHead(p: Program): string {
    match p
    case One(a) => Head(a)
    case Then(q, _) => ProgramHead(q)
  }

  function ProgramTails(p: Program): seq<Tail> {
    match p
    case One(a) => Tails(a)
    case Then(q, a) => ProgramTails(q) + [Tail(Semicolon, Head(a))] + Tails(a)
  }

  lemma {:induction false} JoinTailsAppend(a: seq<Tail>, b: seq<Tail>)
    ensures JoinTails(a + b) == JoinTails(a) + JoinTails(b)
    decreases |a|
  {
    if a == [] {
      assert a + b == b;
    } else {
      assert (a + b)[1..] == a[1..] + b;
      JoinTailsAppend(a[1..], b);
      assert OperatorText(a[0].op) + (a[0].command + (JoinTails(a[1..]) + JoinTails(b))) ==
             OperatorText(a[0].op) + (a[0].command + JoinTails(a[1..])) + JoinTails(b);
    }
  }

  lemma JoinOneTail(t: Tail)
    ensures JoinTails([t]) == OperatorText(t.op) + t.command
  {
    assert [t][1..] == [];
    assert t.command + "" == t.command;
  }

  lemma {:induction false} TailSegmentsAppend(a: seq<Tail>, b: seq<Tail>)
    ensures TailSegments(a + b) == TailSegments(a) + TailSegments(b)
    decreases |a|
  {
    if a == [] {
      assert a + b == b;
    } else {
      assert (a + b)[1..] == a[1..] + b;
      TailSegmentsAppend(a[1..], b);
    }
  }

  lemma {:induction false} WholeParts(a: AndOr)
    requires WholeAndOr(a)
    ensures Whole(Head(a)) && WholeTails(Tails(a))
  {
    hide Whole;
    match a {
      case Command(_) =>
      case AndThen(l, _) => WholeParts(l);
      case OrElse(l, _) => WholeParts(l);
    }
  }

  lemma {:induction false} PrintedAndOr(a: AndOr)
    ensures PrintAndOr(a) == Head(a) + JoinTails(Tails(a))
  {
    hide JoinTails;
    match a {
      case Command(c) =>
        EmptyTails();
        assert c + "" == c;
      case AndThen(l, c) =>
        PrintedAndOr(l);
        JoinSnoc(Head(l), Tails(l), Tail(And, c), " && ");
      case OrElse(l, c) =>
        PrintedAndOr(l);
        JoinSnoc(Head(l), Tails(l), Tail(Or, c), " || ");
    }
  }

  lemma JoinSnoc(head: string, tails: seq<Tail>, t: Tail, sign: string)
    requires sign == OperatorText(t.op)
    ensures head + JoinTails(tails) + sign + t.command == head + JoinTails(tails + [t])
  {
    hide JoinTails, OperatorText;
    JoinTailsAppend(tails, [t]);
    JoinOneTail(t);
    assert head + JoinTails(tails) + sign + t.command == head + (JoinTails(tails) + (sign + t.command));
  }

  lemma {:induction false} FlattenedAndOr(a: AndOr, first: OperatorType)
    ensures FlattenAndOr(a, first) == [Segment(Head(a), first, [])] + TailSegments(Tails(a))
  {
    hide TailSegments;
    match a {
      case Command(c) => EmptyTails();
      case AndThen(l, c) =>
        FlattenedAndOr(l, first);
        TailSegmentsAppend(Tails(l), [Tail(And, c)]);
        OneTailSegment(Tail(And, c));
      case OrElse(l, c) =>
        FlattenedAndOr(l, first);
        TailSegmentsAppend(Tails(l), [Tail(Or, c)]);
        OneTailSegment(Tail(Or, c));
    }
  }

  lemma EmptyTails()
    ensures JoinTails([]) == "" && TailSegments([]) == []
  {
  }

  lemma JoinMiddle(head: string, tails: seq<Tail>, t: Tail, more: seq<Tail>)
    ensures head + JoinTails(tails) + OperatorText(t.op) + (t.command + JoinTails(more)) ==
            head + JoinTails(tails + [t] + more)
  {
    hide JoinTails, OperatorText;
    JoinSnoc(head, tails, t, OperatorText(t.op));
    JoinTailsAppend(tails + [t], more);
    assert head + JoinTails(tails) + OperatorText(t.op) + (t.command + JoinTails(more)) ==
           head + JoinTails(tails) + OperatorText(t.op) + t.command + JoinTails(more);
    assert head + (JoinTails(tails + [t]) + JoinTails(more)) == head + JoinTails(tails + [t]) + JoinTails(more);
  }

  lemma {:induction false} WholeProgramParts(p: Program)
    requires WholeProgram(p)
    ensures Whole(ProgramHead(p)) && WholeTails(ProgramTails(p))
  {
    hide Whole;
    match p {
      case One(a) => WholeParts(a);
      case Then(q, a) => WholeProgramParts(q); WholeParts(a);
    }
  }

  lemma {:induction false} PrintedProgram(p: Program)
    ensures Print(p) == ProgramHead(p) + JoinTails(ProgramTails(p))
  {
    hide JoinTails, OperatorText, PrintAndOr, Head, Tails;
    match p {
      case One(a) => PrintedAndOr(a);
      case Then(q, a) =>
        PrintedProgram(q);
        PrintedAndOr(a);
        SemicolonText();
        JoinMiddle(ProgramHead(q), ProgramTails(q), Tail(Semicolon, Head(a)), Tails(a));
    }
  }

  lemma {:induction false} FlattenedProgram(p: Program)
    ensures Flatten(p) == [Segment(ProgramHead(p), NoOp, [])] + TailSegments(ProgramTails(p))
  {
    hide TailSegments, FlattenAndOr, Head, Tails;
    match p {
      case One(a) => FlattenedAndOr(a, NoOp);
      case Then(q, a) =>
        FlattenedProgram(q);
        FlattenedAndOr(a, Semicolon);
        var t := Tail(Semicolon, Head(a));
        TailSegmentsAppend(ProgramTails(q), [t]);
        TailSegmentsAppend(ProgramTails(q) + [t], Tails(a));
        OneTailSegment(t);
    }
  }

  lemma SemicolonText()
    ensures OperatorText(Semicolon) == " ; "
  {
  }

  lemma OneTailSegment(t: Tail)
    ensures TailSegments([t]) == [Segment(t.command, t.op, [])]
  {
  }

  /** Parsing the printed program gives its segments. */
  lemma ParsePrinted(p: Program)
    requires WholeProgram(p)
    ensures Parse(Print(p)) == Flatten(p)
  {
    hide Whole, Parse;
    WholeProgramParts(p);
    PrintedProgram(p);
    FlattenedProgram(p);
    ParseJoined(ProgramHead(p), ProgramTails(p));
  }

  // ---- Running the segments ----

  lemma {:induction false} RunFlatAppend<W>(host: Host<W>, a: seq<Segment>, b: seq<Segment>, w: W, status: int)
    ensures RunFlat(host, a + b, w, status) ==
            RunFlat(host, b, RunFlat(host, a, w, status).0, RunFlat(host, a, w, status).1)
    decreases |a|
  {
    if a == [] {
      assert a + b == b;
    } else {
      assert (a + b)[1..] == a[1..] + b;
      if ShouldRun(a[0].op, status) {
        var (w1, s1) := RunSegment(host, a[0].command, a[0].heredocs, w);
        RunFlatAppend(host, a[1..], b, w1, s1);
      } else {
        RunFlatAppend(host, a[1..], b, w, status);
      }
    }
  }

  lemma RunOne<W>(host: Host<W>, s: Segment, w: W, status: int)
    ensures RunFlat(host, [s], w, status) ==
            if ShouldRun(s.op, status) then RunSegment(host, s.command, s.heredocs, w) else (w, status)
  {
    var (w1, s1) := RunSegment(host, s.command, s.heredocs, w);
    assert RunFlat(host, [s][1..], w1, s1) == (w1, s1);
  }

  lemma {:induction false} RunAndOr<W>(host: Host<W>, a: AndOr, first: OperatorType, w: W, status: int)
    requires first == NoOp || first == Semicolon
    ensures RunFlat(host, FlattenAndOr(a, first), w, status) == EvalAndOr(host, a, w)
  {
    match a {
      case Command(c) => RunOne(host, Segment(c, first, []), w, status);
      case AndThen(l, c) =>
        RunAndOr(host, l, first, w, status);
        RunFlatAppend(host, FlattenAndOr(l, first), [Segment(c, And, [])], w, status);
        var (w1, s1) := EvalAndOr(host, l, w);
        RunOne(host, Segment(c, And, []), w1, s1);
      case OrElse(l, c) =>
        RunAndOr(host, l, first, w, status);
        RunFlatAppend(host, FlattenAndOr(l, first), [Segment(c, Or, [])], w, status);
        var (w1, s1) := EvalAndOr(host, l, w);
        RunOne(host, Segment(c, Or, []), w1, s1);
    }
  }

  lemma {:induction false} RunProgram<W>(host: Host<W>, p: Program, w: W, status: int)
    ensures RunFlat(host, Flatten(p), w, status) == Eval(host, p, w)
  {
    match p {
      case One(a) => RunAndOr(host, a, NoOp, w, status);
      case Then(q, a) =>
        RunProgram(host, q, w, status);
        RunFlatAppend(host, Flatten(q), FlattenAndOr(a, Semicolon), w, status);
        var (w1, s1) := Eval(host, q, w);
        RunAndOr(host, a, Semicolon, w1, s1);
    }
  }

  /**
   Printing a program, parsing the line and running the flat segments leaves the same world and
   status as evaluating the tree, whatever the commands do.
   */
  lemma MeaningPreserved<W>(host: Host<W>, p: Program, w: W)
    requires WholeProgram(p)
    ensures RunFlat(host, Parse(Print(p)), w, 0) == Eval(host, p, w)
  {
    hide Parse, Whole;
    ParsePrinted(p);
    RunProgram(host, p, w, 0);
  }

  // ---- One command ----

  /** A command runs in the world it meets; its status is recorded before the hooks that follow see it. */
  lemma OneCommandRuns<W>(host: Host<W>, c: string, heredocs: seq<PendingHeredoc>, w: W, status: int)
    ensures var (w1, s1) := host.single(c, heredocs, w);
            RunFlat(host, [Segment(c, NoOp, heredocs)], w, status) == (host.after(c, s1, host.setStatus(w1, s1)), s1)
  {
    var (w1, s1) := host.single(c, heredocs, w);
    assert [Segment(c, NoOp, heredocs)][1..] == [];
    assert RunFlat(host, [], host.after(c, s1, host.setStatus(w1, s1)), s1) ==
           (host.after(c, s1, host.setStatus(w1, s1)), s1);
  }
}
