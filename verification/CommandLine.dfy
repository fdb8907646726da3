/** `parse_command_line`: comment stripping and the split at `&&`, `||` and `;`. */
module CommandLine {
  import opened Text
  import opened QuoteStates

  datatype OperatorType = NoOp | And | Or | Semicolon

  /** One heredoc marker; `body` is filled in by the line reader. */
  datatype PendingHeredoc = PendingHeredoc(delim: string, stripTabs: bool, expand: bool, body: string)

  datatype Segment = Segment(command: string, op: OperatorType, heredocs: seq<PendingHeredoc>)

  datatype Diagnostic = EmptyAfterAnd | EmptyAfterOr | UnmatchedSingle | UnmatchedDouble

  // ---- Comments ----

  /** The text up to the first `#` outside quotes. */
  function StripComment(t: string, q: Quotes): string
    decreases |t|
  {
    if t == "" then ""
    else if IsBoundary(q, t[0]) then [t[0]] + StripComment(t[1..], Toggle(q, t[0]))
    else if t[0] == '#' && !q.Active() then ""
    else [t[0]] + StripComment(t[1..], q)
  }

  // ---- The splitter ----

  /** Quotes, the depths of `(` and of `$(`, and whether the last character was a `$`. */
  datatype Control = Control(q: Quotes, paren: nat, cmdsub: nat, afterDollar: bool)

  const CLEAN := Control(UNQUOTED, 0, 0, false)

  datatype Splitter = Splitter(ctl: Control, current: string, nextOp: OperatorType, segments: seq<Segment>)

  const INITIAL := Splitter(CLEAN, "", NoOp, [])

  /** The operator that starts `t` outside quotes and subshells, and its length. */
  function SeparatorAt(t: string, ctl: Control): (r: Option<(OperatorType, nat)>)
    ensures r.Some? ==> 1 <= r.value.1 <= 2 && r.value.1 <= |t|
  {
    if t == "" || ctl.q.Active() || ctl.paren > 0 then None
    else if |t| >= 2 && t[0] == '&' && t[1] == '&' then Some((And, 2))
    else if |t| >= 2 && t[0] == '|' && t[1] == '|' then Some((Or, 2))
    else if t[0] == ';' then Some((Semicolon, 1))
    else None
  }

  function StepControl(ctl: Control, c: char): Control {
    var next :=
      if IsBoundary(ctl.q, c) then ctl.(q := Toggle(ctl.q, c))
      else if ctl.q.Active() then ctl
      else if c == '(' then
        if ctl.afterDollar then ctl.(cmdsub := ctl.cmdsub + 1) else ctl.(paren := ctl.paren + 1)
      else if c == ')' then
        if ctl.cmdsub > 0 then ctl.(cmdsub := ctl.cmdsub - 1)
        else if ctl.paren > 0 then ctl.(paren := ctl.paren - 1)
        else ctl
      else ctl;
    next.(afterDollar := c == '$')
  }

  function Close(s: Splitter): seq<Segment> {
    if Trim(s.current) == "" then [] else [Segment(Trim(s.current), s.nextOp, [])]
  }

  function Shift(s: Splitter, c: char): Splitter {
    s.(ctl := StepControl(s.ctl, c), current := s.current + [c])
  }

  function Reduce(s: Splitter, op: OperatorType): Splitter {
    Splitter(s.ctl.(afterDollar := false), "", op, s.segments + Close(s))
  }

  function Split(t: string, s: Splitter): Splitter
    decreases |t|
  {
    if t == "" then s else
      match SeparatorAt(t, s.ctl)
      case Some((op, n)) => Split(t[n..], Reduce(s, op))
      case None => Split(t[1..], Shift(s, t[0]))
  }

  function Segments(s: Splitter): seq<Segment> {
    s.segments + Close(s)
  }

  function Diagnostics(s: Splitter): seq<Diagnostic> {
    (if Trim(s.current) == "" && s.nextOp == And then [EmptyAfterAnd]
     else if Trim(s.current) == "" && s.nextOp == Or then [EmptyAfterOr] else []) +
    (if s.ctl.q.inSingle then [UnmatchedSingle] else []) +
    (if s.ctl.q.inDouble then [UnmatchedDouble] else [])
  }

  function Parse(line: string): seq<Segment> {
    Segments(Split(StripComment(line, UNQUOTED), INITIAL))
  }

  // ---- The original's loops ----

  lemma StripCons(done: string, t: string, q: Quotes)
    requires t != ""
    ensures done + StripComment(t, q) ==
            if t[0] == '#' && !q.Active() then done
            else done + [t[0]] + StripComment(t[1..], Toggle(q, t[0]))
  {
    hide StripComment;
    assert StripComment(t, q) == if t[0] == '#' && !q.Active() then ""
                                 else [t[0]] + StripComment(t[1..], Toggle(q, t[0])) by { StripUnfold(t, q); }
    assert done + "" == done;
    var rest := StripComment(t[1..], Toggle(q, t[0]));
    assert done + ([t[0]] + rest) == done + [t[0]] + rest;
  }

  lemma StripUnfold(t: string, q: Quotes)
    requires t != ""
    ensures StripComment(t, q) == if t[0] == '#' && !q.Active() then ""
                                  else [t[0]] + StripComment(t[1..], Toggle(q, t[0]))
  {
  }

  method StripCommentLoop(line: string) returns (stripped: string)
    ensures stripped == StripComment(line, UNQUOTED)
  {
    var inSingle, inDouble := false, false;
    var j := 0;
    assert line[0..] == line && "" + StripComment(line, UNQUOTED) == StripComment(line, UNQUOTED);
    while j < |line|
      invariant 0 <= j <= |line|
      invariant line[..j] + StripComment(line[j..], Quotes(inSingle, inDouble)) == StripComment(line, UNQUOTED)
    {
      hide StripComment;
      StripCons(line[..j], line[j..], Quotes(inSingle, inDouble));
      assert line[j..][1..] == line[j + 1..];
      assert line[..j] + [line[j]] == line[..j + 1];
      if line[j] == '\'' && !inDouble {
        inSingle := !inSingle;
      } else if line[j] == '"' && !inSingle {
        inDouble := !inDouble;
      } else if line[j] == '#' && !inSingle && !inDouble {
        return line[..j];
      }
      j := j + 1;
    }
    assert line[..j] + "" == line;
    stripped := line;
  }

  lemma SplitCons(t: string, s: Splitter)
    requires t != ""
    ensures var sep := SeparatorAt(t, s.ctl);
            Split(t, s) == if sep.Some? then Split(t[sep.value.1..], Reduce(s, sep.value.0))
                           else Split(t[1..], Shift(s, t[0]))
  {
  }

  /** Outside quotes and subshells the operators end a segment; every other character joins it. */
  lemma SplitStep(t: string, s: Splitter)
    requires t != ""
    ensures var outside := !s.ctl.q.Active() && s.ctl.paren == 0;
            Split(t, s) ==
            if outside && "&&" <= t then Split(t[2..], Reduce(s, And))
            else if outside && "||" <= t then Split(t[2..], Reduce(s, Or))
            else if outside && t[0] == ';' then Split(t[1..], Reduce(s, Semicolon))
            else Split(t[1..], Shift(s, t[0]))
  {
    SplitCons(t, s);
    hide Split, Reduce, Shift;
  }

  method ParseCommandLine(line: string) returns (segments: seq<Segment>, diagnostics: seq<Diagnostic>)
    ensures segments == Parse(line)
    ensures diagnostics == Diagnostics(Split(StripComment(line, UNQUOTED), INITIAL))
  {
    hide StripComment, Trim, Split;
    var stripped := StripCommentLoop(line);
    segments := [];
    var current := "";
    var inDouble, inSingle := false, false;
    var paren: nat, cmdsub: nat := 0, 0;
    var i := 0;
    var nextOp := NoOp;
    assert stripped[0..] == stripped;
    while i < |stripped|
      invariant 0 <= i <= |stripped|
      invariant Split(stripped[i..], Splitter(
                  Control(Quotes(inSingle, inDouble), paren, cmdsub, i > 0 && stripped[i - 1] == '$'),
                  current, nextOp, segments)) == Split(stripped, INITIAL)
    {
      var c := stripped[i];
      ghost var t := stripped[i..];
      SplitStep(t, Splitter(Control(Quotes(inSingle, inDouble), paren, cmdsub, i > 0 && stripped[i - 1] == '$'),
                            current, nextOp, segments));
      assert t[1..] == stripped[i + 1..];
      assert |t| >= 2 ==> t[2..] == stripped[i + 2..];
      if c == '"' && !inSingle {
        inDouble := !inDouble;
        current, i := current + [c], i + 1;
      } else if c == '\'' && !inDouble {
        inSingle := !inSingle;
        current, i := current + [c], i + 1;
      } else if !inDouble && !inSingle && c == '(' {
        if i > 0 && stripped[i - 1] == '$' { cmdsub := cmdsub + 1; } else { paren := paren + 1; }
        current, i := current + [c], i + 1;
      } else if !inDouble && !inSingle && c == ')' {
        if cmdsub > 0 { cmdsub := cmdsub - 1; } else if paren > 0 { paren := paren - 1; }
        current, i := current + [c], i + 1;
      } else if !inDouble && !inSingle && paren == 0 && c == '&' && i + 1 < |stripped| && stripped[i + 1] == '&' {
        segments := CloseSegment(segments, current, nextOp);
        nextOp, current, i := And, "", i + 2;
      } else if !inDouble && !inSingle && paren == 0 && c == '|' && i + 1 < |stripped| && stripped[i + 1] == '|' {
        segments := CloseSegment(segments, current, nextOp);
        nextOp, current, i := Or, "", i + 2;
      } else if !inDouble && !inSingle && paren == 0 && c == ';' {
        segments := CloseSegment(segments, current, nextOp);
        nextOp, current, i := Semicolon, "", i + 1;
      } else {
        current, i := current + [c], i + 1;
      }
    }
    assert stripped[i..] == "";
    SplitNothing(Splitter(Control(Quotes(inSingle, inDouble), paren, cmdsub, i > 0 && stripped[i - 1] == '$'),
                          current, nextOp, segments));
    diagnostics := LastDiagnostics(current, nextOp, inSingle, inDouble);
    segments := CloseSegment(segments, current, nextOp);
  }

  /** What is wrong at the end of the line. */
  method LastDiagnostics(current: string, nextOp: OperatorType, inSingle: bool, inDouble: bool)
    returns (diagnostics: seq<Diagnostic>)
    ensures diagnostics ==
            (if Trim(current) == "" && nextOp == And then [EmptyAfterAnd]
             else if Trim(current) == "" && nextOp == Or then [EmptyAfterOr] else []) +
            (if inSingle then [UnmatchedSingle] else []) + (if inDouble then [UnmatchedDouble] else [])
  {
    diagnostics := [];
    if Trim(current) == "" {
      if nextOp == And { diagnostics := [EmptyAfterAnd]; }
      if nextOp == Or { diagnostics := [EmptyAfterOr]; }
    }
    if inSingle { diagnostics := diagnostics + [UnmatchedSingle]; }
    if inDouble { diagnostics := diagnostics + [UnmatchedDouble]; }
  }

  method CloseSegment(segments: seq<Segment>, current: string, op: OperatorType) returns (r: seq<Segment>)
    ensures r == segments + if Trim(current) == "" then [] else [Segment(Trim(current), op, [])]
  {
    r := segments;
    var cmd := Trim(current);
    if cmd != "" { r := segments + [Segment(cmd, op, [])]; }
  }

  // ---- Commands the splitter leaves whole ----

  function ControlAfter(ctl: Control, t: string): Control
    decreases |t|
  {
    if t == "" then ctl else ControlAfter(StepControl(ctl, t[0]), t[1..])
  }

  predicate NoSeparator(t: string, ctl: Control)
    decreases |t|
  {
    t == "" || (SeparatorAt(t, ctl).None? && NoSeparator(t[1..], StepControl(ctl, t[0])))
  }

  predicate CleanUpToDollar(ctl: Control) {
    ctl.(afterDollar := false) == CLEAN
  }

  /**
   A trimmed command without an unquoted `#`, in which the splitter meets no separator and at
   whose end it is back in its clean state.
   */
  predicate Whole(c: string) {
    && Trimmed(c)
    && StripComment(c, UNQUOTED) == c
    && NoSeparator(c, CLEAN)
    && CleanUpToDollar(ControlAfter(CLEAN, c))
  }

  /** An operator cannot straddle the boundary to what follows. */
  predicate Bounded(u: string) {
    u == "" || (u[0] != '&' && u[0] != '|')
  }

  lemma ShiftFirst(c: string, u: string, s: Splitter)
    requires c != "" && NoSeparator(c, s.ctl) && Bounded(u)
    ensures Split(c + u, s) == Split(c[1..] + u, Shift(s, c[0])) && NoSeparator(c[1..], StepControl(s.ctl, c[0]))
  {
    hide StepControl, Split, Shift;
    var t := c + u;
    assert t[0] == c[0] && t[1..] == c[1..] + u;
    assert |t| >= 2 ==> t[1] == if |c| >= 2 then c[1] else u[0];
    SplitCons(t, s);
  }

  lemma ControlCons(c: string, s: Splitter)
    requires c != ""
    ensures var a := Shift(s, c[0]);
            && a.ctl == StepControl(s.ctl, c[0])
            && a.(ctl := ControlAfter(a.ctl, c[1..]), current := a.current + c[1..]) ==
               s.(ctl := ControlAfter(s.ctl, c), current := s.current + c)
  {
    hide StepControl;
    assert s.current + [c[0]] + c[1..] == s.current + c;
  }

  lemma {:induction false} ShiftAll(c: string, u: string, s: Splitter)
    requires NoSeparator(c, s.ctl) && Bounded(u)
    ensures Split(c + u, s) == Split(u, s.(ctl := ControlAfter(s.ctl, c), current := s.current + c))
    decreases |c|
  {
    hide StepControl, Split, NoSeparator, Shift;
    if c == "" {
      assert c + u == u && s.current + "" == s.current;
    } else {
      ShiftFirst(c, u, s);
      ControlCons(c, s);
      hide ControlAfter;
      ShiftAll(c[1..], u, Shift(s, c[0]));
    }
  }

  lemma ShiftBlank(s: Splitter)
    requires CleanUpToDollar(s.ctl)
    ensures Shift(s, ' ') == s.(ctl := CLEAN, current := s.current + " ")
  {
  }

  lemma OperatorSteps(sign: string, op: OperatorType, pad: string, c: string, u: string, s: Splitter)
    requires (sign == "&&" && op == And) || (sign == "||" && op == Or) || (sign == ";" && op == Semicolon)
    requires AllSpace(pad) && Trimmed(c)
    requires s.current == pad + c && CleanUpToDollar(s.ctl)
    ensures Split(" " + (sign + (" " + u)), s) ==
            Split(u, Splitter(CLEAN, " ", op, s.segments + [Segment(c, s.nextOp, [])]))
  {
    hide Split, Trim, StepControl;
    var t, t1, t2 := " " + (sign + (" " + u)), sign + (" " + u), " " + u;
    assert t[1..] == t1 && t1[|sign|..] == t2 && t2[1..] == u;
    ShiftBlank(s);
    var a := Shift(s, ' ');
    SplitCons(t, s);
    assert SeparatorAt(t1, CLEAN) == Some((op, |sign|));
    SplitCons(t1, a);
    assert Close(a) == [Segment(c, s.nextOp, [])] by { TrimPad(pad, c, " "); }
    var b := Splitter(CLEAN, "", op, s.segments + [Segment(c, s.nextOp, [])]);
    assert Reduce(a, op) == b;
    ShiftBlank(b);
    SplitCons(t2, b);
    assert "" + " " == " ";
  }

  /** A spaced operator closes the pending command. */
  lemma Operator(op: OperatorType, pad: string, c: string, u: string, s: Splitter)
    requires op != NoOp && AllSpace(pad) && Trimmed(c)
    requires s.current == pad + c && CleanUpToDollar(s.ctl)
    ensures Split(OperatorText(op) + u, s) ==
            Split(u, Splitter(CLEAN, " ", op, s.segments + [Segment(c, s.nextOp, [])]))
  {
    hide Split, AllSpace, Trimmed, CleanUpToDollar;
    var sign := if op == And then "&&" else if op == Or then "||" else ";";
    assert OperatorText(op) + u == " " + (sign + (" " + u));
    OperatorSteps(sign, op, pad, c, u, s);
  }

  function OperatorText(op: OperatorType): string {
    match op
    case NoOp => ""
    case And => " && "
    case Or => " || "
    case Semicolon => " ; "
  }

  // ---- Lists of commands joined by spaced operators ----

  /** The first command and then, for each further one, its operator. */
  datatype Tail = Tail(op: OperatorType, command: string)

  predicate WholeTails(tails: seq<Tail>) {
    forall i :: 0 <= i < |tails| ==> tails[i].op != NoOp && Whole(tails[i].command)
  }

  function JoinTails(tails: seq<Tail>): string {
    if tails == [] then "" else OperatorText(tails[0].op) + (tails[0].command + JoinTails(tails[1..]))
  }

  function TailSegments(tails: seq<Tail>): seq<Segment> {
    if tails == [] then [] else [Segment(tails[0].command, tails[0].op, [])] + TailSegments(tails[1..])
  }

  lemma JoinTailsBounded(tails: seq<Tail>)
    requires WholeTails(tails)
    ensures Bounded(JoinTails(tails))
  {
  }

  lemma {:induction false} SplitJoined(c: string, tails: seq<Tail>, s: Splitter)
    requires Whole(c) && WholeTails(tails)
    requires s.ctl == CLEAN && AllSpace(s.current)
    ensures Segments(Split(c + JoinTails(tails), s)) == s.segments + ([Segment(c, s.nextOp, [])] + TailSegments(tails))
    decreases |tails|
  {
    hide StripComment, NoSeparator, Trim, Split, StepControl;
    var u := JoinTails(tails);
    var a := s.(ctl := ControlAfter(s.ctl, c), current := s.current + c);
    JoinTailsBounded(tails);
    ShiftAll(c, u, s);
    if tails == [] {
      SplitNothing(a);
      TrimPad(s.current, c, "");
      assert s.current + c + "" == s.current + c;
    } else {
      var op, d, more := tails[0].op, tails[0].command, JoinTails(tails[1..]);
      Operator(op, s.current, c, d + more, a);
      var b := Splitter(CLEAN, " ", op, s.segments + [Segment(c, s.nextOp, [])]);
      SplitJoined(d, tails[1..], b);
    }
  }

  lemma SplitNothing(s: Splitter)
    ensures Split("", s) == s
  {
  }

  lemma {:induction false} StripCommentPrefix(c: string, u: string, q: Quotes)
    requires StripComment(c, q) == c
    ensures StripComment(c + u, q) == c + StripComment(u, QuotesAfter(q, c))
    decreases |c|
  {
    if c == "" {
      assert c + u == u;
    } else {
      assert (c + u)[1..] == c[1..] + u;
      assert c == [c[0]] + c[1..];
      var q' := Toggle(q, c[0]);
      assert StripComment(c[1..], q') == c[1..] by {
        assert StripComment(c, q)[1..] == StripComment(c[1..], q');
      }
      StripCommentPrefix(c[1..], u, q');
    }
  }

  lemma {:induction false} ControlQuotes(ctl: Control, t: string)
    ensures ControlAfter(ctl, t).q == QuotesAfter(ctl.q, t)
    decreases |t|
  {
    if t != "" { ControlQuotes(StepControl(ctl, t[0]), t[1..]); }
  }

  lemma StripOperator(op: OperatorType, u: string)
    requires op != NoOp
    ensures StripComment(OperatorText(op) + u, UNQUOTED) == OperatorText(op) + StripComment(u, UNQUOTED)
  {
    var t := OperatorText(op);
    assert StripComment(t, UNQUOTED) == t && QuotesAfter(UNQUOTED, t) == UNQUOTED by { OperatorPlain(op); }
    hide StripComment, QuotesAfter;
    StripCommentPrefix(t, u, UNQUOTED);
  }

  lemma OperatorPlain(op: OperatorType)
    requires op != NoOp
    ensures StripComment(OperatorText(op), UNQUOTED) == OperatorText(op)
    ensures QuotesAfter(UNQUOTED, OperatorText(op)) == UNQUOTED
  {
    PlainText(OperatorText(op));
  }

  lemma {:induction false} PlainText(t: string)
    requires forall i :: 0 <= i < |t| ==> t[i] != '"' && t[i] != '\'' && t[i] != '#'
    ensures StripComment(t, UNQUOTED) == t && QuotesAfter(UNQUOTED, t) == UNQUOTED
    decreases |t|
  {
    if t != "" {
      PlainText(t[1..]);
      assert [t[0]] + t[1..] == t;
    }
  }

  lemma {:induction false} NoCommentInJoined(c: string, tails: seq<Tail>)
    requires Whole(c) && WholeTails(tails)
    ensures StripComment(c + JoinTails(tails), UNQUOTED) == c + JoinTails(tails)
    decreases |tails|
  {
    hide StripComment, NoSeparator, StepControl, QuotesAfter;
    ControlQuotes(CLEAN, c);
    StripCommentPrefix(c, JoinTails(tails), UNQUOTED);
    if tails == [] {
      PlainText("");
    } else {
      StripOperator(tails[0].op, tails[0].command + JoinTails(tails[1..]));
      NoCommentInJoined(tails[0].command, tails[1..]);
    }
  }

  /** Whole commands joined by spaced operators parse back to those commands and operators. */
  lemma ParseJoined(c: string, tails: seq<Tail>)
    requires Whole(c) && WholeTails(tails)
    ensures Parse(c + JoinTails(tails)) == [Segment(c, NoOp, [])] + TailSegments(tails)
  {
    hide StripComment, NoSeparator, Split, Segments;
    NoCommentInJoined(c, tails);
    SplitJoined(c, tails, INITIAL);
    assert [] + ([Segment(c, NoOp, [])] + TailSegments(tails)) == [Segment(c, NoOp, [])] + TailSegments(tails);
  }
}
