/**
 Commands with nested parentheses: subshells, substitutions and quoted parts, given by a grammar, and
 what the splitter of command lines makes of their texts.
 */
module NestedCommands {
  import opened Text
  import opened QuoteStates
  import opened CommandLine

  // ---- The grammar ----

  /** A text in pieces; `Group` is `( … )`, or `$( … )` when `dollar`. */
  datatype Nest =
    | End
    | Word(c: char, rest: Nest)
    | Quoted(quote: char, text: string, rest: Nest)
    | Group(dollar: bool, inner: Nest, rest: Nest)

  function Print(x: Nest): string {
    match x
    case End => ""
    case Word(c, rest) => [c] + Print(rest)
    case Quoted(quote, text, rest) => [quote] + (text + ([quote] + Print(rest)))
    case Group(dollar, inner, rest) => (if dollar then "$" else "") + ("(" + (Print(inner) + (")" + Print(rest))))
  }

  predicate IsSubshell(x: Nest) {
    x.Group? && !x.dollar
  }

  /** Quotes, parentheses and `#` stand for themselves only in quotes; a `$` before `(` belongs to it. */
  predicate WellNested(x: Nest) {
    match x
    case End => true
    case Word(c, rest) =>
      c !in {'\'', '"', '(', ')', '#'} && (c == '$' ==> !IsSubshell(rest)) && WellNested(rest)
    case Quoted(quote, text, rest) => quote in {'\'', '"'} && quote !in text && WellNested(rest)
    case Group(_, inner, rest) => WellNested(inner) && WellNested(rest)
  }

  predicate HasSubshell(x: Nest) {
    match x
    case End => false
    case Word(_, rest) => HasSubshell(rest)
    case Quoted(_, _, rest) => HasSubshell(rest)
    case Group(dollar, inner, rest) => !dollar || HasSubshell(inner) || HasSubshell(rest)
  }

  /**
   No `;`, `&&` or `||` separates: outside quotes they stand in subshells only, or in a substitution
   behind a subshell. `inside` tells whether the text stands in a substitution.
   */
  predicate Unsplit(x: Nest, inside: bool) {
    match x
    case End => true
    case Word(c, rest) =>
      c != ';' && (c in {'&', '|'} ==> Print(rest) == "" || Print(rest)[0] != c) && Unsplit(rest, inside)
    case Quoted(_, _, rest) => Unsplit(rest, inside)
    case Group(dollar, inner, rest) =>
      && (dollar ==> Unsplit(inner, true))
      && ((inside && (!dollar || HasSubshell(inner))) || Unsplit(rest, inside))
  }

  /** A command: well nested, with separators only where they do not separate. */
  predicate IsCommand(x: Nest) {
    WellNested(x) && Unsplit(x, false) && Trimmed(Print(x))
  }

  // ---- What the splitter does with it ----

  /** Nothing follows, or the end of a group. */
  predicate Closes(u: string) {
    u == "" || u[0] == ')'
  }

  /** The depths after a part: none closed too many, and substitutions before subshells. */
  predicate Settled(before: Control, after: Control) {
    && after.q == UNQUOTED
    && after.paren + after.cmdsub == before.paren + before.cmdsub
    && after.cmdsub <= before.cmdsub
  }

  predicate Meets(x: Nest, ctl: Control) {
    ctl.q == UNQUOTED && (ctl.afterDollar ==> !IsSubshell(x))
  }

  /** What the splitter meets in a part at these depths: in a subshell no separator, else those that are left. */
  predicate Free(x: Nest, ctl: Control) {
    ctl.paren > 0 || Unsplit(x, ctl.cmdsub > 0)
  }

  /** The splitter's control behind a part, and whether it meets no separator in it. */
  predicate Passes(t: string, u: string, ctl: Control, next: Control, free: bool) {
    && (NoSeparator(t + u, ctl) <==> free && NoSeparator(u, next))
    && ControlAfter(ctl, t + u) == ControlAfter(next, u)
  }

  lemma PassOne(c: char, u: string, ctl: Control)
    ensures Passes([c], u, ctl, StepControl(ctl, c), SeparatorAt([c] + u, ctl).None?)
  {
    assert ([c] + u)[1..] == u;
  }

  lemma PassTwo(a: string, b: string, u: string, ctl: Control, mid: Control, next: Control, f: bool, g: bool)
    requires Passes(a, b + u, ctl, mid, f) && Passes(b, u, mid, next, g)
    ensures Passes(a + b, u, ctl, next, f && g)
  {
    assert a + b + u == a + (b + u);
  }

  lemma PassNothing(u: string, ctl: Control)
    ensures Passes("", u, ctl, ctl, true)
  {
    assert "" + u == u;
  }

  lemma {:induction false} QuotedPasses(quote: char, text: string, u: string, ctl: Control) returns (next: Control)
    requires quote in {'\'', '"'} && quote !in text
    requires ctl.q == (if quote == '\'' then Quotes(true, false) else Quotes(false, true))
    ensures next == ctl.(afterDollar := next.afterDollar) && Passes(text, u, ctl, next, true)
    decreases |text|
  {
    if text == "" {
      PassNothing(u, ctl);
      next := ctl;
    } else {
      var c, rest := text[0], text[1..];
      assert text == [c] + rest;
      PassOne(c, rest + u, ctl);
      var mid := StepControl(ctl, c);
      assert mid == ctl.(afterDollar := c == '$');
      hide StepControl, SeparatorAt;
      next := QuotedPasses(quote, rest, u, mid);
      PassTwo([c], rest, u, ctl, mid, next, true, true);
    }
  }

  lemma StepQuote(quote: char, u: string, ctl: Control)
    requires quote in {'\'', '"'}
    requires ctl.q == UNQUOTED || ctl.q == (if quote == '\'' then Quotes(true, false) else Quotes(false, true))
    ensures SeparatorAt([quote] + u, ctl).None?
    ensures StepControl(ctl, quote) == Control(Toggle(ctl.q, quote), ctl.paren, ctl.cmdsub, false)
    ensures ctl.q == UNQUOTED ==>
              Toggle(ctl.q, quote) == if quote == '\'' then Quotes(true, false) else Quotes(false, true)
    ensures ctl.q != UNQUOTED ==> Toggle(ctl.q, quote) == UNQUOTED
  {
  }

  lemma QuotesPass(quote: char, text: string, u: string, ctl: Control) returns (next: Control)
    requires quote in {'\'', '"'} && quote !in text && ctl.q == UNQUOTED
    ensures next == ctl.(afterDollar := false) && Passes([quote] + (text + [quote]), u, ctl, next, true)
  {
    hide StepControl, SeparatorAt, Toggle, Passes;
    StepQuote(quote, text + [quote] + u, ctl);
    PassOne(quote, text + [quote] + u, ctl);
    var open := StepControl(ctl, quote);
    var inside := QuotedPasses(quote, text, [quote] + u, open);
    StepQuote(quote, u, inside);
    PassOne(quote, u, inside);
    next := StepControl(inside, quote);
    PassTwo(text, [quote], u, open, inside, next, true, true);
    PassTwo([quote], text + [quote], u, ctl, open, next, true, true);
  }

  lemma StepWord(c: char, u: string, ctl: Control)
    requires ctl.q == UNQUOTED && c !in {'\'', '"', '(', ')'}
    ensures SeparatorAt([c] + u, ctl).None? <==>
            ctl.paren > 0 || (c != ';' && (c in {'&', '|'} ==> u == "" || u[0] != c))
    ensures StepControl(ctl, c) == ctl.(afterDollar := c == '$')
  {
  }

  lemma StepOpen(dollar: bool, u: string, ctl: Control)
    requires ctl.q == UNQUOTED && ctl.afterDollar == dollar
    ensures SeparatorAt(['('] + u, ctl).None?
    ensures StepControl(ctl, '(') ==
            if dollar then Control(UNQUOTED, ctl.paren, ctl.cmdsub + 1, false)
            else Control(UNQUOTED, ctl.paren + 1, ctl.cmdsub, false)
  {
  }

  /** A substitution is closed before a subshell. */
  lemma StepClose(u: string, ctl: Control)
    requires ctl.q == UNQUOTED && ctl.paren + ctl.cmdsub > 0
    ensures SeparatorAt([')'] + u, ctl).None?
    ensures StepControl(ctl, ')') ==
            if ctl.cmdsub > 0 then Control(UNQUOTED, ctl.paren, ctl.cmdsub - 1, false)
            else Control(UNQUOTED, ctl.paren - 1, 0, false)
  {
  }

  lemma DollarPasses(dollar: bool, u: string, ctl: Control) returns (next: Control)
    requires ctl.q == UNQUOTED && (ctl.afterDollar ==> dollar)
    ensures next == ctl.(afterDollar := dollar) && Passes(if dollar then "$" else "", u, ctl, next, true)
  {
    if dollar {
      StepWord('$', u, ctl);
      PassOne('$', u, ctl);
      next := StepControl(ctl, '$');
    } else {
      PassNothing(u, ctl);
      next := ctl;
    }
  }

  /** The text of a part ends where the next one starts; only the end of its own group comes after it. */
  lemma {:induction false} NestPasses(x: Nest, u: string, ctl: Control) returns (next: Control)
    requires WellNested(x) && Meets(x, ctl) && Closes(u)
    ensures Settled(ctl, next) && Passes(Print(x), u, ctl, next, Free(x, ctl))
    ensures ctl.paren == 0 && ctl.cmdsub > 0 ==> (next.paren > 0 <==> HasSubshell(x))
    decreases x
  {
    hide StepControl, SeparatorAt, Passes, NoSeparator, ControlAfter, Toggle;
    match x {
      case End =>
        PassNothing(u, ctl);
        next := ctl;
      case Word(c, rest) =>
        var mid := ctl.(afterDollar := c == '$');
        WordIsFollowed(c, rest, u);
        StepWord(c, Print(rest) + u, ctl);
        PassOne(c, Print(rest) + u, ctl);
        next := NestPasses(rest, u, mid);
        PassTwo([c], Print(rest), u, ctl, mid, next, SeparatorAt([c] + (Print(rest) + u), ctl).None?, Free(rest, mid));
      case Quoted(quote, text, rest) =>
        var mid := QuotesPass(quote, text, Print(rest) + u, ctl);
        next := NestPasses(rest, u, mid);
        PassTwo([quote] + (text + [quote]), Print(rest), u, ctl, mid, next, true, Free(rest, mid));
        assert [quote] + (text + [quote]) + Print(rest) == Print(x);
      case Group(dollar, inner, rest) =>
        next := GroupPasses(x, u, ctl);
    }
  }

  lemma WordIsFollowed(c: char, rest: Nest, u: string)
    requires Closes(u)
    ensures var t := Print(rest) + u;
            (c in {'&', '|'} ==> t == "" || t[0] != c) <==>
            (c in {'&', '|'} ==> Print(rest) == "" || Print(rest)[0] != c)
  {
    hide Print;
    if Print(rest) == "" { assert Print(rest) + u == u; }
  }

  /** The depths in a group and behind it. */
  lemma GroupSettles(x: Nest, ctl: Control, b: Control, d: Control, e: Control)
    requires x.Group? && ctl.q == UNQUOTED && Settled(b, d)
    requires b == if x.dollar then Control(UNQUOTED, ctl.paren, ctl.cmdsub + 1, false)
                  else Control(UNQUOTED, ctl.paren + 1, ctl.cmdsub, false)
    requires b.paren == 0 && b.cmdsub > 0 ==> (d.paren > 0 <==> HasSubshell(x.inner))
    requires e == if d.cmdsub > 0 then Control(UNQUOTED, d.paren, d.cmdsub - 1, false)
                  else Control(UNQUOTED, d.paren - 1, 0, false)
    ensures Settled(ctl, e) && (ctl.paren > 0 ==> e.paren > 0)
    ensures ctl.paren == 0 && ctl.cmdsub > 0 ==> (e.paren > 0 <==> !x.dollar || HasSubshell(x.inner))
    ensures Free(x, ctl) <==> Free(x.inner, b) && Free(x.rest, e)
  {
    hide HasSubshell;
  }

  lemma {:induction false} GroupPasses(x: Nest, u: string, ctl: Control) returns (next: Control)
    requires x.Group? && WellNested(x) && Meets(x, ctl) && Closes(u)
    ensures Settled(ctl, next) && Passes(Print(x), u, ctl, next, Free(x, ctl))
    ensures ctl.paren == 0 && ctl.cmdsub > 0 ==> (next.paren > 0 <==> HasSubshell(x))
    decreases x, 0
  {
    hide StepControl, SeparatorAt, Passes, NoSeparator, ControlAfter, Toggle, Unsplit;
    var inner, tail := Print(x.inner), Print(x.rest);
    var sign := if x.dollar then "$" else "";
    var a := DollarPasses(x.dollar, "(" + (inner + (")" + tail)) + u, ctl);
    StepOpen(x.dollar, inner + (")" + tail) + u, a);
    PassOne('(', inner + (")" + tail) + u, a);
    var b := StepControl(a, '(');
    assert ")" + tail + u == ")" + (tail + u);
    var d := NestPasses(x.inner, ")" + tail + u, b);
    StepClose(tail + u, d);
    PassOne(')', tail + u, d);
    var e := StepControl(d, ')');
    GroupSettles(x, ctl, b, d, e);
    next := NestPasses(x.rest, u, e);
    var f, g := Free(x.inner, b), Free(x.rest, e);
    hide Free;
    PassTwo(")", tail, u, d, e, next, true, g);
    PassTwo(inner, ")" + tail, u, b, d, next, f, g);
    PassTwo("(", inner + (")" + tail), u, a, b, next, true, f && g);
    PassTwo(sign, "(" + (inner + (")" + tail)), u, ctl, a, next, true, f && g);
  }

  // ---- Comments ----

  lemma {:induction false} QuotedKept(quote: char, text: string, u: string, q: Quotes)
    requires quote in {'\'', '"'} && quote !in text
    requires q == if quote == '\'' then Quotes(true, false) else Quotes(false, true)
    ensures StripComment(text + u, q) == text + StripComment(u, q)
    decreases |text|
  {
    if text == "" {
      assert text + u == u && "" + StripComment(u, q) == StripComment(u, q);
    } else {
      assert (text + u)[1..] == text[1..] + u && (text + u)[0] == text[0];
      QuotedKept(quote, text[1..], u, q);
      assert [text[0]] + (text[1..] + StripComment(u, q)) == text + StripComment(u, q);
    }
  }

  lemma KeptOne(c: char, u: string, q: Quotes)
    requires c != '#'
    ensures StripComment([c] + u, q) == [c] + StripComment(u, Toggle(q, c))
  {
    assert ([c] + u)[1..] == u;
  }

  lemma {:induction false} NestKept(x: Nest, u: string)
    requires WellNested(x)
    ensures StripComment(Print(x) + u, UNQUOTED) == Print(x) + StripComment(u, UNQUOTED)
    decreases x
  {
    hide StripComment;
    var end := StripComment(u, UNQUOTED);
    match x {
      case End =>
        assert "" + u == u && "" + end == end;
      case Word(c, rest) =>
        assert [c] + Print(rest) + u == [c] + (Print(rest) + u);
        KeptOne(c, Print(rest) + u, UNQUOTED);
        NestKept(rest, u);
        assert [c] + (Print(rest) + end) == [c] + Print(rest) + end;
      case Quoted(quote, text, rest) =>
        var open := Toggle(UNQUOTED, quote);
        var later := Print(rest) + u;
        assert Print(x) + u == [quote] + (text + ([quote] + later));
        KeptOne(quote, text + ([quote] + later), UNQUOTED);
        QuotedKept(quote, text, [quote] + later, open);
        KeptOne(quote, later, open);
        NestKept(rest, u);
        assert [quote] + (text + ([quote] + (Print(rest) + end))) == Print(x) + end;
      case Group(dollar, inner, rest) =>
        GroupKept(x, u);
    }
  }

  lemma {:induction false} GroupKept(x: Nest, u: string)
    requires x.Group? && WellNested(x)
    ensures StripComment(Print(x) + u, UNQUOTED) == Print(x) + StripComment(u, UNQUOTED)
    decreases x, 0
  {
    hide StripComment;
    var end := StripComment(u, UNQUOTED);
    var inner, tail := Print(x.inner), Print(x.rest);
    var b := [')'] + (tail + u);
    var a := ['('] + (inner + b);
    KeptOne(')', tail + u, UNQUOTED);
    NestKept(x.rest, u);
    NestKept(x.inner, b);
    KeptOne('(', inner + b, UNQUOTED);
    if x.dollar { KeptOne('$', a, UNQUOTED); }
    Regrouped(if x.dollar then "$" else "", inner, tail, u);
    Regrouped(if x.dollar then "$" else "", inner, tail, end);
  }

  lemma Regrouped(sign: string, inner: string, tail: string, end: string)
    ensures sign + (['('] + (inner + ([')'] + (tail + end)))) == sign + ("(" + (inner + (")" + tail))) + end
    ensures sign == "" ==> sign + (['('] + (inner + ([')'] + (tail + end)))) == ['('] + (inner + ([')'] + (tail + end)))
  {
    assert "(" + (inner + (")" + tail)) + end == ['('] + (inner + ([')'] + (tail + end)));
  }

  // ---- Commands are left whole ----

  lemma CommandIsWhole(x: Nest)
    requires IsCommand(x)
    ensures Whole(Print(x))
  {
    hide StepControl, SeparatorAt, NoSeparator, ControlAfter, StripComment, Print, WellNested, Unsplit;
    var t := Print(x);
    var next := NestPasses(x, "", CLEAN);
    NestKept(x, "");
    assert t + "" == t;
    EmptyText(next);
  }

  lemma EmptyText(ctl: Control)
    ensures NoSeparator("", ctl) && ControlAfter(ctl, "") == ctl && StripComment("", UNQUOTED) == ""
  {
  }

  /** A further command of a line, and the operator in front of it. */
  datatype More = More(op: OperatorType, command: Nest)

  predicate AreCommands(more: seq<More>) {
    forall i :: 0 <= i < |more| ==> more[i].op != NoOp && IsCommand(more[i].command)
  }

  function PrintMore(more: seq<More>): string {
    if more == [] then ""
    else
      (match more[0].op case NoOp => "" case And => " && " case Or => " || " case Semicolon => " ; ")
      + (Print(more[0].command) + PrintMore(more[1..]))
  }

  function SegmentsOf(more: seq<More>): seq<Segment> {
    if more == [] then [] else [Segment(Print(more[0].command), more[0].op, [])] + SegmentsOf(more[1..])
  }

  function TailsOf(more: seq<More>): seq<Tail> {
    if more == [] then [] else [Tail(more[0].op, Print(more[0].command))] + TailsOf(more[1..])
  }

  lemma {:induction false} TailsAreWhole(more: seq<More>)
    requires AreCommands(more)
    ensures WholeTails(TailsOf(more)) && JoinTails(TailsOf(more)) == PrintMore(more)
    ensures TailSegments(TailsOf(more)) == SegmentsOf(more)
    decreases |more|
  {
    hide Whole, IsCommand, Print;
    if more != [] {
      assert forall i :: 0 <= i < |more[1..]| ==> more[1..][i] == more[i + 1];
      CommandIsWhole(more[0].command);
      TailsAreWhole(more[1..]);
      var tail, rest := Tail(more[0].op, Print(more[0].command)), TailsOf(more[1..]);
      assert ([tail] + rest)[1..] == rest;
    }
  }

  /**
   A line of commands is split into exactly these commands, whatever `;`, `&&` and `||` stand in their
   subshells and quotes.
   */
  lemma NestedLineParses(x: Nest, more: seq<More>)
    requires IsCommand(x) && AreCommands(more)
    ensures Parse(Print(x) + PrintMore(more)) == [Segment(Print(x), NoOp, [])] + SegmentsOf(more)
  {
    hide Whole, IsCommand, Print, Parse;
    CommandIsWhole(x);
    TailsAreWhole(more);
    ParseJoined(Print(x), TailsOf(more));
  }

  lemma SubshellIsCommand(x: Nest)
    requires WellNested(x)
    ensures IsCommand(Group(false, x, End)) && Print(Group(false, x, End)) == "(" + Print(x) + ")"
  {
    var g := Group(false, x, End);
    SubshellText(x);
    assert Trimmed(Print(g)) by {
      hide Print;
      ParensTrimmed(Print(x));
    }
    hide Print, Trimmed;
    assert WellNested(End) && Unsplit(End, false);
  }

  lemma SubshellText(x: Nest)
    ensures Print(Group(false, x, End)) == "(" + Print(x) + ")"
  {
    var text := Print(x);
    assert Print(End) == "" && text + (")" + "") == text + ")";
    assert "" + ("(" + (text + ")")) == "(" + text + ")";
  }

  lemma ParensTrimmed(text: string)
    ensures Trimmed("(" + text + ")")
  {
  }

  /** In particular a subshell is one command whatever it holds, and nothing is complained of. */
  lemma SubshellIsOneSegment(x: Nest)
    requires WellNested(x)
    ensures var line := "(" + Print(x) + ")";
            && Parse(line) == [Segment(line, NoOp, [])]
            && Diagnostics(Split(StripComment(line, UNQUOTED), INITIAL)) == []
  {
    hide Parse, WellNested, Print, StripComment, NoSeparator, ControlAfter, Split, SeparatorAt, StepControl;
    SubshellIsCommand(x);
    var g := Group(false, x, End);
    var line := "(" + Print(x) + ")";
    CommandIsWhole(g);
    NestedLineParses(g, []);
    assert line + "" == line && [Segment(line, NoOp, [])] + [] == [Segment(line, NoOp, [])];
    ShiftAll(line, "", INITIAL);
    SplitNothing(INITIAL.(ctl := ControlAfter(CLEAN, line), current := "" + line));
  }

  // ---- The exact condition ----

  /** Behind an operator every segment has one. */
  lemma {:induction false} AfterOperator(t: string, s: Splitter)
    requires s.nextOp != NoOp
    ensures var r := Segments(Split(t, s));
            s.segments <= r && forall i :: |s.segments| <= i < |r| ==> r[i].op != NoOp
    decreases |t|
  {
    if t == "" {
      SplitNothing(s);
      return;
    }
    SplitCons(t, s);
    hide Split, SeparatorAt, StepControl, Trim;
    var sep := SeparatorAt(t, s.ctl);
    if sep.Some? {
      AfterOperator(t[sep.value.1..], Reduce(s, sep.value.0));
    } else {
      AfterOperator(t[1..], Shift(s, t[0]));
    }
  }

  lemma {:induction false} TrimIsShorter(t: string)
    ensures |TrimLeft(t)| <= |t| && |TrimRight(t)| <= |t| && |Trim(t)| <= |t|
    decreases |t|
  {
    if t != "" {
      TrimIsShorter(t[1..]);
      TrimIsShorter(t[..|t| - 1]);
      if TrimRight(t) != t { TrimIsShorter(TrimRight(t)); }
    }
  }

  /** A separator leaves no segment without operator that is as long as the whole text. */
  lemma {:induction false} SeparatorShows(t: string, s: Splitter)
    requires !NoSeparator(t, s.ctl) && s.nextOp == NoOp && s.segments == []
    ensures var r := Segments(Split(t, s)); r == [] || r[0].op != NoOp || |r[0].command| < |s.current| + |t|
    decreases |t|
  {
    SplitCons(t, s);
    hide Split, StepControl, Trim;
    var sep := SeparatorAt(t, s.ctl);
    if sep.Some? {
      TrimIsShorter(s.current);
      AfterOperator(t[sep.value.1..], Reduce(s, sep.value.0));
    } else {
      SeparatorShows(t[1..], Shift(s, t[0]));
    }
  }

  /** A well-nested text comes back as one command exactly when none of its separators separates. */
  lemma OneCommandIff(x: Nest)
    requires WellNested(x) && Trimmed(Print(x))
    ensures Parse(Print(x)) == [Segment(Print(x), NoOp, [])] <==> Unsplit(x, false)
  {
    hide StepControl, SeparatorAt, ControlAfter, StripComment, Print, WellNested, Unsplit, Trimmed, Split, Segments;
    var t := Print(x);
    assert t + "" == t;
    NestKept(x, "");
    var next := NestPasses(x, "", CLEAN);
    EmptyText(next);
    if Unsplit(x, false) {
      NestedLineParses(x, []);
      assert [Segment(t, NoOp, [])] + [] == [Segment(t, NoOp, [])];
    } else {
      hide NoSeparator;
      SeparatorShows(t, INITIAL);
    }
  }

  // ---- Substitutions alone do not protect ----

  predicate PlainWords(t: string) {
    forall i :: 0 <= i < |t| ==> t[i] !in {'\'', '"', '#', '(', ')', '&', '|', ';', '$'}
  }

  lemma {:induction false} WordsShift(t: string, u: string, s: Splitter)
    requires PlainWords(t) && s.ctl.q == UNQUOTED && !s.ctl.afterDollar
    ensures Split(t + u, s) == Split(u, s.(current := s.current + t))
    decreases |t|
  {
    hide StepControl, SeparatorAt;
    if t == "" {
      assert t + u == u && s.current + "" == s.current;
    } else {
      assert (t + u)[1..] == t[1..] + u && (t + u)[0] == t[0];
      StepWord(t[0], t[1..] + u, s.ctl);
      assert t + u == [t[0]] + (t[1..] + u);
      WordsShift(t[1..], u, s.(current := s.current + [t[0]]));
      assert s.current + [t[0]] + t[1..] == s.current + t;
    }
  }

  lemma ShiftOne(c: char, u: string, s: Splitter)
    requires SeparatorAt([c] + u, s.ctl).None?
    ensures Split([c] + u, s) == Split(u, s.(ctl := StepControl(s.ctl, c), current := s.current + [c]))
  {
    hide StepControl, SeparatorAt;
    assert ([c] + u)[1..] == u;
  }

  lemma Semicolons(u: string, s: Splitter)
    requires s.ctl.q == UNQUOTED && s.ctl.paren == 0 && Trimmed(s.current)
    ensures Split([';'] + u, s) ==
            Split(u,
                  Splitter(s.ctl.(afterDollar := false), "", Semicolon,
                           s.segments + [Segment(s.current, s.nextOp, [])]))
  {
    var t := [';'] + u;
    assert SeparatorAt(t, s.ctl) == Some((Semicolon, 1)) && t[1..] == u;
    hide SeparatorAt, Trim;
    TrimPad("", s.current, "");
    assert "" + s.current + "" == s.current;
  }

  /** A `;` in a substitution that stands in no subshell splits the command there. */
  lemma SubstitutionIsSplit(a: string, b: string)
    requires PlainWords(a) && PlainWords(b) && Trimmed(a) && Trimmed(b)
    ensures Parse("$(" + a + ";" + b + ")") == [Segment("$(" + a, NoOp, []), Segment(b + ")", Semicolon, [])]
  {
    hide StepControl, SeparatorAt, Split, StripComment, Trim;
    var d := [')'] + "";
    var c := [';'] + (b + d);
    var open := ['('] + (a + c);
    var line := "$(" + a + ";" + b + ")";
    assert line == ['$'] + open;
    SplitHasNoComment(a, b);
    StepWord('$', open, CLEAN);
    ShiftOne('$', open, INITIAL);
    var one := INITIAL.(ctl := Control(UNQUOTED, 0, 0, true), current := "$");
    assert "" + ['$'] == "$";
    StepOpen(true, a + c, one.ctl);
    ShiftOne('(', a + c, one);
    var two := INITIAL.(ctl := Control(UNQUOTED, 0, 1, false), current := "$(");
    assert "$" + ['('] == "$(";
    WordsShift(a, c, two);
    Semicolons(b + d, two.(current := "$(" + a));
    var three := Splitter(two.ctl, "", Semicolon, [Segment("$(" + a, NoOp, [])]);
    assert [] + [Segment("$(" + a, NoOp, [])] == three.segments;
    WordsShift(b, d, three);
    assert "" + b == b;
    StepClose("", three.ctl);
    ShiftOne(')', "", three.(current := b));
    var last := three.(ctl := Control(UNQUOTED, 0, 0, false), current := b + [')']);
    SplitNothing(last);
    TrimPad("", b + [')'], "");
    assert "" + (b + [')']) + "" == b + [')'];
  }

  lemma SplitHasNoComment(a: string, b: string)
    requires PlainWords(a) && PlainWords(b)
    ensures var line := "$(" + a + ";" + b + ")"; StripComment(line, UNQUOTED) == line
  {
    var line := "$(" + a + ";" + b + ")";
    forall i | 0 <= i < |line| ensures line[i] != '"' && line[i] != '\'' && line[i] != '#' {
    }
    PlainText(line);
  }

  // ---- Comments and complaints ----

  /** From a `#` outside quotes on, nothing counts. */
  lemma CommentIsCut(x: Nest, more: seq<More>, comment: string)
    requires IsCommand(x) && AreCommands(more)
    ensures Parse(Print(x) + PrintMore(more) + ("#" + comment)) == [Segment(Print(x), NoOp, [])] + SegmentsOf(more)
  {
    hide Whole, IsCommand, Print, Split, Segments, StripComment;
    CommandIsWhole(x);
    TailsAreWhole(more);
    var line := Print(x) + PrintMore(more);
    NoCommentInJoined(Print(x), TailsOf(more));
    JoinedQuotes(Print(x), TailsOf(more));
    StripCommentPrefix(line, "#" + comment, UNQUOTED);
    assert StripComment("#" + comment, UNQUOTED) == "" by { HashCuts(comment); }
    assert line + "" == line;
    NestedLineParses(x, more);
  }

  lemma HashCuts(comment: string)
    ensures StripComment("#" + comment, UNQUOTED) == ""
  {
  }

  lemma {:induction false} QuotesAcross(q: Quotes, a: string, b: string)
    ensures QuotesAfter(q, a + b) == QuotesAfter(QuotesAfter(q, a), b)
    decreases |a|
  {
    if a == "" {
      assert a + b == b;
    } else {
      assert (a + b)[1..] == a[1..] + b;
      QuotesAcross(Toggle(q, a[0]), a[1..], b);
    }
  }

  /** A joined line ends outside quotes. */
  lemma {:induction false} JoinedQuotes(c: string, tails: seq<Tail>)
    requires Whole(c) && WholeTails(tails)
    ensures QuotesAfter(UNQUOTED, c + JoinTails(tails)) == UNQUOTED
    decreases |tails|
  {
    hide StripComment, NoSeparator, StepControl, QuotesAfter, OperatorText;
    ControlQuotes(CLEAN, c);
    QuotesAcross(UNQUOTED, c, JoinTails(tails));
    if tails == [] {
      PlainText("");
    } else {
      var op, d := tails[0].op, tails[0].command;
      OperatorPlain(op);
      QuotesAcross(UNQUOTED, OperatorText(op), d + JoinTails(tails[1..]));
      JoinedQuotes(d, tails[1..]);
    }
  }

  /** An operator that waits for a command at the end of the line is complained of; a `;` is not. */
  lemma DanglingOperator(x: Nest, op: OperatorType)
    requires IsCommand(x) && op != NoOp
    ensures var sign := match op case NoOp => "" case And => " && " case Or => " || " case Semicolon => " ; ";
            var line := Print(x) + sign;
            && Parse(line) == [Segment(Print(x), NoOp, [])]
            && Diagnostics(Split(StripComment(line, UNQUOTED), INITIAL)) ==
               match op case NoOp => [] case And => [EmptyAfterAnd] case Or => [EmptyAfterOr] case Semicolon => []
  {
    hide Whole, IsCommand, Print, Split, StripComment, NoSeparator, ControlAfter, StepControl, Trim;
    CommandIsWhole(x);
    var c, sign := Print(x), OperatorText(op);
    assert Trimmed(c) && NoSeparator(c, CLEAN) && CleanUpToDollar(ControlAfter(CLEAN, c))
      && StripComment(c, UNQUOTED) == c by
    {
      WholeIs(c);
    }
    ControlQuotes(CLEAN, c);
    StripCommentPrefix(c, sign, UNQUOTED);
    OperatorPlain(op);
    ShiftAll(c, sign, INITIAL);
    var a := INITIAL.(ctl := ControlAfter(CLEAN, c), current := c);
    assert "" + c == c && sign + "" == sign;
    Operator(op, "", c, "", a);
    var b := Splitter(CLEAN, " ", op, [Segment(c, NoOp, [])]);
    assert [] + [Segment(c, NoOp, [])] == b.segments;
    SplitNothing(b);
    BlankIsNothing();
    assert b.segments + [] == b.segments;
  }

  lemma WholeIs(c: string)
    requires Whole(c)
    ensures Trimmed(c) && NoSeparator(c, CLEAN) && CleanUpToDollar(ControlAfter(CLEAN, c))
    ensures StripComment(c, UNQUOTED) == c
  {
  }

  lemma BlankIsNothing()
    ensures Trim(" ") == ""
  {
    assert TrimRight(" ") == TrimRight("");
  }

  /** A quote that is left open is complained of. */
  lemma OpenQuote(x: Nest, quote: char, text: string)
    requires IsCommand(x) && quote in {'\'', '"'} && quote !in text
    ensures var line := Print(x) + ([quote] + text);
            Diagnostics(Split(StripComment(line, UNQUOTED), INITIAL)) ==
            [if quote == '\'' then UnmatchedSingle else UnmatchedDouble]
  {
    hide IsCommand, Print, Split, StripComment, NoSeparator, ControlAfter, StepControl, SeparatorAt, Trim, WellNested,
         Unsplit;
    var t := [quote] + text;
    var line := Print(x) + t;
    var q := if quote == '\'' then Quotes(true, false) else Quotes(false, true);
    assert WellNested(x) && Unsplit(x, false) && Trimmed(Print(x)) by { CommandIs(x); }
    NestKept(x, t);
    KeptOne(quote, text, UNQUOTED);
    assert text + "" == text;
    QuotedKept(quote, text, "", q);
    NothingStripped(q);
    assert StripComment(line, UNQUOTED) == line by { assert Toggle(UNQUOTED, quote) == q; }
    CommandIsWhole(x);
    WholeIs(Print(x));
    ControlQuotes(CLEAN, Print(x));
    ShiftAll(Print(x), t, INITIAL);
    assert "" + Print(x) == Print(x);
    var a := INITIAL.(ctl := ControlAfter(CLEAN, Print(x)), current := Print(x));
    StepQuote(quote, text, a.ctl);
    ShiftOne(quote, text, a);
    var b := a.(ctl := StepControl(a.ctl, quote), current := a.current + [quote]);
    assert b.ctl.q == q;
    InsideShifts(quote, text, b);
  }

  lemma {:induction false} InsideShifts(quote: char, text: string, s: Splitter)
    requires quote in {'\'', '"'} && quote !in text
    requires s.ctl.q == if quote == '\'' then Quotes(true, false) else Quotes(false, true)
    ensures Split(text, s).ctl.q == s.ctl.q && Split(text, s).nextOp == s.nextOp
    decreases |text|
  {
    if text != "" {
      var c, rest := text[0], text[1..];
      assert text == [c] + rest;
      assert SeparatorAt(text, s.ctl).None? && StepControl(s.ctl, c).q == s.ctl.q;
      ShiftOne(c, rest, s);
      hide Split, SeparatorAt, StepControl;
      InsideShifts(quote, rest, s.(ctl := StepControl(s.ctl, c), current := s.current + [c]));
    }
  }

  lemma NothingStripped(q: Quotes)
    ensures StripComment("", q) == ""
  {
  }

  lemma CommandIs(x: Nest)
    requires IsCommand(x)
    ensures WellNested(x) && Unsplit(x, false) && Trimmed(Print(x))
  {
  }
}
