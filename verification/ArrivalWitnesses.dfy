/** Commands whose here-document bodies are lost or go to another marker, followed through dispatch. */
module ArrivalWitnesses {
  import opened Text
  import opened Runs
  import opened QuoteStates
  import opened CommandLine
  import opened Heredocs
  import opened RedirectionPass
  import opened HeredocBodies
  import opened CommandDispatch
  import opened BodyArrival
  import opened LineArrival
  import Tokenizer

  // ---- Markers and words ----

  /** The heredoc of `<<d` before its body is read. */
  function Mark(d: char): PendingHeredoc {
    PendingHeredoc([d], false, true, "")
  }

  predicate Letter(d: char) {
    d !in BLANKS && d !in DELIM_STOPS && d != '\'' && d != '"' && d != '-'
  }

  /** `<<d` in front of `rest`. */
  function Marked(d: char, rest: string): string {
    ['<', '<', d] + rest
  }

  predicate Separate(rest: string) {
    rest == "" || rest[0] == ' '
  }

  lemma MarkerRead(d: char, rest: string)
    requires Letter(d) && Separate(rest)
    ensures var t := Marked(d, rest);
            "<<" <= t && ReadMarker(t) == Marker([d], false, true, 3) && t[3..] == rest && MarkerInside(t)
  {
    var t := Marked(d, rest);
    assert t[2..] == [d] + rest && ([d] + rest)[0] == d;
    assert RunIn(t[2..], BLANKS) == 0;
    RunOutIs(t[2..], DELIM_STOPS, 1);
    hide RunIn, RunOut;
    assert t[2..3] == [d];
  }

  lemma OneMarker(d: char, rest: string)
    requires Letter(d) && Separate(rest) && Agreeable(rest, UNQUOTED)
    ensures Scan(Marked(d, rest), UNQUOTED) == [Mark(d)] + Scan(rest, UNQUOTED)
    ensures Agreeable(Marked(d, rest), UNQUOTED)
    ensures ScanCloses(Marked(d, rest), UNQUOTED) == ScanCloses(rest, UNQUOTED)
  {
    MarkerRead(d, rest);
    hide ReadMarker, Scan, Agreeable, MarkerInside, Separate;
    var t := Marked(d, rest);
    assert t[0] == '<';
    ScanUnfoldMarker(t, UNQUOTED);
    AgreeableMarker(t);
    assert ScanCloses(t, UNQUOTED) == ScanCloses(t[3..], UNQUOTED);
  }

  /** Words without quotes, redirections and the digit that could start one. */
  predicate Wordy(t: string) {
    forall i :: 0 <= i < |t| ==> t[i] !in {'\'', '"', '<', '>', '2'}
  }

  /** Scan and pass go through words without a trace, up to the text that the pass keeps. */
  lemma {:induction false} WordyThen(t: string, u: string)
    requires Wordy(t)
    ensures Scan(t + u, UNQUOTED) == Scan(u, UNQUOTED) && ScanCloses(t + u, UNQUOTED) == ScanCloses(u, UNQUOTED)
    ensures Agreeable(t + u, UNQUOTED) == Agreeable(u, UNQUOTED) && Own(t + u) == Own(u)
    ensures Remaining(Events(t + u, UNQUOTED, [])) == t + Remaining(Events(u, UNQUOTED, []))
    decreases |t|
  {
    hide Scan, Agreeable, Events, Remaining, Own, ScanCloses;
    var kept := Remaining(Events(u, UNQUOTED, []));
    if t == "" {
      assert t + u == u;
      assert t + kept == kept;
    } else {
      assert t + u == [t[0]] + (t[1..] + u);
      WordyThen(t[1..], u);
      WordyStep(t[0], t[1..] + u);
      assert [t[0]] + (t[1..] + kept) == t + kept;
    }
  }

  lemma WordyStep(c: char, rest: string)
    requires c !in {'\'', '"', '<', '>', '2'}
    ensures Scan([c] + rest, UNQUOTED) == Scan(rest, UNQUOTED)
    ensures ScanCloses([c] + rest, UNQUOTED) == ScanCloses(rest, UNQUOTED)
    ensures Agreeable([c] + rest, UNQUOTED) == Agreeable(rest, UNQUOTED) && Own([c] + rest) == Own(rest)
    ensures Remaining(Events([c] + rest, UNQUOTED, [])) == [c] + Remaining(Events(rest, UNQUOTED, []))
  {
    var t := [c] + rest;
    assert t[0] == c && t[1..] == rest;
    assert ReadUnquoted(t, []) == Reading(1, [Keep(c)], []) by { ReadsOne(t); }
    assert StepAgrees(t) by { AgreesOne(t); }
    hide ReadUnquoted, ReadMarker, StepAgrees, MarkerInside;
    KeptStep(c, Events(rest, UNQUOTED, []));
    hide Remaining, HeredocEntries, Redirections;
    assert Events(t, UNQUOTED, []) == [Keep(c)] + Events(rest, UNQUOTED, []);
  }

  lemma KeptStep(c: char, events: seq<Event>)
    ensures Remaining([Keep(c)] + events) == [c] + Remaining(events)
    ensures HeredocEntries(Redirections([Keep(c)] + events)) == HeredocEntries(Redirections(events))
  {
    assert ([Keep(c)] + events)[1..] == events;
    hide HeredocEntries, Redirections;
    OneEntry(Keep(c));
    EntriesOfEvents([Keep(c)], events);
    assert [] + Entries(events) == Entries(events);
  }

  lemma ReadsOne(t: string)
    requires t != "" && t[0] !in {'<', '>', '2'}
    ensures ReadUnquoted(t, []) == Reading(1, [Keep(t[0])], [])
  {
  }

  lemma AgreesOne(t: string)
    requires t != "" && t[0] !in {'<', '>', '2'}
    ensures StepAgrees(t)
  {
  }

  lemma NothingRead()
    ensures Scan("", UNQUOTED) == [] && Agreeable("", UNQUOTED) && ScanCloses("", UNQUOTED) && Own("") == []
  {
    assert Events("", UNQUOTED, []) == [];
    assert Own("") == Entries([]);
  }

  /** One marker among words. */
  lemma WordsAndMarker(t: string, d: char, v: string)
    requires Wordy(t) && Letter(d) && Wordy(v) && Separate(v)
    ensures var u := t + Marked(d, v);
            && Scan(u, UNQUOTED) == [Mark(d)] == Own(u) && Agreeable(u, UNQUOTED) && ScanCloses(u, UNQUOTED)
  {
    hide Scan, Agreeable, ScanCloses, Own, Wordy, Letter, Marked, Separate;
    NothingRead();
    WordyThen(v, "");
    assert v + "" == v;
    OneMarker(d, v);
    WordyThen(t, Marked(d, v));
    assert [Mark(d)] + [] == [Mark(d)];
    OwnAreScanned(t + Marked(d, v));
  }

  /** Words, a marker, a blank and another marker. */
  lemma WordsAndMarkers(t: string, d: char, e: char)
    requires Wordy(t) && Letter(d) && Letter(e)
    ensures var u := t + Marked(d, " " + Marked(e, ""));
            Scan(u, UNQUOTED) == [Mark(d), Mark(e)] == Own(u)
  {
    hide Scan, Agreeable, ScanCloses, Own, Letter, Marked;
    var rest := " " + Marked(e, "");
    WordsAndMarker(" ", e, "");
    assert Separate(rest);
    hide Wordy;
    OneMarker(d, rest);
    assert [Mark(d)] + [Mark(e)] == [Mark(d), Mark(e)];
    WordyThen(t, Marked(d, rest));
    OwnAreScanned(t + Marked(d, rest));
  }

  // ---- Words before execution ----

  /** A first word of `n` characters that is no alias, and no hook in the way. */
  lemma FirstWordStays(env: Env, c: string, n: nat)
    requires 0 < n < |c| && c[0] != '\\' && c[n] in BLANKS && (forall i :: 0 <= i < n ==> c[i] !in BLANKS)
    requires c[..n] !in env.aliases && !env.skips(c)
    ensures Prepare(env, c) == Some(c)
  {
    assert RunIn(c, BLANKS) == 0 && c[0..] == c;
    RunOutIs(c, BLANKS, n);
    assert c[0..n] == c[..n];
    hide RunIn, RunOut;
  }

  lemma NotParenthesized(c: string)
    requires c != "" && c[0] !in BLANKS && c[0] != '('
    ensures LoneSubshell(c) == NotLone
  {
    assert RunIn(c, BLANKS) == 0;
    hide CloseAt, HasPipe, RunIn;
  }

  lemma {:induction false} TrimKeepsFirst(s: string)
    requires s != "" && !IsSpace(s[0])
    ensures Trim(s) != ""
    decreases |s|
  {
    if IsSpace(s[|s| - 1]) {
      TrimKeepsFirst(s[..|s| - 1]);
      assert TrimRight(s) == TrimRight(s[..|s| - 1]);
    }
  }

  lemma {:induction false} StartedTokens(t: string, q: Quotes, current: string)
    requires current != "" && !IsSpace(current[0])
    ensures Tokenizer.Tokens(t, q, current, " ") != []
    decreases |t|
  {
    TrimKeepsFirst(current);
    hide Trim;
    if t == "" {
    } else if Tokenizer.EscapePair(t) {
      StartedTokens(t[2..], q, current + [t[1]]);
    } else if IsBoundary(q, t[0]) {
      StartedTokens(t[1..], Toggle(q, t[0]), current + [t[0]]);
    } else if !(!q.Active() && " " <= t) {
      StartedTokens(t[1..], q, current + [t[0]]);
    }
  }

  /** A command that starts with a character of a word has words. */
  lemma HasWords(c: char, rest: string)
    requires c !in {'\'', '"', '<', '>', '2', '\\'} && !IsSpace(c)
    ensures !NoWords([c] + rest)
  {
    WordyStep(c, rest);
    hide Events, Scan, Agreeable, Own, ScanCloses;
    var left := Remaining(Events(rest, UNQUOTED, []));
    hide Remaining;
    assert ([c] + left)[1..] == left && "" + [c] == [c];
    StartedTokens(left, UNQUOTED, [c]);
    assert Tokenizer.Tokens([c] + left, UNQUOTED, "", " ") == Tokenizer.Tokens(left, UNQUOTED, [c], " ");
  }

  lemma {:induction false} OnePart(t: string, depth: nat, cur: string)
    requires '|' !in t
    ensures forall q :: |SplitPipes(t, q, depth, cur)| == 1 && !HasStructuredPipe(t, q)
    decreases |t|
  {
    if t != "" {
      OnePart(t[1..], depth, cur + [t[0]]);
      OnePart(t[1..], DepthWithin(t[0], depth), cur + [t[0]]);
    }
  }

  lemma {:induction false} NoPipeIn(t: string)
    requires '|' !in t
    ensures forall q :: !HasPipe(t, q)
    decreases |t|
  {
    if t != "" { NoPipeIn(t[1..]); }
  }

  // ---- Lines of one command ----

  /** Nothing in the text concerns quotes, comments, operators or parentheses. */
  predicate Ordinary(t: string) {
    forall i :: 0 <= i < |t| ==> t[i] !in {'\'', '"', '#', '&', '|', ';', '(', ')', '$'}
  }

  lemma {:induction false} OrdinaryText(t: string, ctl: Control)
    requires Ordinary(t) && ctl.q == UNQUOTED && !ctl.afterDollar
    ensures NoSeparator(t, ctl) && ControlAfter(ctl, t) == ctl && StripComment(t, UNQUOTED) == t
    decreases |t|
  {
    if t != "" {
      OrdinaryText(t[1..], ctl);
      assert t == [t[0]] + t[1..];
    }
  }

  lemma Parenthesis(c: char, rest: string, ctl: Control)
    requires (ctl == CLEAN && c == '(') || (ctl == CLEAN.(paren := 1) && c == ')')
    ensures var next := if c == '(' then CLEAN.(paren := 1) else CLEAN;
            && NoSeparator([c] + rest, ctl) == NoSeparator(rest, next)
            && ControlAfter(ctl, [c] + rest) == ControlAfter(next, rest)
            && StripComment([c] + rest, UNQUOTED) == [c] + StripComment(rest, UNQUOTED)
  {
    assert ([c] + rest)[1..] == rest;
  }

  lemma {:induction false} OrdinaryThen(t: string, u: string, ctl: Control)
    requires Ordinary(t) && ctl.q == UNQUOTED && !ctl.afterDollar
    ensures NoSeparator(t + u, ctl) == NoSeparator(u, ctl) && ControlAfter(ctl, t + u) == ControlAfter(ctl, u)
    ensures StripComment(t + u, UNQUOTED) == t + StripComment(u, UNQUOTED)
    decreases |t|
  {
    if t == "" {
      assert t + u == u && "" + StripComment(u, UNQUOTED) == StripComment(u, UNQUOTED);
    } else {
      assert (t + u)[1..] == t[1..] + u;
      OrdinaryThen(t[1..], u, ctl);
      assert [t[0]] + (t[1..] + StripComment(u, UNQUOTED)) == t + StripComment(u, UNQUOTED);
    }
  }

  /** The body line `x`, ended by `E`. */
  const DOCUMENT := Document(["x"], "E")

  const BODY := Mark('E').(body := "x\n")

  lemma DocumentIsRead()
    ensures WrittenForAll([DOCUMENT], [Mark('E')])
    ensures Collect([Mark('E')], ["x", "E"]) == Collected([BODY], [], true)
  {
    var lines := ["x", "E"];
    assert lines[1..] == ["E"] && ["E"][1..] == [] && [Mark('E')][1..] == [];
    assert ReadBody(Mark('E'), ["E"]) == Some(("", []));
    assert "x" + "\n" + "" == "x\n";
    assert ReadBody(Mark('E'), lines) == Some(("x\n", []));
    hide ReadBody;
    assert Collect([], []) == Collected([], [], true);
  }

  /** A closed command with one marker E: its document is written for it, and read. */
  lemma OneDocumentLine(c: string)
    requires Whole(c) && ScanCloses(c, UNQUOTED) && Scan(c, UNQUOTED) == [Mark('E')]
    ensures WrittenLine(c, [], [DOCUMENT])
    ensures Collect(Scan(c, UNQUOTED), ["x", "E"]) == Collected([BODY], [], true)
  {
    DocumentIsRead();
    hide Scan, ScanCloses, Whole, WrittenForAll, Collect;
    assert c + JoinTails([]) == c;
  }

  // ---- A subshell loses its body ----

  const SUBSHELL := "(cat) <<E"

  lemma SubshellIsWhole()
    ensures Whole(SUBSHELL)
  {
    hide NoSeparator, ControlAfter, StripComment;
    var a, b, d := "cat) <<E", ") <<E", " <<E";
    var open := CLEAN.(paren := 1);
    assert SUBSHELL == ['('] + a && a == "cat" + b && b == [')'] + d;
    Parenthesis('(', a, CLEAN);
    OrdinaryThen("cat", b, open);
    Parenthesis(')', d, open);
    OrdinaryText(d, CLEAN);
    assert ['('] + ("cat" + ([')'] + d)) == SUBSHELL;
    assert Trimmed(SUBSHELL);
  }

  lemma CloseStep(c: char, rest: string, depth: int)
    requires c !in {'\'', '"', '(', ')'}
    ensures CloseAt([c] + rest, UNQUOTED, depth) ==
            if CloseAt(rest, UNQUOTED, depth).None? then None else Some(CloseAt(rest, UNQUOTED, depth).value + 1)
  {
    assert ([c] + rest)[1..] == rest;
  }

  lemma OpenStep(rest: string)
    ensures CloseAt(['('] + rest, UNQUOTED, 0) ==
            if CloseAt(rest, UNQUOTED, 1).None? then None else Some(CloseAt(rest, UNQUOTED, 1).value + 1)
  {
    assert (['('] + rest)[1..] == rest;
  }

  lemma CloseHere(rest: string)
    ensures CloseAt([')'] + rest, UNQUOTED, 1) == Some(0)
  {
  }

  lemma ClosesAtFour(rest: string)
    ensures CloseAt("(cat)" + rest, UNQUOTED, 0) == Some(4)
  {
    hide CloseAt;
    var b := [')'] + rest;
    CloseHere(rest);
    CloseStep('t', b, 1);
    CloseStep('a', ['t'] + b, 1);
    CloseStep('c', ['a'] + (['t'] + b), 1);
    OpenStep(['c'] + (['a'] + (['t'] + b)));
    assert "(cat)" + rest == ['('] + (['c'] + (['a'] + (['t'] + b)));
  }

  lemma CatSubshell(rest: string)
    ensures LoneSubshell("(cat)" + rest) == if HasPipe(rest, UNQUOTED) then NotLone else Lone("cat", rest)
  {
    var p := "(cat)" + rest;
    assert RunIn(p, BLANKS) == 0 && p[0..] == p;
    ClosesAtFour(rest);
    hide CloseAt, HasPipe, RunIn;
    assert p[1..4] == "cat" && p[5..] == rest;
  }

  /**
   `(cat) <<E` with the body line `x`: the line meets every condition, the body is read, and the
   subshell's redirection is made without it.
   */
  lemma SubshellLosesBody(env: Env)
    requires "(cat)" !in env.aliases && !env.skips(SUBSHELL)
    ensures WrittenLine(SUBSHELL, [], [DOCUMENT])
    ensures Collect(Scan(SUBSHELL, UNQUOTED), ["x", "E"]) == Collected([BODY], [], true)
    ensures Delivered(Dispatch(env, SUBSHELL, [BODY])) == [Mark('E')]
  {
    hide Prepare, LoneSubshell, Scan, ScanCloses, Whole, WrittenLine, Pass, HeredocEntries, Collect, StageEntries,
         Agreeable, HasPipe;
    WordsAndMarker("(cat) ", 'E', "");
    WordsAndMarker(" ", 'E', "");
    assert SUBSHELL == "(cat) " + Marked('E', "") && " <<E" == " " + Marked('E', "");
    SubshellIsWhole();
    OneDocumentLine(SUBSHELL);
    assert SUBSHELL[..5] == "(cat)";
    FirstWordStays(env, SUBSHELL, 5);
    NoPipeIn(" <<E");
    CatSubshell(" <<E");
    assert SUBSHELL == "(cat)" + " <<E";
    OneStageDelivers(Stage(Some("cat"), Pass(" <<E", [])));
  }

  // ---- A file name swallows a marker ----

  const TARGET := "cat >o<<E"

  lemma TargetScan()
    ensures Scan(TARGET, UNQUOTED) == [Mark('E')] && ScanCloses(TARGET, UNQUOTED)
  {
    hide Scan, ScanCloses, Agreeable;
    NothingRead();
    OneMarker('E', "");
    assert TARGET == "cat >o" + Marked('E', "");
    assert [Mark('E')] + [] == [Mark('E')];
    PlainIsNeutral("cat >o");
    hide Neutral;
    ScanSkipsNeutral("cat >o", Marked('E', ""), UNQUOTED);
    NeutralThenCloses("cat >o", Marked('E', ""));
  }

  lemma {:induction false} NeutralThenCloses(f: string, u: string)
    requires forall i :: 0 <= i < |f| ==> f[i] != '"' && f[i] != '\'' && f[i] != '<'
    ensures ScanCloses(f + u, UNQUOTED) == ScanCloses(u, UNQUOTED)
    decreases |f|
  {
    if f == "" {
      assert f + u == u;
    } else {
      assert (f + u)[1..] == f[1..] + u;
      NeutralThenCloses(f[1..], u);
    }
  }

  /** The pass takes `o<<E` for the file name. */
  lemma TargetIsRead()
    ensures var t := ">o<<E";
            ReadUnquoted(t, []) == ReadFile(t, ">", 1, false, []) && ReadFile(t, ">", 1, false, []).len == 5
  {
    var t, operand := ">o<<E", "o<<E";
    assert t[1..] == operand && t[0] == '>' && t[1] == 'o';
    RunOutIs(operand, BLANKS, 4);
    assert RunIn(operand, {' '}) == 0 && operand[0..] == operand;
    hide RunIn, RunOut, TargetName, ReadHeredoc;
    assert TargetLength(operand) == 4;
  }

  /** A step that reads the text to its end. */
  lemma LastStep(t: string)
    requires t != "" && !IsBoundary(UNQUOTED, t[0]) && ReadUnquoted(t, []).len == |t|
    ensures Own(t) == Entries(ReadUnquoted(t, []).events)
  {
    hide ReadUnquoted, HeredocEntries, Redirections;
    var r := ReadUnquoted(t, []);
    assert t[r.len..] == "" && Events("", UNQUOTED, r.bodies) == [];
    assert r.events + [] == r.events;
  }

  lemma FileAtEnd(t: string)
    requires ">" <= t && !IsBoundary(UNQUOTED, t[0])
    requires ReadUnquoted(t, []) == ReadFile(t, ">", 1, false, []) && ReadUnquoted(t, []).len == |t|
    ensures Own(t) == []
  {
    hide ReadUnquoted, ReadFile, Own, Entries;
    FileHasNoEntries(t, ">", 1, false, []);
    LastStep(t);
  }

  lemma TargetHasNoEntry()
    ensures Own(TARGET) == []
  {
    OwnOfTarget();
    hide Own, Scan, ScanCloses, Agreeable, Events, Remaining;
    WordyThen("cat ", ">o<<E");
    assert TARGET == "cat " + ">o<<E";
  }

  lemma OwnOfTarget()
    ensures Own(">o<<E") == []
  {
    TargetIsRead();
    hide ReadUnquoted, ReadFile, Own;
    FileAtEnd(">o<<E");
  }

  lemma TargetIsPlain(env: Env)
    requires "cat" !in env.aliases && !env.skips(TARGET) && env.expand(TARGET) == TARGET
    ensures IsPlain(env, TARGET) && Expanded(env, TARGET) == TARGET
  {
    hide SplitPipes, HasStructuredPipe, NoWords, Prepare, LoneSubshell;
    assert TARGET[..3] == "cat" && TARGET == ['c'] + "at >o<<E";
    FirstWordStays(env, TARGET, 3);
    NotParenthesized(TARGET);
    OnePart(TARGET, 0, "");
    HasWords('c', "at >o<<E");
  }

  /**
   `cat >o<<E`: the scan sees the marker, so that the body is read, and the pass reads the file name
   `o<<E`, so that nothing gets it.
   */
  lemma TargetLosesBody(env: Env)
    requires "cat" !in env.aliases && !env.skips(TARGET) && env.expand(TARGET) == TARGET
    ensures WrittenLine(TARGET, [], [DOCUMENT])
    ensures Collect(Scan(TARGET, UNQUOTED), ["x", "E"]) == Collected([BODY], [], true)
    ensures Delivered(Dispatch(env, TARGET, [BODY])) == [] && !AllArrive(env, TARGET)
  {
    TargetScan();
    TargetIsWhole();
    hide Scan, ScanCloses, Whole, WrittenLine, Collect, IsPlain, Expanded, Own, Dispatch, Delivered, AllArrive;
    OneDocumentLine(TARGET);
    TargetIsPlain(env);
    TargetHasNoEntry();
    PlainDelivers(env, TARGET, [BODY]);
    NothingToFill([BODY]);
    PlainAllArriveIff(env, TARGET);
  }

  lemma TargetIsWhole()
    ensures Whole(TARGET)
  {
    hide NoSeparator, ControlAfter, StripComment;
    OrdinaryText(TARGET, CLEAN);
    assert Trimmed(TARGET);
  }

  // ---- A subshell stage hands its body on ----

  const PIPE := "(cat) <<A | cat <<B"
  const SUB := "(cat) <<A "
  const PLAIN := " cat <<B"

  lemma {:induction false} SplitWords(t: string, u: string, depth: nat, cur: string)
    requires forall i :: 0 <= i < |t| ==> t[i] !in {'\'', '"', '|', '(', ')'}
    ensures SplitPipes(t + u, UNQUOTED, depth, cur) == SplitPipes(u, UNQUOTED, depth, cur + t)
    decreases |t|
  {
    if t == "" {
      assert t + u == u && cur + t == cur;
    } else {
      assert (t + u)[1..] == t[1..] + u && (t + u)[0] == t[0];
      SplitWords(t[1..], u, depth, cur + [t[0]]);
      assert cur + [t[0]] + t[1..] == cur + t;
    }
  }

  lemma SplitParenthesis(c: char, rest: string, depth: nat, cur: string)
    requires c == '(' || c == ')'
    ensures SplitPipes([c] + rest, UNQUOTED, depth, cur) == SplitPipes(rest, UNQUOTED, DepthWithin(c, depth), cur + [c])
  {
    assert ([c] + rest)[1..] == rest;
  }

  lemma SplitBar(rest: string, cur: string)
    requires rest == "" || rest[0] != '|'
    ensures SplitPipes(['|'] + rest, UNQUOTED, 0, cur) == [cur] + SplitPipes(rest, UNQUOTED, 0, "")
  {
    assert (['|'] + rest)[1..] == rest;
  }

  lemma LastWords(t: string)
    requires forall i :: 0 <= i < |t| ==> t[i] !in {'\'', '"', '|', '(', ')'}
    ensures SplitPipes(t, UNQUOTED, 0, "") == [t]
  {
    SplitWords(t, "", 0, "");
    assert t + "" == t == "" + t;
  }

  lemma PipeParts()
    ensures Parts(PIPE) == [SUB, PLAIN]
  {
    hide SplitPipes;
    var d := ['|'] + PLAIN;
    var c := " <<A " + d;
    var b := [')'] + c;
    var a := "cat" + b;
    assert PIPE == ['('] + a;
    SplitParenthesis('(', a, 0, "");
    SplitWords("cat", b, 1, "" + ['(']);
    SplitParenthesis(')', c, 1, "" + ['('] + "cat");
    SplitWords(" <<A ", d, 0, "" + ['('] + "cat" + [')']);
    assert "" + ['('] + "cat" + [')'] + " <<A " == SUB;
    SplitBar(PLAIN, SUB);
    LastWords(PLAIN);
  }

  lemma {:induction false} PipeSeen(t: string, u: string)
    requires (forall i :: 0 <= i < |t| ==> t[i] != '\'' && t[i] != '"') && BarAt(u)
    ensures HasPipe(t + u, UNQUOTED)
    decreases |t|
  {
    if t == "" {
      assert t + u == u;
    } else {
      assert (t + u)[1..] == t[1..] + u && (t + u)[0] == t[0];
      PipeSeen(t[1..], u);
    }
  }

  lemma {:induction false} NoStructuredPipe(t: string)
    requires forall i :: 0 <= i < |t| ==> t[i] != '>'
    ensures forall q :: !HasStructuredPipe(t, q)
    decreases |t|
  {
    if t != "" {
      assert !("|>" <= t) by { assert |t| > 1 ==> t[1] != '>'; }
      NoStructuredPipe(t[1..]);
    }
  }

  lemma PipedAway(t: string, u: string)
    requires (forall i :: 0 <= i < |t| ==> t[i] != '\'' && t[i] != '"') && BarAt(u)
    ensures LoneSubshell("(cat)" + (t + u)) == NotLone
  {
    PipeSeen(t, u);
    hide HasPipe, LoneSubshell;
    CatSubshell(t + u);
  }

  lemma PipeIsNotLone()
    ensures LoneSubshell(PIPE) == NotLone
  {
    hide LoneSubshell;
    PipedAway(" <<A ", "| cat <<B");
    assert PIPE == "(cat)" + (" <<A " + "| cat <<B");
  }

  lemma SubIsTrimmed()
    ensures Trim(SUB) == "(cat)" + " <<A" && IsSubshellPart(SUB) && CloseAt(Trim(SUB), UNQUOTED, 0) == Some(4)
  {
    var t := "(cat)" + " <<A";
    hide Trim, CloseAt;
    BlankIsTrimmed(t);
    assert SUB == t + " ";
    ClosesAtFour(" <<A");
  }

  lemma BlankIsTrimmed(t: string)
    requires Trimmed(t)
    ensures Trim(t + " ") == t
  {
    var s := t + " ";
    assert s[..|s| - 1] == t && s[|s| - 1] == ' ';
    assert TrimRight(s) == TrimRight(t) == t;
  }

  lemma PlainIsNoSubshell()
    ensures !IsSubshellPart(PLAIN)
  {
    BlankBefore("cat <<B");
    assert PLAIN == " " + "cat <<B";
    hide Trim;
  }

  lemma BlankBefore(t: string)
    requires Trimmed(t)
    ensures Trim(" " + t) == t
  {
    var s := " " + t;
    assert s[1..] == t && TrimRight(s) == s;
    assert TrimLeft(s) == TrimLeft(t) == t;
  }

  lemma PipeReads()
    ensures Scan(SUB, UNQUOTED) == [Mark('A')] && ScanCloses(SUB, UNQUOTED) && Own(" <<A") == [Mark('A')]
    ensures Scan(PLAIN, UNQUOTED) == [Mark('B')] == Own(PLAIN) && ScanCloses(PLAIN, UNQUOTED)
  {
    hide Scan, ScanCloses, Own, Agreeable;
    WordsAndMarker("(cat) ", 'A', " ");
    WordsAndMarker(" ", 'A', "");
    WordsAndMarker(" cat ", 'B', "");
    assert SUB == "(cat) " + Marked('A', " ") && " <<A" == " " + Marked('A', "") && PLAIN == " cat " + Marked('B', "");
  }

  lemma PipeIsPrepared(env: Env)
    requires "(cat)" !in env.aliases && !env.skips(PIPE) && env.expand(PIPE) == PIPE
    ensures Prepare(env, PIPE) == Some(PIPE) && Expanded(env, PIPE) == PIPE && LoneSubshell(PIPE) == NotLone
    ensures !HasStructuredPipe(PIPE, UNQUOTED) && !NoWords(PIPE)
  {
    hide Prepare, LoneSubshell, HasStructuredPipe, NoWords;
    assert PIPE[..5] == "(cat)" && PIPE == ['('] + "cat) <<A | cat <<B";
    FirstWordStays(env, PIPE, 5);
    PipeIsNotLone();
    NoStructuredPipe(PIPE);
    HasWords('(', "cat) <<A | cat <<B");
  }

  lemma PipeStages(hs: seq<PendingHeredoc>)
    ensures var taken := Taken([Mark('B')], hs);
            Stages(Parts(PIPE), hs) == Some([Stage(Some("cat"), Pass(" <<A", [])), Stage(None, Pass(PLAIN, taken))])
  {
    PipeParts();
    SubIsTrimmed();
    PlainIsNoSubshell();
    PipeReads();
    hide Parts, Trim, CloseAt, IsSubshellPart, Scan, ScanCloses, Own, Stages, Pass, Taken;
    TwoStages(SUB, PLAIN, hs);
    var t := "(cat)" + " <<A";
    assert t[1..4] == "cat" && t[5..] == " <<A";
  }

  lemma PipeScan()
    ensures Scan(PIPE, UNQUOTED) == [Mark('A'), Mark('B')] && PartsClose(Parts(PIPE))
  {
    PipeParts();
    PipeReads();
    hide Parts, Scan, ScanCloses, Own;
    var parts := [SUB, PLAIN];
    PartsJoin(PIPE);
    ScanJoinedParts(parts);
    assert parts[1..] == [PLAIN] && [PLAIN][1..] == [];
    assert AllMarkers([PLAIN]) == [Mark('B')] + AllMarkers([]);
    assert AllMarkers(parts) == [Mark('A')] + AllMarkers([PLAIN]);
  }

  /** `(cat) <<A | cat <<B`: the subshell gets no body, and `cat` gets the one written for A under B. */
  lemma PipelineShiftsBody(env: Env, a: string, b: string)
    requires "(cat)" !in env.aliases && !env.skips(PIPE) && env.expand(PIPE) == PIPE
    ensures IsPipeline(env, PIPE) && Scan(PIPE, UNQUOTED) == [Mark('A'), Mark('B')] && !AllArrive(env, PIPE)
    ensures Delivered(Dispatch(env, PIPE, [Mark('A').(body := a), Mark('B').(body := b)])) ==
            [Mark('A'), Mark('B').(body := a)]
  {
    PipeIsPrepared(env);
    PipeScan();
    PipeParts();
    PipeStages([]);
    hide Prepare, LoneSubshell, HasStructuredPipe, NoWords, Scan, PartsClose, Parts, Stages, Pass, Expanded, AllArrive,
         HeredocEntries, StageEntries;
    assert IsPipeline(env, PIPE) by { ExpandedIs(env, PIPE); }
    PipeIsUnserved();
    PipelineArrivesIff(env, PIPE);
    PipeDelivers([Mark('A').(body := a), Mark('B').(body := b)]);
    ExpandedIs(env, PIPE);
  }

  lemma ExpandedIs(env: Env, c: string)
    requires Prepare(env, c) == Some(c)
    ensures Expanded(env, c) == env.expand(c)
  {
  }

  lemma PipeIsUnserved()
    ensures !StagesServed(Parts(PIPE))
  {
    PipeParts();
    SubIsTrimmed();
    PipeReads();
    hide Parts, IsSubshellPart, Scan, Own, ScanCloses;
    assert [SUB, PLAIN][0] == SUB;
  }

  lemma PipeDelivers(hs: seq<PendingHeredoc>)
    requires |hs| == 2
    ensures Delivered(PlanExpanded(PIPE, hs)) == [Mark('A'), Mark('B').(body := hs[0].body)]
  {
    PipeStages(hs);
    PipeReads();
    PipeIsWordy();
    PipeParts();
    hide NoWords, Parts, Stages, Pass, Scan, ScanCloses, Own, HeredocEntries, StageEntries;
    var taken := Taken([Mark('B')], hs);
    var first, second := Stage(Some("cat"), Pass(" <<A", [])), Stage(None, Pass(PLAIN, taken));
    assert [Mark('B')][1..] == [] && taken == [hs[0]];
    assert [first, second] == [first] + [second];
    OneMoreStage(first, [second]);
    OneStageDelivers(second);
    PassFills(" <<A", []);
    PassFills(PLAIN, taken);
    FillWithOwn([Mark('A')]);
    assert Fill([Mark('B')], [hs[0]]) == [Mark('B').(body := hs[0].body)] by {
      assert [hs[0]][1..] == [];
    }
  }

  lemma PipeIsWordy()
    ensures !NoWords(PIPE)
  {
    hide NoWords;
    HasWords('(', "cat) <<A | cat <<B");
    assert PIPE == ['('] + "cat) <<A | cat <<B";
  }

  // ---- Expansion hands a body to another marker ----

  const ECHO := "echo $X <<E"
  const ECHOED := "echo a <<F <<E"

  lemma EchoedReads()
    ensures Own(ECHOED) == [Mark('F'), Mark('E')]
  {
    hide Scan, Own;
    WordsAndMarkers("echo a ", 'F', 'E');
    assert ECHOED == "echo a " + Marked('F', " " + Marked('E', ""));
  }

  lemma EchoIsPlain(env: Env)
    requires "echo" !in env.aliases && !env.skips(ECHO) && env.expand(ECHO) == ECHOED
    ensures IsPlain(env, ECHO) && Expanded(env, ECHO) == ECHOED
  {
    hide SplitPipes, HasStructuredPipe, NoWords, Prepare, LoneSubshell;
    assert ECHO[..4] == "echo" && ECHOED == ['e'] + "cho a <<F <<E";
    FirstWordStays(env, ECHO, 4);
    NotParenthesized(ECHO);
    OnePart(ECHO, 0, "");
    OnePart(ECHOED, 0, "");
    HasWords('e', "cho a <<F <<E");
  }

  /** Expansion can put a marker in front: with `a <<F` in X, the body written for E becomes F's. */
  lemma ExpansionTakesBody(env: Env, body: string)
    requires "echo" !in env.aliases && !env.skips(ECHO) && env.expand(ECHO) == ECHOED
    ensures Delivered(Dispatch(env, ECHO, [Mark('E').(body := body)])) == [Mark('F').(body := body), Mark('E')]
  {
    EchoIsPlain(env);
    EchoedReads();
    hide IsPlain, Expanded, Dispatch, Delivered, Own;
    PlainDelivers(env, ECHO, [Mark('E').(body := body)]);
    FillTwo(Mark('F'), Mark('E'), Mark('E').(body := body));
  }

  lemma FillTwo(a: PendingHeredoc, b: PendingHeredoc, h: PendingHeredoc)
    ensures Fill([a, b], [h]) == [a.(body := h.body), b.(body := "")]
  {
    assert [a, b][1..] == [b] && [b][1..] == [] && [h][1..] == [];
    assert Fill([b], []) == [b.(body := "")] + Fill([], []);
  }
}
