/**
 What `execute_single_command` finds in commands with nested parentheses: the first word and its alias,
 the end of a subshell, the pipes that separate stages, and structured pipes.
 */
module NestedDispatch {
  import opened Text
  import opened Runs
  import opened QuoteStates
  import opened Heredocs
  import opened CommandDispatch
  import opened NestedCommands

  // ---- The first word ----

  predicate AllBlank(t: string) {
    forall i :: 0 <= i < |t| ==> t[i] == ' ' || t[i] == '\t'
  }

  predicate NoBlank(t: string) {
    forall i :: 0 <= i < |t| ==> t[i] != ' ' && t[i] != '\t'
  }

  predicate EndsWord(rest: string) {
    rest == "" || rest[0] == ' ' || rest[0] == '\t'
  }

  lemma {:induction false} BlanksRun(pad: string, t: string)
    requires AllBlank(pad) && (t == "" || (t[0] != ' ' && t[0] != '\t'))
    ensures RunIn(pad + t, BLANKS) == |pad|
    decreases |pad|
  {
    if pad == "" {
      assert pad + t == t;
    } else {
      assert (pad + t)[1..] == pad[1..] + t;
      BlanksRun(pad[1..], t);
    }
  }

  lemma Parted(pad: string, word: string, rest: string)
    ensures var c := pad + word + rest;
            && c[..|pad|] == pad && c[|pad|..] == word + rest
            && c[|pad|..|pad| + |word|] == word && c[|pad| + |word|..] == rest
  {
  }

  /** An alias takes the place of the first word, and of nothing else. */
  lemma AliasOfFirstWord(pad: string, word: string, rest: string, aliases: map<string, string>)
    requires AllBlank(pad) && word != "" && NoBlank(word) && EndsWord(rest)
    ensures AliasHead(pad + word + rest, aliases) == pad + (if word in aliases then aliases[word] else word) + rest
  {
    var c := pad + word + rest;
    Parted(pad, word, rest);
    assert c == pad + (word + rest) && (word + rest)[0] == word[0];
    BlanksRun(pad, word + rest);
    RunOutIs(word + rest, BLANKS, |word|);
    hide RunIn, RunOut;
  }

  /**
   What is run: nothing of blanks; a command after a backslash as it stands, asking no hook and no
   alias; any other with its alias, unless a hook skips it.
   */
  lemma PreparedIs(env: Env, pad: string, word: string, rest: string)
    requires AllBlank(pad) && NoBlank(word) && EndsWord(rest)
    requires word == "" ==> rest == ""
    ensures var p := Prepare(env, pad + word + rest);
            if word == "" then p == None
            else if word[0] == '\\' then p == Some(pad + word[1..] + rest)
            else
              var c := pad + (if word in env.aliases then env.aliases[word] else word) + rest;
              p == if env.skips(c) then None else Some(c)
  {
    var c := pad + word + rest;
    Parted(pad, word, rest);
    assert c == pad + (word + rest);
    BlanksRun(pad, word + rest);
    if word != "" {
      assert c[|pad|] == word[0] && (word + rest)[0] == word[0];
      AliasOfFirstWord(pad, word, rest, env.aliases);
      assert c[..|pad|] + c[|pad| + 1..] == pad + word[1..] + rest;
    }
    hide RunIn, AliasHead;
  }

  // ---- The end of a subshell ----

  lemma CloseOne(c: char, u: string, q: Quotes, depth: int)
    requires IsBoundary(q, c) || q.Active() || c != ')' || depth != 1
    ensures CloseAt([c] + u, q, depth) == Later(1, CloseAt(u, Toggle(q, c), DepthAfter(q, c, depth)))
  {
    assert ([c] + u)[1..] == u;
    hide DepthAfter, Toggle;
  }

  lemma {:induction false} CloseInside(quote: char, text: string, u: string, q: Quotes, depth: int)
    requires quote in {'\'', '"'} && quote !in text
    requires q == if quote == '\'' then Quotes(true, false) else Quotes(false, true)
    ensures CloseAt(text + u, q, depth) == Later(|text|, CloseAt(u, q, depth))
    decreases |text|
  {
    if text == "" {
      assert text + u == u;
    } else {
      assert text + u == [text[0]] + (text[1..] + u);
      assert Toggle(q, text[0]) == q && DepthAfter(q, text[0], depth) == depth;
      CloseOne(text[0], text[1..] + u, q, depth);
      CloseInside(quote, text[1..], u, q, depth);
      hide CloseAt, Toggle;
    }
  }

  lemma CloseQuoted(quote: char, text: string, u: string, depth: int)
    requires quote in {'\'', '"'} && quote !in text
    ensures CloseAt([quote] + (text + ([quote] + u)), UNQUOTED, depth) ==
            Later(|text| + 2, CloseAt(u, UNQUOTED, depth))
  {
    var q := Toggle(UNQUOTED, quote);
    assert Toggle(q, quote) == UNQUOTED && (q == if quote == '\'' then Quotes(true, false) else Quotes(false, true));
    assert DepthAfter(UNQUOTED, quote, depth) == depth == DepthAfter(q, quote, depth);
    assert IsBoundary(UNQUOTED, quote) && IsBoundary(q, quote);
    hide CloseAt, Toggle, DepthAfter;
    CloseOne(quote, text + ([quote] + u), UNQUOTED, depth);
    CloseInside(quote, text, [quote] + u, q, depth);
    CloseOne(quote, u, q, depth);
  }

  /** Nested text closes nothing but what it opens. */
  lemma {:induction false} NestCloses(x: Nest, u: string, depth: int)
    requires WellNested(x) && depth >= 1
    ensures CloseAt(Print(x) + u, UNQUOTED, depth) == Later(|Print(x)|, CloseAt(u, UNQUOTED, depth))
    decreases x
  {
    hide CloseAt;
    match x {
      case End =>
        assert "" + u == u;
      case Word(c, rest) =>
        assert Print(x) + u == [c] + (Print(rest) + u);
        assert Toggle(UNQUOTED, c) == UNQUOTED;
        CloseOne(c, Print(rest) + u, UNQUOTED, depth);
        NestCloses(rest, u, depth);
      case Quoted(quote, text, rest) =>
        assert Print(x) + u == [quote] + (text + ([quote] + (Print(rest) + u)));
        CloseQuoted(quote, text, Print(rest) + u, depth);
        NestCloses(rest, u, depth);
      case Group(dollar, inner, rest) =>
        GroupCloses(x, u, depth);
    }
  }

  lemma {:induction false} GroupCloses(x: Nest, u: string, depth: int)
    requires x.Group? && WellNested(x) && depth >= 1
    ensures CloseAt(Print(x) + u, UNQUOTED, depth) == Later(|Print(x)|, CloseAt(u, UNQUOTED, depth))
    decreases x, 0
  {
    hide CloseAt, Toggle;
    var inner, tail := Print(x.inner), Print(x.rest) + u;
    var b := [')'] + tail;
    var a := ['('] + (inner + b);
    assert forall c :: c in {'(', ')', '$'} ==> Toggle(UNQUOTED, c) == UNQUOTED by { NoQuotes(); }
    CloseOne('(', inner + b, UNQUOTED, depth);
    NestCloses(x.inner, b, depth + 1);
    CloseOne(')', tail, UNQUOTED, depth + 1);
    NestCloses(x.rest, u, depth);
    Regrouped(if x.dollar then "$" else "", inner, Print(x.rest), u);
    if x.dollar { CloseOne('$', a, UNQUOTED, depth); }
  }

  lemma NoQuotes()
    ensures forall c :: c in {'(', ')', '$', '|'} ==> Toggle(UNQUOTED, c) == UNQUOTED && !IsBoundary(UNQUOTED, c)
  {
  }

  /** The parenthesis found is the one that closes the subshell, whatever nested text is in it. */
  lemma SubshellCloses(x: Nest, u: string)
    requires WellNested(x)
    ensures CloseAt("(" + (Print(x) + (")" + u)), UNQUOTED, 0) == Some(|Print(x)| + 1)
  {
    NoQuotes();
    hide Toggle, Print;
    var b := [')'] + u;
    assert CloseAt(b, UNQUOTED, 1) == Some(0);
    assert DepthAfter(UNQUOTED, '(', 0) == 1;
    hide CloseAt;
    CloseOne('(', Print(x) + b, UNQUOTED, 0);
    NestCloses(x, b, 1);
  }

  // ---- Pipes ----

  /** No `|` stands outside quotes, or outside quotes and groups. */
  predicate NoBars(x: Nest, groups: bool) {
    match x
    case End => true
    case Word(c, rest) => c != '|' && NoBars(rest, groups)
    case Quoted(_, _, rest) => NoBars(rest, groups)
    case Group(_, inner, rest) => (groups ==> NoBars(inner, groups)) && NoBars(rest, groups)
  }

  /** One character, for the two searches. */
  lemma SearchOne(c: char, u: string, q: Quotes)
    requires IsBoundary(q, c) || q.Active() || c != '|'
    ensures HasPipe([c] + u, q) == HasPipe(u, Toggle(q, c))
    ensures HasStructuredPipe([c] + u, q) == HasStructuredPipe(u, Toggle(q, c))
  {
    assert ([c] + u)[1..] == u && ([c] + u)[0] == c;
    hide Toggle;
  }

  lemma {:induction false} SearchInside(quote: char, text: string, u: string, q: Quotes)
    requires quote in {'\'', '"'} && quote !in text
    requires q == if quote == '\'' then Quotes(true, false) else Quotes(false, true)
    ensures HasPipe(text + u, q) == HasPipe(u, q) && HasStructuredPipe(text + u, q) == HasStructuredPipe(u, q)
    decreases |text|
  {
    hide HasPipe, HasStructuredPipe;
    if text == "" {
      assert text + u == u;
    } else {
      assert text + u == [text[0]] + (text[1..] + u);
      assert Toggle(q, text[0]) == q;
      SearchOne(text[0], text[1..] + u, q);
      SearchInside(quote, text[1..], u, q);
    }
  }

  lemma SearchQuoted(quote: char, text: string, u: string)
    requires quote in {'\'', '"'} && quote !in text
    ensures var t := [quote] + (text + ([quote] + u));
            && HasPipe(t, UNQUOTED) == HasPipe(u, UNQUOTED)
            && HasStructuredPipe(t, UNQUOTED) == HasStructuredPipe(u, UNQUOTED)
  {
    hide HasPipe, HasStructuredPipe;
    var q := Toggle(UNQUOTED, quote);
    assert Toggle(q, quote) == UNQUOTED && (q == if quote == '\'' then Quotes(true, false) else Quotes(false, true));
    assert IsBoundary(UNQUOTED, quote) && IsBoundary(q, quote);
    hide Toggle;
    SearchOne(quote, text + ([quote] + u), UNQUOTED);
    SearchInside(quote, text, [quote] + u, q);
    SearchOne(quote, u, q);
  }

  /** Text without a bare `|` has no pipe of either kind of its own. */
  lemma {:induction false} NestSearched(x: Nest, u: string)
    requires WellNested(x) && NoBars(x, true)
    ensures HasPipe(Print(x) + u, UNQUOTED) == HasPipe(u, UNQUOTED)
    ensures HasStructuredPipe(Print(x) + u, UNQUOTED) == HasStructuredPipe(u, UNQUOTED)
    decreases x
  {
    hide HasPipe, HasStructuredPipe;
    match x {
      case End =>
        assert "" + u == u;
      case Word(c, rest) =>
        assert Print(x) + u == [c] + (Print(rest) + u);
        assert Toggle(UNQUOTED, c) == UNQUOTED;
        SearchOne(c, Print(rest) + u, UNQUOTED);
        NestSearched(rest, u);
      case Quoted(quote, text, rest) =>
        assert Print(x) + u == [quote] + (text + ([quote] + (Print(rest) + u)));
        SearchQuoted(quote, text, Print(rest) + u);
        NestSearched(rest, u);
      case Group(dollar, inner, rest) =>
        GroupSearched(x, u);
    }
  }

  lemma {:induction false} GroupSearched(x: Nest, u: string)
    requires x.Group? && WellNested(x) && NoBars(x, true)
    ensures HasPipe(Print(x) + u, UNQUOTED) == HasPipe(u, UNQUOTED)
    ensures HasStructuredPipe(Print(x) + u, UNQUOTED) == HasStructuredPipe(u, UNQUOTED)
    decreases x, 0
  {
    hide HasPipe, HasStructuredPipe, Toggle;
    var inner, tail := Print(x.inner), Print(x.rest) + u;
    var b := [')'] + tail;
    var a := ['('] + (inner + b);
    NoQuotes();
    SearchOne('(', inner + b, UNQUOTED);
    NestSearched(x.inner, b);
    SearchOne(')', tail, UNQUOTED);
    NestSearched(x.rest, u);
    Regrouped(if x.dollar then "$" else "", inner, Print(x.rest), u);
    if x.dollar { SearchOne('$', a, UNQUOTED); }
  }

  /**
   A bare `|` not followed by another is a pipe, and `|>` is a structured one; without a bare `|`
   there is neither.
   */
  lemma PipesAreFound(x: Nest, u: string)
    requires WellNested(x) && NoBars(x, true)
    ensures u == "" || u[0] != '|' ==> HasPipe(Print(x) + ("|" + u), UNQUOTED)
    ensures HasStructuredPipe(Print(x) + ("|>" + u), UNQUOTED)
    ensures !HasPipe(Print(x), UNQUOTED) && !HasStructuredPipe(Print(x), UNQUOTED)
  {
    NestSearched(x, "|" + u);
    NestSearched(x, "|>" + u);
    NestSearched(x, "");
    assert Print(x) + "" == Print(x);
    assert ("|" + u)[0] == '|' && (u != "" ==> ("|" + u)[1] == u[0]);
    hide Print, WellNested, NoBars;
  }

  /** `( … )` with a tail: a subshell of its own, unless something is piped from it. */
  lemma LoneSubshellIs(pad: string, x: Nest, tail: Nest)
    requires AllBlank(pad) && WellNested(x) && WellNested(tail) && NoBars(tail, true)
    ensures LoneSubshell(pad + ("(" + (Print(x) + (")" + Print(tail))))) == Lone(Print(x), Print(tail))
  {
    hide Print, WellNested, NoBars;
    PipesAreFound(tail, "");
    SubshellCloses(x, Print(tail));
    SubshellFound(pad, Print(x), Print(tail));
  }

  lemma PipedSubshellIs(pad: string, x: Nest, tail: Nest, u: string)
    requires AllBlank(pad) && WellNested(x) && WellNested(tail) && NoBars(tail, true) && (u == "" || u[0] != '|')
    ensures LoneSubshell(pad + ("(" + (Print(x) + (")" + (Print(tail) + ("|" + u)))))) == NotLone
  {
    hide Print, WellNested, NoBars;
    PipesAreFound(tail, u);
    SubshellCloses(x, Print(tail) + ("|" + u));
    SubshellFound(pad, Print(x), Print(tail) + ("|" + u));
  }

  lemma Enclosed(inner: string, tail: string)
    ensures var t := "(" + (inner + (")" + tail));
            t[0] == '(' && t[1..|inner| + 1] == inner && t[|inner| + 2..] == tail
  {
  }

  lemma SubshellFound(pad: string, inner: string, tail: string)
    requires AllBlank(pad) && CloseAt("(" + (inner + (")" + tail)), UNQUOTED, 0) == Some(|inner| + 1)
    ensures LoneSubshell(pad + ("(" + (inner + (")" + tail)))) ==
            if HasPipe(tail, UNQUOTED) then NotLone else Lone(inner, tail)
  {
    var t := "(" + (inner + (")" + tail));
    var p := pad + t;
    BlanksRun(pad, t);
    Enclosed(inner, tail);
    hide CloseAt, HasPipe, RunIn;
    assert p[|pad|..] == t && p[|pad|] == p[|pad|..][0];
  }

  // ---- The stages of a pipeline ----

  lemma SplitOne(c: char, u: string, q: Quotes, depth: nat, cur: string)
    requires IsBoundary(q, c) || q.Active() || c != '|' || depth > 0
    ensures SplitPipes([c] + u, q, depth, cur) ==
            SplitPipes(u, Toggle(q, c),
                       if IsBoundary(q, c) || q.Active() then depth else DepthWithin(c, depth), cur + [c])
  {
    assert ([c] + u)[1..] == u && ([c] + u)[0] == c;
  }

  lemma {:induction false} SplitInside(quote: char, text: string, u: string, q: Quotes, depth: nat, cur: string)
    requires quote in {'\'', '"'} && quote !in text
    requires q == if quote == '\'' then Quotes(true, false) else Quotes(false, true)
    ensures SplitPipes(text + u, q, depth, cur) == SplitPipes(u, q, depth, cur + text)
    decreases |text|
  {
    hide SplitPipes;
    if text == "" {
      assert text + u == u && cur + text == cur;
    } else {
      assert text + u == [text[0]] + (text[1..] + u);
      assert Toggle(q, text[0]) == q;
      SplitOne(text[0], text[1..] + u, q, depth, cur);
      SplitInside(quote, text[1..], u, q, depth, cur + [text[0]]);
      assert cur + [text[0]] + text[1..] == cur + text;
    }
  }

  lemma SplitQuoted(quote: char, text: string, u: string, depth: nat, cur: string)
    requires quote in {'\'', '"'} && quote !in text
    ensures SplitPipes([quote] + (text + ([quote] + u)), UNQUOTED, depth, cur) ==
            SplitPipes(u, UNQUOTED, depth, cur + ([quote] + (text + [quote])))
  {
    hide SplitPipes;
    var q := Toggle(UNQUOTED, quote);
    assert Toggle(q, quote) == UNQUOTED && (q == if quote == '\'' then Quotes(true, false) else Quotes(false, true));
    assert IsBoundary(UNQUOTED, quote) && IsBoundary(q, quote);
    hide Toggle;
    SplitOne(quote, text + ([quote] + u), UNQUOTED, depth, cur);
    SplitInside(quote, text, [quote] + u, q, depth, cur + [quote]);
    SplitOne(quote, u, q, depth, cur + [quote] + text);
    assert cur + [quote] + text + [quote] == cur + ([quote] + (text + [quote]));
  }

  /** Text without a bare `|` outside its groups stays in one part. */
  lemma {:induction false} NestSplits(x: Nest, u: string, depth: nat, cur: string)
    requires WellNested(x) && (depth > 0 || NoBars(x, false))
    ensures SplitPipes(Print(x) + u, UNQUOTED, depth, cur) == SplitPipes(u, UNQUOTED, depth, cur + Print(x))
    decreases x
  {
    hide SplitPipes;
    match x {
      case End =>
        assert "" + u == u && cur + "" == cur;
      case Word(c, rest) =>
        assert Print(x) + u == [c] + (Print(rest) + u);
        assert Toggle(UNQUOTED, c) == UNQUOTED;
        SplitOne(c, Print(rest) + u, UNQUOTED, depth, cur);
        NestSplits(rest, u, depth, cur + [c]);
        assert cur + [c] + Print(rest) == cur + Print(x);
      case Quoted(quote, text, rest) =>
        var q := [quote] + (text + [quote]);
        assert Print(x) + u == [quote] + (text + ([quote] + (Print(rest) + u)));
        SplitQuoted(quote, text, Print(rest) + u, depth, cur);
        NestSplits(rest, u, depth, cur + q);
        assert cur + q + Print(rest) == cur + Print(x);
      case Group(dollar, inner, rest) =>
        GroupSplits(x, u, depth, cur);
    }
  }

  lemma {:induction false} GroupSplits(x: Nest, u: string, depth: nat, cur: string)
    requires x.Group? && WellNested(x) && (depth > 0 || NoBars(x, false))
    ensures SplitPipes(Print(x) + u, UNQUOTED, depth, cur) == SplitPipes(u, UNQUOTED, depth, cur + Print(x))
    decreases x, 0
  {
    hide SplitPipes, Toggle;
    var inner, tail := Print(x.inner), Print(x.rest) + u;
    var b := [')'] + tail;
    var a := ['('] + (inner + b);
    NoQuotes();
    var sign := if x.dollar then "$" else "";
    var now := cur + sign;
    if x.dollar { SplitOne('$', a, UNQUOTED, depth, cur); } else { assert now == cur; }
    SplitOne('(', inner + b, UNQUOTED, depth, now);
    NestSplits(x.inner, b, depth + 1, now + ['(']);
    SplitOne(')', tail, UNQUOTED, depth + 1, now + ['('] + inner);
    NestSplits(x.rest, u, depth, now + ['('] + inner + [')']);
    Regrouped(sign, inner, Print(x.rest), u);
    Collected(cur, sign, inner, Print(x.rest));
  }

  lemma Collected(cur: string, sign: string, inner: string, tail: string)
    ensures cur + sign + ['('] + inner + [')'] + tail == cur + (sign + ("(" + (inner + (")" + tail))))
  {
    assert "(" + (inner + (")" + tail)) == ['('] + inner + [')'] + tail;
  }

  lemma NoMoreParts(cur: string)
    ensures SplitPipes("", UNQUOTED, 0, cur) == [cur]
  {
  }

  function PrintStages(xs: seq<Nest>): string
    requires xs != []
    decreases |xs|
  {
    if |xs| == 1 then Print(xs[0]) else Print(xs[0]) + ("|" + PrintStages(xs[1..]))
  }

  function Texts(xs: seq<Nest>): seq<string> {
    if xs == [] then [] else [Print(xs[0])] + Texts(xs[1..])
  }

  /** Stages: nested texts with pipes only in groups and quotes, none of them empty but perhaps the first. */
  predicate AreStages(xs: seq<Nest>) {
    forall i :: 0 <= i < |xs| ==> WellNested(xs[i]) && NoBars(xs[i], false) && (i > 0 ==> Print(xs[i]) != "")
  }

  lemma NoLeadingBar(x: Nest, u: string)
    requires NoBars(x, false) && WellNested(x) && Print(x) != ""
    ensures (Print(x) + u)[0] != '|'
  {
  }

  lemma BarSplits(u: string, cur: string)
    requires u == "" || u[0] != '|'
    ensures SplitPipes("|" + u, UNQUOTED, 0, cur) == [cur] + SplitPipes(u, UNQUOTED, 0, "")
  {
    assert ("|" + u)[1..] == u && ("|" + u)[0] == '|';
  }

  /** The parts of a pipeline are its stages as written. */
  lemma {:induction false} PipelineParts(xs: seq<Nest>)
    requires xs != [] && AreStages(xs)
    ensures Parts(PrintStages(xs)) == Texts(xs)
    decreases |xs|
  {
    hide SplitPipes, Print, WellNested, NoBars;
    var first := Print(xs[0]);
    if |xs| == 1 {
      NestSplits(xs[0], "", 0, "");
      assert first + "" == first == "" + first;
      NoMoreParts(first);
      assert Texts(xs[1..]) == [];
    } else {
      var later := PrintStages(xs[1..]);
      assert forall i :: 0 <= i < |xs[1..]| ==> xs[1..][i] == xs[i + 1];
      NestSplits(xs[0], "|" + later, 0, "");
      assert "" + first == first;
      StagesStart(xs[1..]);
      BarSplits(later, first);
      PipelineParts(xs[1..]);
    }
  }

  /** The first of two `|` is no pipe, the second is. */
  lemma DoubleBar(x: Nest, y: Nest)
    requires WellNested(x) && NoBars(x, false) && WellNested(y) && NoBars(y, false) && Print(y) != ""
    ensures Parts(Print(x) + ("||" + Print(y))) == [Print(x) + "|", Print(y)]
  {
    hide SplitPipes, Print, WellNested, NoBars;
    var a, b := Print(x), Print(y);
    NestSplits(x, "||" + b, 0, "");
    assert "" + a == a;
    NoLeadingBar(y, "");
    assert b + "" == b;
    FirstOfTwo(b, a);
    BarSplits(b, a + "|");
    NestSplits(y, "", 0, "");
    assert "" + b == b;
    NoMoreParts(b);
    assert [a + "|"] + [b] == [a + "|", b];
  }

  lemma FirstOfTwo(u: string, cur: string)
    ensures SplitPipes("||" + u, UNQUOTED, 0, cur) == SplitPipes("|" + u, UNQUOTED, 0, cur + "|")
  {
    var t := "||" + u;
    assert t[0] == '|' && t[1] == '|' && t[1..] == "|" + u && DepthWithin('|', 0) == 0;
  }

  lemma StagesStart(xs: seq<Nest>)
    requires xs != [] && WellNested(xs[0]) && NoBars(xs[0], false) && Print(xs[0]) != ""
    ensures PrintStages(xs) != "" && PrintStages(xs)[0] != '|'
  {
    hide Print, WellNested, NoBars;
    if |xs| == 1 {
      NoLeadingBar(xs[0], "");
      assert Print(xs[0]) + "" == Print(xs[0]);
    } else {
      NoLeadingBar(xs[0], "|" + PrintStages(xs[1..]));
    }
  }
}
