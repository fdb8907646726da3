/**
 What the redirection pass makes of written redirections: each operator with its descriptor, file and
 mode spelled out, in command texts of words, quoted parts, redirections and here-document markers.
 */
module PrintedRedirections {
  import opened Text
  import opened Runs
  import opened QuoteStates
  import opened CommandLine
  import opened Heredocs
  import opened RedirectionPass

  // ---- Written commands ----

  /** A marker's delimiter is written in quotes when `quote` is given; `gap` counts the spaces after an operator. */
  datatype Part =
    | Words(text: string)
    | Quoted(mark: char, text: string)
    | Input(gap: nat, name: string)
    | Output(gap: nat, name: string)
    | Append(gap: nat, name: string)
    | Errors(gap: nat, name: string)
    | ErrorsToOutput
    | Here(strip: bool, gap: nat, quote: Option<char>, delim: string)

  function Print(p: Part): string {
    match p
    case Words(text) => text
    case Quoted(quote, text) => [quote] + (text + [quote])
    case Input(gap, name) => "<" + (Spaces(gap) + name)
    case Output(gap, name) => ">" + (Spaces(gap) + name)
    case Append(gap, name) => ">>" + (Spaces(gap) + name)
    case Errors(gap, name) => "2>" + (Spaces(gap) + name)
    case ErrorsToOutput => "2>&1"
    case Here(strip, gap, quote, delim) =>
      "<<" + ((if strip then "-" else "") + (Spaces(gap) +
      (if quote.Some? then [quote.value] + (delim + [quote.value]) else delim)))
  }

  /** The parts of a command, each followed by a blank. */
  function PrintAll(parts: seq<Part>): string {
    if parts == [] then "" else Print(parts[0]) + (" " + PrintAll(parts[1..]))
  }

  /** Without blanks, and `trim` leaves it as it is. */
  predicate IsName(name: string) {
    Trimmed(name) && forall i :: 0 <= i < |name| ==> name[i] != ' ' && name[i] != '\t'
  }

  /** A name right after its operator does not make another operator of it. */
  predicate Apart(gap: nat, name: string, sign: string) {
    gap > 0 || !(sign <= name)
  }

  predicate Valid(p: Part) {
    match p
    case Words(text) => forall i :: 0 <= i < |text| ==> text[i] !in {'\'', '"', '<', '>'}
    case Quoted(quote, text) => quote in {'\'', '"'} && quote !in text
    case Input(gap, name) => IsName(name) && Apart(gap, name, "<")
    case Output(gap, name) => IsName(name) && Apart(gap, name, ">")
    case Append(_, name) => IsName(name)
    case Errors(gap, name) => IsName(name) && Apart(gap, name, "&1")
    case ErrorsToOutput => true
    case Here(strip, gap, quote, delim) =>
      delim != "" &&
      if quote.Some? then quote.value in {'\'', '"'} && quote.value !in delim
      else
        && delim[0] != '\'' && delim[0] != '"' && (delim[0] == '-' ==> strip || gap > 0)
        && forall i :: 0 <= i < |delim| ==> delim[i] !in {' ', '\t', '|', '>', '<'}
  }

  predicate AllValid(parts: seq<Part>) {
    forall i :: 0 <= i < |parts| ==> Valid(parts[i])
  }

  // ---- What is to be recorded ----

  const NO_BODY := PendingHeredoc("", false, true, "")

  function BodyAt(bodies: seq<PendingHeredoc>): string {
    if bodies == [] then "" else bodies[0].body
  }

  /** Descriptor, file, append, stderr to stdout, here-document. */
  function Recorded(p: Part, body: string): seq<Redirection> {
    match p
    case Words(_) => []
    case Quoted(_, _) => []
    case Input(_, name) => [Redirection(0, name, false, false, false, NO_BODY)]
    case Output(_, name) => [Redirection(1, name, false, false, false, NO_BODY)]
    case Append(_, name) => [Redirection(1, name, true, false, false, NO_BODY)]
    case Errors(_, name) => [Redirection(2, name, false, false, false, NO_BODY)]
    case ErrorsToOutput => [Redirection(2, "", false, true, false, NO_BODY)]
    case Here(strip, _, quote, delim) =>
      [Redirection(0, "", false, false, true, PendingHeredoc(delim, strip, quote.None?, body))]
  }

  function Kept(p: Part): string {
    if p.Words? || p.Quoted? then Print(p) else ""
  }

  /** A marker takes the next body. */
  function Left(p: Part, bodies: seq<PendingHeredoc>): seq<PendingHeredoc> {
    if p.Here? && bodies != [] then bodies[1..] else bodies
  }

  function AllRecorded(parts: seq<Part>, bodies: seq<PendingHeredoc>): seq<Redirection>
    decreases |parts|
  {
    if parts == [] then []
    else Recorded(parts[0], BodyAt(bodies)) + AllRecorded(parts[1..], Left(parts[0], bodies))
  }

  function AllKept(parts: seq<Part>): string {
    if parts == [] then "" else Kept(parts[0]) + (" " + AllKept(parts[1..]))
  }

  // ---- What the pass records ----

  /** Reading `t` in front of `u` records `rs` and keeps `kept`; `later` are the bodies for `u`. */
  predicate Reads(t: string, u: string, q: Quotes, r: Quotes, bodies: seq<PendingHeredoc>, later: seq<PendingHeredoc>,
                  rs: seq<Redirection>, kept: string) {
    var all, rest := Events(t + u, q, bodies), Events(u, r, later);
    && Redirections(all) == rs + Redirections(rest)
    && Remaining(all) == kept + Remaining(rest)
    && MissingOperands(all) == MissingOperands(rest)
  }

  lemma ReadsEvents(es: seq<Event>, rest: seq<Event>)
    ensures Redirections(es + rest) == Redirections(es) + Redirections(rest)
    ensures Remaining(es + rest) == Remaining(es) + Remaining(rest)
    ensures MissingOperands(es + rest) == MissingOperands(es) + MissingOperands(rest)
  {
    RedirectionsAppend(es, rest);
    RemainingAppend(es, rest);
    MissingAppend(es, rest);
  }

  lemma OneEvent(e: Event)
    ensures Redirections([e]) == RedirectionOf(e) && Remaining([e]) == KeptOf(e) && MissingOperands([e]) == MissingOf(e)
  {
    assert [e][1..] == [];
    assert RedirectionOf(e) + [] == RedirectionOf(e) && KeptOf(e) + "" == KeptOf(e);
    assert MissingOf(e) + [] == MissingOf(e);
  }

  lemma ReadsNothing(u: string, q: Quotes, bodies: seq<PendingHeredoc>)
    ensures Reads("", u, q, q, bodies, bodies, [], "")
  {
    hide Events, Redirections, Remaining, MissingOperands;
    assert "" + u == u;
    var rest := Events(u, q, bodies);
    assert [] + Redirections(rest) == Redirections(rest) && "" + Remaining(rest) == Remaining(rest);
  }

  lemma ReadsBoth(a: string, b: string, u: string, q: Quotes, r: Quotes, s: Quotes,
                  bodies: seq<PendingHeredoc>, later: seq<PendingHeredoc>, last: seq<PendingHeredoc>,
                  rs: seq<Redirection>, kept: string, rs': seq<Redirection>, kept': string)
    requires Reads(a, b + u, q, r, bodies, later, rs, kept) && Reads(b, u, r, s, later, last, rs', kept')
    ensures Reads(a + b, u, q, s, bodies, last, rs + rs', kept + kept')
  {
    hide Events, Redirections, Remaining, MissingOperands;
    assert a + b + u == a + (b + u);
    var rest := Events(u, s, last);
    assert rs + (rs' + Redirections(rest)) == rs + rs' + Redirections(rest);
    assert kept + (kept' + Remaining(rest)) == kept + kept' + Remaining(rest);
  }

  /** The same for texts that are kept. */
  lemma KeepsBoth(a: string, b: string, u: string, q: Quotes, r: Quotes, s: Quotes, bodies: seq<PendingHeredoc>)
    requires Reads(a, b + u, q, r, bodies, bodies, [], a) && Reads(b, u, r, s, bodies, bodies, [], b)
    ensures Reads(a + b, u, q, s, bodies, bodies, [], a + b)
  {
    hide Reads;
    var none: seq<Redirection> := [];
    assert none + none == none;
    ReadsBoth(a, b, u, q, r, s, bodies, bodies, bodies, none, a, none, b);
  }

  /** A character that the pass keeps. */
  lemma ReadsCharacter(c: char, u: string, q: Quotes, bodies: seq<PendingHeredoc>)
    requires IsBoundary(q, c) || q.Active() || (c != '<' && c != '>' && (c == '2' ==> u == "" || u[0] != '>'))
    ensures Reads([c], u, q, Toggle(q, c), bodies, bodies, [], [c])
  {
    var t := [c] + u;
    assert t[1..] == u && t[0] == c;
    if !(IsBoundary(q, c) || q.Active()) {
      assert t[0] != '<' && t[0] != '>' && !("2>" <= t);
      assert ReadUnquoted(t, bodies) == Reading(1, [Keep(c)], bodies);
    }
    assert Events(t, q, bodies) == [Keep(c)] + Events(u, Toggle(q, c), bodies);
    hide ReadUnquoted, Events, Redirections, Remaining, MissingOperands;
    OneEvent(Keep(c));
    ReadsEvents([Keep(c)], Events(u, Toggle(q, c), bodies));
  }

  lemma {:induction false} ReadsWords(text: string, u: string, bodies: seq<PendingHeredoc>)
    requires Valid(Words(text)) && (u == "" || u[0] == ' ')
    ensures Reads(text, u, UNQUOTED, UNQUOTED, bodies, bodies, [], text)
    decreases |text|
  {
    hide Reads, Toggle;
    if text == "" {
      ReadsNothing(u, UNQUOTED, bodies);
    } else {
      var c, rest := text[0], text[1..];
      assert text == [c] + rest;
      assert Toggle(UNQUOTED, c) == UNQUOTED by { Untoggled(c); }
      ReadsCharacter(c, rest + u, UNQUOTED, bodies);
      ReadsWords(rest, u, bodies);
      KeepsBoth([c], rest, u, UNQUOTED, UNQUOTED, UNQUOTED, bodies);
    }
  }

  lemma Untoggled(c: char)
    requires c != '\'' && c != '"'
    ensures Toggle(UNQUOTED, c) == UNQUOTED
  {
  }

  lemma {:induction false} ReadsInside(quote: char, text: string, u: string, q: Quotes, bodies: seq<PendingHeredoc>)
    requires quote in {'\'', '"'} && quote !in text
    requires q == if quote == '\'' then Quotes(true, false) else Quotes(false, true)
    ensures Reads(text, u, q, q, bodies, bodies, [], text)
    decreases |text|
  {
    hide Reads;
    if text == "" {
      ReadsNothing(u, q, bodies);
    } else {
      var c, rest := text[0], text[1..];
      assert text == [c] + rest && Toggle(q, c) == q;
      ReadsCharacter(c, rest + u, q, bodies);
      ReadsInside(quote, rest, u, q, bodies);
      KeepsBoth([c], rest, u, q, q, q, bodies);
    }
  }

  lemma ReadsQuoted(quote: char, text: string, u: string, bodies: seq<PendingHeredoc>)
    requires quote in {'\'', '"'} && quote !in text
    ensures Reads([quote] + (text + [quote]), u, UNQUOTED, UNQUOTED, bodies, bodies, [], [quote] + (text + [quote]))
  {
    hide Reads;
    var q := Toggle(UNQUOTED, quote);
    assert Toggle(q, quote) == UNQUOTED && (q == if quote == '\'' then Quotes(true, false) else Quotes(false, true));
    hide Toggle;
    ReadsCharacter(quote, text + [quote] + u, UNQUOTED, bodies);
    ReadsInside(quote, text, [quote] + u, q, bodies);
    ReadsCharacter(quote, u, q, bodies);
    KeepsBoth(text, [quote], u, q, q, UNQUOTED, bodies);
    assert text + [quote] + u == text + ([quote] + u);
    KeepsBoth([quote], text + [quote], u, UNQUOTED, q, UNQUOTED, bodies);
  }

  /** One step outside quotes that records a redirection and reads `t`. */
  lemma ReadsOne(t: string, u: string, e: Event, bodies: seq<PendingHeredoc>, later: seq<PendingHeredoc>)
    requires t != "" && e.Redirect? && ReadUnquoted(t + u, bodies) == Reading(|t|, [e], later)
    requires !IsBoundary(UNQUOTED, t[0])
    ensures Reads(t, u, UNQUOTED, UNQUOTED, bodies, later, [e.r], "")
  {
    hide ReadUnquoted;
    assert (t + u)[|t|..] == u && (t + u)[0] == t[0];
    assert Events(t + u, UNQUOTED, bodies) == [e] + Events(u, UNQUOTED, later);
    hide Events, Redirections, Remaining, MissingOperands;
    OneEvent(e);
    ReadsEvents([e], Events(u, UNQUOTED, later));
    assert [] + MissingOperands(Events(u, UNQUOTED, later)) == MissingOperands(Events(u, UNQUOTED, later));
  }

  lemma {:induction false} SpacesRun(n: nat, u: string, cs: set<char>)
    requires ' ' in cs && (u == "" || u[0] !in cs)
    ensures |Spaces(n)| == n && RunIn(Spaces(n) + u, cs) == n && (Spaces(n) + u)[n..] == u
    decreases n
  {
    if n == 0 {
      assert "" + u == u;
    } else {
      assert Spaces(n) + u == " " + (Spaces(n - 1) + u);
      assert (" " + (Spaces(n - 1) + u))[1..] == Spaces(n - 1) + u;
      SpacesRun(n - 1, u, cs);
      assert (Spaces(n) + u)[n..] == (Spaces(n - 1) + u)[n - 1..];
    }
  }

  /** The operand after an operator: its spaces and the name up to the blank. */
  lemma OperandIsName(gap: nat, name: string, u: string)
    requires IsName(name) && u != "" && u[0] == ' '
    ensures var operand := Spaces(gap) + name + u;
            TargetLength(operand) == gap + |name| && TargetName(operand) == name && |Spaces(gap)| == gap
  {
    var operand := Spaces(gap) + name + u;
    assert operand == Spaces(gap) + (name + u) && (name + u)[0] == name[0];
    SpacesRun(gap, name + u, {' '});
    RunOutIs(name + u, BLANKS, |name|);
    hide RunIn, RunOut, Spaces, Trim;
    assert operand[gap..gap + |name|] == name;
    TrimPad("", name, "");
    assert "" + name + "" == name;
  }

  lemma Skip(a: string, b: string)
    ensures (a + b)[|a|..] == b && a <= a + b
  {
  }

  lemma Regroup(a: string, b: string, c: string, u: string)
    ensures a + (b + c) + u == a + (b + c + u)
  {
  }

  lemma RegroupAll(a: string, b: string, c: string, d: string, u: string)
    ensures a + (b + (c + d)) + u == a + (b + (c + (d + u)))
  {
    assert c + d + u == c + (d + u);
    assert b + (c + d) + u == b + (c + d + u);
  }

  lemma ReadsFile(sign: string, fd: int, append: bool, gap: nat, name: string, u: string, bodies: seq<PendingHeredoc>)
    requires IsName(name) && u != "" && u[0] == ' ' && sign != ""
    ensures var t := sign + (Spaces(gap) + name);
            sign <= t + u
            && ReadFile(t + u, sign, fd, append, bodies) ==
               Reading(|t|, [Redirect(FileRedirection(fd, name, append))], bodies)
  {
    assert name != "";
    hide IsName, TargetLength, TargetName, Spaces;
    OperandIsName(gap, name, u);
    Regroup(sign, Spaces(gap), name, u);
    Skip(sign, Spaces(gap) + name + u);
  }

  /** What comes right after an operator is not its continuation. */
  lemma SignEnds(gap: nat, name: string, u: string, sign: string)
    requires IsName(name) && Apart(gap, name, sign) && u != "" && u[0] == ' ' && sign in {"<", ">", "&1"}
    ensures var operand := Spaces(gap) + name + u; operand != "" && !(sign <= operand)
  {
    var operand := Spaces(gap) + name + u;
    if gap > 0 {
      assert operand[0] == ' ';
    } else {
      assert operand == name + u;
      if |name| >= |sign| {
        assert operand[..|sign|] == name[..|sign|];
      } else {
        assert operand[|name|] == ' ';
      }
    }
  }

  lemma InputSign(operand: string, bodies: seq<PendingHeredoc>)
    requires operand != "" && operand[0] != '<'
    ensures var t := "<" + operand; "<" <= t && ReadUnquoted(t, bodies) == ReadFile(t, "<", 0, false, bodies)
  {
    hide ReadFile, ReadHeredoc;
    var t := "<" + operand;
    assert t[0] == '<' && t[1] == operand[0];
  }

  lemma OutputSign(operand: string, bodies: seq<PendingHeredoc>)
    requires operand != "" && operand[0] != '>'
    ensures var t := ">" + operand; ">" <= t && ReadUnquoted(t, bodies) == ReadFile(t, ">", 1, false, bodies)
  {
    hide ReadFile, ReadHeredoc;
    var t := ">" + operand;
    assert t[0] == '>' && t[1] == operand[0];
  }

  lemma AppendSign(operand: string, bodies: seq<PendingHeredoc>)
    ensures var t := ">>" + operand; ">>" <= t && ReadUnquoted(t, bodies) == ReadFile(t, ">>", 1, true, bodies)
  {
    hide ReadFile, ReadHeredoc;
    assert (">>" + operand)[0] == '>';
  }

  lemma ErrorsSign(operand: string, bodies: seq<PendingHeredoc>)
    requires !("&1" <= operand)
    ensures var t := "2>" + operand; "2>" <= t && ReadUnquoted(t, bodies) == ReadFile(t, "2>", 2, false, bodies)
  {
    hide ReadFile, ReadHeredoc;
    var t := "2>" + operand;
    assert t[2..] == operand;
    assert !("2>&1" <= t) by { JoinIsLonger(t); }
  }

  lemma JoinIsLonger(t: string)
    ensures "2>&1" <= t ==> "&1" <= t[2..]
  {
  }

  lemma ReadsInput(gap: nat, name: string, u: string, bodies: seq<PendingHeredoc>)
    requires Valid(Input(gap, name)) && u != "" && u[0] == ' '
    ensures var t := Print(Input(gap, name));
            ReadUnquoted(t + u, bodies) ==
            Reading(|t|, [Redirect(Redirection(0, name, false, false, false, NO_BODY))], bodies)
  {
    hide ReadFile, ReadUnquoted, Spaces;
    var operand := Spaces(gap) + name + u;
    ReadsFile("<", 0, false, gap, name, u, bodies);
    SignEnds(gap, name, u, "<");
    FirstIsSign(operand, "<");
    assert Print(Input(gap, name)) + u == "<" + operand;
    InputSign(operand, bodies);
  }

  lemma ReadsOutput(gap: nat, name: string, u: string, bodies: seq<PendingHeredoc>)
    requires Valid(Output(gap, name)) && u != "" && u[0] == ' '
    ensures var t := Print(Output(gap, name));
            ReadUnquoted(t + u, bodies) ==
            Reading(|t|, [Redirect(Redirection(1, name, false, false, false, NO_BODY))], bodies)
  {
    hide ReadFile, ReadUnquoted, Spaces;
    var operand := Spaces(gap) + name + u;
    ReadsFile(">", 1, false, gap, name, u, bodies);
    SignEnds(gap, name, u, ">");
    FirstIsSign(operand, ">");
    assert Print(Output(gap, name)) + u == ">" + operand;
    OutputSign(operand, bodies);
  }

  lemma ReadsAppend(gap: nat, name: string, u: string, bodies: seq<PendingHeredoc>)
    requires Valid(Append(gap, name)) && u != "" && u[0] == ' '
    ensures var t := Print(Append(gap, name));
            ReadUnquoted(t + u, bodies) ==
            Reading(|t|, [Redirect(Redirection(1, name, true, false, false, NO_BODY))], bodies)
  {
    hide ReadFile, ReadUnquoted, Spaces;
    var operand := Spaces(gap) + name + u;
    ReadsFile(">>", 1, true, gap, name, u, bodies);
    assert Print(Append(gap, name)) + u == ">>" + operand;
    AppendSign(operand, bodies);
  }

  lemma ReadsErrors(gap: nat, name: string, u: string, bodies: seq<PendingHeredoc>)
    requires Valid(Errors(gap, name)) && u != "" && u[0] == ' '
    ensures var t := Print(Errors(gap, name));
            ReadUnquoted(t + u, bodies) ==
            Reading(|t|, [Redirect(Redirection(2, name, false, false, false, NO_BODY))], bodies)
  {
    hide ReadFile, ReadUnquoted, Spaces;
    var operand := Spaces(gap) + name + u;
    ReadsFile("2>", 2, false, gap, name, u, bodies);
    SignEnds(gap, name, u, "&1");
    assert Print(Errors(gap, name)) + u == "2>" + operand;
    ErrorsSign(operand, bodies);
  }

  lemma FirstIsSign(operand: string, sign: string)
    requires operand != "" && |sign| == 1 && !(sign <= operand)
    ensures operand[0] != sign[0]
  {
  }

  lemma ReadsJoin(u: string, bodies: seq<PendingHeredoc>)
    ensures ReadUnquoted("2>&1" + u, bodies) ==
            Reading(4, [Redirect(Redirection(2, "", false, true, false, NO_BODY))], bodies)
  {
    hide ReadFile, ReadHeredoc;
  }

  // ---- Markers ----

  /** The delimiter as written. */
  function Delimiter(quote: Option<char>, delim: string): string {
    if quote.Some? then [quote.value] + (delim + [quote.value]) else delim
  }

  /** Where the delimiter starts in `<<`, a flag, spaces and the rest. */
  lemma DelimiterAt(strip: bool, gap: nat, d: string, u: string)
    requires d != "" && d[0] !in BLANKS && (d[0] == '-' ==> strip || gap > 0)
    ensures var t := "<<" + ((if strip then "-" else "") + (Spaces(gap) + (d + u)));
            var b := 2 + (if strip then 1 else 0) + gap;
            && "<<" <= t && StripFlag(t) == strip && DelimStart(t) == b < |t| && t[b..] == d + u
  {
    var flag := if strip then "-" else "";
    var after := Spaces(gap) + (d + u);
    var t := "<<" + (flag + after);
    assert (d + u)[0] == d[0];
    SpacesRun(gap, d + u, BLANKS);
    FirstAfterSign(strip, gap, d, u);
    hide RunIn, Spaces;
    Skip("<<", flag + after);
    Skip(flag, after);
    From(t, 2, |flag|, 0);
    From(t, 2 + |flag|, gap, 0);
    assert t[2..] == flag + after && t[2 + |flag|..] == after;
    StripFlagIs(t, strip, after);
  }

  lemma DelimiterText(strip: bool, gap: nat, quote: Option<char>, delim: string)
    ensures Print(Here(strip, gap, quote, delim)) ==
            "<<" + ((if strip then "-" else "") + (Spaces(gap) + Delimiter(quote, delim)))
  {
  }

  lemma DelimiterBegins(strip: bool, gap: nat, quote: Option<char>, delim: string)
    requires Valid(Here(strip, gap, quote, delim))
    ensures var d := Delimiter(quote, delim); d != "" && d[0] !in BLANKS && (d[0] == '-' ==> strip || gap > 0)
  {
  }

  lemma DelimiterStarts(strip: bool, gap: nat, quote: Option<char>, delim: string, u: string)
    requires Valid(Here(strip, gap, quote, delim)) && u != "" && u[0] == ' '
    ensures var t := Print(Here(strip, gap, quote, delim)) + u;
            var b := 2 + (if strip then 1 else 0) + gap;
            && "<<" <= t && StripFlag(t) == strip && DelimStart(t) == b < |t| && t[b..] == Delimiter(quote, delim) + u
            && |Spaces(gap)| == gap
  {
    var d := Delimiter(quote, delim);
    SpacesRun(gap, "x", {' '});
    DelimiterBegins(strip, gap, quote, delim);
    hide DelimStart, Spaces, Valid, Delimiter;
    DelimiterAt(strip, gap, d, u);
    assert Print(Here(strip, gap, quote, delim)) == "<<" + ((if strip then "-" else "") + (Spaces(gap) + d)) by {
      DelimiterText(strip, gap, quote, delim);
    }
    hide Print;
    RegroupAll("<<", if strip then "-" else "", Spaces(gap), d, u);
  }

  lemma StripFlagIs(t: string, strip: bool, after: string)
    requires t == "<<" + ((if strip then "-" else "") + after) && after != "" && (!strip ==> after[0] != '-')
    ensures StripFlag(t) == strip
  {
    if strip { assert t[2] == '-'; } else { assert t[2] == after[0]; }
  }

  lemma FirstAfterSign(strip: bool, gap: nat, d: string, u: string)
    requires d != "" && (d[0] == '-' ==> strip || gap > 0)
    ensures var after := Spaces(gap) + (d + u); after != "" && (!strip ==> after[0] != '-')
  {
    if gap == 0 { assert Spaces(gap) + (d + u) == d + u; }
  }

  /** Slices counted from `b`. */
  lemma From(t: string, b: nat, i: nat, n: nat)
    requires b + i + n <= |t|
    ensures t[b + i..] == t[b..][i..] && t[b + i..b + i + n] == t[b..][i..][..n]
    ensures b < |t| ==> t[b] == t[b..][0]
  {
  }

  lemma AfterQuote(t: string, b: nat, quote: char, rest: string)
    requires b < |t| && t[b..] == [quote] + rest
    ensures t[b] == quote && t[b + 1..] == rest && |t| == b + 1 + |rest|
  {
    From(t, b, 1, 0);
    Skip([quote], rest);
    assert t[b] == ([quote] + rest)[0];
  }

  lemma RunToQuote(delim: string, quote: char, u: string)
    requires quote !in delim
    ensures var rest := delim + ([quote] + u); RunOut(rest, {quote}) == |delim| && rest[..|delim|] == delim
  {
    var rest := delim + ([quote] + u);
    assert rest[|delim|] == ([quote] + u)[0];
    RunOutIs(rest, {quote}, |delim|);
  }

  lemma QuotedMarkerAt(t: string, b: nat, quote: char, delim: string, u: string)
    requires "<<" <= t && DelimStart(t) == b < |t| && t[b..] == [quote] + (delim + [quote]) + u
    requires quote in {'\'', '"'} && quote !in delim
    ensures ReadMarker(t) == Heredocs.Marker(delim, StripFlag(t), false, b + |delim| + 2)
  {
    hide DelimStart, RunOut;
    var rest := delim + ([quote] + u);
    assert [quote] + (delim + [quote]) + u == [quote] + rest;
    AfterQuote(t, b, quote, rest);
    RunToQuote(delim, quote, u);
    From(t, b + 1, 0, |delim|);
  }

  lemma PlainMarkerAt(t: string, b: nat, delim: string, u: string)
    requires "<<" <= t && DelimStart(t) == b < |t| && t[b..] == delim + u && u != "" && u[0] == ' '
    requires delim != "" && delim[0] != '\'' && delim[0] != '"'
    requires forall i :: 0 <= i < |delim| ==> delim[i] !in {' ', '\t', '|', '>', '<'}
    ensures ReadMarker(t) == Heredocs.Marker(delim, StripFlag(t), true, b + |delim|)
  {
    hide DelimStart;
    From(t, b, 0, |delim|);
    assert t[b] == (delim + u)[0] == delim[0];
    RunOutIs(delim + u, DELIM_STOPS, |delim|);
    hide RunOut;
    assert (delim + u)[..|delim|] == delim;
  }

  /** A marker that starts as it should is read as the delimiter written there. */
  lemma MarkerAt(t: string, b: nat, strip: bool, gap: nat, quote: Option<char>, delim: string, u: string)
    requires "<<" <= t && DelimStart(t) == b < |t| && StripFlag(t) == strip && u != "" && u[0] == ' '
    requires t[b..] == Delimiter(quote, delim) + u && Valid(Here(strip, gap, quote, delim))
    ensures ReadMarker(t) ==
            Heredocs.Marker(delim, strip, quote.None?, b + |delim| + if quote.Some? then 2 else 0)
  {
    hide ReadMarker, DelimStart;
    if quote.Some? {
      QuotedMarkerAt(t, b, quote.value, delim, u);
    } else {
      PlainMarkerAt(t, b, delim, u);
    }
  }

  lemma ReadsDelimiter(strip: bool, gap: nat, quote: Option<char>, delim: string, u: string)
    requires Valid(Here(strip, gap, quote, delim)) && u != "" && u[0] == ' '
    ensures var t := Print(Here(strip, gap, quote, delim));
            "<<" <= t + u && ReadMarker(t + u) == Heredocs.Marker(delim, strip, quote.None?, |t|)
  {
    hide Print, ReadMarker, DelimStart, StripFlag, Spaces, Valid, Delimiter;
    DelimiterStarts(strip, gap, quote, delim, u);
    var p := Here(strip, gap, quote, delim);
    var b := 2 + (if strip then 1 else 0) + gap;
    MarkerAt(Print(p) + u, b, strip, gap, quote, delim, u);
    PrintedLength(strip, gap, quote, delim);
  }

  lemma PrintedLength(strip: bool, gap: nat, quote: Option<char>, delim: string)
    ensures |Print(Here(strip, gap, quote, delim))| ==
            2 + (if strip then 1 else 0) + gap + |delim| + if quote.Some? then 2 else 0
  {
    SpacesRun(gap, "x", {' '});
  }

  lemma ReadsHere(strip: bool, gap: nat, quote: Option<char>, delim: string, u: string, bodies: seq<PendingHeredoc>)
    requires Valid(Here(strip, gap, quote, delim)) && delim != "" && u != "" && u[0] == ' '
    ensures var p := Here(strip, gap, quote, delim);
            var h := PendingHeredoc(delim, strip, quote.None?, BodyAt(bodies));
            ReadUnquoted(Print(p) + u, bodies) ==
            Reading(|Print(p)|, [Redirect(Redirection(0, "", false, false, true, h))], Left(p, bodies))
  {
    hide ReadMarker, Print, ReadUnquoted;
    ReadsDelimiter(strip, gap, quote, delim, u);
    ReadsMarker(Print(Here(strip, gap, quote, delim)) + u, bodies);
  }

  // ---- Whole commands ----

  lemma ReadsPart(p: Part, u: string, bodies: seq<PendingHeredoc>)
    requires Valid(p) && u != "" && u[0] == ' '
    ensures Reads(Print(p), u, UNQUOTED, UNQUOTED, bodies, Left(p, bodies), Recorded(p, BodyAt(bodies)), Kept(p))
  {
    if p.Words? {
      ReadsWords(p.text, u, bodies);
    } else if p.Quoted? {
      ReadsQuoted(p.mark, p.text, u, bodies);
    } else {
      ReadsRedirection(p, u, bodies);
      SignIsNoQuote(p);
      hide Reads, ReadUnquoted, Print;
      ReadsOne(Print(p), u, Redirect(Recorded(p, BodyAt(bodies))[0]), bodies, Left(p, bodies));
      assert [Recorded(p, BodyAt(bodies))[0]] == Recorded(p, BodyAt(bodies));
    }
  }

  lemma SignIsNoQuote(p: Part)
    requires !p.Words? && !p.Quoted?
    ensures Print(p) != "" && !IsBoundary(UNQUOTED, Print(p)[0])
  {
  }

  lemma ReadsRedirection(p: Part, u: string, bodies: seq<PendingHeredoc>)
    requires Valid(p) && !p.Words? && !p.Quoted? && u != "" && u[0] == ' '
    ensures ReadUnquoted(Print(p) + u, bodies) ==
            Reading(|Print(p)|, [Redirect(Recorded(p, BodyAt(bodies))[0])], Left(p, bodies))
  {
    hide ReadUnquoted;
    match p {
      case Input(gap, name) => ReadsInput(gap, name, u, bodies);
      case Output(gap, name) => ReadsOutput(gap, name, u, bodies);
      case Append(gap, name) => ReadsAppend(gap, name, u, bodies);
      case Errors(gap, name) => ReadsErrors(gap, name, u, bodies);
      case ErrorsToOutput => ReadsJoin(u, bodies);
      case Here(strip, gap, quote, delim) => ReadsHere(strip, gap, quote, delim, u, bodies);
    }
  }

  /**
   A written command: its redirections are recorded in order, each with its descriptor, file and mode,
   each marker with the next body; everything else is kept, and nothing is missed.
   */
  lemma {:induction false} PassRecords(parts: seq<Part>, bodies: seq<PendingHeredoc>)
    requires AllValid(parts)
    ensures var events := Events(PrintAll(parts), UNQUOTED, bodies);
            && Redirections(events) == AllRecorded(parts, bodies)
            && Remaining(events) == AllKept(parts)
            && MissingOperands(events) == []
    decreases |parts|
  {
    hide Valid, Print, Recorded, Kept, Events, Redirections, Remaining, MissingOperands, Left, BodyAt;
    if parts == [] {
      NothingRecorded(bodies);
    } else {
      var u, later := PrintAll(parts[1..]), Left(parts[0], bodies);
      assert forall i :: 0 <= i < |parts[1..]| ==> parts[1..][i] == parts[i + 1];
      ReadsPart(parts[0], " " + u, bodies);
      ReadsCharacter(' ', u, UNQUOTED, later);
      assert Toggle(UNQUOTED, ' ') == UNQUOTED;
      PassRecords(parts[1..], later);
      var rest := AllRecorded(parts[1..], later);
      assert [] + rest == rest;
    }
  }

  lemma NothingRecorded(bodies: seq<PendingHeredoc>)
    ensures var none := Events("", UNQUOTED, bodies);
            Redirections(none) == [] && Remaining(none) == "" && MissingOperands(none) == []
  {
  }

  /** An operator with nothing but spaces after it is reported, and records nothing. */
  lemma OperandIsMissing(sign: string, gap: nat, bodies: seq<PendingHeredoc>)
    requires sign in {"<", ">", ">>", "2>"}
    ensures var events := Events(sign + Spaces(gap), UNQUOTED, bodies);
            Redirections(events) == [] && Remaining(events) == "" && MissingOperands(events) == [sign]
  {
    var t := sign + Spaces(gap);
    BlankOperand(gap);
    hide TargetLength, TargetName;
    assert t[|sign|..] == Spaces(gap) && t[0] == sign[0];
    SignAtEnd(sign, gap, bodies);
    hide ReadUnquoted, Spaces, ReadFile;
    assert t[|t|..] == "" && !IsBoundary(UNQUOTED, t[0]);
    var none: seq<Event> := Events("", UNQUOTED, bodies);
    assert [Missing(sign)] + none == [Missing(sign)];
    assert Events(t, UNQUOTED, bodies) == [Missing(sign)];
    OneEvent(Missing(sign));
  }

  lemma BlankOperand(gap: nat)
    ensures |Spaces(gap)| == gap && TargetLength(Spaces(gap)) == gap && TargetName(Spaces(gap)) == ""
  {
    SpacesRun(gap, "", {' '});
    assert Spaces(gap) + "" == Spaces(gap);
    hide Spaces, RunIn;
    assert Spaces(gap)[gap..] == "" && Spaces(gap)[gap..gap] == "";
    assert RunOut("", BLANKS) == 0;
  }

  lemma SignAtEnd(sign: string, gap: nat, bodies: seq<PendingHeredoc>)
    requires sign in {"<", ">", ">>", "2>"}
    ensures var t := sign + Spaces(gap);
            t != "" && ReadUnquoted(t, bodies) == Reading(|t|, [Missing(sign)], bodies)
  {
    var t, operand := sign + Spaces(gap), Spaces(gap);
    BlankOperand(gap);
    hide TargetLength, TargetName, ReadHeredoc;
    assert operand != "" ==> operand[0] == ' ';
    assert |t| > |sign| ==> t[|sign|] == ' ';
    assert t[|sign|..] == operand;
    hide Spaces;
    assert t[0] == sign[0] && (|sign| == 2 ==> t[1] == '>');
  }
}
