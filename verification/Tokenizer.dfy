/** `tokenize_string` and `strip_quotes`, and the round trip of quoted words through them. */
module Tokenizer {
  import opened Text
  import opened QuoteStates

  /** A backslash in front of a quote or a backslash. */
  predicate EscapePair(t: string) {
    |t| >= 2 && t[0] == '\\' && (t[1] == '"' || t[1] == '\'' || t[1] == '\\')
  }

  function Flush(current: string): seq<string> {
    if Trim(current) == "" then [] else [Trim(current)]
  }

  /** The tokens of `current` followed by the unread text `t`, with `q` open. */
  function Tokens(t: string, q: Quotes, current: string, delim: string): seq<string>
    requires delim != ""
    decreases |t|
  {
    if t == "" then Flush(current)
    else if EscapePair(t) then Tokens(t[2..], q, current + [t[1]], delim)
    else if IsBoundary(q, t[0]) then Tokens(t[1..], Toggle(q, t[0]), current + [t[0]], delim)
    else if !q.Active() && delim <= t then Flush(current) + Tokens(t[|delim|..], q, "", delim)
    else Tokens(t[1..], q, current + [t[0]], delim)
  }

  /** One unfolding of `Tokens`, after what has been recorded. */
  lemma TokensStep(done: seq<string>, t: string, q: Quotes, current: string, delim: string)
    requires delim != "" && t != ""
    ensures EscapePair(t) ==>
              done + Tokens(t, q, current, delim) == done + Tokens(t[2..], q, current + [t[1]], delim)
    ensures !EscapePair(t) && IsBoundary(q, t[0]) ==>
              done + Tokens(t, q, current, delim) == done + Tokens(t[1..], Toggle(q, t[0]), current + [t[0]], delim)
    ensures !EscapePair(t) && !IsBoundary(q, t[0]) && !q.Active() && delim <= t ==>
              done + Tokens(t, q, current, delim) == (done + Flush(current)) + Tokens(t[|delim|..], q, "", delim)
    ensures !EscapePair(t) && !IsBoundary(q, t[0]) && !(!q.Active() && delim <= t) ==>
              done + Tokens(t, q, current, delim) == done + Tokens(t[1..], q, current + [t[0]], delim)
  {
    hide EscapePair, Flush;
    if !q.Active() && delim <= t {
      var rest := Tokens(t[|delim|..], q, "", delim);
      assert done + (Flush(current) + rest) == (done + Flush(current)) + rest;
    }
  }

  /** With an empty delimiter the original never advances; no caller passes one. */
  method TokenizeString(line: string, delim: string) returns (tokens: seq<string>)
    requires delim != ""
    ensures tokens == Tokens(line, UNQUOTED, "", delim)
  {
    hide Flush, Trim, Tokens;
    tokens := [];
    var current := "";
    var qs := new QuoteState();
    var i := 0;
    assert line[0..] == line;
    assert [] + Tokens(line, UNQUOTED, "", delim) == Tokens(line, UNQUOTED, "", delim);
    while i < |line|
      invariant 0 <= i <= |line|
      invariant tokens + Tokens(line[i..], qs.Fields(), current, delim) == Tokens(line, UNQUOTED, "", delim)
    {
      ghost var rest := line[i..];
      TokensStep(tokens, rest, qs.Fields(), current, delim);
      if i + 1 < |line| && line[i] == '\\' && (line[i + 1] == '"' || line[i + 1] == '\'' || line[i + 1] == '\\') {
        assert rest[2..] == line[i + 2..];
        current := current + [line[i + 1]];
        i := i + 2;
        continue;
      }
      assert rest[1..] == line[i + 1..];
      var boundary := qs.Consume(line[i]);
      if boundary {
        current := current + [line[i]];
        i := i + 1;
        continue;
      }
      if !qs.AnyActive() && delim <= line[i..] {
        assert rest[|delim|..] == line[i + |delim|..];
        tokens := tokens + Flush(current);
        current := "";
        i := i + |delim|;
        continue;
      }
      current := current + [line[i]];
      i := i + 1;
    }
    LastToken(line[i..], qs.Fields(), current, delim);
    tokens := tokens + Flush(current);
  }

  lemma LastToken(t: string, q: Quotes, current: string, delim: string)
    requires delim != "" && t == ""
    ensures Tokens(t, q, current, delim) == Flush(current)
  {
  }

  function StripQuotes(s: string): string {
    if |s| >= 2 && ((s[0] == '"' && s[|s| - 1] == '"') || (s[0] == '\'' && s[|s| - 1] == '\'')) then s[1..|s| - 1]
    else s
  }

  // ---- Round trip ----

  function Escape(w: string): string {
    if w == "" then ""
    else (if w[0] == '"' || w[0] == '\\' then ['\\', w[0]] else [w[0]]) + Escape(w[1..])
  }

  function Quoted(w: string): string {
    "\"" + (Escape(w) + "\"")
  }

  /** The words quoted and joined with single spaces. */
  function Render(words: seq<string>): string {
    if words == [] then "" else
      Quoted(words[0]) + (if |words| == 1 then "" else " " + Render(words[1..]))
  }

  function Unquote(tokens: seq<string>): seq<string> {
    if tokens == [] then [] else [StripQuotes(tokens[0])] + Unquote(tokens[1..])
  }

  lemma {:induction false} InsideQuotes(w: string, u: string, current: string)
    ensures Tokens(Escape(w) + ("\"" + u), Quotes(false, true), current, " ") ==
            Tokens(u, UNQUOTED, current + w + "\"", " ")
    decreases |w|
  {
    var t := Escape(w) + ("\"" + u);
    if w == "" {
      assert t == "\"" + u && t[1..] == u;
      hide Flush, Escape;
      assert current + "" == current;
    } else {
      var tail := Escape(w[1..]) + ("\"" + u);
      var escaped := w[0] == '"' || w[0] == '\\';
      assert t == (if escaped then ['\\', w[0]] else [w[0]]) + tail;
      hide Tokens, Escape;
      InsideQuotes(w[1..], u, current + [w[0]]);
      assert current + [w[0]] + w[1..] == current + w;
      QuotedCharacter(w[0], tail, current);
    }
  }

  /** One character inside double quotes, with the backslash that it needs. */
  lemma QuotedCharacter(c: char, tail: string, current: string)
    ensures var t := (if c == '"' || c == '\\' then ['\\', c] else [c]) + tail;
            Tokens(t, Quotes(false, true), current, " ") == Tokens(tail, Quotes(false, true), current + [c], " ")
  {
    hide Flush;
    var t := (if c == '"' || c == '\\' then ['\\', c] else [c]) + tail;
    if c == '"' || c == '\\' {
      assert t[2..] == tail;
    } else {
      assert t[1..] == tail;
    }
  }

  lemma OneWord(w: string, u: string)
    ensures Tokens(Quoted(w) + u, UNQUOTED, "", " ") == Tokens(u, UNQUOTED, "\"" + w + "\"", " ")
  {
    hide Flush, Escape;
    var t := Quoted(w) + u;
    assert t[0] == '"' && t[1..] == Escape(w) + ("\"" + u);
    assert "" + ['"'] == "\"";
    InsideQuotes(w, u, "\"");
  }

  lemma QuotedIsTrimmed(w: string)
    ensures Flush("\"" + w + "\"") == ["\"" + w + "\""]
    ensures StripQuotes("\"" + w + "\"") == w
  {
    var t := "\"" + w + "\"";
    TrimPad("", t, "");
    assert "" + t + "" == t;
    assert t[1..|t| - 1] == w;
  }

  /** Rendering any list of words and reading it back returns the words, empty ones included. */
  lemma {:induction false} WordsRoundTrip(words: seq<string>)
    ensures Unquote(Tokens(Render(words), UNQUOTED, "", " ")) == words
    decreases |words|
  {
    if words == [] {
      assert Trim("") == "";
    } else {
      var w := words[0];
      var token := "\"" + w + "\"";
      var u := if |words| == 1 then "" else " " + Render(words[1..]);
      OneWord(w, u);
      QuotedIsTrimmed(w);
      hide Flush, Escape, Quoted, StripQuotes;
      if |words| == 1 {
        assert Tokens(u, UNQUOTED, token, " ") == [token];
        assert [token][1..] == [];
      } else {
        WordsRoundTrip(words[1..]);
        assert u[1..] == Render(words[1..]);
        var more := Tokens(Render(words[1..]), UNQUOTED, "", " ");
        assert Tokens(u, UNQUOTED, token, " ") == [token] + more;
        assert ([token] + more)[1..] == more;
      }
    }
  }

  // ---- Words as they are written ----

  /** A word without quotes, one in single quotes, or one whose quotes and backslashes have a backslash each. */
  datatype Word = Bare(text: string) | Single(text: string) | Slashed(text: string)

  /** The spaces in front of a word, and the tabs and line ends on either side of it. */
  datatype Gap = Gap(spaces: nat, before: string, after: string)

  predicate IsWord(w: Word) {
    match w
    case Bare(text) => Trimmed(text) && forall i :: 0 <= i < |text| ==> text[i] !in {' ', '\'', '"', '\\'}
    case Single(text) => forall i :: 0 <= i < |text| ==> text[i] !in {'\'', '\\'}
    case Slashed(text) => Trimmed(text) && ' ' !in text
  }

  predicate IsGap(g: Gap) {
    (forall i :: 0 <= i < |g.before| ==> 9 <= g.before[i] as int <= 13)
    && (forall i :: 0 <= i < |g.after| ==> 9 <= g.after[i] as int <= 13)
  }

  predicate AreWords(words: seq<Word>, gaps: seq<Gap>) {
    |gaps| == |words| && forall i :: 0 <= i < |words| ==> IsWord(words[i]) && IsGap(gaps[i])
  }

  /** A backslash in front of each quote, double quote and backslash. */
  function Slashes(text: string): string {
    if text == "" then ""
    else (if text[0] as int in {34, 39, 92} then [92 as char, text[0]] else [text[0]]) + Slashes(text[1..])
  }

  function Written(w: Word): string {
    match w
    case Bare(text) => text
    case Single(text) => "'" + (text + "'")
    case Slashed(text) => Slashes(text)
  }

  /** The token: quotes stay on it, backslashes do not. */
  function TokenOf(w: Word): string {
    if w.Single? then "'" + (w.text + "'") else w.text
  }

  /** Words with their gaps, each followed by a space. */
  function Line(words: seq<Word>, gaps: seq<Gap>): string
    requires |gaps| == |words|
  {
    if words == [] then ""
    else
      var rest := gaps[0].after + (" " + Line(words[1..], gaps[1..]));
      Spaces(gaps[0].spaces) + (gaps[0].before + (Written(words[0]) + rest))
  }

  function TokensOf(words: seq<Word>): seq<string> {
    if words == [] then [] else [TokenOf(words[0])] + TokensOf(words[1..])
  }

  lemma {:induction false} ReadsText(t: string, u: string, q: Quotes, current: string)
    requires q == UNQUOTED || q == Quotes(true, false)
    requires forall i :: 0 <= i < |t| ==> t[i] != '\'' && t[i] != '\\' && (q == UNQUOTED ==> t[i] != '"' && t[i] != ' ')
    ensures Tokens(t + u, q, current, " ") == Tokens(u, q, current + t, " ")
    decreases |t|
  {
    hide Flush;
    if t == "" {
      assert t + u == u && current + t == current;
    } else {
      assert (t + u)[1..] == t[1..] + u && (t + u)[0] == t[0];
      ReadsText(t[1..], u, q, current + [t[0]]);
      assert current + [t[0]] + t[1..] == current + t;
    }
  }

  lemma ReadsSlash(c: char, u: string, current: string)
    requires c as int in {34, 39, 92}
    ensures Tokens([92 as char, c] + u, UNQUOTED, current, " ") == Tokens(u, UNQUOTED, current + [c], " ")
  {
    hide Flush;
    assert ([92 as char, c] + u)[2..] == u;
  }

  lemma {:induction false} ReadsSlashed(t: string, u: string, current: string)
    requires ' ' !in t
    ensures Tokens(Slashes(t) + u, UNQUOTED, current, " ") == Tokens(u, UNQUOTED, current + t, " ")
    decreases |t|
  {
    hide Tokens;
    if t == "" {
      assert "" + u == u && current + t == current;
    } else {
      var rest := Slashes(t[1..]) + u;
      ReadsSlashed(t[1..], u, current + [t[0]]);
      assert current + [t[0]] + t[1..] == current + t;
      if t[0] as int in {34, 39, 92} {
        assert Slashes(t) + u == [92 as char, t[0]] + rest;
        ReadsSlash(t[0], rest, current);
      } else {
        assert Slashes(t) + u == [t[0]] + rest && t[0] in t;
        ReadsText([t[0]], rest, UNQUOTED, current);
      }
    }
  }

  lemma ReadsWord(w: Word, u: string, current: string)
    requires IsWord(w)
    ensures Tokens(Written(w) + u, UNQUOTED, current, " ") == Tokens(u, UNQUOTED, current + TokenOf(w), " ")
  {
    match w {
      case Bare(text) => ReadsText(text, u, UNQUOTED, current);
      case Slashed(text) => ReadsSlashed(text, u, current);
      case Single(text) =>
        var inner := text + ("'" + u);
        assert Written(w) + u == "'" + inner;
        OpensSingle(inner, current);
        ReadsText(text, "'" + u, Quotes(true, false), current + ['\'']);
        OpensSingle(u, current + ['\''] + text);
        hide Tokens;
        assert current + ['\''] + text + ['\''] == current + TokenOf(w);
    }
  }

  lemma OpensSingle(u: string, current: string)
    ensures Tokens("'" + u, UNQUOTED, current, " ") == Tokens(u, Quotes(true, false), current + ['\''], " ")
    ensures Tokens("'" + u, Quotes(true, false), current, " ") == Tokens(u, UNQUOTED, current + ['\''], " ")
  {
    hide Flush;
    assert ("'" + u)[1..] == u;
  }

  /** What is collected for a word is flushed as its token. */
  lemma WordIsFlushed(w: Word, g: Gap)
    requires IsWord(w) && IsGap(g)
    ensures Flush(g.before + TokenOf(w) + g.after) == [TokenOf(w)]
  {
    var t := TokenOf(w);
    assert Trimmed(t);
    assert AllSpace(g.before) && AllSpace(g.after) by { GapIsSpace(g); }
    TrimPad(g.before, t, g.after);
    hide Trim;
  }

  lemma GapIsSpace(g: Gap)
    requires IsGap(g)
    ensures AllSpace(g.before) && AllSpace(g.after)
  {
  }

  lemma {:induction false} SkipsSpaces(n: nat, u: string)
    ensures Tokens(Spaces(n) + u, UNQUOTED, "", " ") == Tokens(u, UNQUOTED, "", " ")
    decreases n
  {
    if n == 0 {
      assert "" + u == u;
    } else {
      var rest := Spaces(n - 1) + u;
      assert Spaces(n) + u == " " + rest;
      EndsAtDelimiter(" ", rest, "");
      NoToken();
      hide Tokens, Flush;
      assert [] + Tokens(rest, UNQUOTED, "", " ") == Tokens(rest, UNQUOTED, "", " ");
      SkipsSpaces(n - 1, u);
    }
  }

  /** Outside quotes the delimiter ends a token, and all of it is dropped. */
  lemma EndsAtDelimiter(delim: string, u: string, current: string)
    requires delim != "" && delim[0] !in {'\'', '"', '\\'}
    ensures Tokens(delim + u, UNQUOTED, current, delim) == Flush(current) + Tokens(u, UNQUOTED, "", delim)
  {
    var t := delim + u;
    assert t[|delim|..] == u && t[0] == delim[0] && delim <= t;
    hide Flush;
  }

  lemma NoToken()
    ensures Flush("") == [] && Tokens("", UNQUOTED, "", " ") == []
  {
  }

  lemma GapIsPlain(g: Gap)
    requires IsGap(g)
    ensures forall i :: 0 <= i < |g.before| ==> g.before[i] !in {'\'', '\\', '"', ' '}
    ensures forall i :: 0 <= i < |g.after| ==> g.after[i] !in {'\'', '\\', '"', ' '}
  {
  }

  /**
   Spaces separate words, however many there are; tabs and line ends around a word are dropped, a
   backslash makes a quote or a backslash part of the word, and quotes stay on the token.
   */
  lemma {:induction false} WordsAreTokens(words: seq<Word>, gaps: seq<Gap>)
    requires AreWords(words, gaps)
    ensures Tokens(Line(words, gaps), UNQUOTED, "", " ") == TokensOf(words)
    decreases |words|
  {
    hide IsWord, IsGap, Written, TokenOf, Tokens, Flush, Spaces;
    if words == [] {
      NoToken();
    } else {
      var w, g, rest := words[0], gaps[0], Line(words[1..], gaps[1..]);
      assert forall i :: 0 <= i < |words[1..]| ==> words[1..][i] == words[i + 1] && gaps[1..][i] == gaps[i + 1];
      SkipsSpaces(g.spaces, g.before + (Written(w) + (g.after + (" " + rest))));
      GapIsPlain(g);
      ReadsText(g.before, Written(w) + (g.after + (" " + rest)), UNQUOTED, "");
      assert "" + g.before == g.before;
      ReadsWord(w, g.after + (" " + rest), g.before);
      ReadsText(g.after, " " + rest, UNQUOTED, g.before + TokenOf(w));
      EndsAtDelimiter(" ", rest, g.before + TokenOf(w) + g.after);
      WordIsFlushed(w, g);
      WordsAreTokens(words[1..], gaps[1..]);
    }
  }

  /** A single-quoted token without its quotes is its text; any other quoted at both ends likewise. */
  lemma QuotesAreStripped(text: string)
    ensures StripQuotes("'" + (text + "'")) == text == StripQuotes("\"" + (text + "\""))
    ensures |text| < 2 || text[0] !in {'\'', '"'} || text[|text| - 1] != text[0] ==> StripQuotes(text) == text
  {
    var a, b := "'" + (text + "'"), "\"" + (text + "\"");
    assert a[1..|a| - 1] == text && b[1..|b| - 1] == text;
  }
}
