/**
 `JsonContentStreamer`: the character automaton that pulls the root `content` string out of a
 JSON document while its bytes arrive.
 */
module JsonContentStreamer {
  import opened Text
  import opened JsonGrammar

  datatype Mode = Idle | EmittingContent

  /** The streamer's fields; `emitted` is the log of the pieces handed to the callback. */
  datatype State = State(
    content: string,
    emitted: seq<string>,
    objectDepth: nat,
    arrayDepth: nat,
    inString: bool,
    inKey: bool,
    escapeNext: bool,
    unicodePending: nat,
    unicodeBuf: string,
    pendingKey: string,
    mode: Mode)

  const INITIAL := State("", [], 0, 0, false, false, false, 0, "", "", Idle)

  // ---- std::stoi(buf, nullptr, 16), and the cast to unsigned ----

  function HexPrefix(s: string, acc: nat): nat {
    if s != "" && IsHex(s[0]) then HexPrefix(s[1..], acc * 16 + HexVal(s[0])) else acc
  }

  /** None where `stoi` throws. */
  function Stoi16(buf: string): Option<int> {
    var t := TrimLeft(buf);
    var negative := t != "" && t[0] == '-';
    var u := if t != "" && (t[0] == '-' || t[0] == '+') then t[1..] else t;
    var d := if |u| >= 3 && u[0] == '0' && (u[1] == 'x' || u[1] == 'X') && IsHex(u[2]) then u[2..] else u;
    if d == "" || !IsHex(d[0]) then None
    else
      var v: int := HexPrefix(d, 0);
      Some(if negative then -v else v)
  }

  function CodePoint(buf: string): (cp: nat)
    ensures cp < 0x1_0000_0000
  {
    match Stoi16(buf)
    case None => 0
    case Some(v) => v % 0x1_0000_0000
  }

  function EscapeMeaning(c: char): char {
    match c
    case 'n' => '\n'
    case 't' => '\t'
    case 'r' => '\r'
    case 'b' => '\U{08}'
    case 'f' => '\U{0C}'
    case _ => c
  }

  function Utf8(cp: nat): string {
    if cp < 0x80 then [cp as char]
    else if cp < 0x800 then [(0xC0 + cp / 64 % 32) as char, (0x80 + cp % 64) as char]
    else [(0xE0 + cp / 4096 % 16) as char, (0x80 + cp / 64 % 64) as char, (0x80 + cp % 64) as char]
  }

  // ---- One character ----

  function Emit(s: State, piece: string): State {
    s.(content := s.content + piece, emitted := s.emitted + [piece])
  }

  function StepUnicode(s: State, c: char): State
    requires s.unicodePending > 0
  {
    var buf := s.unicodeBuf + [c];
    if s.unicodePending > 1 then
      s.(unicodePending := s.unicodePending - 1, unicodeBuf := buf)
    else
      var t := s.(unicodePending := 0, unicodeBuf := "");
      if s.mode.EmittingContent? then Emit(t, Utf8(CodePoint(buf))) else t
  }

  function StepEscape(s: State, c: char): State {
    var t := s.(escapeNext := false);
    if s.mode.Idle? then t
    else if c == 'u' then t.(unicodePending := 4, unicodeBuf := "")
    else Emit(t, [EscapeMeaning(c)])
  }

  function StepString(s: State, c: char): State {
    if c == '\\' then s.(escapeNext := true)
    else if c == '"' then s.(mode := Idle, inString := false, inKey := false)
    else if s.mode.EmittingContent? then Emit(s, [c])
    else if s.inKey then s.(pendingKey := s.pendingKey + [c])
    else s
  }

  function StepOutside(s: State, c: char): State {
    match c
    case '"' =>
      if s.objectDepth >= 1 && s.mode.Idle? then s.(inKey := true, pendingKey := "", inString := true)
      else s.(inString := true)
    case '{' => s.(objectDepth := s.objectDepth + 1)
    case '}' => if s.objectDepth > 0 then s.(objectDepth := s.objectDepth - 1) else s
    case '[' => s.(arrayDepth := s.arrayDepth + 1)
    case ']' => if s.arrayDepth > 0 then s.(arrayDepth := s.arrayDepth - 1) else s
    case ':' =>
      if s.objectDepth == 1 && s.arrayDepth == 0 && s.pendingKey == "content" then
        s.(mode := EmittingContent, pendingKey := "")
      else s.(pendingKey := "")
    case ',' => s.(pendingKey := "")
    case _ => s
  }

  function Step(s: State, c: char): State {
    if s.unicodePending > 0 then StepUnicode(s, c)
    else if s.escapeNext then StepEscape(s, c)
    else if s.inString then StepString(s, c)
    else StepOutside(s, c)
  }

  function Run(s: State, text: string): State
    decreases |text|
  {
    if text == "" then s else Run(Step(s, text[0]), text[1..])
  }

  lemma {:induction false} RunAppend(s: State, a: string, b: string)
    ensures Run(s, a + b) == Run(Run(s, a), b)
    decreases |a|
  {
    if a == "" {
      assert a + b == b;
    } else {
      assert (a + b)[1..] == a[1..] + b;
      RunAppend(Step(s, a[0]), a[1..], b);
    }
  }

  /** Feeding a document in pieces, however it is cut, is feeding it whole. */
  lemma {:induction false} FeedCutsDoNotMatter(s: State, cuts: seq<string>)
    ensures FeedAll(s, cuts) == Run(s, Concat(cuts))
    decreases |cuts|
  {
    if cuts != [] {
      FeedCutsDoNotMatter(Run(s, cuts[0]), cuts[1..]);
      RunAppend(s, cuts[0], Concat(cuts[1..]));
    }
  }

  function FeedAll(s: State, cuts: seq<string>): State
    decreases |cuts|
  {
    if cuts == [] then s else FeedAll(Run(s, cuts[0]), cuts[1..])
  }

  // ---- What is emitted is what is stored, on every input whatever ----

  lemma StepKeepsConcat(s: State, c: char)
    requires s.content == Concat(s.emitted)
    ensures Step(s, c).content == Concat(Step(s, c).emitted)
  {
    hide Concat, Utf8, CodePoint, EscapeMeaning;
    ConcatSnoc(s.emitted, Utf8(CodePoint(s.unicodeBuf + [c])));
    ConcatSnoc(s.emitted, [EscapeMeaning(c)]);
    ConcatSnoc(s.emitted, [c]);
  }

  lemma {:induction false} ContentIsConcatOfEmitted(s: State, text: string)
    requires s.content == Concat(s.emitted)
    ensures Run(s, text).content == Concat(Run(s, text).emitted)
    decreases |text|
  {
    hide Step;
    if text != "" {
      StepKeepsConcat(s, text[0]);
      ContentIsConcatOfEmitted(Step(s, text[0]), text[1..]);
    }
  }

  // ---- The \uXXXX encoder meets the layout ----

  lemma HexPrefixOne(s: string, acc: nat)
    requires s != "" && IsHex(s[0])
    ensures HexPrefix(s, acc) == HexPrefix(s[1..], acc * 16 + HexVal(s[0]))
  {
  }

  lemma HexPrefixFour(hex: string)
    requires ValidElem(Unicode(hex))
    ensures HexPrefix(hex, 0) == HexUnit(hex)
  {
    HexPrefixOne(hex, 0);
    HexPrefixOne(hex[1..], HexVal(hex[0]));
    assert hex[1..][1..] == hex[2..];
    HexPrefixOne(hex[2..], HexVal(hex[0]) * 16 + HexVal(hex[1]));
    assert hex[2..][1..] == hex[3..];
    HexPrefixOne(hex[3..], (HexVal(hex[0]) * 16 + HexVal(hex[1])) * 16 + HexVal(hex[2]));
    assert hex[3..][1..] == "";
  }

  lemma StoiReadsHexUnit(hex: string)
    requires ValidElem(Unicode(hex))
    ensures CodePoint(hex) == HexUnit(hex)
  {
    assert IsHex(hex[0]) && IsHex(hex[1]);
    HexPrefixFour(hex);
    assert Stoi16(hex) == Some(HexUnit(hex));
  }

  lemma SixBitDigits(cp: nat)
    requires cp < 0x10000
    ensures cp == cp / 64 * 64 + cp % 64
    ensures cp / 64 == cp / 4096 * 64 + cp / 64 % 64
    ensures cp / 4096 < 16 && cp / 4096 % 16 == cp / 4096
    ensures cp < 0x800 ==> cp / 64 % 32 == cp / 64 < 32
  {
  }

  lemma SpellsTwo(a: nat, b: nat)
    requires a < 32 && b < 64
    ensures Utf8Value([(0xC0 + a) as char, (0x80 + b) as char]) == Some(a * 64 + b)
  {
  }

  lemma SpellsThree(a: nat, b: nat, c: nat)
    requires a < 16 && b < 64 && c < 64
    ensures Utf8Value([(0xE0 + a) as char, (0x80 + b) as char, (0x80 + c) as char]) == Some(a * 4096 + b * 64 + c)
  {
  }

  lemma Utf8MeetsLayout(cp: nat)
    requires cp < 0x10000
    ensures IsUtf8Of(Utf8(cp), cp)
  {
    SixBitDigits(cp);
    if cp >= 0x800 {
      SpellsThree(cp / 4096, cp / 64 % 64, cp % 64);
      hide Utf8Value;
    } else if cp >= 0x80 {
      SpellsTwo(cp / 64, cp % 64);
      hide Utf8Value;
    }
  }

  // ---- Reading a literal ----

  function Piece(e: StrElem): string {
    match e
    case Plain(c) => [c]
    case Escape(c) => [EscapeMeaning(c)]
    case Unicode(hex) => Utf8(CodePoint(hex))
  }

  function Pieces(es: seq<StrElem>): (r: seq<string>)
    ensures |r| == |es|
    ensures forall i :: 0 <= i < |es| ==> r[i] == Piece(es[i])
  {
    if es == [] then [] else [Piece(es[0])] + Pieces(es[1..])
  }

  lemma PiecesDecode(es: seq<StrElem>)
    requires ValidElems(es)
    ensures Decodes(es, Concat(Pieces(es)))
  {
    var parts := Pieces(es);
    forall i | 0 <= i < |es| ensures ElemDecodes(es[i], parts[i]) {
      if es[i].Unicode? {
        StoiReadsHexUnit(es[i].hex);
        Utf8MeetsLayout(HexUnit(es[i].hex));
      }
    }
  }

  lemma DecodesUnique(es: seq<StrElem>, a: string, b: string)
    requires Decodes(es, a) && Decodes(es, b)
    ensures a == b
  {
    var p: seq<string> :| |p| == |es| && a == Concat(p) && forall i :: 0 <= i < |es| ==> ElemDecodes(es[i], p[i]);
    var q: seq<string> :| |q| == |es| && b == Concat(q) && forall i :: 0 <= i < |es| ==> ElemDecodes(es[i], q[i]);
    forall i | 0 <= i < |es| ensures p[i] == q[i] {
      assert ElemDecodes(es[i], p[i]) && ElemDecodes(es[i], q[i]);
      if es[i].Unicode? {
        Utf8Unique(p[i], q[i], HexUnit(es[i].hex));
      }
    }
    assert p == q;
  }

  /** Between tokens: not inside a string, no escape half read. */
  predicate Between(s: State) {
    !s.inString && !s.inKey && !s.escapeNext && s.unicodePending == 0 && s.unicodeBuf == ""
  }

  /** What the automaton reads as the name of a key: escape pairs are dropped whole. */
  function NameRead(es: seq<StrElem>): string {
    if es == [] then "" else ElemName(es[0]) + NameRead(es[1..])
  }

  lemma {:induction false} RunInert(s: State, w: string)
    requires Between(s) && Inert(w)
    ensures Run(s, w) == s
    decreases |w|
  {
    if w != "" {
      assert Step(s, w[0]) == s;
      RunInert(s, w[1..]);
    }
  }

  lemma RunBlank(s: State, w: string)
    requires Between(s) && IsBlank(w)
    ensures Run(s, w) == s
  {
    RunInert(s, w);
  }

  lemma RunOne(s: State, c: char, rest: string)
    ensures Run(s, [c] + rest) == Run(Step(s, c), rest)
  {
    assert ([c] + rest)[1..] == rest;
  }

  lemma RunNothing(s: State)
    ensures Run(s, "") == s
  {
  }

  lemma RunTwo(s: State, c: char, d: char)
    ensures Run(s, [c, d]) == Step(Step(s, c), d)
  {
    assert [c, d] == [c] + [d];
    RunOne(s, c, [d]);
    RunOne(Step(s, c), d, "");
  }

  lemma RunFour(s: State, h: string)
    requires |h| == 4
    ensures Run(s, h) == Step(Step(Step(Step(s, h[0]), h[1]), h[2]), h[3])
  {
    assert h == [h[0], h[1]] + [h[2], h[3]];
    RunAppend(s, [h[0], h[1]], [h[2], h[3]]);
    RunTwo(s, h[0], h[1]);
    RunTwo(Run(s, [h[0], h[1]]), h[2], h[3]);
  }

  function ElemName(e: StrElem): string {
    match e
    case Plain(c) => [c]
    case Escape(_) => ""
    case Unicode(hex) => hex
  }

  predicate InName(s: State) {
    s.inString && s.inKey && s.mode.Idle? && !s.escapeNext && s.unicodePending == 0
  }

  lemma {:induction false} RunNameText(s: State, t: string)
    requires InName(s)
    requires forall i :: 0 <= i < |t| ==> t[i] != '"' && t[i] != '\\'
    ensures Run(s, t) == s.(pendingKey := s.pendingKey + t)
    decreases |t|
  {
    if t == "" {
      assert s.pendingKey + "" == s.pendingKey;
    } else {
      RunNameText(Step(s, t[0]), t[1..]);
      assert s.pendingKey + [t[0]] + t[1..] == s.pendingKey + t;
    }
  }

  /** Inside a name an escape pair leaves no trace. */
  lemma RunNameEscape(s: State, c: char)
    requires InName(s)
    ensures Run(s, ['\\', c]) == s
  {
    RunTwo(s, '\\', c);
  }

  lemma RunNameElem(s: State, e: StrElem)
    requires InName(s) && ValidElem(e)
    ensures Run(s, ElemText(e)) == s.(pendingKey := s.pendingKey + ElemName(e))
  {
    hide Step, Run;
    match e {
      case Plain(c) =>
        RunNameText(s, [c]);
      case Escape(c) =>
        RunNameEscape(s, c);
        assert s.pendingKey + "" == s.pendingKey;
      case Unicode(h) =>
        RunAppend(s, "\\u", h);
        RunNameEscape(s, 'u');
        RunNameText(s, h);
    }
  }

  lemma {:induction false} RunName(s: State, es: seq<StrElem>)
    requires InName(s) && ValidElems(es)
    ensures Run(s, ElemsText(es)) == s.(pendingKey := s.pendingKey + NameRead(es))
    decreases |es|
  {
    hide Step, ElemText, ElemName;
    if es == [] {
      assert s.pendingKey + "" == s.pendingKey;
    } else {
      var t := s.(pendingKey := s.pendingKey + ElemName(es[0]));
      RunNameElem(s, es[0]);
      RunAppend(s, ElemText(es[0]), ElemsText(es[1..]));
      RunName(t, es[1..]);
      assert s.pendingKey + ElemName(es[0]) + NameRead(es[1..]) == s.pendingKey + NameRead(es);
    }
  }

  predicate InContent(s: State) {
    s.inString && s.mode.EmittingContent? && !s.escapeNext && s.unicodePending == 0 && s.unicodeBuf == ""
  }

  lemma RunContentElem(s: State, e: StrElem)
    requires InContent(s) && ValidElem(e)
    ensures Run(s, ElemText(e)) == Emit(s, Piece(e))
  {
    match e {
      case Plain(c) =>
        RunOne(s, c, "");
        assert [c] + "" == [c];
      case Escape(c) =>
        RunTwo(s, '\\', c);
      case Unicode(h) =>
        RunUnicode(s, h);
    }
  }

  lemma RunUnicode(s: State, h: string)
    requires InContent(s) && ValidElem(Unicode(h))
    ensures Run(s, ElemText(Unicode(h))) == Emit(s, Piece(Unicode(h)))
  {
    var t := s.(unicodePending := 4);
    assert Run(s, "\\u") == t by { RunTwo(s, '\\', 'u'); }
    hide Run;
    RunAppend(s, "\\u", h);
    RunFour(t, h);
    assert "" + [h[0]] + [h[1]] + [h[2]] + [h[3]] == h;
  }

  function EmitAll(s: State, pieces: seq<string>): State {
    s.(content := s.content + Concat(pieces), emitted := s.emitted + pieces)
  }

  lemma EmitAllCons(s: State, piece: string, pieces: seq<string>)
    ensures EmitAll(Emit(s, piece), pieces) == EmitAll(s, [piece] + pieces)
  {
    assert ([piece] + pieces)[1..] == pieces;
    assert s.content + piece + Concat(pieces) == s.content + (piece + Concat(pieces));
    assert s.emitted + [piece] + pieces == s.emitted + ([piece] + pieces);
  }

  lemma EmitAllNone(s: State)
    ensures EmitAll(s, []) == s
  {
    assert s.content + "" == s.content;
    assert s.emitted + [] == s.emitted;
  }

  lemma {:induction false} RunContent(s: State, es: seq<StrElem>)
    requires InContent(s) && ValidElems(es)
    ensures Run(s, ElemsText(es)) == EmitAll(s, Pieces(es))
    decreases |es|
  {
    hide Step, ElemText, Piece, Concat;
    if es == [] {
      EmitAllNone(s);
    } else {
      RunContentElem(s, es[0]);
      RunAppend(s, ElemText(es[0]), ElemsText(es[1..]));
      RunContent(Emit(s, Piece(es[0])), es[1..]);
      EmitAllCons(s, Piece(es[0]), Pieces(es[1..]));
    }
  }

  /** A literal met while idle inside an object ends up as the pending key. */
  lemma RunIdleLiteral(s: State, es: seq<StrElem>)
    requires Between(s) && s.mode.Idle? && s.objectDepth >= 1 && ValidElems(es)
    ensures Run(s, Literal(es)) == s.(pendingKey := NameRead(es))
  {
    var t := Step(s, '"');
    RunOne(s, '"', ElemsText(es) + "\"");
    RunAppend(t, ElemsText(es), "\"");
    RunName(t, es);
    RunOne(Run(t, ElemsText(es)), '"', "");
  }

  lemma RunContentLiteral(s: State, es: seq<StrElem>)
    requires Between(s) && s.mode.EmittingContent? && ValidElems(es)
    ensures Run(s, Literal(es)) == s.(mode := Idle,
                                      content := s.content + Concat(Pieces(es)),
                                      emitted := s.emitted + Pieces(es))
  {
    var t := Step(s, '"');
    RunOne(s, '"', ElemsText(es) + "\"");
    RunAppend(t, ElemsText(es), "\"");
    RunContent(t, es);
    RunOne(Run(t, ElemsText(es)), '"', "");
  }

  // ---- Nested values leave no trace but a pending key ----

  predicate SameButKey(s: State, t: State) {
    t == s.(pendingKey := t.pendingKey)
  }

  /** Idle, between tokens, where no ':' of a value is one of the root object. */
  predicate Skipping(s: State) {
    Between(s) && s.mode.Idle? && (s.objectDepth >= 1 || s.arrayDepth >= 1)
  }

  /** Where a ':' does not start emission: in an object below the root, or in a root array. */
  predicate BelowRoot(s: State) {
    s.objectDepth >= 2 || (s.objectDepth >= 1 && s.arrayDepth >= 1)
  }

  /** Outside objects no literal is taken for a key. */
  lemma RunBareLiteral(s: State, es: seq<StrElem>)
    requires Between(s) && s.mode.Idle? && s.objectDepth == 0 && ValidElems(es)
    ensures Run(s, Literal(es)) == s
  {
    var t := Step(s, '"');
    RunOne(s, '"', ElemsText(es) + "\"");
    RunAppend(t, ElemsText(es), "\"");
    RunPassed(t, es);
    RunOne(t, '"', "");
  }

  lemma {:induction false} RunPassed(s: State, es: seq<StrElem>)
    requires s.inString && !s.inKey && s.mode.Idle? && !s.escapeNext && s.unicodePending == 0 && ValidElems(es)
    ensures Run(s, ElemsText(es)) == s
    decreases |es|
  {
    if es == [] {
      RunNothing(s);
    } else {
      RunAppend(s, ElemText(es[0]), ElemsText(es[1..]));
      RunPassedElem(s, es[0]);
      RunPassed(s, es[1..]);
    }
  }

  lemma RunPassedElem(s: State, e: StrElem)
    requires s.inString && !s.inKey && s.mode.Idle? && !s.escapeNext && s.unicodePending == 0 && ValidElem(e)
    ensures Run(s, ElemText(e)) == s
  {
    match e {
      case Plain(c) => RunOne(s, c, "");
      case Escape(c) => RunTwo(s, '\\', c);
      case Unicode(h) =>
        assert Run(s, "\\u") == s by { RunTwo(s, '\\', 'u'); }
        RunAppend(s, "\\u", h);
        RunFour(s, h);
    }
  }

  lemma {:induction false} SkipValue(s: State, v: Json)
    requires Skipping(s) && ValidJson(v)
    ensures SameButKey(s, Run(s, JsonText(v)))
    decreases v, 1
  {
    hide Run, ItemsText, MembersText, Literal;
    match v {
      case Str(es) => if s.objectDepth >= 1 { RunIdleLiteral(s, es); } else { RunBareLiteral(s, es); }
      case Atom(t) => RunInert(s, t);
      case Arr(gap, items) =>
        var t := s.(arrayDepth := s.arrayDepth + 1);
        SkipItems(t, items);
        RunEnclosed(s, '[', gap, ItemsText(items), ']');
      case Obj(gap, ms) =>
        var t := s.(objectDepth := s.objectDepth + 1);
        SkipMembers(t, ms);
        RunEnclosed(s, '{', gap, MembersText(ms), '}');
    }
  }

  /** An opening bracket, a blank, a body and a closing bracket. */
  lemma RunEnclosed(s: State, open: char, gap: string, body: string, close: char)
    requires Between(Step(s, open)) && IsBlank(gap)
    ensures Run(s, [open] + (gap + (body + [close]))) == Step(Run(Step(s, open), body), close)
  {
    hide Step;
    var t := Step(s, open);
    RunOne(s, open, gap + (body + [close]));
    RunAppend(t, gap, body + [close]);
    RunBlank(t, gap);
    RunAppend(t, body, [close]);
    RunOne(Run(t, body), close, "");
    assert [close] + "" == [close];
  }

  lemma {:induction false} SkipItems(s: State, items: Items)
    requires Skipping(s) && ValidItems(items)
    ensures SameButKey(s, Run(s, ItemsText(items)))
    decreases items, 0
  {
    hide Run, JsonText;
    if items.NoItems? {
      RunNothing(s);
    } else {
      var tail := if items.rest.NoItems? then "" else "," + ItemsText(items.rest);
      RunAppend(s, items.pre, JsonText(items.value) + (items.post + tail));
      RunBlank(s, items.pre);
      RunAppend(s, JsonText(items.value), items.post + tail);
      SkipValue(s, items.value);
      var t := Run(s, JsonText(items.value));
      RunAppend(t, items.post, tail);
      RunBlank(t, items.post);
      if items.rest.NoItems? {
        RunNothing(t);
      } else {
        RunOne(t, ',', ItemsText(items.rest));
        SkipItems(t.(pendingKey := ""), items.rest);
      }
    }
  }

  lemma {:induction false} SkipMembers(s: State, ms: Members)
    requires Skipping(s) && BelowRoot(s) && ValidMembers(ms)
    ensures SameButKey(s, Run(s, MembersText(ms)))
    decreases ms, 1
  {
    hide Run, JsonText, Literal;
    if ms.NoMembers? {
      RunNothing(s);
    } else {
      var tail := MembersTail(ms.rest);
      var k := s.(pendingKey := NameRead(ms.name));
      RunIdleLiteral(s, ms.name);
      RunUpToColon(s, k, ms);
      SkipAfterColon(k, ms);
    }
  }

  /** What follows a member. */
  function MembersTail(rest: Members): string {
    if rest.NoMembers? then "" else "," + MembersText(rest)
  }

  /** From the ':' of a nested member to the end of its object's members. */
  lemma {:induction false} SkipAfterColon(k: State, ms: Members)
    requires Skipping(k) && BelowRoot(k) && ms.Member? && ValidMembers(ms)
    ensures SameButKey(k, Run(Step(k, ':'), JsonText(ms.value) + (ms.post + MembersTail(ms.rest))))
    decreases ms, 0
  {
    hide Run, JsonText, Literal;
    var tail := MembersTail(ms.rest);
    var c := k.(pendingKey := "");
    RunAppend(c, JsonText(ms.value), ms.post + tail);
    SkipValue(c, ms.value);
    var t := Run(c, JsonText(ms.value));
    RunAppend(t, ms.post, tail);
    RunBlank(t, ms.post);
    if ms.rest.NoMembers? {
      RunNothing(t);
    } else {
      RunOne(t, ',', MembersText(ms.rest));
      SkipMembers(t.(pendingKey := ""), ms.rest);
    }
  }

  /** Blank, name, blank, ':' and blank of a member, whose name leads from `s` to `k`. */
  lemma RunUpToColon(s: State, k: State, ms: Members)
    requires Between(s) && Between(k) && ms.Member? && ValidMembers(ms)
    requires Run(s, Literal(ms.name)) == k
    ensures Run(s, MembersText(ms)) ==
            Run(Step(k, ':'), JsonText(ms.value) + (ms.post + MembersTail(ms.rest)))
  {
    hide Run, JsonText, Literal;
    var valuePart := JsonText(ms.value) + (ms.post + MembersTail(ms.rest));
    RunAppend(s, ms.pre, Literal(ms.name) + (ms.mid + (":" + (ms.aft + valuePart))));
    RunBlank(s, ms.pre);
    RunAppend(s, Literal(ms.name), ms.mid + (":" + (ms.aft + valuePart)));
    RunAppend(k, ms.mid, ":" + (ms.aft + valuePart));
    RunBlank(k, ms.mid);
    RunOne(k, ':', ms.aft + valuePart);
    var c := Step(k, ':');
    RunAppend(c, ms.aft, valuePart);
    RunBlank(c, ms.aft);
  }

  // ---- Armed: after the ':' of a root `content`, until the next literal ----

  /** The first string literal of a value, in the order of the text; names of keys count. */
  function FirstLiteral(v: Json): Option<seq<StrElem>> {
    match v
    case Str(es) => Some(es)
    case Atom(_) => None
    case Arr(_, items) => FirstInItems(items)
    case Obj(_, ms) => if ms.NoMembers? then None else Some(ms.name)
  }

  function FirstInItems(items: Items): Option<seq<StrElem>> {
    match items
    case NoItems => None
    case Item(_, v, _, rest) => if FirstLiteral(v).Some? then FirstLiteral(v) else FirstInItems(rest)
  }

  function After(s: State, pieces: seq<string>, key: string): State {
    s.(content := s.content + Concat(pieces), emitted := s.emitted + pieces, pendingKey := key)
  }

  lemma NothingAfter(s: State)
    ensures Run(s, "") == s && s == After(s, [], s.pendingKey)
  {
    RunNothing(s);
    assert s.content + "" == s.content;
    assert s.emitted + [] == s.emitted;
  }

  /** `first`, if there is one, is emitted and ends the emission. */
  function Fired(s: State, first: Option<seq<StrElem>>, key: string): State {
    if first.None? then s.(pendingKey := key) else After(s.(mode := Idle), Pieces(first.value), key)
  }

  predicate Armed(s: State) {
    Between(s) && s.mode.EmittingContent? && s.objectDepth >= 1 && s.pendingKey == ""
  }

  predicate HasFired(s: State, first: Option<seq<StrElem>>, t: State) {
    t == Fired(s, first, t.pendingKey) && (first.None? ==> t.pendingKey == "")
  }

  /** An armed streamer emits the first literal it meets, at whatever depth, and nothing else of the value. */
  lemma {:induction false} ArmedValue(s: State, v: Json)
    requires Armed(s) && ValidJson(v)
    ensures HasFired(s, FirstLiteral(v), Run(s, JsonText(v)))
    decreases v, 1
  {
    hide Run, ItemsText, MembersText, Literal, Pieces, Concat;
    match v {
      case Str(es) => RunContentLiteral(s, es);
      case Atom(t) => RunInert(s, t);
      case Arr(gap, items) =>
        var t := s.(arrayDepth := s.arrayDepth + 1);
        ArmedItems(t, items);
        RunEnclosed(s, '[', gap, ItemsText(items), ']');
      case Obj(gap, ms) =>
        var t := s.(objectDepth := s.objectDepth + 1);
        ArmedMembers(t, ms);
        RunEnclosed(s, '{', gap, MembersText(ms), '}');
    }
  }

  lemma {:induction false} ArmedItems(s: State, items: Items)
    requires Armed(s) && ValidItems(items)
    ensures HasFired(s, FirstInItems(items), Run(s, ItemsText(items)))
    decreases items, 0
  {
    hide Run, JsonText, Pieces, Concat;
    if items.NoItems? {
      RunNothing(s);
    } else {
      var tail := if items.rest.NoItems? then "" else "," + ItemsText(items.rest);
      RunAppend(s, items.pre, JsonText(items.value) + (items.post + tail));
      RunBlank(s, items.pre);
      RunAppend(s, JsonText(items.value), items.post + tail);
      ArmedValue(s, items.value);
      var t := Run(s, JsonText(items.value));
      RunAppend(t, items.post, tail);
      RunBlank(t, items.post);
      if items.rest.NoItems? {
        RunNothing(t);
      } else {
        RunOne(t, ',', ItemsText(items.rest));
        if FirstLiteral(items.value).None? {
          ArmedItems(s, items.rest);
        } else {
          SkipItems(t.(pendingKey := ""), items.rest);
        }
      }
    }
  }

  /** In a nested object the first literal is the first name. */
  lemma ArmedMembers(s: State, ms: Members)
    requires Armed(s) && s.objectDepth >= 2 && ValidMembers(ms)
    ensures HasFired(s, if ms.NoMembers? then None else Some(ms.name), Run(s, MembersText(ms)))
  {
    hide Run, JsonText, Literal, Pieces, Concat;
    if ms.NoMembers? {
      RunNothing(s);
    } else {
      var k := After(s.(mode := Idle), Pieces(ms.name), "");
      RunContentLiteral(s, ms.name);
      RunUpToColon(s, k, ms);
      SkipAfterColon(k, ms);
    }
  }

  // ---- The root object ----

  /** Whether a ':' for this root name starts emission; an armed streamer emits the name instead. */
  predicate Opens(name: seq<StrElem>, armed: bool) {
    !armed && NameRead(name) == "content"
  }

  /** The pieces a root member emits. */
  function MemberPieces(name: seq<StrElem>, v: Json, armed: bool): seq<string> {
    if armed then Pieces(name)
    else if Opens(name, armed) && FirstLiteral(v).Some? then Pieces(FirstLiteral(v).value)
    else []
  }

  /** Whether it leaves the streamer armed: its `content` holds no literal. */
  predicate StaysArmed(name: seq<StrElem>, v: Json, armed: bool) {
    Opens(name, armed) && FirstLiteral(v).None?
  }

  /** Everything the members of the root object emit, in order. */
  function Emission(ms: Members, armed: bool): seq<string> {
    match ms
    case NoMembers => []
    case Member(_, name, _, _, v, _, rest) =>
      MemberPieces(name, v, armed) + Emission(rest, StaysArmed(name, v, armed))
  }

  predicate AtRoot(s: State, armed: bool) {
    && Between(s) && s.objectDepth == 1 && s.arrayDepth == 0
    && (if armed then s.mode.EmittingContent? && s.pendingKey == "" else s.mode.Idle?)
  }

  /** `t` is `s` after some pieces, armed or not. */
  predicate Leads(s: State, pieces: seq<string>, armed: bool, t: State) {
    t == After(s.(mode := t.mode), pieces, t.pendingKey) && AtRoot(t, armed)
  }

  lemma LeadsOn(s: State, p: seq<string>, t: State, q: seq<string>, armed: bool, u: State)
    requires t == After(s.(mode := t.mode), p, t.pendingKey)
    requires Leads(t.(pendingKey := ""), q, armed, u)
    ensures Leads(s, p + q, armed, u)
  {
    ConcatAppend(p, q);
    assert s.content + Concat(p) + Concat(q) == s.content + (Concat(p) + Concat(q));
    assert s.emitted + p + q == s.emitted + (p + q);
  }

  /** The name of a root member. */
  lemma RootName(s: State, name: seq<StrElem>, armed: bool) returns (k: State)
    requires AtRoot(s, armed) && ValidElems(name)
    ensures Run(s, Literal(name)) == k && Between(k)
    ensures k == if armed then After(s.(mode := Idle), Pieces(name), "") else s.(pendingKey := NameRead(name))
  {
    hide Run, Literal, Pieces, Concat, NameRead;
    if armed {
      RunContentLiteral(s, name);
      k := After(s.(mode := Idle), Pieces(name), "");
    } else {
      RunIdleLiteral(s, name);
      k := s.(pendingKey := NameRead(name));
    }
  }

  /** Its value. */
  lemma RootValue(s: State, name: seq<StrElem>, v: Json, armed: bool, k: State)
    requires AtRoot(s, armed) && ValidJson(v)
    requires k == if armed then After(s.(mode := Idle), Pieces(name), "") else s.(pendingKey := NameRead(name))
    ensures Leads(s, MemberPieces(name, v, armed), StaysArmed(name, v, armed), Run(Step(k, ':'), JsonText(v)))
  {
    hide Run, JsonText, Pieces, Concat, NameRead;
    var c := Step(k, ':');
    if Opens(name, armed) {
      ArmedValue(c, v);
      NothingAfter(s);
    } else {
      SkipValue(c, v);
      NothingAfter(s);
    }
  }

  /** One root member, up to what follows it. */
  lemma RootMember(s: State, ms: Members, armed: bool) returns (t: State)
    requires AtRoot(s, armed) && ms.Member? && ValidMembers(ms)
    ensures Run(s, MembersText(ms)) == Run(t, MembersTail(ms.rest))
    ensures Leads(s, MemberPieces(ms.name, ms.value, armed), StaysArmed(ms.name, ms.value, armed), t)
  {
    hide Run, JsonText, Literal, MemberPieces, StaysArmed, MembersText, MembersTail;
    var k := RootName(s, ms.name, armed);
    RunUpToColon(s, k, ms);
    var c := Step(k, ':');
    t := Run(c, JsonText(ms.value));
    RootValue(s, ms.name, ms.value, armed, k);
    RunAppend(c, JsonText(ms.value), ms.post + MembersTail(ms.rest));
    RunAppend(t, ms.post, MembersTail(ms.rest));
    RunBlank(t, ms.post);
  }

  /** What the members of the root object emit, whatever their values. */
  lemma {:induction false} RootMembers(s: State, ms: Members, armed: bool)
    requires AtRoot(s, armed) && ValidMembers(ms)
    ensures exists last :: Leads(s, Emission(ms, armed), last, Run(s, MembersText(ms)))
    decreases ms
  {
    hide Run, JsonText, Literal, MemberPieces, StaysArmed;
    if ms.NoMembers? {
      NothingAfter(s);
      assert Emission(ms, armed) == [];
      assert Leads(s, Emission(ms, armed), armed, Run(s, MembersText(ms)));
    } else {
      var p, next := MemberPieces(ms.name, ms.value, armed), StaysArmed(ms.name, ms.value, armed);
      var t := RootMember(s, ms, armed);
      if ms.rest.NoMembers? {
        NothingAfter(t);
        assert p + [] == p;
        assert Leads(s, Emission(ms, armed), next, Run(s, MembersText(ms)));
      } else {
        var c := t.(pendingKey := "");
        RunOne(t, ',', MembersText(ms.rest));
        assert Step(t, ',') == c;
        RootMembers(c, ms.rest, next);
        var last :| Leads(c, Emission(ms.rest, next), last, Run(c, MembersText(ms.rest)));
        assert Run(s, MembersText(ms)) == Run(c, MembersText(ms.rest));
        LeadsOn(s, p, t, Emission(ms.rest, next), last, Run(s, MembersText(ms)));
        assert Emission(ms, armed) == p + Emission(ms.rest, next);
      }
    }
  }

  /** A whole document: blanks around a root object. */
  function Document(pre: string, root: Json, post: string): string {
    pre + (JsonText(root) + post)
  }

  /** Exactly what a run over any document emits. */
  lemma StreamsRootContent(pre: string, root: Json, post: string)
    requires root.Obj? && ValidJson(root) && IsBlank(pre) && IsBlank(post)
    ensures Run(INITIAL, Document(pre, root, post)).emitted == Emission(root.members, false)
    ensures Run(INITIAL, Document(pre, root, post)).content == Concat(Emission(root.members, false))
    ensures Run(INITIAL, Document(pre, root, post)).objectDepth == 0
  {
    hide Emission;
    var ms := root.members;
    RunAppend(INITIAL, pre, JsonText(root) + post);
    RunBlank(INITIAL, pre);
    RunAppend(INITIAL, JsonText(root), post);
    var t := INITIAL.(objectDepth := 1);
    RunOne(INITIAL, '{', root.gap + (MembersText(ms) + "}"));
    RunAppend(t, root.gap, MembersText(ms) + "}");
    RunBlank(t, root.gap);
    RunAppend(t, MembersText(ms), "}");
    RootMembers(t, ms, false);
    var u := Run(t, MembersText(ms));
    RunOne(u, '}', "");
    var w := Step(u, '}');
    assert [] + Emission(ms, false) == Emission(ms, false);
    RunBlank(w, post);
  }

  /** A document whose root is no object emits nothing, whatever its objects hold. */
  lemma OtherRootsEmitNothing(pre: string, root: Json, post: string)
    requires !root.Obj? && ValidJson(root) && IsBlank(pre) && IsBlank(post)
    ensures Run(INITIAL, Document(pre, root, post)).emitted == []
    ensures Run(INITIAL, Document(pre, root, post)).content == ""
  {
    hide Run, ItemsText, Literal;
    RunAppend(INITIAL, pre, JsonText(root) + post);
    RunBlank(INITIAL, pre);
    RunAppend(INITIAL, JsonText(root), post);
    match root {
      case Str(es) =>
        RunBareLiteral(INITIAL, es);
        RunBlank(INITIAL, post);
      case Atom(t) =>
        RunInert(INITIAL, t);
        RunBlank(INITIAL, post);
      case Arr(gap, items) =>
        var t := INITIAL.(arrayDepth := 1);
        SkipItems(t, items);
        RunEnclosed(INITIAL, '[', gap, ItemsText(items), ']');
        RunBlank(Step(Run(t, ItemsText(items)), ']'), post);
    }
  }

  /** Closing brackets with nothing to close are ignored. */
  lemma {:induction false} StrayClosersAreIgnored(s: State, closers: string)
    requires Between(s) && s.objectDepth == 0 && s.arrayDepth == 0
    requires forall i :: 0 <= i < |closers| ==> closers[i] == '}' || closers[i] == ']'
    ensures Run(s, closers) == s
    decreases |closers|
  {
    if closers != "" { StrayClosersAreIgnored(s, closers[1..]); }
  }

  // ---- The promise: the decoded value of the member named `content` ----

  /** The values of the root members whose decoded name is `content`. */
  ghost function ContentValues(ms: Members): seq<Json> {
    match ms
    case NoMembers => []
    case Member(_, name, _, _, v, _, rest) =>
      (if Decodes(name, "content") then [v] else []) + ContentValues(rest)
  }

  /** Every root name is taken for `content` just when it decodes to `content`. */
  ghost predicate NamesReadFaithfully(ms: Members) {
    match ms
    case NoMembers => true
    case Member(_, name, _, _, _, _, rest) =>
      (NameRead(name) == "content" <==> Decodes(name, "content")) && NamesReadFaithfully(rest)
  }

  predicate NamesWithoutBackslash(ms: Members) {
    match ms
    case NoMembers => true
    case Member(_, name, _, _, _, _, rest) =>
      (forall i :: 0 <= i < |name| ==> name[i].Plain?) && NamesWithoutBackslash(rest)
  }

  lemma {:induction false} PlainNameIsFaithful(name: seq<StrElem>)
    requires forall i :: 0 <= i < |name| ==> name[i].Plain?
    ensures NameRead(name) == Concat(Pieces(name))
  {
    if name != [] {
      PlainNameIsFaithful(name[1..]);
      assert Pieces(name)[1..] == Pieces(name[1..]);
    }
  }

  lemma {:induction false} PlainNamesAreFaithful(ms: Members)
    requires ValidMembers(ms) && NamesWithoutBackslash(ms)
    ensures NamesReadFaithfully(ms)
    decreases ms
  {
    match ms {
      case NoMembers =>
      case Member(_, name, _, _, _, _, rest) =>
        PlainNamesAreFaithful(rest);
        PlainNameIsFaithful(name);
        PiecesDecode(name);
        if Decodes(name, "content") { DecodesUnique(name, NameRead(name), "content"); }
    }
  }

  /** The first string literal from the value of `content` on: in the value, or else the next root name. */
  ghost function LiteralFromContent(ms: Members): Option<seq<StrElem>> {
    match ms
    case NoMembers => None
    case Member(_, name, _, _, v, _, rest) =>
      if !Decodes(name, "content") then LiteralFromContent(rest)
      else if FirstLiteral(v).Some? then FirstLiteral(v)
      else if rest.Member? then Some(rest.name)
      else None
  }

  lemma {:induction false} NoContentNoEmission(ms: Members)
    requires NamesReadFaithfully(ms) && ContentValues(ms) == []
    ensures Emission(ms, false) == []
    decreases ms
  {
    if ms.Member? { NoContentNoEmission(ms.rest); }
  }

  lemma {:induction false} ArmedEmission(ms: Members)
    requires NamesReadFaithfully(ms) && ContentValues(ms) == []
    ensures Emission(ms, true) == if ms.NoMembers? then [] else Pieces(ms.name)
  {
    hide Decodes, Pieces;
    if ms.Member? {
      NoContentNoEmission(ms.rest);
      assert Pieces(ms.name) + [] == Pieces(ms.name);
    }
  }

  function LiteralPieces(literal: Option<seq<StrElem>>): seq<string> {
    if literal.None? then [] else Pieces(literal.value)
  }

  lemma ContentValuesUnfold(ms: Members, v: Json)
    requires ms.Member? && ContentValues(ms) == [v]
    ensures Decodes(ms.name, "content") ==> ms.value == v && ContentValues(ms.rest) == []
    ensures !Decodes(ms.name, "content") ==> ContentValues(ms.rest) == [v]
  {
    hide Decodes;
    var here := if Decodes(ms.name, "content") then [ms.value] else [];
    assert ContentValues(ms) == here + ContentValues(ms.rest);
    if here != [] {
      assert ContentValues(ms)[0] == ms.value;
      assert ContentValues(ms.rest) == ContentValues(ms)[1..];
    } else {
      assert ContentValues(ms.rest) == ContentValues(ms);
    }
  }

  lemma EmissionAtContent(ms: Members)
    requires ms.Member? && NamesReadFaithfully(ms) && Decodes(ms.name, "content") && ContentValues(ms.rest) == []
    ensures Emission(ms, false) == LiteralPieces(LiteralFromContent(ms))
  {
    NoContentNoEmission(ms.rest);
    ArmedEmission(ms.rest);
    hide Decodes, Pieces, NameRead, ContentValues;
    var p := MemberPieces(ms.name, ms.value, false);
    assert p + [] == p;
  }

  /** With one root `content`, the first literal from its value on is emitted, and nothing else. */
  lemma {:induction false} OneContentEmits(ms: Members, v: Json)
    requires NamesReadFaithfully(ms) && ContentValues(ms) == [v]
    ensures Emission(ms, false) == LiteralPieces(LiteralFromContent(ms))
    decreases ms
  {
    hide Decodes, Pieces, NameRead, LiteralPieces;
    ContentValuesUnfold(ms, v);
    if Decodes(ms.name, "content") {
      EmissionAtContent(ms);
    } else {
      OneContentEmits(ms.rest, v);
    }
  }

  lemma {:induction false} ContentComesFirst(ms: Members, es: seq<StrElem>)
    requires ContentValues(ms) == [Str(es)]
    ensures LiteralFromContent(ms) == Some(es)
    decreases ms
  {
    hide Decodes;
    ContentValuesUnfold(ms, Str(es));
    if !Decodes(ms.name, "content") { ContentComesFirst(ms.rest, es); }
  }

  /**
   For every document whose one root member named `content` is a string, and whose root names
   are read faithfully, the stored and the emitted text are the decoded value of that member.
   */
  lemma ContentIsDecodedValue(pre: string, root: Json, post: string, es: seq<StrElem>)
    requires root.Obj? && ValidJson(root) && IsBlank(pre) && IsBlank(post)
    requires NamesReadFaithfully(root.members)
    requires ContentValues(root.members) == [Str(es)]
    ensures Decodes(es, Run(INITIAL, Document(pre, root, post)).content)
    ensures Decodes(es, Concat(Run(INITIAL, Document(pre, root, post)).emitted))
  {
    OneContentEmits(root.members, Str(es));
    ContentComesFirst(root.members, es);
    StreamsRootContent(pre, root, post);
    ContentMemberIsValid(root.members, es);
    PiecesDecode(es);
  }

  /** What is promised of a document with one root `content`: its decoded string, or nothing. */
  ghost predicate Promised(v: Json, text: string) {
    if v.Str? then Decodes(v.chars, text) else text == ""
  }

  lemma NoPiecesNoText(es: seq<StrElem>)
    ensures Concat(Pieces(es)) == "" <==> es == []
  {
    if es != [] {
      assert Piece(es[0]) != "";
      assert Pieces(es)[0] == Piece(es[0]);
    }
  }

  /**
   With faithful names and one root `content` of any kind, the promise is kept if and only if its
   value is a string, or no string literal comes after its ':', or the next one is empty.
   */
  lemma DocumentPromiseIff(pre: string, root: Json, post: string, v: Json)
    requires root.Obj? && ValidJson(root) && IsBlank(pre) && IsBlank(post)
    requires NamesReadFaithfully(root.members) && ContentValues(root.members) == [v]
    ensures Promised(v, Run(INITIAL, Document(pre, root, post)).content) <==>
            v.Str? || LiteralFromContent(root.members) in {None, Some([])}
  {
    if v.Str? {
      ContentIsDecodedValue(pre, root, post, v.chars);
    } else {
      var literal := LiteralFromContent(root.members);
      OneContentEmits(root.members, v);
      StreamsRootContent(pre, root, post);
      if literal.Some? { NoPiecesNoText(literal.value); }
    }
  }

  lemma {:induction false} ContentMemberIsValid(ms: Members, es: seq<StrElem>)
    requires ValidMembers(ms) && Str(es) in ContentValues(ms)
    ensures ValidElems(es)
    decreases ms
  {
    if !(Decodes(ms.name, "content") && ms.value == Str(es)) {
      ContentMemberIsValid(ms.rest, es);
    }
  }

  /** In particular when no root name holds a backslash. */
  lemma ContentOfPlainNamedDocument(pre: string, root: Json, post: string, es: seq<StrElem>)
    requires root.Obj? && ValidJson(root) && IsBlank(pre) && IsBlank(post)
    requires NamesWithoutBackslash(root.members)
    requires ContentValues(root.members) == [Str(es)]
    ensures Decodes(es, Run(INITIAL, Document(pre, root, post)).content)
    ensures Decodes(es, Concat(Run(INITIAL, Document(pre, root, post)).emitted))
  {
    PlainNamesAreFaithful(root.members);
    ContentIsDecodedValue(pre, root, post, es);
  }

  // ---- Where the promise fails: escaped names ----

  function OneMember(name: seq<StrElem>, value: seq<StrElem>): Json {
    Obj("", Member("", name, "", "", Str(value), "", NoMembers))
  }

  /** What the header promises of a document with one string member. */
  ghost predicate PromiseKept(name: seq<StrElem>, value: seq<StrElem>) {
    var got := Run(INITIAL, Document("", OneMember(name, value), "")).content;
    if Decodes(name, "content") then Decodes(value, got) else got == ""
  }

  lemma OneMemberStreams(name: seq<StrElem>, value: seq<StrElem>)
    requires ValidElems(name) && ValidElems(value)
    ensures Run(INITIAL, Document("", OneMember(name, value), "")).content ==
            if NameRead(name) == "content" then Concat(Pieces(value)) else ""
  {
    assert ValidJson(Str(value)) && ValidMembers(NoMembers);
    StreamsRootContent("", OneMember(name, value), "");
    var p := MemberPieces(name, Str(value), false);
    assert p + [] == p;
  }

  /** The promise is kept for every value exactly when the name is read faithfully. */
  lemma PromiseKeptIff(name: seq<StrElem>)
    requires ValidElems(name)
    ensures (forall value | ValidElems(value) :: PromiseKept(name, value)) <==>
            (NameRead(name) == "content" <==> Decodes(name, "content"))
  {
    if NameRead(name) == "content" <==> Decodes(name, "content") {
      forall value | ValidElems(value) ensures PromiseKept(name, value) {
        OneMemberStreams(name, value);
        PiecesDecode(value);
      }
    } else {
      var x := [Plain('x')];
      OneMemberStreams(name, x);
      PiecesDecode(x);
      PlainTail("x", x);
      if PromiseKept(name, x) && Decodes(name, "content") {
        DecodesUnique(x, "", "x");
      }
      assert ValidElems(x) && !PromiseKept(name, x);
    }
  }

  // ---- Any number of members ----

  function Count(ms: Members): nat {
    if ms.NoMembers? then 0 else 1 + Count(ms.rest)
  }

  /** The same blanks and names, with these strings as values. */
  function WithStrings(ms: Members, values: seq<seq<StrElem>>): Members
    requires |values| == Count(ms)
    decreases ms
  {
    match ms
    case NoMembers => NoMembers
    case Member(pre, name, mid, aft, _, post, rest) =>
      Member(pre, name, mid, aft, Str(values[0]), post, WithStrings(rest, values[1..]))
  }

  ghost function ContentNames(ms: Members): nat {
    if ms.NoMembers? then 0 else (if Decodes(ms.name, "content") then 1 else 0) + ContentNames(ms.rest)
  }

  /** What is promised of these members: the string of the one `content`, or nothing without one. */
  ghost predicate MembersPromise(ms: Members, text: string) {
    && (ContentValues(ms) == [] ==> text == "")
    && (|ContentValues(ms)| == 1 ==> Promised(ContentValues(ms)[0], text))
  }

  function TextStreamed(pre: string, gap: string, ms: Members, post: string): string {
    Run(INITIAL, Document(pre, Obj(gap, ms), post)).content
  }

  predicate AllValid(values: seq<seq<StrElem>>) {
    forall i :: 0 <= i < |values| ==> ValidElems(values[i])
  }

  lemma {:induction false} StringsKeepNames(ms: Members, values: seq<seq<StrElem>>)
    requires |values| == Count(ms) && ValidMembers(ms) && AllValid(values)
    ensures ValidMembers(WithStrings(ms, values))
    ensures NamesReadFaithfully(WithStrings(ms, values)) == NamesReadFaithfully(ms)
    ensures |ContentValues(WithStrings(ms, values))| == ContentNames(ms)
    ensures forall v :: v in ContentValues(WithStrings(ms, values)) ==> v.Str?
    decreases ms
  {
    hide NameRead, Decodes;
    if ms.Member? {
      assert forall i :: 0 <= i < |values[1..]| ==> values[1..][i] == values[i + 1];
      StringsKeepNames(ms.rest, values[1..]);
      assert ValidJson(Str(values[0]));
    }
  }

  lemma FaithfulKeepsPromise(pre: string, gap: string, ms: Members, post: string)
    requires IsBlank(pre) && IsBlank(gap) && IsBlank(post) && ValidMembers(ms) && NamesReadFaithfully(ms)
    requires forall v :: v in ContentValues(ms) ==> v.Str?
    ensures MembersPromise(ms, TextStreamed(pre, gap, ms, post))
  {
    var root := Obj(gap, ms);
    var vs := ContentValues(ms);
    StreamsRootContent(pre, root, post);
    if vs == [] {
      NoContentNoEmission(ms);
    } else if |vs| == 1 {
      assert vs == [vs[0]] && vs[0] in vs;
      ContentIsDecodedValue(pre, root, post, vs[0].chars);
    }
    hide Run, Emission, Decodes, Document;
  }

  /** The text streamed from string members: the values under names read as `content`, in order. */
  function OpenedText(ms: Members, values: seq<seq<StrElem>>): string
    requires |values| == Count(ms)
    decreases ms
  {
    if ms.NoMembers? then ""
    else (if NameRead(ms.name) == "content" then Concat(Pieces(values[0])) else "") + OpenedText(ms.rest, values[1..])
  }

  lemma {:induction false} StringsEmit(ms: Members, values: seq<seq<StrElem>>)
    requires |values| == Count(ms)
    ensures Concat(Emission(WithStrings(ms, values), false)) == OpenedText(ms, values)
    decreases ms
  {
    hide NameRead, Pieces;
    if ms.NoMembers? {
      NoParts();
    } else {
      var with := WithStrings(ms, values);
      var rest := Emission(with.rest, false);
      StringsEmit(ms.rest, values[1..]);
      assert with.value == Str(values[0]) && FirstLiteral(with.value) == Some(values[0]);
      assert !StaysArmed(with.name, with.value, false);
      var here := MemberPieces(with.name, with.value, false);
      assert Emission(with, false) == here + rest;
      NoParts();
      hide Concat;
      ConcatAppend(here, rest);
    }
  }

  const X := [Plain('x')]

  /** Empty strings, except for an `x` at member `i`. */
  function OnlyAt(n: nat, i: nat): seq<seq<StrElem>>
    requires i < n
  {
    seq(n, k => if k == i then X else [])
  }

  function NameAt(ms: Members, i: nat): seq<StrElem>
    requires i < Count(ms)
    decreases ms
  {
    if i == 0 then ms.name else NameAt(ms.rest, i - 1)
  }

  lemma {:induction false} EmptyOpened(ms: Members, values: seq<seq<StrElem>>)
    requires |values| == Count(ms) && forall k :: 0 <= k < |values| ==> values[k] == []
    ensures OpenedText(ms, values) == ""
    decreases ms
  {
    if ms.Member? {
      assert forall k :: 0 <= k < |values[1..]| ==> values[1..][k] == values[k + 1];
      EmptyOpened(ms.rest, values[1..]);
      assert values[0] == [] && Concat(Pieces([])) == "";
      hide NameRead, OpenedText;
    }
  }

  lemma {:induction false} OpenedOnlyAt(ms: Members, i: nat)
    requires i < Count(ms)
    ensures OpenedText(ms, OnlyAt(Count(ms), i)) == if NameRead(NameAt(ms, i)) == "content" then "x" else ""
    decreases ms
  {
    var values := OnlyAt(Count(ms), i);
    PlainTail("x", X);
    if i == 0 {
      EmptyOpened(ms.rest, values[1..]);
      hide NameRead, Pieces, Concat;
    } else {
      assert values[1..] == OnlyAt(Count(ms.rest), i - 1);
      OpenedOnlyAt(ms.rest, i - 1);
      assert values[0] == [] && Concat(Pieces([])) == "";
      hide NameRead, Pieces, Concat;
    }
  }

  /** With at most one decoded `content`, its value is the `x` exactly when it is member `i`. */
  lemma {:induction false} ContentOnlyAt(ms: Members, i: nat)
    requires i < Count(ms) && ContentNames(ms) <= 1
    ensures var vs := ContentValues(WithStrings(ms, OnlyAt(Count(ms), i)));
            if Decodes(NameAt(ms, i), "content") then vs == [Str(X)] else vs == [] || vs == [Str([])]
    decreases ms
  {
    hide Decodes;
    var values := OnlyAt(Count(ms), i);
    if i == 0 {
      ContentsAreEmpty(ms.rest, values[1..]);
    } else {
      assert values[1..] == OnlyAt(Count(ms.rest), i - 1);
      ContentOnlyAt(ms.rest, i - 1);
      NoContents(ms.rest, values[1..]);
    }
  }

  lemma {:induction false} NoContents(ms: Members, values: seq<seq<StrElem>>)
    requires |values| == Count(ms)
    ensures |ContentValues(WithStrings(ms, values))| == ContentNames(ms)
    decreases ms
  {
    hide Decodes;
    if ms.Member? { NoContents(ms.rest, values[1..]); }
  }

  lemma {:induction false} ContentsAreEmpty(ms: Members, values: seq<seq<StrElem>>)
    requires |values| == Count(ms) && ContentNames(ms) <= 1
    requires forall k :: 0 <= k < |values| ==> values[k] == []
    ensures var vs := ContentValues(WithStrings(ms, values));
            (vs == [] || vs == [Str([])]) && (ContentNames(ms) == 0 ==> vs == [])
    decreases ms
  {
    hide Decodes;
    if ms.Member? {
      assert forall k :: 0 <= k < |values[1..]| ==> values[1..][k] == values[k + 1];
      ContentsAreEmpty(ms.rest, values[1..]);
    }
  }

  lemma {:induction false} UnfaithfulName(ms: Members) returns (i: nat)
    requires !NamesReadFaithfully(ms)
    ensures i < Count(ms) && (NameRead(NameAt(ms, i)) == "content") != Decodes(NameAt(ms, i), "content")
    decreases ms
  {
    hide NameRead, Decodes;
    if (NameRead(ms.name) == "content") != Decodes(ms.name, "content") {
      i := 0;
    } else {
      var j := UnfaithfulName(ms.rest);
      i := j + 1;
    }
  }

  lemma UnfaithfulBreaksPromise(pre: string, gap: string, ms: Members, post: string)
    returns (values: seq<seq<StrElem>>)
    requires IsBlank(pre) && IsBlank(gap) && IsBlank(post) && ValidMembers(ms) && ContentNames(ms) <= 1
    requires !NamesReadFaithfully(ms)
    ensures |values| == Count(ms) && AllValid(values)
    ensures !MembersPromise(WithStrings(ms, values), TextStreamed(pre, gap, WithStrings(ms, values), post))
  {
    hide Decodes, NameRead, OpenedText, NamesReadFaithfully, ContentValues, TextStreamed, ValidMembers, NameAt,
         WithStrings;
    var i := UnfaithfulName(ms);
    values := OnlyAt(Count(ms), i);
    assert AllValid(values);
    hide OnlyAt, AllValid;
    StringsStreamed(pre, gap, ms, values, post);
    OpenedOnlyAt(ms, i);
    ContentOnlyAt(ms, i);
    DecodedSamples();
  }

  lemma StringsStreamed(pre: string, gap: string, ms: Members, values: seq<seq<StrElem>>, post: string)
    requires IsBlank(pre) && IsBlank(gap) && IsBlank(post) && ValidMembers(ms)
    requires |values| == Count(ms) && AllValid(values)
    ensures TextStreamed(pre, gap, WithStrings(ms, values), post) == OpenedText(ms, values)
  {
    StringsKeepNames(ms, values);
    StreamsRootContent(pre, Obj(gap, WithStrings(ms, values)), post);
    StringsEmit(ms, values);
    hide Run, Emission, Document, Concat, OpenedText;
  }

  lemma DecodedSamples()
    ensures !Decodes(X, "") && !Decodes([], "x")
  {
    PiecesDecode(X);
    PiecesDecode([]);
    PlainTail("x", X);
    assert Concat(Pieces([])) == "";
    hide Decodes, Pieces, Concat;
    if Decodes(X, "") { DecodesUnique(X, "", "x"); }
    if Decodes([], "x") { DecodesUnique([], "x", ""); }
  }

  /**
   For any names, at most one of which decodes to `content`, and any blanks: the promise is kept
   for all string values if and only if every name is read faithfully.
   */
  lemma NamesPromiseIff(pre: string, gap: string, ms: Members, post: string)
    requires IsBlank(pre) && IsBlank(gap) && IsBlank(post) && ValidMembers(ms) && ContentNames(ms) <= 1
    ensures (forall values: seq<seq<StrElem>> | |values| == Count(ms) && AllValid(values) ::
               MembersPromise(WithStrings(ms, values), TextStreamed(pre, gap, WithStrings(ms, values), post)))
            <==> NamesReadFaithfully(ms)
  {
    if NamesReadFaithfully(ms) {
      forall values: seq<seq<StrElem>> | |values| == Count(ms) && AllValid(values)
        ensures MembersPromise(WithStrings(ms, values), TextStreamed(pre, gap, WithStrings(ms, values), post))
      {
        StringsKeepNames(ms, values);
        FaithfulKeepsPromise(pre, gap, WithStrings(ms, values), post);
      }
    } else {
      var values := UnfaithfulBreaksPromise(pre, gap, ms, post);
    }
  }

  lemma {:induction false} PlainTail(text: string, es: seq<StrElem>)
    requires |es| == |text| && forall i :: 0 <= i < |es| ==> es[i] == Plain(text[i])
    ensures NameRead(es) == text && Concat(Pieces(es)) == text
    decreases |text|
  {
    if es != [] {
      PlainTail(text[1..], es[1..]);
      assert Pieces(es)[1..] == Pieces(es[1..]);
    }
  }

  lemma FirstElem(e: StrElem, es: seq<StrElem>)
    ensures NameRead([e] + es) == ElemName(e) + NameRead(es)
    ensures Concat(Pieces([e] + es)) == Piece(e) + Concat(Pieces(es))
  {
    assert ([e] + es)[1..] == es;
    assert Pieces([e] + es)[1..] == Pieces(es);
  }

  const NTENT := [Plain('n'), Plain('t'), Plain('e'), Plain('n'), Plain('t')]
  const ESCAPED_O := [Plain('c')] + ([Unicode("006f")] + NTENT)
  const PLAIN_CONTENT := [Plain('c'), Plain('o')] + NTENT
  const LEADING_NEWLINE := [Escape('n')] + PLAIN_CONTENT

  lemma PieceOfPlain(c: char)
    ensures Piece(Plain(c)) == [c]
  {
  }

  lemma PieceOfEscapedO()
    ensures Piece(Unicode("006f")) == "o"
  {
    StoiReadsHexUnit("006f");
  }

  lemma NameReadOfEscapedO()
    ensures NameRead(ESCAPED_O) == "c006fntent"
  {
    hide NameRead, Pieces, Piece, Concat;
    PlainTail("ntent", NTENT);
    FirstElem(Unicode("006f"), NTENT);
    FirstElem(Plain('c'), [Unicode("006f")] + NTENT);
    assert "c" + ("006f" + "ntent") == "c006fntent";
  }

  lemma ContentOfEscapedO()
    ensures Concat(Pieces(ESCAPED_O)) == "content"
  {
    hide NameRead, ElemName, Pieces, Piece, Concat;
    PlainTail("ntent", NTENT);
    FirstElem(Unicode("006f"), NTENT);
    FirstElem(Plain('c'), [Unicode("006f")] + NTENT);
    PieceOfEscapedO();
    PieceOfPlain('c');
    assert "c" + ("o" + "ntent") == "content";
  }

  /** `"c\u006fntent"` is a spelling of `content` and is missed. */
  lemma EscapedContentIsMissed()
    ensures ValidElems(ESCAPED_O) && Decodes(ESCAPED_O, "content") && NameRead(ESCAPED_O) != "content"
  {
    hide NameRead, Pieces, Concat, Decodes;
    NameReadOfEscapedO();
    ContentOfEscapedO();
    PiecesDecode(ESCAPED_O);
    assert |"c006fntent"| == 10;
  }

  lemma LeadingNewlineIsValid()
    ensures ValidElems(LEADING_NEWLINE)
  {
  }

  lemma DecodedWithNewline(out: string)
    requires Decodes(LEADING_NEWLINE, out)
    ensures |out| == 8
  {
    LeadingNewlineIsValid();
    hide Decodes, Pieces, Concat, NameRead, ElemName, ValidElems;
    PiecesDecode(LEADING_NEWLINE);
    PlainTail("content", PLAIN_CONTENT);
    FirstElem(Escape('n'), PLAIN_CONTENT);
    DecodesUnique(LEADING_NEWLINE, out, Concat(Pieces(LEADING_NEWLINE)));
  }

  /** `"\ncontent"` is another name and is streamed. */
  lemma EscapedOtherNameIsStreamed()
    ensures ValidElems(LEADING_NEWLINE) && !Decodes(LEADING_NEWLINE, "content")
    ensures NameRead(LEADING_NEWLINE) == "content"
  {
    assert !Decodes(LEADING_NEWLINE, "content") by {
      hide *;
      if Decodes(LEADING_NEWLINE, "content") { DecodedWithNewline("content"); }
    }
    assert NameRead(LEADING_NEWLINE) == "content" by {
      hide Decodes, Pieces, NameRead, Concat;
      PlainTail("content", PLAIN_CONTENT);
      FirstElem(Escape('n'), PLAIN_CONTENT);
      assert "" + "content" == "content";
    }
    hide Decodes, NameRead, Pieces;
  }

  /** `{"content":null,"x":"y"}`: the root names are plain, and the next name is streamed. */
  const NULL_CONTENT :=
    Obj("", Member("", PLAIN_CONTENT, "", "", Atom("null"), "",
                   Member("", [Plain('x')], "", "", Str([Plain('y')]), "", NoMembers)))

  lemma NullContentStreamsNextName()
    ensures ValidJson(NULL_CONTENT) && NamesReadFaithfully(NULL_CONTENT.members)
    ensures ContentValues(NULL_CONTENT.members) == [Atom("null")]
    ensures Run(INITIAL, Document("", NULL_CONTENT, "")).content == "x"
  {
    var last := Member("", [Plain('x')], "", "", Str([Plain('y')]), "", NoMembers);
    NullContentIsValid(last);
    NamesOfNullContent(last);
    PlainTail("x", last.name);
    hide NamesReadFaithfully, ContentValues, LiteralFromContent, Pieces, Concat, ValidJson, ValidMembers, Run, Emission;
    OneContentEmits(NULL_CONTENT.members, Atom("null"));
    StreamsRootContent("", NULL_CONTENT, "");
  }

  lemma NullContentIsValid(last: Members)
    requires last == Member("", [Plain('x')], "", "", Str([Plain('y')]), "", NoMembers)
    ensures ValidJson(NULL_CONTENT)
  {
    assert ValidJson(last.value) && ValidMembers(NoMembers) && ValidMembers(last) && ValidJson(Atom("null"));
    assert ValidMembers(NULL_CONTENT.members);
  }

  lemma NamesOfNullContent(last: Members)
    requires last == Member("", [Plain('x')], "", "", Str([Plain('y')]), "", NoMembers)
    ensures NamesReadFaithfully(NULL_CONTENT.members) && ContentValues(NULL_CONTENT.members) == [Atom("null")]
    ensures LiteralFromContent(NULL_CONTENT.members) == Some([Plain('x')])
  {
    hide NameRead, Decodes, Pieces, Concat;
    PlainTail("content", PLAIN_CONTENT);
    PlainTail("x", last.name);
    PiecesDecode(PLAIN_CONTENT);
    PiecesDecode(last.name);
    if Decodes(last.name, "content") { DecodesUnique(last.name, "x", "content"); }
    assert NamesReadFaithfully(NoMembers) && ContentValues(NoMembers) == [] && LiteralFromContent(NoMembers) == None;
    assert NamesReadFaithfully(last) && ContentValues(last) == [];
  }

  // ---- The class ----

  class Streamer {
    var content: string
    var emitted: seq<string>
    var objectDepth: nat
    var arrayDepth: nat
    var inString: bool
    var inKey: bool
    var escapeNext: bool
    var unicodePending: nat
    var unicodeBuf: string
    var pendingKey: string
    var mode: Mode

    ghost function Fields(): State
      reads this
    {
      State(content, emitted, objectDepth, arrayDepth, inString, inKey, escapeNext,
            unicodePending, unicodeBuf, pendingKey, mode)
    }

    constructor ()
      ensures Fields() == INITIAL
    {
      content, emitted := "", [];
      objectDepth, arrayDepth := 0, 0;
      inString, inKey, escapeNext := false, false, false;
      unicodePending, unicodeBuf, pendingKey, mode := 0, "", "", Idle;
    }

    method EmitPiece(piece: string)
      modifies this`content, this`emitted
      ensures Fields() == Emit(old(Fields()), piece)
    {
      content := content + piece;
      emitted := emitted + [piece];
    }

    /** A character outside strings. */
    method HandleOutside(c: char)
      modifies this
      ensures Fields() == StepOutside(old(Fields()), c)
    {
      match c {
        case '"' =>
          if objectDepth >= 1 && mode != EmittingContent {
            inKey := true;
            pendingKey := "";
          }
          inString := true;
        case '{' => objectDepth := objectDepth + 1;
        case '}' => if objectDepth > 0 { objectDepth := objectDepth - 1; }
        case '[' => arrayDepth := arrayDepth + 1;
        case ']' => if arrayDepth > 0 { arrayDepth := arrayDepth - 1; }
        case ':' =>
          if objectDepth == 1 && arrayDepth == 0 && pendingKey == "content" {
            mode := EmittingContent;
          }
          pendingKey := "";
        case ',' => pendingKey := "";
        case _ =>
      }
    }

    method HandleChar(c: char)
      modifies this
      ensures Fields() == Step(old(Fields()), c)
    {
      hide Utf8, CodePoint, EscapeMeaning, StepOutside;
      if unicodePending > 0 {
        unicodeBuf := unicodeBuf + [c];
        unicodePending := unicodePending - 1;
        if unicodePending == 0 {
          var cp := CodePoint(unicodeBuf);
          unicodeBuf := "";
          if mode.EmittingContent? { EmitPiece(Utf8(cp)); }
        }
        return;
      }
      if escapeNext {
        escapeNext := false;
        if mode.EmittingContent? {
          if c == 'u' {
            unicodePending := 4;
            unicodeBuf := "";
            return;
          }
          EmitPiece([EscapeMeaning(c)]);
        }
        return;
      }
      if inString {
        if c == '\\' { escapeNext := true; return; }
        if c == '"' {
          if mode.EmittingContent? { mode := Idle; }
          inString := false;
          inKey := false;
          return;
        }
        if mode.EmittingContent? {
          EmitPiece([c]);
        } else if inKey {
          pendingKey := pendingKey + [c];
        }
        return;
      }
      HandleOutside(c);
    }

    method Feed(chunk: string)
      modifies this
      ensures Fields() == Run(old(Fields()), chunk)
    {
      var i := 0;
      while i < |chunk|
        invariant 0 <= i <= |chunk|
        invariant Run(Fields(), chunk[i..]) == Run(old(Fields()), chunk)
      {
        assert chunk[i..][1..] == chunk[i + 1..];
        HandleChar(chunk[i]);
        i := i + 1;
      }
    }
  }
}
