/**
 A JSON writer by the numbers, and the streamer as its inverse: code points and escape letters are
 literal here, so that nothing of the reading side is used to say what the writing means.
 */
module JsonWriter {
  import opened Text
  import opened JsonGrammar
  import opened JsonContentStreamer

  // ---- Writing ----

  /** A byte as itself, by its two-character escape, or a code point as `\uXXXX` in either case of digits. */
  datatype Spelling = Bare(c: char) | Short(code: nat) | Unit(code: nat, upper: bool)

  predicate Writable(s: Spelling) {
    match s
    case Bare(c) => c as int != 34 && c as int != 92
    case Short(code) => code in {8, 9, 10, 12, 13, 34, 47, 92}
    case Unit(code, _) => code < 0x10000
  }

  predicate AllWritable(w: seq<Spelling>) {
    forall i :: 0 <= i < |w| ==> Writable(w[i])
  }

  function Letter(code: nat): char {
    if code == 8 then 98 as char
    else if code == 9 then 116 as char
    else if code == 10 then 110 as char
    else if code == 12 then 102 as char
    else if code == 13 then 114 as char
    else if code == 34 then 34 as char
    else if code == 47 then 47 as char
    else 92 as char
  }

  function Digit(d: nat, upper: bool): char
    requires d < 16
  {
    if d < 10 then (48 + d) as char else if upper then (55 + d) as char else (87 + d) as char
  }

  function Written(s: Spelling): string
    requires Writable(s)
  {
    match s
    case Bare(c) => [c]
    case Short(code) => [92 as char, Letter(code)]
    case Unit(code, upper) =>
      [92 as char, 117 as char, Digit(code / 4096, upper), Digit(code / 256 % 16, upper),
       Digit(code / 16 % 16, upper), Digit(code % 16, upper)]
  }

  function WrittenText(w: seq<Spelling>): string
    requires AllWritable(w)
  {
    if w == [] then "" else Written(w[0]) + WrittenText(w[1..])
  }

  /** The bytes that are meant: a code point in one, two or three bytes. */
  function Meant(s: Spelling): string
    requires Writable(s)
  {
    match s
    case Bare(c) => [c]
    case Short(code) => [code as char]
    case Unit(code, _) =>
      if code < 128 then [code as char]
      else if code < 2048 then [(192 + code / 64) as char, (128 + code % 64) as char]
      else [(224 + code / 4096) as char, (128 + code / 64 % 64) as char, (128 + code % 64) as char]
  }

  function MeantText(w: seq<Spelling>): string
    requires AllWritable(w)
  {
    if w == [] then "" else Meant(w[0]) + MeantText(w[1..])
  }

  // ---- Reading back ----

  function ElemOf(s: Spelling): StrElem
    requires Writable(s)
  {
    match s
    case Bare(c) => Plain(c)
    case Short(code) => Escape(Letter(code))
    case Unit(code, upper) => Unicode(Written(s)[2..])
  }

  function ElemsOf(w: seq<Spelling>): (es: seq<StrElem>)
    requires AllWritable(w)
    ensures |es| == |w|
  {
    if w == [] then [] else [ElemOf(w[0])] + ElemsOf(w[1..])
  }

  lemma DigitReads(d: nat, upper: bool)
    requires d < 16
    ensures IsHex(Digit(d, upper)) && HexVal(Digit(d, upper)) == d
  {
  }

  lemma FourDigits(code: nat)
    requires code < 0x10000
    ensures code / 4096 < 16
    ensures code == 4096 * (code / 4096) + 256 * (code / 256 % 16) + 16 * (code / 16 % 16) + code % 16
  {
    assert code / 256 == 16 * (code / 4096) + code / 256 % 16;
    assert code / 16 == 16 * (code / 256) + code / 16 % 16;
  }

  lemma UnitReads(code: nat, upper: bool)
    requires code < 0x10000
    ensures var e := ElemOf(Unit(code, upper)); ValidElem(e) && HexUnit(e.hex) == code
  {
    FourDigits(code);
    DigitReads(code / 4096, upper);
    DigitReads(code / 256 % 16, upper);
    DigitReads(code / 16 % 16, upper);
    DigitReads(code % 16, upper);
  }

  lemma ElemReads(s: Spelling)
    requires Writable(s)
    ensures ValidElem(ElemOf(s)) && ElemText(ElemOf(s)) == Written(s) && Piece(ElemOf(s)) == Meant(s)
  {
    match s {
      case Bare(c) =>
      case Short(code) =>
      case Unit(code, upper) =>
        UnitIsRead(code, upper);
        hide Written, Meant, Piece, ElemOf, ElemText;
    }
  }

  lemma UnitIsRead(code: nat, upper: bool)
    requires code < 0x10000
    ensures var s := Unit(code, upper);
            ValidElem(ElemOf(s)) && ElemText(ElemOf(s)) == Written(s) && Piece(ElemOf(s)) == Meant(s)
  {
    hide HexUnit, Digit, CodePoint;
    UnitReads(code, upper);
    var s := Unit(code, upper);
    var hex := Written(s)[2..];
    StoiReadsHexUnit(hex);
    assert Written(s) == "\\u" + hex;
    hide Written;
    UnitBytes(code);
  }

  lemma UnitBytes(code: nat)
    requires code < 0x10000
    ensures Utf8(code) == Meant(Unit(code, false)) == Meant(Unit(code, true))
  {
    SixBitDigits(code);
  }

  lemma {:induction false} TextReads(w: seq<Spelling>)
    requires AllWritable(w)
    ensures ValidElems(ElemsOf(w)) && ElemsText(ElemsOf(w)) == WrittenText(w)
    ensures Concat(Pieces(ElemsOf(w))) == MeantText(w)
    decreases |w|
  {
    hide ElemOf, ElemText, Piece, Written, Meant, Writable;
    if w != [] {
      assert forall i :: 0 <= i < |w[1..]| ==> w[1..][i] == w[i + 1];
      var es := ElemsOf(w[1..]);
      ElemReads(w[0]);
      TextReads(w[1..]);
      var all := [ElemOf(w[0])] + es;
      assert all[1..] == es;
      assert Pieces(all) == [Piece(ElemOf(w[0]))] + Pieces(es);
      assert ([Piece(ElemOf(w[0]))] + Pieces(es))[1..] == Pieces(es);
    }
  }

  /**
   Inside the content string, whatever the spelling: the bytes that are meant are appended and nothing
   else is changed but the log of pieces, whose texts are these bytes.
   */
  lemma ContentReads(s: State, w: seq<Spelling>)
    requires InContent(s) && AllWritable(w)
    ensures var t := Run(s, WrittenText(w));
            && t.content == s.content + MeantText(w)
            && t == s.(content := t.content, emitted := t.emitted)
            && s.emitted <= t.emitted && Concat(t.emitted[|s.emitted|..]) == MeantText(w)
  {
    hide Run, Pieces, Concat, WrittenText, MeantText;
    TextReads(w);
    RunContent(s, ElemsOf(w));
    var t := Run(s, WrittenText(w));
    assert t.emitted[|s.emitted|..] == Pieces(ElemsOf(w));
  }

  // ---- Whole documents ----

  /** The string literal of a spelling. */
  function Quote(w: seq<Spelling>): string
    requires AllWritable(w)
  {
    [34 as char] + (WrittenText(w) + [34 as char])
  }

  lemma QuoteIsLiteral(w: seq<Spelling>)
    requires AllWritable(w)
    ensures Quote(w) == JsonText(Str(ElemsOf(w)))
  {
    hide WrittenText, ElemsText;
    TextReads(w);
  }

  /**
   A document with any root members, of which one is `content` with a written string: the text streamed
   is what the writing means.
   */
  lemma StreamsWhatIsMeant(pre: string, root: Json, post: string, w: seq<Spelling>)
    requires root.Obj? && ValidJson(root) && IsBlank(pre) && IsBlank(post) && NamesReadFaithfully(root.members)
    requires AllWritable(w) && ContentValues(root.members) == [Str(ElemsOf(w))]
    ensures Run(INITIAL, Document(pre, root, post)).content == MeantText(w)
    ensures Concat(Run(INITIAL, Document(pre, root, post)).emitted) == MeantText(w)
  {
    hide Run, Document, Pieces, Concat, MeantText, ContentValues, NamesReadFaithfully, Decodes, ElemsOf;
    ContentIsDecodedValue(pre, root, post, ElemsOf(w));
    WritingDecodes(w);
    DecodesUnique(ElemsOf(w), Run(INITIAL, Document(pre, root, post)).content, MeantText(w));
    DecodesUnique(ElemsOf(w), Concat(Run(INITIAL, Document(pre, root, post)).emitted), MeantText(w));
  }

  lemma WritingDecodes(w: seq<Spelling>)
    requires AllWritable(w)
    ensures Decodes(ElemsOf(w), MeantText(w))
  {
    hide Decodes, Pieces, Concat, MeantText;
    TextReads(w);
    PiecesDecode(ElemsOf(w));
  }

  // ---- One way to write every string ----

  /** Quotes, backslashes and control characters escaped, every other byte as itself. */
  function SpellingOf(c: char): (s: Spelling)
    ensures Writable(s)
  {
    if c as int in {8, 9, 10, 12, 13, 34, 92} then Short(c as int)
    else if c as int < 32 then Unit(c as int, false)
    else Bare(c)
  }

  function Spell(text: string): (w: seq<Spelling>)
    ensures AllWritable(w)
  {
    if text == "" then [] else [SpellingOf(text[0])] + Spell(text[1..])
  }

  lemma {:induction false} SpellMeans(text: string)
    ensures MeantText(Spell(text)) == text
    decreases |text|
  {
    if text != "" {
      SpellMeans(text[1..]);
      assert Meant(SpellingOf(text[0])) == [text[0]];
      hide Meant, SpellingOf;
      assert ([SpellingOf(text[0])] + Spell(text[1..]))[1..] == Spell(text[1..]);
      assert [text[0]] + text[1..] == text;
    }
  }

  lemma ContentName()
    ensures ValidElems(PLAIN_CONTENT) && ElemsText(PLAIN_CONTENT) == "content"
    ensures NameRead(PLAIN_CONTENT) == "content" && Decodes(PLAIN_CONTENT, "content")
  {
    hide NameRead, Decodes, Pieces, Concat, ElemsText;
    PlainTail("content", PLAIN_CONTENT);
    PiecesDecode(PLAIN_CONTENT);
    PlainElemsText("content", PLAIN_CONTENT);
  }

  lemma {:induction false} PlainElemsText(text: string, es: seq<StrElem>)
    requires |es| == |text| && forall i :: 0 <= i < |es| ==> es[i] == Plain(text[i])
    ensures ElemsText(es) == text
    decreases |text|
  {
    if es != [] { PlainElemsText(text[1..], es[1..]); }
  }

  const OPENING := "{\"content\":"

  /** Every string, written as the `content` of a document, is streamed back as it was. */
  lemma StreamsBack(text: string)
    ensures Run(INITIAL, OPENING + Quote(Spell(text)) + "}").content == text
    ensures Concat(Run(INITIAL, OPENING + Quote(Spell(text)) + "}").emitted) == text
  {
    var w := Spell(text);
    var members := Member("", PLAIN_CONTENT, "", "", Str(ElemsOf(w)), "", NoMembers);
    SpellMeans(text);
    ContentName();
    TextReads(w);
    QuoteIsLiteral(w);
    OneContent(members);
    OneMemberText(members);
    hide Run, Concat, Quote, Spell, Literal, MeantText, Decodes, NameRead, ElemsText, JsonText, ContentValues,
         NamesReadFaithfully, MembersText;
    assert ValidJson(Obj("", members)) by { MembersAreValid(members); }
    StreamsWhatIsMeant("", Obj("", members), "", w);
    DocumentText(members, Quote(w));
  }

  lemma MembersAreValid(ms: Members)
    requires ms.Member? && ms.pre == ms.mid == ms.aft == ms.post == "" && ms.rest.NoMembers?
    requires ValidElems(ms.name) && ms.value.Str? && ValidElems(ms.value.chars)
    ensures ValidJson(Obj("", ms))
  {
    assert ValidJson(ms.value) && ValidMembers(NoMembers) && ValidMembers(ms);
  }

  lemma OneContent(ms: Members)
    requires ms.Member? && ms.rest.NoMembers? && NameRead(ms.name) == "content" && Decodes(ms.name, "content")
    ensures ContentValues(ms) == [ms.value] && NamesReadFaithfully(ms)
  {
    hide NameRead, Decodes;
    assert ContentValues(NoMembers) == [] && NamesReadFaithfully(NoMembers);
  }

  lemma OneMemberText(ms: Members)
    requires ms.Member? && ms.pre == ms.mid == ms.aft == ms.post == "" && ms.rest.NoMembers?
    requires ElemsText(ms.name) == "content"
    ensures MembersText(ms) == "\"content\"" + (":" + JsonText(ms.value))
  {
    hide JsonText, ElemsText;
    var v := JsonText(ms.value);
    assert v + ("" + "") == v;
    assert "\"" + ("content" + "\"") == "\"content\"";
  }

  lemma DocumentText(ms: Members, v: string)
    requires MembersText(ms) == "\"content\"" + (":" + v)
    ensures Document("", Obj("", ms), "") == OPENING + v + "}"
  {
    hide MembersText;
    assert JsonText(Obj("", ms)) == "{" + ("" + (MembersText(ms) + "}"));
    hide JsonText;
    assert "{" + (("\"content\"" + (":" + v)) + "}") == OPENING + v + "}";
  }
}
