/**
 JSON texts as concrete syntax trees (section 2 of RFC 8259) with every blank kept, and the
 meaning of a string literal: the escapes of section 7 of RFC 8259, each `\uXXXX` unit written
 out on its own in the bit layout of section 3 of RFC 3629.
 */
module JsonGrammar {
  import opened Text

  // ---- String literals ----

  datatype StrElem = Plain(c: char) | Escape(c: char) | Unicode(hex: string)

  predicate IsHex(c: char) {
    '0' <= c <= '9' || 'a' <= c <= 'f' || 'A' <= c <= 'F'
  }

  function HexVal(c: char): (v: nat)
    requires IsHex(c)
    ensures v < 16
  {
    if '0' <= c <= '9' then c as int - '0' as int
    else if 'a' <= c <= 'f' then c as int - 'a' as int + 10
    else c as int - 'A' as int + 10
  }

  predicate ValidElem(e: StrElem) {
    match e
    case Plain(c) => c != '"' && c != '\\'
    case Escape(c) =>
      c == '"' || c == '\\' || c == '/' || c == 'b' || c == 'f' || c == 'n' || c == 'r' || c == 't'
    case Unicode(hex) => |hex| == 4 && forall i :: 0 <= i < 4 ==> IsHex(hex[i])
  }

  predicate ValidElems(es: seq<StrElem>) {
    forall i :: 0 <= i < |es| ==> ValidElem(es[i])
  }

  function ElemText(e: StrElem): string {
    match e
    case Plain(c) => [c]
    case Escape(c) => ['\\', c]
    case Unicode(hex) => "\\u" + hex
  }

  function ElemsText(es: seq<StrElem>): string {
    if es == [] then "" else ElemText(es[0]) + ElemsText(es[1..])
  }

  function Literal(es: seq<StrElem>): string {
    "\"" + (ElemsText(es) + "\"")
  }

  // ---- Meaning of a literal ----

  /** The value of four hexadecimal digits. */
  function HexUnit(hex: string): (cp: nat)
    requires ValidElem(Unicode(hex))
    ensures cp < 0x10000
  {
    4096 * HexVal(hex[0]) + 256 * HexVal(hex[1]) + 16 * HexVal(hex[2]) + HexVal(hex[3])
  }

  /** The number spelled by the bits of one UTF-8 sequence of one to three bytes, if it is one. */
  function Utf8Value(bytes: string): Option<nat> {
    if |bytes| == 1 && bytes[0] as int < 0x80 then Some(bytes[0] as int)
    else if |bytes| == 2 && 0xC0 <= bytes[0] as int < 0xE0 && IsTail(bytes[1]) then
      Some((bytes[0] as int - 0xC0) * 64 + (bytes[1] as int - 0x80))
    else if |bytes| == 3 && 0xE0 <= bytes[0] as int < 0xF0 && IsTail(bytes[1]) && IsTail(bytes[2]) then
      Some((bytes[0] as int - 0xE0) * 4096 + (bytes[1] as int - 0x80) * 64 + (bytes[2] as int - 0x80))
    else None
  }

  predicate IsTail(c: char) {
    0x80 <= c as int < 0xC0
  }

  /** `bytes` is the shortest sequence that spells `cp`. */
  predicate IsUtf8Of(bytes: string, cp: nat) {
    && Utf8Value(bytes) == Some(cp)
    && |bytes| == if cp < 0x80 then 1 else if cp < 0x800 then 2 else 3
  }

  /** At most one byte string satisfies `IsUtf8Of`, so it defines the encoding. */
  lemma Utf8Unique(a: string, b: string, cp: nat)
    requires IsUtf8Of(a, cp) && IsUtf8Of(b, cp)
    ensures a == b
  {
    assert |a| == |b|;
    if |a| == 3 {
      assert a == [a[0], a[1], a[2]] && b == [b[0], b[1], b[2]];
    } else if |a| == 2 {
      assert a == [a[0], a[1]] && b == [b[0], b[1]];
    } else {
      assert a == [a[0]] && b == [b[0]];
    }
  }

  /** The code points of the two-character escapes, by the table of section 7 of RFC 8259. */
  function ShortMeaning(c: char): (code: nat)
    requires ValidElem(Escape(c))
    ensures code < 0x80
  {
    if c == 'b' then 8
    else if c == 't' then 9
    else if c == 'n' then 10
    else if c == 'f' then 12
    else if c == 'r' then 13
    else if c == '"' then 34
    else if c == '/' then 47
    else 92
  }

  /** `out` is the decoded form of the literal `es`. */
  ghost predicate Decodes(es: seq<StrElem>, out: string) {
    exists parts: seq<string> :: |parts| == |es| && out == Concat(parts) &&
      forall i :: 0 <= i < |es| ==> ElemDecodes(es[i], parts[i])
  }

  predicate ElemDecodes(e: StrElem, part: string) {
    match e
    case Plain(c) => part == [c]
    case Escape(c) => ValidElem(e) && part == [ShortMeaning(c) as char]
    case Unicode(hex) => ValidElem(e) && IsUtf8Of(part, HexUnit(hex))
  }

  // ---- Values ----

  /** `Atom` covers numbers, `true`, `false` and `null`. */
  datatype Json =
    | Str(chars: seq<StrElem>)
    | Atom(text: string)
    | Arr(gap: string, items: Items)
    | Obj(gap: string, members: Members)

  datatype Items =
    | NoItems
    | Item(pre: string, value: Json, post: string, rest: Items)

  datatype Members =
    | NoMembers
    | Member(pre: string, name: seq<StrElem>, mid: string, aft: string,
             value: Json, post: string, rest: Members)

  predicate IsBlank(s: string) {
    forall i :: 0 <= i < |s| ==> s[i] == ' ' || s[i] == '\t' || s[i] == '\n' || s[i] == '\r'
  }

  /** No quote and no structural character; true of every number and literal name. */
  predicate Inert(s: string) {
    forall i :: 0 <= i < |s| ==>
      s[i] != '"' && s[i] != '{' && s[i] != '}' && s[i] != '[' && s[i] != ']' && s[i] != ':' && s[i] != ','
  }

  predicate ValidJson(v: Json) {
    match v
    case Str(es) => ValidElems(es)
    case Atom(t) => Inert(t)
    case Arr(gap, items) => IsBlank(gap) && ValidItems(items)
    case Obj(gap, ms) => IsBlank(gap) && ValidMembers(ms)
  }

  predicate ValidItems(items: Items) {
    match items
    case NoItems => true
    case Item(pre, v, post, rest) => IsBlank(pre) && ValidJson(v) && IsBlank(post) && ValidItems(rest)
  }

  predicate ValidMembers(ms: Members) {
    match ms
    case NoMembers => true
    case Member(pre, name, mid, aft, v, post, rest) =>
      && IsBlank(pre) && ValidElems(name) && IsBlank(mid) && IsBlank(aft)
      && ValidJson(v) && IsBlank(post) && ValidMembers(rest)
  }

  function JsonText(v: Json): string {
    match v
    case Str(es) => Literal(es)
    case Atom(t) => t
    case Arr(gap, items) => "[" + (gap + (ItemsText(items) + "]"))
    case Obj(gap, ms) => "{" + (gap + (MembersText(ms) + "}"))
  }

  function ItemsText(items: Items): string {
    match items
    case NoItems => ""
    case Item(pre, v, post, rest) =>
      pre + (JsonText(v) + (post + (if rest.NoItems? then "" else "," + ItemsText(rest))))
  }

  function MembersText(ms: Members): string {
    match ms
    case NoMembers => ""
    case Member(pre, name, mid, aft, v, post, rest) =>
      pre + (Literal(name) + (mid + (":" + (aft + (JsonText(v) + (post +
      (if rest.NoMembers? then "" else "," + MembersText(rest))))))))
  }
}
