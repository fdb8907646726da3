/** Saved sessions: one escaped `key=value` line per field, and reading them back. */
module Session {
  import opened Text
  import opened Lines
  import opened StableSort

  // Escaping.

  function EscapeChar(c: char): string {
    if c == '\\' then "\\\\" else if c == '\n' then "\\n" else if c == '\r' then "\\r" else [c]
  }

  function Escape(v: string): string {
    if v == "" then "" else EscapeChar(v[0]) + Escape(v[1..])
  }

  /** What a backslash and `next` stand for, if they form an escape. */
  function Unescaped(next: char): Option<char> {
    if next == '\\' then Some('\\') else if next == 'n' then Some('\n') else if next == 'r' then Some('\r') else None
  }

  function Unescape(v: string): string
    decreases |v|
  {
    if v == "" then ""
    else if v[0] == '\\' && |v| > 1 && Unescaped(v[1]).Some? then [Unescaped(v[1]).value] + Unescape(v[2..])
    else [v[0]] + Unescape(v[1..])
  }

  lemma UnescapeChar(c: char, rest: string)
    ensures Unescape(EscapeChar(c) + rest) == [c] + Unescape(rest)
  {
    var s := EscapeChar(c) + rest;
    if |EscapeChar(c)| == 2 {
      assert s[2..] == rest;
    } else {
      assert s[1..] == rest;
    }
  }

  /** Unescaping undoes escaping. */
  lemma {:induction false} UnescapeEscape(v: string)
    ensures Unescape(Escape(v)) == v
  {
    if v != "" {
      UnescapeEscape(v[1..]);
      UnescapeChar(v[0], Escape(v[1..]));
    }
  }

  /** An escaped value has no line break of either kind, and a `=` only where the value has one. */
  lemma {:induction false} EscapedIsOneLine(v: string)
    ensures '\n' !in Escape(v) && '\r' !in Escape(v)
    ensures '=' in Escape(v) <==> '=' in v
    ensures |Escape(v)| >= |v|
  {
    if v != "" {
      EscapedIsOneLine(v[1..]);
      assert v == [v[0]] + v[1..];
    }
  }

  lemma {:induction false} UnescapedHasNoSeparator(v: string)
    requires '=' !in v
    ensures '=' !in Unescape(v)
    ensures v != "" ==> Unescape(v) != ""
    decreases |v|
  {
    if v != "" {
      if v[0] == '\\' && |v| > 1 && Unescaped(v[1]).Some? {
        UnescapedHasNoSeparator(v[2..]);
      } else {
        UnescapedHasNoSeparator(v[1..]);
      }
    }
  }

  method EscapeValue(v: string) returns (out: string)
    ensures out == Escape(v)
  {
    out := "";
    var i := 0;
    assert v[0..] == v;
    while i < |v|
      invariant 0 <= i <= |v| && out + Escape(v[i..]) == Escape(v)
    {
      assert v[i..][1..] == v[i + 1..];
      assert out + (EscapeChar(v[i]) + Escape(v[i + 1..])) == (out + EscapeChar(v[i])) + Escape(v[i + 1..]);
      if v[i] == '\\' {
        out := out + "\\\\";
      } else if v[i] == '\n' {
        out := out + "\\n";
      } else if v[i] == '\r' {
        out := out + "\\r";
      } else {
        out := out + [v[i]];
      }
      i := i + 1;
    }
    assert v[i..] == "" && out + "" == out;
  }

  lemma UnescapeOne(t: string)
    requires t != "" && !(t[0] == '\\' && |t| > 1 && Unescaped(t[1]).Some?)
    ensures Unescape(t) == [t[0]] + Unescape(t[1..])
  {
  }

  lemma UnescapeTwo(t: string)
    requires |t| > 1 && t[0] == '\\' && Unescaped(t[1]).Some?
    ensures Unescape(t) == [Unescaped(t[1]).value] + Unescape(t[2..])
  {
  }

  method UnescapeValue(v: string) returns (out: string)
    ensures out == Unescape(v)
  {
    out := "";
    var i := 0;
    assert v[0..] == v && Unescape("") == "";
    hide Unescape;
    while i < |v|
      invariant 0 <= i <= |v| && out + Unescape(v[i..]) == Unescape(v)
    {
      if v[i] == '\\' && i + 1 < |v| {
        var next := v[i + 1];
        if Unescaped(next).Some? {
          TakeTwo(v, i, out);
        } else {
          TakeOne(v, i, out);
        }
        if next == '\\' {
          out := out + ['\\'];
          i := i + 1;
        } else if next == 'n' {
          out := out + ['\n'];
          i := i + 1;
        } else if next == 'r' {
          out := out + ['\r'];
          i := i + 1;
        } else {
          out := out + [v[i]];
        }
      } else {
        TakeOne(v, i, out);
        out := out + [v[i]];
      }
      i := i + 1;
    }
    assert v[i..] == "" && out + "" == out;
  }

  lemma TakeOne(v: string, i: nat, out: string)
    requires i < |v| && !(v[i] == '\\' && i + 1 < |v| && Unescaped(v[i + 1]).Some?)
    ensures (out + [v[i]]) + Unescape(v[i + 1..]) == out + Unescape(v[i..])
  {
    UnescapeOne(v[i..]);
    hide Unescape;
    assert v[i..][1..] == v[i + 1..];
    MovePiece(out, [v[i]], Unescape(v[i + 1..]), out + Unescape(v[i..]));
  }

  lemma TakeTwo(v: string, i: nat, out: string)
    requires i + 1 < |v| && v[i] == '\\' && Unescaped(v[i + 1]).Some?
    ensures (out + [Unescaped(v[i + 1]).value]) + Unescape(v[i + 2..]) == out + Unescape(v[i..])
  {
    UnescapeTwo(v[i..]);
    hide Unescape;
    assert v[i..][2..] == v[i + 2..];
    MovePiece(out, [Unescaped(v[i + 1]).value], Unescape(v[i + 2..]), out + Unescape(v[i..]));
  }

  // Timestamps.

  type Int64 = x: int | -0x8000_0000_0000_0000 <= x < 0x8000_0000_0000_0000

  function Digits(n: nat): string {
    (if n < 10 then "" else Digits(n / 10)) + [('0' as int + n % 10) as char]
  }

  /** `operator<<` on an integer. */
  function Decimal(n: int): string {
    if n < 0 then "-" + Digits(-n) else Digits(n)
  }

  predicate IsDigit(c: char) {
    '0' <= c <= '9'
  }

  /** The value of the digits `s` starts with, after digits of value `acc`. */
  function LeadingNumber(s: string, acc: int): int
    decreases |s|
  {
    if s != "" && IsDigit(s[0]) then LeadingNumber(s[1..], 10 * acc + (s[0] as int - '0' as int)) else acc
  }

  function Saturate(n: int): Int64 {
    if n < -0x8000_0000_0000_0000 then -0x8000_0000_0000_0000
    else if n >= 0x8000_0000_0000_0000 then 0x7FFF_FFFF_FFFF_FFFF
    else n
  }

  /** `strtoll` in base 10. */
  function Strtoll(s: string): Int64 {
    var t := TrimLeft(s);
    if t != "" && t[0] == '-' then Saturate(-LeadingNumber(t[1..], 0))
    else if t != "" && t[0] == '+' then Saturate(LeadingNumber(t[1..], 0))
    else Saturate(LeadingNumber(t, 0))
  }

  lemma {:induction false} ReadsDigits(n: nat, rest: string)
    ensures LeadingNumber(Digits(n) + rest, 0) == LeadingNumber(rest, n)
    ensures Digits(n) != "" && forall i :: 0 <= i < |Digits(n)| ==> IsDigit(Digits(n)[i])
  {
    var d := [('0' as int + n % 10) as char];
    assert (d + rest)[1..] == rest;
    if n >= 10 {
      ReadsDigits(n / 10, d + rest);
      assert Digits(n) + rest == Digits(n / 10) + (d + rest);
    } else {
      assert Digits(n) == d;
    }
  }

  /** Every timestamp is read back as it was written. */
  lemma StrtollReadsDecimal(n: Int64)
    ensures Strtoll(Decimal(n)) == n
  {
    var k: int := n;
    var m := if k < 0 then -k else k;
    ReadsDigits(m, "");
    assert Digits(m) + "" == Digits(m);
    assert IsDigit(Digits(m)[0]);
    if n < 0 { assert Decimal(n)[1..] == Digits(m); }
  }

  // Records.

  datatype SessionInfo = SessionInfo(
    name: string, workingDirectory: string, envVars: map<string, string>, aliases: map<string, string>,
    createdAt: Int64, lastActive: Int64, socketPath: string)

  const EMPTY := SessionInfo("", "", map[], map[], 0, 0, "")

  const NAME := "name"
  const CWD := "cwd"
  const CREATED := "created"
  const LAST_ACTIVE := "last_active"
  const SOCKET := "socket"
  const ALIAS := "alias:"
  const ENV := "env:"

  function Record(key: string, raw: string): string {
    key + ("=" + raw)
  }

  /** The lines for `prefix`ed names, in the order of `keys`. */
  function Entries(prefix: string, keys: seq<string>, m: map<string, string>): seq<string>
    requires forall k :: k in keys ==> k in m
  {
    if keys == [] then []
    else [Record(prefix + Escape(keys[0]), Escape(m[keys[0]]))] + Entries(prefix, keys[1..], m)
  }

  function Fixed(info: SessionInfo): seq<string> {
    [Record(NAME, Escape(info.name)), Record(CWD, Escape(info.workingDirectory)),
     Record(CREATED, Decimal(info.createdAt)), Record(LAST_ACTIVE, Decimal(info.lastActive)),
     Record(SOCKET, Escape(info.socketPath))]
  }

  /** Each key of `m` once. */
  predicate Enumerates(keys: seq<string>, m: map<string, string>) {
    multiset(keys) == multiset(m.Keys)
  }

  lemma Enumerated(keys: seq<string>, m: map<string, string>)
    requires Enumerates(keys, m)
    ensures forall k :: k in keys <==> k in m
    ensures |keys| == |m|
  {
    assert forall k :: k in keys <==> k in multiset(keys);
    assert |multiset(keys)| == |multiset(m.Keys)| == |m.Keys|;
  }

  function SavedLines(info: SessionInfo, aliasKeys: seq<string>, envKeys: seq<string>): seq<string>
    requires Enumerates(aliasKeys, info.aliases) && Enumerates(envKeys, info.envVars)
  {
    Enumerated(aliasKeys, info.aliases);
    Enumerated(envKeys, info.envVars);
    Fixed(info) + Entries(ALIAS, aliasKeys, info.aliases) + Entries(ENV, envKeys, info.envVars)
  }

  function Saved(info: SessionInfo, aliasKeys: seq<string>, envKeys: seq<string>): string
    requires Enumerates(aliasKeys, info.aliases) && Enumerates(envKeys, info.envVars)
  {
    Unsplit(SavedLines(info, aliasKeys, envKeys), "")
  }

  /** The position of the first `=`, or the length. */
  function Separator(line: string): (n: nat)
    ensures n <= |line| && '=' !in line[..n] && (n < |line| ==> line[n] == '=')
  {
    if line == "" || line[0] == '=' then 0
    else
      var k := Separator(line[1..]) + 1;
      assert line[..k] == [line[0]] + line[1..][..k - 1];
      k
  }

  predicate HasPrefix(key: string, prefix: string) {
    |key| > |prefix| && key[..|prefix|] == prefix
  }

  /** What `load_session` does with one key and its raw value. */
  function Assign(info: SessionInfo, key: string, raw: string): SessionInfo {
    if key == NAME then info.(name := Unescape(raw))
    else if key == CWD then info.(workingDirectory := Unescape(raw))
    else if key == CREATED then info.(createdAt := Strtoll(raw))
    else if key == LAST_ACTIVE then info.(lastActive := Strtoll(raw))
    else if key == SOCKET then info.(socketPath := Unescape(raw))
    else if HasPrefix(key, ALIAS) then info.(aliases := info.aliases[Unescape(key[|ALIAS|..]) := Unescape(raw)])
    else if HasPrefix(key, ENV) then info.(envVars := info.envVars[Unescape(key[|ENV|..]) := Unescape(raw)])
    else info
  }

  function LoadLine(info: SessionInfo, line: string): SessionInfo {
    var eq := Separator(line);
    if eq == |line| then info else Assign(info, line[..eq], line[eq + 1..])
  }

  function LoadLines(info: SessionInfo, lines: seq<string>): SessionInfo
    decreases |lines|
  {
    if lines == [] then info else LoadLines(LoadLine(info, lines[0]), lines[1..])
  }

  /** The lines `getline` delivers: a last line without newline counts when it is not empty. */
  function Delivered(text: string): seq<string> {
    var s := SplitLines(text);
    if s.tail == "" then s.lines else s.lines + [s.tail]
  }

  function Load(text: string): SessionInfo {
    LoadLines(EMPTY, Delivered(text))
  }

  // Reading back.

  lemma SeparatorAt(key: string, raw: string)
    requires '=' !in key
    ensures Separator(Record(key, raw)) == |key|
    ensures Record(key, raw)[..|key|] == key && Record(key, raw)[|key| + 1..] == raw
  {
    var line := Record(key, raw);
    var n := Separator(line);
    hide Separator;
    assert line[|key|] == '=';
    assert forall i :: 0 <= i < |key| ==> line[i] == key[i] && key[i] in key;
    forall i | 0 <= i < n ensures line[i] != '=' {
      assert line[..n][i] in line[..n];
    }
  }

  lemma LoadRecord(info: SessionInfo, key: string, raw: string)
    requires '=' !in key
    ensures LoadLine(info, Record(key, raw)) == Assign(info, key, raw)
  {
    SeparatorAt(key, raw);
    hide Assign, Separator;
  }

  lemma {:induction false} LoadMore(info: SessionInfo, a: seq<string>, b: seq<string>)
    ensures LoadLines(info, a + b) == LoadLines(LoadLines(info, a), b)
    decreases |a|
  {
    hide LoadLine;
    if a == [] {
      assert a + b == b;
    } else {
      assert (a + b)[1..] == a[1..] + b;
      LoadMore(LoadLine(info, a[0]), a[1..], b);
    }
  }

  predicate GoodName(k: string) {
    k != "" && '=' !in k
  }

  predicate GoodNames(m: map<string, string>) {
    forall k :: k in m ==> GoodName(k)
  }

  lemma LoadAlias(info: SessionInfo, k: string, v: string)
    requires GoodName(k)
    ensures LoadLine(info, Record(ALIAS + Escape(k), Escape(v))) == info.(aliases := info.aliases[k := v])
  {
    var key := ALIAS + Escape(k);
    EscapedIsOneLine(k);
    UnescapeEscape(k);
    UnescapeEscape(v);
    hide Escape, Unescape;
    LoadRecord(info, key, Escape(v));
    hide LoadLine;
    assert key[|ALIAS|..] == Escape(k);
    assert key[..|ALIAS|] == ALIAS && key[5] == ':';
  }

  lemma LoadEnv(info: SessionInfo, k: string, v: string)
    requires GoodName(k)
    ensures LoadLine(info, Record(ENV + Escape(k), Escape(v))) == info.(envVars := info.envVars[k := v])
  {
    var key := ENV + Escape(k);
    EscapedIsOneLine(k);
    UnescapeEscape(k);
    UnescapeEscape(v);
    hide Escape, Unescape;
    LoadRecord(info, key, Escape(v));
    hide LoadLine;
    assert key[|ENV|..] == Escape(k);
    assert key[..|ENV|] == ENV && key[0] == 'e' && key[3] == ':';
  }

  /** `base` with the entries of `m` under `keys` written over it. */
  function Added(base: map<string, string>, keys: seq<string>, m: map<string, string>): map<string, string>
    requires forall k :: k in keys ==> k in m
    decreases |keys|
  {
    if keys == [] then base else Added(base[keys[0] := m[keys[0]]], keys[1..], m)
  }

  lemma {:induction false} AddedHas(base: map<string, string>, keys: seq<string>, m: map<string, string>, k: string)
    requires forall k :: k in keys ==> k in m
    ensures k in Added(base, keys, m) <==> k in base || k in keys
    ensures k in keys ==> Added(base, keys, m)[k] == m[k]
    ensures k in base && k !in keys ==> Added(base, keys, m)[k] == base[k]
    decreases |keys|
  {
    if keys != [] {
      assert keys == [keys[0]] + keys[1..];
      AddedHas(base[keys[0] := m[keys[0]]], keys[1..], m, k);
    }
  }

  lemma AddedAll(keys: seq<string>, m: map<string, string>)
    requires forall k :: k in keys <==> k in m
    ensures Added(map[], keys, m) == m
  {
    var all := Added(map[], keys, m);
    forall k ensures k in all <==> k in m
      ensures k in m ==> k in all && all[k] == m[k]
    {
      AddedHas(map[], keys, m, k);
    }
  }

  lemma {:induction false} LoadAliases(info: SessionInfo, keys: seq<string>, m: map<string, string>)
    requires (forall k :: k in keys ==> k in m && GoodName(k))
    ensures LoadLines(info, Entries(ALIAS, keys, m)) == info.(aliases := Added(info.aliases, keys, m))
    decreases |keys|
  {
    if keys == [] {
      assert info.(aliases := info.aliases) == info;
    } else {
      var k := keys[0];
      LoadAlias(info, k, m[k]);
      LoadAliases(info.(aliases := info.aliases[k := m[k]]), keys[1..], m);
      hide LoadLine, Escape;
      assert Entries(ALIAS, keys, m)[1..] == Entries(ALIAS, keys[1..], m);
    }
  }

  lemma {:induction false} LoadEnvs(info: SessionInfo, keys: seq<string>, m: map<string, string>)
    requires (forall k :: k in keys ==> k in m && GoodName(k))
    ensures LoadLines(info, Entries(ENV, keys, m)) == info.(envVars := Added(info.envVars, keys, m))
    decreases |keys|
  {
    if keys == [] {
      assert info.(envVars := info.envVars) == info;
    } else {
      var k := keys[0];
      LoadEnv(info, k, m[k]);
      LoadEnvs(info.(envVars := info.envVars[k := m[k]]), keys[1..], m);
      hide LoadLine, Escape;
      assert Entries(ENV, keys, m)[1..] == Entries(ENV, keys[1..], m);
    }
  }

  lemma FoldFive(info: SessionInfo, lines: seq<string>)
    requires |lines| == 5
    ensures LoadLines(info, lines)
            == LoadLine(LoadLine(LoadLine(LoadLine(LoadLine(info, lines[0]), lines[1]), lines[2]), lines[3]), lines[4])
  {
    hide LoadLine;
    LoadMore(info, lines[..2], lines[2..]);
    LoadMore(LoadLines(info, lines[..2]), lines[2..4], lines[4..]);
    assert lines == lines[..2] + lines[2..] && lines[2..] == lines[2..4] + lines[4..];
    FoldTwo(info, lines[..2]);
    FoldTwo(LoadLines(info, lines[..2]), lines[2..4]);
    assert lines[4..][1..] == [];
  }

  lemma FoldTwo(info: SessionInfo, lines: seq<string>)
    requires |lines| == 2
    ensures LoadLines(info, lines) == LoadLine(LoadLine(info, lines[0]), lines[1])
  {
    hide LoadLine;
    var x, rest := LoadLine(info, lines[0]), lines[1..];
    assert rest[1..] == [];
    assert LoadLines(x, rest) == LoadLines(LoadLine(x, rest[0]), rest[1..]);
  }

  lemma LoadString(info: SessionInfo, v: string)
    ensures LoadLine(info, Record(NAME, Escape(v))) == info.(name := v)
    ensures LoadLine(info, Record(CWD, Escape(v))) == info.(workingDirectory := v)
    ensures LoadLine(info, Record(SOCKET, Escape(v))) == info.(socketPath := v)
  {
    UnescapeEscape(v);
    hide Escape, Unescape, LoadLine;
    LoadRecord(info, NAME, Escape(v));
    LoadRecord(info, CWD, Escape(v));
    LoadRecord(info, SOCKET, Escape(v));
    hide HasPrefix;
  }

  lemma LoadTime(info: SessionInfo, n: Int64)
    ensures LoadLine(info, Record(CREATED, Decimal(n))) == info.(createdAt := n)
    ensures LoadLine(info, Record(LAST_ACTIVE, Decimal(n))) == info.(lastActive := n)
  {
    StrtollReadsDecimal(n);
    hide Decimal, Strtoll, LoadLine;
    LoadRecord(info, CREATED, Decimal(n));
    LoadRecord(info, LAST_ACTIVE, Decimal(n));
    hide HasPrefix;
  }

  lemma LoadFixed(info: SessionInfo)
    ensures LoadLines(EMPTY, Fixed(info)) == info.(aliases := map[], envVars := map[])
  {
    hide Escape, Decimal, LoadLine, LoadLines, Record;
    var a := EMPTY.(name := info.name);
    var b := a.(workingDirectory := info.workingDirectory);
    var c := b.(createdAt := info.createdAt);
    var d := c.(lastActive := info.lastActive);
    LoadString(EMPTY, info.name);
    LoadString(a, info.workingDirectory);
    LoadTime(b, info.createdAt);
    LoadTime(c, info.lastActive);
    LoadString(d, info.socketPath);
    FoldFive(EMPTY, Fixed(info));
  }

  // One line per field.

  predicate OneLine(s: string) {
    '\n' !in s
  }

  lemma RecordIsOneLine(key: string, raw: string)
    requires OneLine(key) && OneLine(raw)
    ensures OneLine(Record(key, raw))
  {
  }

  lemma DecimalIsOneLine(n: int)
    ensures OneLine(Decimal(n))
  {
    var m := if n < 0 then -n else n;
    ReadsDigits(m, "");
    forall c | c in Digits(m) ensures c != '\n' {
      var i :| 0 <= i < |Digits(m)| && Digits(m)[i] == c;
      assert IsDigit(Digits(m)[i]);
    }
  }

  lemma {:induction false} EntriesAreLines(prefix: string, keys: seq<string>, m: map<string, string>)
    requires OneLine(prefix) && forall k :: k in keys ==> k in m
    ensures |Entries(prefix, keys, m)| == |keys|
    ensures forall i :: 0 <= i < |keys| ==> OneLine(Entries(prefix, keys, m)[i])
    decreases |keys|
  {
    if keys != [] {
      EntriesAreLines(prefix, keys[1..], m);
      EscapedIsOneLine(keys[0]);
      EscapedIsOneLine(m[keys[0]]);
      hide Escape;
      RecordIsOneLine(prefix + Escape(keys[0]), Escape(m[keys[0]]));
      hide Record;
    }
  }

  lemma FixedAreLines(info: SessionInfo)
    ensures forall i :: 0 <= i < |Fixed(info)| ==> OneLine(Fixed(info)[i])
  {
    EscapedIsOneLine(info.name);
    EscapedIsOneLine(info.workingDirectory);
    EscapedIsOneLine(info.socketPath);
    DecimalIsOneLine(info.createdAt);
    DecimalIsOneLine(info.lastActive);
    hide Escape, Decimal;
    RecordIsOneLine(NAME, Escape(info.name));
    RecordIsOneLine(CWD, Escape(info.workingDirectory));
    RecordIsOneLine(CREATED, Decimal(info.createdAt));
    RecordIsOneLine(LAST_ACTIVE, Decimal(info.lastActive));
    RecordIsOneLine(SOCKET, Escape(info.socketPath));
    hide Record;
  }

  /** Every field occupies exactly one line of the file, whatever bytes it holds. */
  lemma OneLinePerField(info: SessionInfo, aliasKeys: seq<string>, envKeys: seq<string>)
    requires Enumerates(aliasKeys, info.aliases) && Enumerates(envKeys, info.envVars)
    ensures Delivered(Saved(info, aliasKeys, envKeys)) == SavedLines(info, aliasKeys, envKeys)
    ensures |SavedLines(info, aliasKeys, envKeys)| == 5 + |info.aliases| + |info.envVars|
  {
    Enumerated(aliasKeys, info.aliases);
    Enumerated(envKeys, info.envVars);
    FixedAreLines(info);
    EntriesAreLines(ALIAS, aliasKeys, info.aliases);
    EntriesAreLines(ENV, envKeys, info.envVars);
    var lines := SavedLines(info, aliasKeys, envKeys);
    assert |Fixed(info)| == 5;
    hide Fixed, Entries;
    forall i | 0 <= i < |lines| ensures '\n' !in lines[i] {
      assert OneLine(lines[i]);
    }
    SplitUnsplit(lines, "");
    hide SplitLines, Unsplit;
  }

  // The round trip.

  lemma {:induction false} LoadedNamesAreGood(info: SessionInfo, lines: seq<string>)
    requires GoodNames(info.aliases) && GoodNames(info.envVars)
    ensures GoodNames(LoadLines(info, lines).aliases) && GoodNames(LoadLines(info, lines).envVars)
    decreases |lines|
  {
    if lines != [] {
      LoadLineNames(info, lines[0]);
      hide LoadLine, GoodNames;
      LoadedNamesAreGood(LoadLine(info, lines[0]), lines[1..]);
    }
  }

  lemma LoadLineNames(info: SessionInfo, line: string)
    requires GoodNames(info.aliases) && GoodNames(info.envVars)
    ensures GoodNames(LoadLine(info, line).aliases) && GoodNames(LoadLine(info, line).envVars)
  {
    var eq := Separator(line);
    var key := line[..eq];
    hide Separator;
    if HasPrefix(key, ALIAS) {
      assert '=' !in key[|ALIAS|..];
      UnescapedHasNoSeparator(key[|ALIAS|..]);
    }
    if HasPrefix(key, ENV) {
      assert '=' !in key[|ENV|..];
      UnescapedHasNoSeparator(key[|ENV|..]);
    }
    hide Unescape;
  }

  lemma LoadsGoodNames(info: SessionInfo, aliasKeys: seq<string>, envKeys: seq<string>)
    requires Enumerates(aliasKeys, info.aliases) && Enumerates(envKeys, info.envVars)
    requires GoodNames(info.aliases) && GoodNames(info.envVars)
    ensures LoadLines(EMPTY, SavedLines(info, aliasKeys, envKeys)) == info
  {
    Enumerated(aliasKeys, info.aliases);
    Enumerated(envKeys, info.envVars);
    var fixed := Fixed(info);
    var aliases := Entries(ALIAS, aliasKeys, info.aliases);
    var envs := Entries(ENV, envKeys, info.envVars);
    var a := info.(aliases := map[], envVars := map[]);
    var b := info.(envVars := map[]);
    LoadFixed(info);
    LoadAliases(a, aliasKeys, info.aliases);
    AddedAll(aliasKeys, info.aliases);
    LoadEnvs(b, envKeys, info.envVars);
    AddedAll(envKeys, info.envVars);
    hide LoadLines, Fixed, Entries, Added, Enumerates, GoodNames;
    LoadMore(EMPTY, fixed, aliases);
    LoadMore(EMPTY, fixed + aliases, envs);
  }

  /**
   Loading a saved session gives it back exactly when its alias and environment names are
   non-empty and free of `=`, whatever else they and the values hold.
   */
  lemma RoundTripIff(info: SessionInfo, aliasKeys: seq<string>, envKeys: seq<string>)
    requires Enumerates(aliasKeys, info.aliases) && Enumerates(envKeys, info.envVars)
    ensures Load(Saved(info, aliasKeys, envKeys)) == info <==> GoodNames(info.aliases) && GoodNames(info.envVars)
  {
    OneLinePerField(info, aliasKeys, envKeys);
    LoadedNamesAreGood(EMPTY, SavedLines(info, aliasKeys, envKeys));
    hide LoadLines, Delivered, Saved, SavedLines;
    if GoodNames(info.aliases) && GoodNames(info.envVars) {
      hide GoodNames;
      LoadsGoodNames(info, aliasKeys, envKeys);
    }
  }

  // The reader and the writer as loops.

  /** `line.find('=')`. */
  method FindSeparator(line: string) returns (eq: nat)
    ensures eq == Separator(line)
  {
    eq := 0;
    assert line[0..] == line;
    while eq < |line| && line[eq] != '='
      invariant 0 <= eq <= |line| && eq + Separator(line[eq..]) == Separator(line)
    {
      assert line[eq..][1..] == line[eq + 1..];
      eq := eq + 1;
    }
  }

  /** The body of the reading loop. */
  method ReadLine(info: SessionInfo, line: string) returns (r: SessionInfo)
    ensures r == LoadLine(info, line)
  {
    r := info;
    if line == "" { return; }
    var eq := FindSeparator(line);
    if eq == |line| { return; }
    hide Separator, Unescape, Strtoll, Escape;
    var key, rawValue := line[..eq], line[eq + 1..];
    var value := UnescapeValue(rawValue);
    if key == NAME {
      r := r.(name := value);
    } else if key == CWD {
      r := r.(workingDirectory := value);
    } else if key == CREATED {
      r := r.(createdAt := Strtoll(rawValue));
    } else if key == LAST_ACTIVE {
      r := r.(lastActive := Strtoll(rawValue));
    } else if key == SOCKET {
      r := r.(socketPath := value);
    } else if |key| > 6 && key[..6] == ALIAS {
      var aliasName := UnescapeValue(key[6..]);
      r := r.(aliases := r.aliases[aliasName := value]);
    } else if |key| > 4 && key[..4] == ENV {
      var envName := UnescapeValue(key[4..]);
      r := r.(envVars := r.envVars[envName := value]);
    }
  }

  method LoadSession(text: string) returns (info: SessionInfo)
    ensures info == Load(text)
  {
    info := EMPTY;
    var rest := text;
    hide SplitLines, FirstNewline, LoadLine;
    while rest != ""
      invariant LoadLines(info, Delivered(rest)) == Load(text)
      decreases |rest|
    {
      var nl := FirstNewline(rest);
      ghost var delivered := Delivered(rest);
      var line := rest[..nl];
      if nl == |rest| {
        assert line == rest;
        SplitWithoutNewline(rest);
        rest := "";
      } else {
        ghost var more := rest[nl + 1..];
        assert rest == line + ("\n" + more);
        SplitAtNewline(line, more);
        rest := rest[nl + 1..];
      }
      SplitWithoutNewline("");
      assert delivered[0] == line && delivered[1..] == Delivered(rest);
      info := ReadLine(info, line);
    }
    SplitWithoutNewline("");
  }

  // The writer.

  function Ascending(): (string, string) -> bool {
    (a, b) => CompareStrings(a, b) < 0
  }

  lemma StringsAreOrdered(keys: seq<string>)
    ensures Orders(Ascending(), keys)
  {
    var less := Ascending();
    forall x, y ensures !(less(x, y) && less(y, x)) {
      CompareAntisymmetric(x, y);
    }
    forall x, y, z | !less(y, x) && !less(z, y) ensures !less(z, x) {
      CompareAntisymmetric(y, x);
      CompareAntisymmetric(x, y);
      CompareAntisymmetric(z, y);
      CompareAntisymmetric(y, z);
      CompareAntisymmetric(z, x);
      CompareAntisymmetric(x, z);
      CompareTransitive(x, y, z);
    }
  }

  lemma {:induction false} TiesAreCopies(s: seq<string>, x: string)
    ensures Ties(Ascending(), s, x) == seq(multiset(s)[x], _ => x)
    decreases |s|
  {
    if s != [] {
      var n := |s| - 1;
      TiesAreCopies(s[..n], x);
      assert s == s[..n] + [s[n]];
      CompareAntisymmetric(s[n], x);
      CompareAntisymmetric(x, s[n]);
      assert Tie(Ascending(), x)(s[n]) <==> s[n] == x;
      FilterSnoc(Tie(Ascending(), x), s[..n], s[n]);
      assert multiset(s)[x] == multiset(s[..n])[x] + if s[n] == x then 1 else 0;
    }
  }

  /** Sorting the names makes the file depend on the session alone. */
  lemma SortedKeysAreUnique(a: seq<string>, b: seq<string>, m: map<string, string>)
    requires Enumerates(a, m) && Enumerates(b, m)
    requires Sorted(Ascending(), a) && Sorted(Ascending(), b)
    ensures a == b
  {
    StringsAreOrdered(a);
    Enumerated(a, m);
    Enumerated(b, m);
    forall x | x in a ensures Ties(Ascending(), a, x) == Ties(Ascending(), b, x) {
      TiesAreCopies(a, x);
      TiesAreCopies(b, x);
    }
    SortedTiesDetermine(Ascending(), a, a, b);
  }

  /** The keys in the order of the hash table, which is not fixed, then sorted. */
  method SortedKeys(m: map<string, string>) returns (keys: seq<string>)
    ensures Enumerates(keys, m) && Sorted(Ascending(), keys)
  {
    var all: seq<string> := [];
    var rest := m.Keys;
    while rest != {}
      invariant rest <= m.Keys && multiset(all) + multiset(rest) == multiset(m.Keys)
      decreases rest
    {
      var k :| k in rest;
      rest := rest - {k};
      all := all + [k];
    }
    SortElements(Ascending(), all);
    StringsAreOrdered(all);
    SortSorted(Ascending(), all);
    keys := Sort(Ascending(), all);
  }

  lemma {:induction false} EntriesSnoc(prefix: string, keys: seq<string>, k: string, m: map<string, string>)
    requires k in m && forall x :: x in keys ==> x in m
    ensures Entries(prefix, keys + [k], m)
            == Entries(prefix, keys, m) + [Record(prefix + Escape(k), Escape(m[k]))]
    decreases |keys|
  {
    hide Record, Escape;
    var all := keys + [k];
    if keys == [] {
      assert all[1..] == [];
    } else {
      assert all[1..] == keys[1..] + [k];
      EntriesSnoc(prefix, keys[1..], k, m);
    }
  }

  /** One `ofs << key << "=" << value << "\n"`. */
  method WriteRecord(file: string, key: string, raw: string, ghost lines: seq<string>)
    returns (out: string, ghost written: seq<string>)
    requires file == Unsplit(lines, "")
    ensures written == lines + [Record(key, raw)] && out == Unsplit(written, "")
  {
    written := lines + [Record(key, raw)];
    UnsplitSnoc(lines, Record(key, raw));
    hide Unsplit;
    assert key + ("=" + (raw + "\n")) == (key + ("=" + raw)) + "\n";
    out := file + (key + ("=" + (raw + "\n")));
  }

  /** One more name and its value. */
  method WriteEntry(file: string, prefix: string, ghost done: seq<string>, k: string, m: map<string, string>,
                    ghost before: seq<string>, ghost lines: seq<string>)
    returns (out: string, ghost written: seq<string>)
    requires k in m && forall x :: x in done ==> x in m
    requires file == Unsplit(lines, "") && lines == before + Entries(prefix, done, m)
    ensures out == Unsplit(written, "") && written == before + Entries(prefix, done + [k], m)
  {
    hide Escape, Record, Unsplit, Entries;
    EntriesSnoc(prefix, done, k, m);
    var name := EscapeValue(k);
    var value := EscapeValue(m[k]);
    out, written := WriteRecord(file, prefix + name, value, lines);
  }

  method WriteEntries(file: string, prefix: string, keys: seq<string>, m: map<string, string>, ghost lines: seq<string>)
    returns (out: string, ghost written: seq<string>)
    requires forall k :: k in keys ==> k in m
    requires file == Unsplit(lines, "")
    ensures written == lines + Entries(prefix, keys, m) && out == Unsplit(written, "")
  {
    out, written := file, lines;
    assert keys[..0] == [] && lines + [] == lines;
    var i := 0;
    while i < |keys|
      invariant 0 <= i <= |keys|
      invariant written == lines + Entries(prefix, keys[..i], m) && out == Unsplit(written, "")
    {
      hide Unsplit, Entries;
      assert keys[..i + 1] == keys[..i] + [keys[i]];
      out, written := WriteEntry(out, prefix, keys[..i], keys[i], m, lines, written);
      i := i + 1;
    }
    assert keys[..i] == keys;
  }

  method SaveSession(info: SessionInfo) returns (file: string)
    ensures exists aliasKeys, envKeys ::
              && Enumerates(aliasKeys, info.aliases) && Sorted(Ascending(), aliasKeys)
              && Enumerates(envKeys, info.envVars) && Sorted(Ascending(), envKeys)
              && file == Saved(info, aliasKeys, envKeys)
  {
    var aliasKeys := SortedKeys(info.aliases);
    var envKeys := SortedKeys(info.envVars);
    Enumerated(aliasKeys, info.aliases);
    Enumerated(envKeys, info.envVars);
    var name := EscapeValue(info.name);
    var cwd := EscapeValue(info.workingDirectory);
    var socket := EscapeValue(info.socketPath);
    ghost var lines: seq<string> := [];
    file := "";
    assert file == Unsplit(lines, "");
    hide Escape, Decimal, Record, Unsplit, Entries;
    file, lines := WriteRecord(file, NAME, name, lines);
    file, lines := WriteRecord(file, CWD, cwd, lines);
    file, lines := WriteRecord(file, CREATED, Decimal(info.createdAt), lines);
    file, lines := WriteRecord(file, LAST_ACTIVE, Decimal(info.lastActive), lines);
    file, lines := WriteRecord(file, SOCKET, socket, lines);
    assert lines == Fixed(info);
    file, lines := WriteEntries(file, ALIAS, aliasKeys, info.aliases, lines);
    file, lines := WriteEntries(file, ENV, envKeys, info.envVars, lines);
    assert file == Saved(info, aliasKeys, envKeys);
  }

  // The format, spelled out.

  /** Backslash, newline and CR take two characters; every other byte stands for itself. */
  lemma EscapesAre(c: char)
    ensures var n := c as int;
            Escape([c]) ==
            if n == 92 then [92 as char, 92 as char]
            else if n == 10 then [92 as char, 110 as char]
            else if n == 13 then [92 as char, 114 as char]
            else [c]
  {
    assert [c][1..] == "" && Escape("") == "";
    assert EscapeChar(c) + "" == EscapeChar(c);
  }

  lemma {:induction false} EscapeAppend(a: string, b: string)
    ensures Escape(a + b) == Escape(a) + Escape(b)
    decreases |a|
  {
    hide EscapeChar;
    if a == "" {
      assert a + b == b;
    } else {
      assert (a + b)[1..] == a[1..] + b;
      EscapeAppend(a[1..], b);
    }
  }

  function FixedLines(info: SessionInfo): seq<string> {
    ["name=" + Escape(info.name), "cwd=" + Escape(info.workingDirectory), "created=" + Decimal(info.createdAt),
     "last_active=" + Decimal(info.lastActive), "socket=" + Escape(info.socketPath)]
  }

  function AliasLines(keys: seq<string>, m: map<string, string>): seq<string>
    requires forall k :: k in keys ==> k in m
  {
    if keys == [] then []
    else ["alias:" + Escape(keys[0]) + "=" + Escape(m[keys[0]])] + AliasLines(keys[1..], m)
  }

  function EnvLines(keys: seq<string>, m: map<string, string>): seq<string>
    requires forall k :: k in keys ==> k in m
  {
    if keys == [] then []
    else ["env:" + Escape(keys[0]) + "=" + Escape(m[keys[0]])] + EnvLines(keys[1..], m)
  }

  lemma RecordIs(key: string, raw: string)
    ensures Record(key, raw) == key + "=" + raw
  {
  }

  /** The five fields, then one line for each alias and one for each variable, in the order of the keys. */
  lemma SavedLinesAre(info: SessionInfo, aliasKeys: seq<string>, envKeys: seq<string>)
    requires Enumerates(aliasKeys, info.aliases) && Enumerates(envKeys, info.envVars)
    ensures (forall k :: k in aliasKeys ==> k in info.aliases) && (forall k :: k in envKeys ==> k in info.envVars)
    ensures SavedLines(info, aliasKeys, envKeys) ==
            FixedLines(info) + AliasLines(aliasKeys, info.aliases) + EnvLines(envKeys, info.envVars)
  {
    hide Fixed, FixedLines, Entries, AliasLines, EnvLines, Enumerates;
    Enumerated(aliasKeys, info.aliases);
    Enumerated(envKeys, info.envVars);
    FixedAre(info);
    AliasesAre(aliasKeys, info.aliases);
    VariablesAre(envKeys, info.envVars);
  }

  lemma FixedAre(info: SessionInfo)
    ensures Fixed(info) == FixedLines(info)
  {
    hide Escape, Decimal;
    RecordIs(NAME, Escape(info.name));
    RecordIs(CWD, Escape(info.workingDirectory));
    RecordIs(CREATED, Decimal(info.createdAt));
    RecordIs(LAST_ACTIVE, Decimal(info.lastActive));
    RecordIs(SOCKET, Escape(info.socketPath));
    hide Record;
    var a, b := Fixed(info), FixedLines(info);
    assert a[0] == b[0] && a[1] == b[1] && a[2] == b[2] && a[3] == b[3] && a[4] == b[4];
  }

  lemma {:induction false} AliasesAre(keys: seq<string>, m: map<string, string>)
    requires forall k :: k in keys ==> k in m
    ensures Entries(ALIAS, keys, m) == AliasLines(keys, m)
    decreases |keys|
  {
    hide Escape, Record;
    if keys != [] {
      RecordIs(ALIAS + Escape(keys[0]), Escape(m[keys[0]]));
      AliasesAre(keys[1..], m);
    }
  }

  lemma {:induction false} VariablesAre(keys: seq<string>, m: map<string, string>)
    requires forall k :: k in keys ==> k in m
    ensures Entries(ENV, keys, m) == EnvLines(keys, m)
    decreases |keys|
  {
    hide Escape, Record;
    if keys != [] {
      RecordIs(ENV + Escape(keys[0]), Escape(m[keys[0]]));
      VariablesAre(keys[1..], m);
    }
  }

  /** A line without `=`, or with a key that is none of these, changes nothing. */
  lemma OtherLinesAreSkipped(info: SessionInfo, line: string, key: string, raw: string)
    requires '=' !in line && '=' !in key
    requires key !in {"name", "cwd", "created", "last_active", "socket"}
    requires !("alias:" <= key && key != "alias:") && !("env:" <= key && key != "env:")
    ensures LoadLine(info, line) == info && LoadLine(info, key + "=" + raw) == info
  {
    RecordIs(key, raw);
    assert Separator(line) == |line|;
    LoadRecord(info, key, raw);
    hide Separator, Unescape, Strtoll;
    assert HasPrefix(key, ALIAS) ==> "alias:" <= key;
    assert HasPrefix(key, ENV) ==> "env:" <= key;
  }

  /** Decimal digits, the last one first. */
  lemma DecimalIs(n: nat, d: nat)
    requires d < 10
    ensures Decimal(10 * n + d) == (if n == 0 then "" else Decimal(n)) + [(48 + d) as char]
    ensures Decimal(-(n + 1)) == "-" + Decimal(n + 1)
  {
    assert (10 * n + d) / 10 == n && (10 * n + d) % 10 == d;
  }

  /** Any integer is read as itself, or as the nearest of 64 bits. */
  lemma StrtollSaturates(n: int)
    ensures Strtoll(Decimal(n)) ==
            if n > 9223372036854775807 then 9223372036854775807
            else if n < -9223372036854775808 then -9223372036854775808 else n
  {
    var m := if n < 0 then -n else n;
    ReadsDigits(m, "");
    assert Digits(m) + "" == Digits(m);
    assert IsDigit(Digits(m)[0]);
    if n < 0 { assert Decimal(n)[1..] == Digits(m); }
  }
}
