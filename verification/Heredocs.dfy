/** Heredoc markers and the scan of a line for them. */
module Heredocs {
  import opened Runs
  import opened QuoteStates
  import opened CommandLine

  const BLANKS := {' ', '\t'}
  const DELIM_STOPS := {' ', '\t', '|', '>', '<'}

  // ---- One marker ----

  /** A marker read at `<<`: the delimiter as written, both flags, and the length of its text. */
  datatype Marker = Marker(delim: string, stripTabs: bool, expand: bool, len: nat)

  /** Where the delimiter starts: after `<<`, an optional `-` and blanks. */
  function DelimStart(t: string): (b: nat)
    requires "<<" <= t
    ensures 2 <= b <= |t|
  {
    var a := if |t| > 2 && t[2] == '-' then 3 else 2;
    a + RunIn(t[a..], BLANKS)
  }

  predicate QuotedDelim(t: string)
    requires "<<" <= t
  {
    var b := DelimStart(t);
    b < |t| && (t[b] == '\'' || t[b] == '"')
  }

  function ReadMarker(t: string): (m: Marker)
    requires "<<" <= t
    ensures 2 <= m.len <= |t|
  {
    var strip := |t| > 2 && t[2] == '-';
    var b := DelimStart(t);
    if QuotedDelim(t) then
      var k := RunOut(t[b + 1..], {t[b]});
      Marker(t[b + 1..b + 1 + k], strip, false, if b + 1 + k < |t| then b + 2 + k else b + 1 + k)
    else
      var k := RunOut(t[b..], DELIM_STOPS);
      Marker(t[b..b + k], strip, true, b + k)
  }

  /** The marker, in terms of where its delimiter starts and ends in the line. */
  lemma MarkerInLine(line: string, start: nat, b: nat, k: nat)
    requires start <= b <= |line| && "<<" <= line[start..]
    requires b == start + DelimStart(line[start..])
    requires b < |line| && QuotedDelim(line[start..]) ==> k == b + 1 + RunOut(line[b + 1..], {line[b]})
    requires !QuotedDelim(line[start..]) ==> k == b + RunOut(line[b..], DELIM_STOPS)
    ensures ReadMarker(line[start..]) ==
            if QuotedDelim(line[start..]) then
              Marker(line[b + 1..k], StripFlag(line[start..]), false, (if k < |line| then k + 1 else k) - start)
            else Marker(line[b..k], StripFlag(line[start..]), true, k - start)
  {
    hide RunOut, DelimStart;
    var t := line[start..];
    assert t[b - start..] == line[b..];
    if QuotedDelim(t) {
      assert t[b - start + 1..] == line[b + 1..];
      assert t[b - start + 1..k - start] == line[b + 1..k];
    } else {
      assert t[b - start..k - start] == line[b..k];
    }
  }

  predicate StripFlag(t: string) {
    |t| > 2 && t[2] == '-'
  }

  /** The loop both scanners share, from the index of the `<<`. */
  method ReadMarkerLoop(line: string, start: nat) returns (m: Marker)
    requires start <= |line| && "<<" <= line[start..]
    ensures m == ReadMarker(line[start..])
  {
    hide RunIn, RunOut, ReadMarker;
    ghost var t := line[start..];
    var i := start + 2;
    var strip := false;
    if i < |line| && line[i] == '-' {
      strip := true;
      i := i + 1;
    }
    assert line[i..] == t[i - start..];
    i := SkipIn(line, i, BLANKS);
    ghost var b := i;
    assert b == start + DelimStart(t);
    hide DelimStart;
    var delim: string;
    if i < |line| && (line[i] == '\'' || line[i] == '"') {
      var q := line[i];
      i, delim := TakeOut(line, i + 1, {q});
      MarkerInLine(line, start, b, i);
      if i < |line| { i := i + 1; }
      m := Marker(delim, strip, false, i - start);
    } else {
      i, delim := TakeOut(line, i, DELIM_STOPS);
      MarkerInLine(line, start, b, i);
      m := Marker(delim, strip, true, i - start);
    }
  }

  function Pending(m: Marker): PendingHeredoc {
    PendingHeredoc(m.delim, m.stripTabs, m.expand, "")
  }

  // ---- Scanning a line ----

  function Scan(t: string, q: Quotes): seq<PendingHeredoc>
    decreases |t|
  {
    if t == "" then []
    else if IsBoundary(q, t[0]) then Scan(t[1..], Toggle(q, t[0]))
    else if !q.Active() && "<<" <= t then
      var m := ReadMarker(t);
      (if m.delim != "" then [Pending(m)] else []) + Scan(t[m.len..], q)
    else Scan(t[1..], q)
  }

  /** One unfolding of `Scan`, after what has been found. */
  lemma ScanStep(found: seq<PendingHeredoc>, t: string, q: Quotes)
    requires t != ""
    ensures IsBoundary(q, t[0]) ==> found + Scan(t, q) == found + Scan(t[1..], Toggle(q, t[0]))
    ensures !IsBoundary(q, t[0]) && !q.Active() && "<<" <= t ==>
              var m := ReadMarker(t);
              found + Scan(t, q) == (if m.delim != "" then found + [Pending(m)] else found) + Scan(t[m.len..], q)
    ensures !IsBoundary(q, t[0]) && !(!q.Active() && "<<" <= t) ==> found + Scan(t, q) == found + Scan(t[1..], q)
  {
    hide ReadMarker;
    if !IsBoundary(q, t[0]) && !q.Active() && "<<" <= t {
      var m := ReadMarker(t);
      var rest := Scan(t[m.len..], q);
      assert found + ([Pending(m)] + rest) == found + [Pending(m)] + rest;
      assert [] + rest == rest;
    }
  }

  method ScanPendingHeredocs(line: string) returns (pending: seq<PendingHeredoc>)
    ensures pending == Scan(line, UNQUOTED)
  {
    hide ReadMarker, Scan;
    pending := [];
    var inDouble, inSingle := false, false;
    var i := 0;
    assert line[0..] == line && [] + Scan(line, UNQUOTED) == Scan(line, UNQUOTED);
    while i < |line|
      invariant 0 <= i <= |line|
      invariant pending + Scan(line[i..], Quotes(inSingle, inDouble)) == Scan(line, UNQUOTED)
    {
      var c := line[i];
      ghost var t := line[i..];
      assert t[1..] == line[i + 1..];
      ScanStep(pending, t, Quotes(inSingle, inDouble));
      if c == '"' && !inSingle { inDouble := !inDouble; i := i + 1; continue; }
      if c == '\'' && !inDouble { inSingle := !inSingle; i := i + 1; continue; }
      if !inSingle && !inDouble && "<<" <= line[i..] {
        var m := ReadMarkerLoop(line, i);
        assert t[m.len..] == line[i + m.len..];
        if m.delim != "" { pending := pending + [Pending(m)]; }
        i := i + m.len;
        continue;
      }
      i := i + 1;
    }
    NothingLeft(line[i..], Quotes(inSingle, inDouble));
    assert pending + [] == pending;
  }

  lemma NothingLeft(t: string, q: Quotes)
    requires t == ""
    ensures Scan(t, q) == []
  {
  }
}
