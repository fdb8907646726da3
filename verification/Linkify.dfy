/** Wrapping the URLs of a text in OSC 8 hyperlinks, on whole texts and on output read in pieces. */
module Linkify {
  import opened Text
  import opened Runs

  const ESC := '\U{1B}'
  const URL_STOPS := {' ', '\t', '\n', '\r', '<', '>', '\"'}

  predicate StartsWith(t: string, p: string) {
    |p| <= |t| && t[..|p|] == p
  }

  /** The length of the scheme `t` starts with, or 0. */
  function SchemeLength(t: string): (n: nat)
    ensures n <= |t|
  {
    if StartsWith(t, "https://") then 8 else if StartsWith(t, "http://") then 7 else 0
  }

  /** The length of the URL `t` starts with: a scheme and at least one character before a stop; or 0. */
  function UrlLength(t: string): (n: nat)
    ensures n <= |t|
  {
    var scheme := SchemeLength(t);
    if scheme == 0 then 0
    else
      var body := RunOut(t[scheme..], URL_STOPS);
      if body == 0 then 0 else scheme + body
  }

  const OSC8 := [ESC, ']', '8', ';', ';']
  const TERMINATOR := [ESC, '\\']

  function Link(url: string): string {
    OSC8 + url + TERMINATOR + url + OSC8 + TERMINATOR
  }

  function Linked(t: string): string
    decreases |t|
  {
    if t == "" then ""
    else
      var n := UrlLength(t);
      if n > 0 then Link(t[..n]) + Linked(t[n..]) else [t[0]] + Linked(t[1..])
  }

  predicate IsUrl(token: string) {
    (|token| > 7 && StartsWith(token, "http://")) || (|token| > 8 && StartsWith(token, "https://"))
  }

  // What is wrapped.

  /** Whatever is wrapped is a URL, and the longest one at its place; the check with `is_url` never fails. */
  lemma WrappedIsUrl(t: string)
    requires UrlLength(t) > 0
    ensures IsUrl(t[..UrlLength(t)])
    ensures forall i :: SchemeLength(t) <= i < UrlLength(t) ==> t[i] !in URL_STOPS
    ensures UrlLength(t) < |t| ==> t[UrlLength(t)] in URL_STOPS
  {
    var scheme := SchemeLength(t);
    var body := RunOut(t[scheme..], URL_STOPS);
    forall i | scheme <= i < scheme + body ensures t[i] !in URL_STOPS {
      assert t[scheme..][i - scheme] == t[i];
    }
    assert t[..UrlLength(t)][..scheme] == t[..scheme];
  }

  // The loops.

  /** The first position at or after `from` that starts with a scheme, or the length. */
  method FindUrlStart(text: string, from: nat) returns (h: nat)
    requires from <= |text|
    ensures from <= h <= |text|
    ensures h < |text| ==> SchemeLength(text[h..]) > 0
    ensures forall k :: from <= k < h ==> SchemeLength(text[k..]) == 0
  {
    h := from;
    while h < |text|
      invariant from <= h <= |text|
      invariant forall k :: from <= k < h ==> SchemeLength(text[k..]) == 0
    {
      if StartsWith(text[h..], "http") {
        if StartsWith(text[h..], "http://") || StartsWith(text[h..], "https://") {
          return;
        }
      }
      h := h + 1;
    }
  }

  /** The end of the URL that starts at `start`, unless nothing follows the scheme. */
  method FindUrlEnd(text: string, start: nat) returns (end: Option<nat>)
    requires start <= |text| && SchemeLength(text[start..]) > 0
    ensures end == if UrlLength(text[start..]) == 0 then None else Some(start + UrlLength(text[start..]))
  {
    var schemeEnd := if StartsWith(text[start..], "https://") then start + 8 else start + 7;
    assert schemeEnd == start + SchemeLength(text[start..]);
    assert text[start..][schemeEnd - start..] == text[schemeEnd..];
    if schemeEnd >= |text| { return None; }
    var pos := schemeEnd;
    while pos < |text| && text[pos] !in URL_STOPS
      invariant schemeEnd <= pos <= |text|
      invariant pos + RunOut(text[pos..], URL_STOPS) == schemeEnd + RunOut(text[schemeEnd..], URL_STOPS)
    {
      assert text[pos..][1..] == text[pos + 1..];
      pos := pos + 1;
    }
    if pos <= schemeEnd { return None; }
    return Some(pos);
  }

  lemma {:induction false} LinkedSkip(text: string, pos: nat, h: nat)
    requires pos <= h <= |text|
    requires forall k :: pos <= k < h ==> SchemeLength(text[k..]) == 0
    ensures Linked(text[pos..]) == text[pos..h] + Linked(text[h..])
    decreases h - pos
  {
    if pos < h {
      assert UrlLength(text[pos..]) == 0 by { assert SchemeLength(text[pos..]) == 0; }
      hide Linked, UrlLength, SchemeLength;
      LinkedSkip(text, pos + 1, h);
      FirstOf(text, pos, h);
      LinkedPlain(text[pos..], text[pos], text[pos + 1..]);
      MovePiece([text[pos]], text[pos + 1..h], Linked(text[h..]), Linked(text[pos..]));
    } else {
      hide Linked, UrlLength, SchemeLength;
      assert text[pos..h] == "";
    }
  }

  lemma FirstOf(text: string, pos: nat, h: nat)
    requires pos < h <= |text|
    ensures text[pos..] == [text[pos]] + text[pos + 1..] && text[pos..h] == [text[pos]] + text[pos + 1..h]
  {
  }

  lemma LinkedUrl(t: string, url: string, rest: string)
    requires t == url + rest && UrlLength(t) == |url| > 0
    ensures Linked(t) == Link(url) + Linked(rest)
  {
    hide UrlLength, Link;
    assert t[..|url|] == url && t[|url|..] == rest;
  }

  lemma LinkedPlain(t: string, c: char, rest: string)
    requires t == [c] + rest && UrlLength(t) == 0
    ensures Linked(t) == [c] + Linked(rest)
  {
    hide UrlLength, Link;
    assert t[1..] == rest;
  }

  method LinkifyUrls(text: string) returns (result: string)
    ensures result == Linked(text)
  {
    result := "";
    var pos := 0;
    assert text[0..] == text && Linked("") == "";
    hide Linked, UrlLength, SchemeLength, Link, IsUrl;
    while pos < |text|
      invariant 0 <= pos <= |text|
      invariant result + Linked(text[pos..]) == Linked(text)
    {
      var urlStart := FindUrlStart(text, pos);
      LinkedSkip(text, pos, urlStart);
      MovePiece(result, text[pos..urlStart], Linked(text[urlStart..]), Linked(text));
      result := result + text[pos..urlStart];
      if urlStart == |text| {
        pos := urlStart;
        break;
      }
      result, pos := LinkifyOne(text, urlStart, result);
    }
    assert text[pos..] == "";
    assert result + "" == result;
  }

  /** What the loop does at a scheme. */
  method LinkifyOne(text: string, urlStart: nat, done: string) returns (result: string, pos: nat)
    requires urlStart < |text| && SchemeLength(text[urlStart..]) > 0
    ensures urlStart < pos <= |text|
    ensures result + Linked(text[pos..]) == done + Linked(text[urlStart..])
  {
    ghost var t := text[urlStart..];
    ghost var n := UrlLength(t);
    ghost var total := done + Linked(text[urlStart..]);
    var urlEnd := FindUrlEnd(text, urlStart);
    hide Linked, UrlLength, SchemeLength, Link, IsUrl;
    if urlEnd.None? {
      LinkedPlain(t, text[urlStart], text[urlStart + 1..]);
      MovePiece(done, [text[urlStart]], Linked(text[urlStart + 1..]), total);
      return done + [text[urlStart]], urlStart + 1;
    }
    pos := urlEnd.value;
    var url := text[urlStart..pos];
    ReallyUrl(text, urlStart);
    LinkedUrl(t, url, text[pos..]);
    MovePiece(done, Link(url), Linked(text[pos..]), total);
    if IsUrl(url) {
      var link := Wrap(url);
      result := done + link;
    } else {
      result := done + url;
    }
  }

  /** The appends that make one link. */
  method Wrap(url: string) returns (link: string)
    ensures link == Link(url)
  {
    link := OSC8;
    link := link + url;
    link := link + TERMINATOR;
    link := link + url;
    link := link + (OSC8 + TERMINATOR);
    assert OSC8 + url + TERMINATOR + url + (OSC8 + TERMINATOR) == Link(url);
  }

  lemma ReallyUrl(text: string, start: nat)
    requires start <= |text| && UrlLength(text[start..]) > 0
    ensures IsUrl(text[start..start + UrlLength(text[start..])])
  {
    WrappedIsUrl(text[start..]);
    assert text[start..][..UrlLength(text[start..])] == text[start..start + UrlLength(text[start..])];
  }

  // Line breaks.

  /** Text ending in a newline. */
  predicate EndsLine(s: string) {
    s != "" && s[|s| - 1] == '\n'
  }

  lemma SchemeStopsAtNewline(line: string, rest: string)
    requires EndsLine(line)
    ensures SchemeLength(line + rest) == SchemeLength(line)
  {
    var n := |line| - 1;
    assert (line + rest)[n] == '\n';
    StartsBeforeNewline(line, rest, "https://");
    StartsBeforeNewline(line, rest, "http://");
    hide StartsWith;
  }

  lemma StartsBeforeNewline(line: string, rest: string, p: string)
    requires EndsLine(line) && '\n' !in p
    ensures StartsWith(line + rest, p) == StartsWith(line, p)
  {
    var n := |line| - 1;
    if |p| <= |line| {
      assert (line + rest)[..|p|] == line[..|p|];
    } else {
      assert p[n] in p;
      assert |p| <= |line + rest| ==> (line + rest)[..|p|][n] == '\n';
    }
  }

  lemma UrlStopsAtNewline(line: string, rest: string)
    requires EndsLine(line)
    ensures UrlLength(line + rest) == UrlLength(line)
  {
    SchemeStopsAtNewline(line, rest);
    hide SchemeLength;
    var scheme := SchemeLength(line);
    var a, b := line[scheme..], (line + rest)[scheme..];
    assert b == a + rest;
    if a != "" {
      assert a[|a| - 1] == '\n';
      assert RunOut(a, URL_STOPS) < |a|;
      RunOutIs(b, URL_STOPS, RunOut(a, URL_STOPS));
    }
  }

  lemma JoinUrl(line: string, url: string, tail: string, rest: string)
    requires line == url + tail && UrlLength(line) == UrlLength(line + rest) == |url| > 0
    requires Linked(tail + rest) == Linked(tail) + Linked(rest)
    ensures Linked(line + rest) == Linked(line) + Linked(rest)
  {
    hide UrlLength, Link, Linked;
    LinkedUrl(line, url, tail);
    assert line + rest == url + (tail + rest);
    LinkedUrl(line + rest, url, tail + rest);
    MovePiece(Link(url), Linked(tail), Linked(rest), Linked(line + rest));
  }

  lemma JoinPlain(line: string, c: char, tail: string, rest: string)
    requires line == [c] + tail && UrlLength(line) == UrlLength(line + rest) == 0
    requires Linked(tail + rest) == Linked(tail) + Linked(rest)
    ensures Linked(line + rest) == Linked(line) + Linked(rest)
  {
    hide UrlLength, Link, Linked;
    LinkedPlain(line, c, tail);
    assert line + rest == [c] + (tail + rest);
    LinkedPlain(line + rest, c, tail + rest);
    MovePiece([c], Linked(tail), Linked(rest), Linked(line + rest));
  }

  lemma LinkedNothing(rest: string)
    ensures Linked("") == "" && "" + rest == rest
  {
  }

  lemma TailEndsLine(line: string, n: nat)
    requires EndsLine(line) && n < |line|
    ensures EndsLine(line[n..]) && line == line[..n] + line[n..]
  {
  }

  /** Line by line is the same as at once. */
  lemma {:induction false} LinkedAfterLine(line: string, rest: string)
    requires line == "" || EndsLine(line)
    ensures Linked(line + rest) == Linked(line) + Linked(rest)
    decreases |line|
  {
    hide UrlLength, Linked, EndsLine;
    if line == "" {
      LinkedNothing(rest);
    } else {
      var n := UrlLength(line);
      UrlStopsAtNewline(line, rest);
      if n > 0 {
        NewlineIsNotWrapped(line);
        TailEndsLine(line, n);
        LinkedAfterLine(line[n..], rest);
        JoinUrl(line, line[..n], line[n..], rest);
      } else {
        if |line| > 1 { TailEndsLine(line, 1); } else { assert line[1..] == ""; }
        LinkedAfterLine(line[1..], rest);
        JoinPlain(line, line[0], line[1..], rest);
      }
    }
  }

  lemma NewlineIsNotWrapped(line: string)
    requires EndsLine(line) && UrlLength(line) > 0
    ensures UrlLength(line) < |line|
  {
    WrappedIsUrl(line);
  }

  // The output of a foreground command, read in pieces.

  /** The first newline at or after `start`, or the length. */
  method FindNewline(s: string, start: nat) returns (nl: nat)
    requires start <= |s|
    ensures start <= nl <= |s| && (nl < |s| ==> s[nl] == '\n')
    ensures '\n' !in s[start..nl]
  {
    nl := start;
    while nl < |s| && s[nl] != '\n'
      invariant start <= nl <= |s| && '\n' !in s[start..nl]
    {
      nl := nl + 1;
    }
  }

  /** What has been written is the linked form of the complete lines read so far. */
  predicate Printed(written: string, lines: string) {
    (lines == "" || EndsLine(lines)) && written == Linked(lines)
  }

  lemma PrintedLine(written: string, lines: string, line: string)
    requires Printed(written, lines) && EndsLine(line)
    ensures Printed(written + Linked(line), lines + line)
  {
    hide Linked;
    assert (lines + line)[|lines + line| - 1] == line[|line| - 1];
    LinkedAfterLine(lines, line);
  }

  lemma PrintedAll(written: string, lines: string, tail: string)
    requires Printed(written, lines)
    ensures written + Linked(tail) == Linked(lines + tail)
  {
    LinkedAfterLine(lines, tail);
  }

  lemma CutLine(s: string, start: nat, nl: nat)
    requires start <= nl < |s| && s[nl] == '\n'
    ensures s[start..] == s[start..nl + 1] + s[nl + 1..] && EndsLine(s[start..nl + 1])
  {
  }

  /** Writes the complete lines of the carry and keeps the rest. */
  method PrintLines(carry: string, written: string, ghost lines: string)
    returns (left: string, out: string, ghost printed: string)
    requires Printed(written, lines)
    ensures Printed(out, printed) && lines + carry == printed + left
  {
    out, printed := written, lines;
    var start := 0;
    hide Printed, Linked, EndsLine;
    assert carry[0..] == carry;
    while true
      invariant 0 <= start <= |carry| && Printed(out, printed)
      invariant lines + carry == printed + carry[start..]
      decreases |carry| - start
    {
      var nl := FindNewline(carry, start);
      if nl == |carry| { break; }
      var line := carry[start..nl + 1];
      CutLine(carry, start, nl);
      PrintedLine(out, printed, line);
      MovePiece(printed, line, carry[nl + 1..], lines + carry);
      var linked := LinkifyUrls(line);
      out, printed := out + linked, printed + line;
      start := nl + 1;
    }
    left := carry[start..];
  }

  /** However the reads cut the output, what is written is the linked form of all of it. */
  method CopyLinked(chunks: seq<string>) returns (written: string)
    ensures written == Linked(Concat(chunks))
  {
    written := "";
    var carry := "";
    ghost var lines := "";
    assert chunks[..0] == [];
    NoParts();
    hide Linked, Concat;
    var k := 0;
    assert Printed("", "") by { LinkedNothing(""); }
    while k < |chunks|
      invariant 0 <= k <= |chunks| && Printed(written, lines)
      invariant lines + carry == Concat(chunks[..k])
    {
      hide Printed;
      ConcatSnoc(chunks[..k], chunks[k]);
      assert chunks[..k + 1] == chunks[..k] + [chunks[k]];
      assert lines + (carry + chunks[k]) == (lines + carry) + chunks[k];
      carry := carry + chunks[k];
      carry, written, lines := PrintLines(carry, written, lines);
      k := k + 1;
    }
    assert chunks[..k] == chunks;
    PrintedAll(written, lines, carry);
    if carry != "" {
      var linked := LinkifyUrls(carry);
      written := written + linked;
    } else {
      LinkedNothing("");
      assert written + "" == written;
    }
  }

  // Deleting the hyperlink sequences again.

  /** What follows the first terminator, if there is one. */
  function AfterTerminator(s: string): (r: string)
    ensures |r| <= |s|
  {
    if s == "" then "" else if StartsWith(s, TERMINATOR) then s[2..] else AfterTerminator(s[1..])
  }

  /** Deletes each OSC 8 sequence up to its terminator. */
  function StripOsc(s: string): string
    decreases |s|
  {
    if s == "" then ""
    else if StartsWith(s, OSC8) then StripOsc(AfterTerminator(s[|OSC8|..]))
    else [s[0]] + StripOsc(s[1..])
  }

  lemma {:induction false} FindsTerminator(u: string, rest: string)
    requires ESC !in u
    ensures AfterTerminator(u + (TERMINATOR + rest)) == rest
    decreases |u|
  {
    var s := u + (TERMINATOR + rest);
    if u == "" {
      assert s == TERMINATOR + rest;
      assert s[2..] == rest;
    } else {
      assert s[0] == u[0] && u[0] in u;
      assert s[1..] == u[1..] + (TERMINATOR + rest);
      FindsTerminator(u[1..], rest);
    }
  }

  lemma {:induction false} StripPlain(u: string, rest: string)
    requires ESC !in u
    ensures StripOsc(u + rest) == u + StripOsc(rest)
    decreases |u|
  {
    if u == "" {
      assert u + rest == rest;
    } else {
      var s := u + rest;
      assert s[0] == u[0] && u[0] in u && s[1..] == u[1..] + rest;
      assert !StartsWith(s, OSC8);
      StripPlain(u[1..], rest);
      hide StripOsc;
      assert u + StripOsc(rest) == [u[0]] + (u[1..] + StripOsc(rest));
    }
  }

  /** An opening or closing sequence disappears. */
  lemma StripSequence(u: string, rest: string)
    requires ESC !in u
    ensures StripOsc(OSC8 + (u + (TERMINATOR + rest))) == StripOsc(rest)
  {
    var s := OSC8 + (u + (TERMINATOR + rest));
    FindsTerminator(u, rest);
    assert s[..|OSC8|] == OSC8 && s[|OSC8|..] == u + (TERMINATOR + rest);
    hide AfterTerminator;
  }

  lemma StripLink(u: string, rest: string)
    requires ESC !in u
    ensures StripOsc(Link(u) + rest) == u + StripOsc(rest)
  {
    var closing := OSC8 + ("" + (TERMINATOR + rest));
    var shown := u + closing;
    assert Link(u) + rest == OSC8 + (u + (TERMINATOR + shown));
    StripSequence(u, shown);
    StripPlain(u, closing);
    StripSequence("", rest);
  }

  /** On text without ESC, deleting the hyperlink sequences gives the text back. */
  lemma {:induction false} StripRestores(t: string)
    requires ESC !in t
    ensures StripOsc(Linked(t)) == t
    decreases |t|
  {
    if t != "" {
      var n := UrlLength(t);
      hide UrlLength, Link, StripOsc, Linked;
      if n > 0 {
        var url, rest := t[..n], t[n..];
        LinkedUrl(t, url, rest);
        StripLink(url, Linked(rest));
        StripRestores(rest);
      } else {
        var rest := t[1..];
        LinkedPlain(t, t[0], rest);
        StripPlain([t[0]], Linked(rest));
        StripRestores(rest);
      }
    }
  }

  // Texts in pieces.

  /** A character, or a URL with its scheme and what follows it. */
  datatype Chunk = Other(c: char) | Url(secure: bool, body: string)

  function Print(chunks: seq<Chunk>): string {
    if chunks == [] then "" else PrintOne(chunks[0]) + Print(chunks[1..])
  }

  function PrintOne(chunk: Chunk): string {
    match chunk
    case Other(c) => [c]
    case Url(secure, body) => (if secure then "https://" else "http://") + body
  }

  /** Space, tab, newline, CR, `<`, `>` and `"`. */
  predicate Stops(c: char) {
    c as int in {32, 9, 10, 13, 60, 62, 34}
  }

  /** A scheme with a character after it that belongs to the URL. */
  predicate UrlStarts(t: string) {
    || ("http://" <= t && |t| > 7 && !Stops(t[7]))
    || ("https://" <= t && |t| > 8 && !Stops(t[8]))
  }

  /** Other characters start no URL, and URLs go on to a stop or the end. */
  predicate Divided(chunks: seq<Chunk>)
    decreases |chunks|
  {
    chunks == [] ||
    (Divided(chunks[1..]) &&
     match chunks[0]
     case Other(c) => !UrlStarts(Print(chunks))
     case Url(_, body) =>
       && body != "" && (forall i :: 0 <= i < |body| ==> !Stops(body[i]))
       && (Print(chunks[1..]) == "" || Stops(Print(chunks[1..])[0])))
  }

  /** Each URL as the target of a hyperlink and as its text: ESC ] 8 ; ; target ESC \ text ESC ] 8 ; ; ESC \. */
  function PrintLinks(chunks: seq<Chunk>): string {
    if chunks == [] then "" else PrintLink(chunks[0]) + PrintLinks(chunks[1..])
  }

  function PrintLink(chunk: Chunk): string {
    if chunk.Other? then PrintOne(chunk)
    else
      var url := PrintOne(chunk);
      [27 as char] + "]8;;" + url + [27 as char, 92 as char] + url + [27 as char] + "]8;;" + [27 as char, 92 as char]
  }

  lemma StopsAre(c: char)
    ensures c in URL_STOPS <==> Stops(c)
  {
  }

  lemma StartsWithIs(t: string, p: string)
    ensures StartsWith(t, p) <==> p <= t
  {
  }

  lemma NoUrlThere(t: string)
    requires !UrlStarts(t)
    ensures UrlLength(t) == 0
  {
    var scheme := SchemeLength(t);
    StartsWithIs(t, "https://");
    StartsWithIs(t, "http://");
    hide StartsWith;
    if scheme > 0 && scheme < |t| {
      StopsAre(t[scheme]);
      assert t[scheme..][0] == t[scheme];
    }
  }

  lemma UrlThere(secure: bool, body: string, rest: string)
    requires body != "" && (forall i :: 0 <= i < |body| ==> !Stops(body[i])) && (rest == "" || Stops(rest[0]))
    ensures UrlLength(PrintOne(Url(secure, body)) + rest) == |PrintOne(Url(secure, body))|
  {
    var scheme := if secure then "https://" else "http://";
    var t := scheme + body + rest;
    SchemeThere(secure, body + rest);
    assert scheme + (body + rest) == t && t[|scheme|..] == body + rest;
    forall i | 0 <= i < |body| ensures (body + rest)[i] !in URL_STOPS { StopsAre(body[i]); }
    if rest != "" { StopsAre(rest[0]); }
    RunOutIs(body + rest, URL_STOPS, |body|);
    hide RunOut, SchemeLength;
  }

  lemma SchemeThere(secure: bool, t: string)
    ensures SchemeLength((if secure then "https://" else "http://") + t) == if secure then 8 else 7
  {
    var all := (if secure then "https://" else "http://") + t;
    StartsWithIs(all, "https://");
    StartsWithIs(all, "http://");
    hide StartsWith;
    if !secure { assert all[4] == ':'; }
  }

  /** Every URL becomes a hyperlink to itself, and every other character stays. */
  lemma {:induction false} LinksAreWritten(chunks: seq<Chunk>)
    requires Divided(chunks)
    ensures Linked(Print(chunks)) == PrintLinks(chunks)
    decreases |chunks|
  {
    hide Linked, UrlLength, UrlStarts, PrintLink;
    if chunks == [] {
      LinkedNothing("");
    } else {
      var t, rest := Print(chunks), Print(chunks[1..]);
      LinksAreWritten(chunks[1..]);
      match chunks[0] {
        case Other(c) =>
          NoUrlThere(t);
          LinkedPlain(t, c, rest);
          OtherStays(c);
        case Url(secure, body) =>
          UrlThere(secure, body, rest);
          LinkedUrl(t, PrintOne(chunks[0]), rest);
          LinkIs(chunks[0]);
      }
    }
  }

  lemma OtherStays(c: char)
    ensures PrintLink(Other(c)) == [c]
  {
  }

  lemma LinkIs(chunk: Chunk)
    requires chunk.Url?
    ensures Link(PrintOne(chunk)) == PrintLink(chunk)
  {
    hide PrintOne;
    assert OSC8 == [27 as char] + "]8;;" && TERMINATOR == [27 as char, 92 as char];
    Bracketed([27 as char], "]8;;", TERMINATOR, PrintOne(chunk));
  }

  lemma Bracketed(escape: string, sign: string, terminator: string, url: string)
    ensures (escape + sign) + url + terminator + url + (escape + sign) + terminator ==
            escape + sign + url + terminator + url + escape + sign + terminator
  {
    var start := escape + sign + url + terminator + url;
    assert start + (escape + sign) == start + escape + sign;
  }
}
