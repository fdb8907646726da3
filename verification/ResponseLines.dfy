/**
 The write callback of the streaming transport: it cuts the received bytes into lines, hands
 each complete line to `parse_line` and accumulates the text that comes back.
 */
module ResponseLines {
  import opened Text
  import opened Lines

  function ChopCR(line: string): string {
    if line != "" && line[|line| - 1] == '\r' then line[..|line| - 1] else line
  }

  /** The non-empty texts that `parse` extracts from the lines, in order. */
  function Extracted(lines: seq<string>, parse: string -> string): seq<string> {
    if lines == [] then [] else
      var text := parse(ChopCR(lines[0]));
      (if text != "" then [text] else []) + Extracted(lines[1..], parse)
  }

  lemma ExtractedCons(line: string, lines: seq<string>, parse: string -> string)
    ensures Extracted([line] + lines, parse) ==
            (if parse(ChopCR(line)) != "" then [parse(ChopCR(line))] else []) + Extracted(lines, parse)
  {
    assert ([line] + lines)[1..] == lines;
  }

  /** Taking the first line off a buffer, in the terms of the loop that does it. */
  lemma FirstLineFirst(line: string, rest: string, acc: string, chunks: seq<string>, parse: string -> string)
    requires '\n' !in line
    ensures var text := parse(ChopCR(line));
            var all, left := SplitLines(line + ("\n" + rest)), SplitLines(rest);
            && all.tail == left.tail
            && chunks + Extracted(all.lines, parse) ==
               chunks + (if text != "" then [text] else []) + Extracted(left.lines, parse)
            && acc + Concat(Extracted(all.lines, parse)) == acc + text + Concat(Extracted(left.lines, parse))
  {
    hide SplitLines, Extracted, ChopCR;
    SplitAtNewline(line, rest);
    ExtractedCons(line, SplitLines(rest).lines, parse);
    var text := parse(ChopCR(line));
    var later := Extracted(SplitLines(rest).lines, parse);
    if text != "" {
      assert ([text] + later)[1..] == later;
      assert acc + (text + Concat(later)) == acc + text + Concat(later);
      assert chunks + ([text] + later) == chunks + [text] + later;
    } else {
      assert [] + later == later && chunks + [] == chunks && acc + text == acc;
    }
  }

  lemma ChopIs(line: string)
    ensures ChopCR(line) == if line != "" && line[|line| - 1] == '\r' then line[..|line| - 1] else line
  {
  }

  lemma NothingExtracted(acc: string, chunks: seq<string>, parse: string -> string)
    ensures chunks + Extracted([], parse) == chunks && acc + Concat(Extracted([], parse)) == acc
  {
  }

  lemma {:induction false} ExtractedAppend(a: seq<string>, b: seq<string>, parse: string -> string)
    ensures Extracted(a + b, parse) == Extracted(a, parse) + Extracted(b, parse)
  {
    if a == [] {
      assert a + b == b;
    } else {
      assert (a + b)[1..] == a[1..] + b;
      ExtractedAppend(a[1..], b, parse);
    }
  }

  /** The concatenation of `parse` over all lines: empty results change nothing. */
  function ParsedText(lines: seq<string>, parse: string -> string): string {
    if lines == [] then "" else parse(ChopCR(lines[0])) + ParsedText(lines[1..], parse)
  }

  lemma {:induction false} ExtractedIsParsed(lines: seq<string>, parse: string -> string)
    ensures Concat(Extracted(lines, parse)) == ParsedText(lines, parse)
  {
    if lines != [] {
      ExtractedIsParsed(lines[1..], parse);
      var text := parse(ChopCR(lines[0]));
      if text != "" {
        assert Extracted(lines, parse)[1..] == Extracted(lines[1..], parse);
      } else {
        assert Extracted(lines, parse) == Extracted(lines[1..], parse);
      }
    }
  }

  // ---- The context of one transfer ----

  datatype Context = Context(
    buffer: string, accumulated: string, chunks: seq<string>, totalBytes: nat, overflowed: bool)

  const FRESH := Context("", "", [], 0, false)

  /** One callback: nothing but the byte count moves when the cap is passed. */
  function OnData(c: Context, data: string, cap: nat, parse: string -> string): Context {
    var total := c.totalBytes + |data|;
    if total > cap then c.(totalBytes := total, overflowed := true)
    else
      var r := SplitLines(c.buffer + data);
      var texts := Extracted(r.lines, parse);
      Context(r.tail, c.accumulated + Concat(texts), c.chunks + texts, total, c.overflowed)
  }

  function OnAll(c: Context, cuts: seq<string>, cap: nat, parse: string -> string): Context
    decreases |cuts|
  {
    if cuts == [] then c else OnAll(OnData(c, cuts[0], cap, parse), cuts[1..], cap, parse)
  }

  /** The context after receiving `seen` in full. */
  function Received(seen: string, parse: string -> string): Context {
    var r := SplitLines(seen);
    Context(r.tail, ParsedText(r.lines, parse), Extracted(r.lines, parse), |seen|, false)
  }

  lemma OneMoreCut(seen: string, data: string, cap: nat, parse: string -> string)
    requires |seen| + |data| <= cap
    ensures OnData(Received(seen, parse), data, cap, parse) == Received(seen + data, parse)
  {
    hide SplitLines, Extracted, ParsedText, Concat;
    var x, y := SplitLines(seen), SplitLines(SplitLines(seen).tail + data);
    SplitAppend(seen, data);
    ExtractedAppend(x.lines, y.lines, parse);
    ConcatAppend(Extracted(x.lines, parse), Extracted(y.lines, parse));
    ExtractedIsParsed(x.lines, parse);
    ExtractedIsParsed(x.lines + y.lines, parse);
  }

  lemma {:induction false} CutsContinue(seen: string, cuts: seq<string>, cap: nat, parse: string -> string)
    requires |seen| + |Concat(cuts)| <= cap
    ensures OnAll(Received(seen, parse), cuts, cap, parse) == Received(seen + Concat(cuts), parse)
    decreases |cuts|
  {
    hide OnData, Received;
    if cuts == [] {
      assert seen + "" == seen;
    } else {
      OneMoreCut(seen, cuts[0], cap, parse);
      CutsContinue(seen + cuts[0], cuts[1..], cap, parse);
      assert seen + cuts[0] + Concat(cuts[1..]) == seen + Concat(cuts);
    }
  }

  /**
   However the transport cuts a response below the cap, the accumulated text is `parse` over the
   complete lines of the whole response, one trailing CR off each, the callback got its non-empty
   parts, and the buffer holds exactly the unterminated tail.
   */
  lemma CutsDoNotMatter(cuts: seq<string>, cap: nat, parse: string -> string)
    requires |Concat(cuts)| <= cap
    ensures var all := SplitLines(Concat(cuts));
            OnAll(FRESH, cuts, cap, parse) ==
            Context(all.tail, ParsedText(all.lines, parse), Extracted(all.lines, parse), |Concat(cuts)|, false)
  {
    SplitWithoutNewline("");
    CutsContinue("", cuts, cap, parse);
    assert "" + Concat(cuts) == Concat(cuts);
  }

  class StreamContext {
    var buffer: string
    var accumulated: string
    var chunks: seq<string>
    var totalBytes: nat
    var overflowed: bool
    const parseLine: string -> string
    const cap: nat

    ghost function Fields(): Context
      reads this
    {
      Context(buffer, accumulated, chunks, totalBytes, overflowed)
    }

    constructor (parseLine: string -> string, cap: nat)
      ensures Fields() == FRESH && this.parseLine == parseLine && this.cap == cap
    {
      buffer, accumulated, chunks, totalBytes, overflowed := "", "", [], 0, false;
      this.parseLine := parseLine;
      this.cap := cap;
    }

    /** Keeps a non-empty text and passes it to the callback. */
    method Deliver(text: string)
      modifies `accumulated, `chunks
      ensures accumulated == old(accumulated) + text
      ensures chunks == old(chunks) + if text != "" then [text] else []
    {
      if text != "" {
        accumulated := accumulated + text;
        chunks := chunks + [text];
      } else {
        assert accumulated + "" == accumulated;
      }
    }

    /** The loop over the complete lines of the buffer. */
    method DrainLines()
      modifies `buffer, `accumulated, `chunks
      ensures buffer == SplitLines(old(buffer)).tail
      ensures accumulated == old(accumulated) + Concat(Extracted(SplitLines(old(buffer)).lines, parseLine))
      ensures chunks == old(chunks) + Extracted(SplitLines(old(buffer)).lines, parseLine)
    {
      hide SplitLines, FirstNewline, Concat, Extracted, ChopCR;
      var pos := FirstNewline(buffer);
      while pos < |buffer|
        invariant pos == FirstNewline(buffer)
        invariant SplitLines(buffer).tail == SplitLines(old(buffer)).tail
        invariant chunks + Extracted(SplitLines(buffer).lines, parseLine) ==
                  old(chunks) + Extracted(SplitLines(old(buffer)).lines, parseLine)
        invariant accumulated + Concat(Extracted(SplitLines(buffer).lines, parseLine)) ==
                  old(accumulated) + Concat(Extracted(SplitLines(old(buffer)).lines, parseLine))
        decreases |buffer|
      {
        var line := buffer[..pos];
        ghost var rest := buffer[pos + 1..];
        assert buffer == line + ("\n" + rest);
        FirstLineFirst(line, rest, accumulated, chunks, parseLine);
        buffer := buffer[pos + 1..];
        ChopIs(line);
        if line != "" && line[|line| - 1] == '\r' { line := line[..|line| - 1]; }
        Deliver(parseLine(line));
        pos := FirstNewline(buffer);
      }
      assert buffer[..|buffer|] == buffer;
      SplitWithoutNewline(buffer);
      NothingExtracted(accumulated, chunks, parseLine);
    }

    /** Returns the number of bytes taken; anything but `|data|` aborts the transfer. */
    method WriteCallback(data: string) returns (taken: nat)
      modifies this
      ensures Fields() == OnData(old(Fields()), data, cap, parseLine)
      ensures taken == if old(totalBytes) + |data| > cap then 0 else |data|
    {
      totalBytes := totalBytes + |data|;
      if totalBytes > cap {
        overflowed := true;
        return 0;
      }
      buffer := buffer + data;
      DrainLines();
      return |data|;
    }
  }

  // ---- Carriage returns and the cap, spelled out ----

  /** One trailing CR is not handed to `parse_line`; any other line is handed over as it is. */
  lemma LineIsHandedOver(line: string, parse: string -> string)
    ensures Extracted([line + [13 as char]], parse) == if parse(line) == "" then [] else [parse(line)]
    ensures line == "" || line[|line| - 1] as int != 13 ==>
              Extracted([line], parse) == if parse(line) == "" then [] else [parse(line)]
  {
    var long := line + [13 as char];
    assert long[..|long| - 1] == line;
    NothingExtracted("", [], parse);
    assert [long][1..] == [] && [line][1..] == [];
    assert [parse(line)] + [] == [parse(line)];
  }

  /** Data that passes the cap is counted and dropped; the mark stays. */
  lemma PassingTheCap(c: Context, data: string, cap: nat, parse: string -> string)
    ensures var d := OnData(c, data, cap, parse);
            && d.totalBytes == c.totalBytes + |data|
            && (c.totalBytes + |data| > cap ==>
                  d.overflowed && d.buffer == c.buffer && d.accumulated == c.accumulated && d.chunks == c.chunks)
            && (c.totalBytes + |data| <= cap ==> d.overflowed == c.overflowed)
  {
    hide SplitLines, Extracted;
  }
}
