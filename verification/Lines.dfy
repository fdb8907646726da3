/** Cutting a text into its lines. */
module Lines {

  /** The complete lines of a text and the unterminated rest. */
  datatype Split = Split(lines: seq<string>, tail: string)

  /** The position of the first newline, or the length when there is none. */
  function FirstNewline(s: string): (k: nat)
    ensures k <= |s| && '\n' !in s[..k] && (k < |s| ==> s[k] == '\n')
  {
    if s == "" then 0
    else if s[0] == '\n' then 0
    else
      var k := FirstNewline(s[1..]) + 1;
      assert s[..k] == [s[0]] + s[1..][..k - 1];
      k
  }

  function SplitLines(s: string): Split
    decreases |s|
  {
    var k := FirstNewline(s);
    if k == |s| then Split([], s)
    else
      var rest := SplitLines(s[k + 1..]);
      Split([s[..k]] + rest.lines, rest.tail)
  }

  lemma FirstNewlineIn(line: string, rest: string)
    requires '\n' !in line
    ensures FirstNewline(line + ("\n" + rest)) == |line|
  {
    var s := line + ("\n" + rest);
    var k := FirstNewline(s);
    hide FirstNewline;
    assert forall i :: 0 <= i < |line| ==> s[i] == line[i] && line[i] in line;
    assert s[|line|] == '\n';
    forall i | 0 <= i < k ensures s[i] != '\n' {
      assert s[..k][i] in s[..k];
    }
  }

  lemma SplitAtNewline(line: string, rest: string)
    requires '\n' !in line
    ensures SplitLines(line + ("\n" + rest)) == Split([line] + SplitLines(rest).lines, SplitLines(rest).tail)
  {
    var s := line + ("\n" + rest);
    FirstNewlineIn(line, rest);
    hide FirstNewline;
    assert s[..|line|] == line && s[|line| + 1..] == rest;
  }

  lemma SplitWithoutNewline(s: string)
    requires '\n' !in s
    ensures SplitLines(s) == Split([], s)
  {
    var k := FirstNewline(s);
    hide FirstNewline;
    assert forall i :: 0 <= i < |s| ==> s[i] in s;
  }

  /** Either no newline, or a first line and a rest. */
  lemma Cut(s: string) returns (line: string, rest: string)
    requires '\n' in s
    ensures s == line + ("\n" + rest) && '\n' !in line
  {
    var k := FirstNewline(s);
    hide FirstNewline;
    assert s[..|s|] == s;
    line, rest := s[..k], s[k + 1..];
  }

  function Unsplit(lines: seq<string>, tail: string): string {
    if lines == [] then tail else lines[0] + ("\n" + Unsplit(lines[1..], tail))
  }

  /** Nothing is lost: with the newlines put back the text returns, and no newline is left in a part. */
  lemma {:induction false} SplitIsExact(s: string)
    ensures Unsplit(SplitLines(s).lines, SplitLines(s).tail) == s
    ensures '\n' !in SplitLines(s).tail
    ensures forall i :: 0 <= i < |SplitLines(s).lines| ==> '\n' !in SplitLines(s).lines[i]
    decreases |s|
  {
    hide SplitLines;
    if '\n' in s {
      var line, rest := Cut(s);
      SplitAtNewline(line, rest);
      SplitIsExact(rest);
      assert SplitLines(s).lines[1..] == SplitLines(rest).lines;
    } else {
      SplitWithoutNewline(s);
    }
  }

  /** Splitting a joined text continues splitting from the tail of the first part. */
  lemma {:induction false} SplitAppend(a: string, b: string)
    ensures SplitLines(a + b).lines == SplitLines(a).lines + SplitLines(SplitLines(a).tail + b).lines
    ensures SplitLines(a + b).tail == SplitLines(SplitLines(a).tail + b).tail
    decreases |a|
  {
    hide SplitLines;
    if '\n' in a {
      var line, rest := Cut(a);
      assert a + b == line + ("\n" + (rest + b));
      SplitAtNewline(line, rest);
      SplitAtNewline(line, rest + b);
      SplitAppend(rest, b);
    } else {
      SplitWithoutNewline(a);
    }
  }

  /** Lines written one after the other are read back. */
  lemma {:induction false} SplitUnsplit(lines: seq<string>, tail: string)
    requires '\n' !in tail && forall i :: 0 <= i < |lines| ==> '\n' !in lines[i]
    ensures SplitLines(Unsplit(lines, tail)) == Split(lines, tail)
  {
    hide SplitLines, FirstNewline;
    if lines == [] {
      SplitWithoutNewline(tail);
    } else {
      var rest := lines[1..];
      assert lines == [lines[0]] + rest;
      SplitUnsplit(rest, tail);
      SplitAtNewline(lines[0], Unsplit(rest, tail));
    }
  }

  lemma {:induction false} UnsplitSnoc(lines: seq<string>, line: string)
    ensures Unsplit(lines + [line], "") == Unsplit(lines, "") + (line + "\n")
  {
    var all := lines + [line];
    if lines == [] {
      assert all[1..] == [];
      assert line + ("\n" + "") == "" + (line + "\n");
    } else {
      assert all[1..] == lines[1..] + [line] && all[0] == lines[0];
      UnsplitSnoc(lines[1..], line);
      var rest := Unsplit(lines[1..], "");
      assert lines[0] + ("\n" + (rest + (line + "\n"))) == (lines[0] + ("\n" + rest)) + (line + "\n");
    }
  }
}
