/**
 Exactly when the redirection pass and the heredoc scan see the same markers: for each kind of
 operator, the condition on its operand under which they agree whatever follows.
 */
module TargetAgreement {
  import opened Runs
  import opened QuoteStates
  import opened CommandLine
  import opened Heredocs
  import opened RedirectionPass
  import opened HeredocBodies

  /** The heredoc entries of the pass over `t` are the scanned markers with their bodies. */
  predicate Agree(t: string, bodies: seq<PendingHeredoc>) {
    Entries(Events(t, UNQUOTED, bodies)) == Fill(Scan(t, UNQUOTED), bodies)
  }

  /** `op`, some spaces and `f` are read as one file operator and its target. */
  predicate IsTarget(op: string, pad: string, f: string) {
    && op in {"2>", ">>", ">", "<"}
    && (forall i :: 0 <= i < |pad| ==> pad[i] == ' ')
    && f != "" && (forall i :: 0 <= i < |f| ==> f[i] !in BLANKS)
    && (pad == "" ==> !(op == ">" && f[0] == '>') && !(op == "<" && f[0] == '<') && !(op == "2>" && "&1" <= f))
  }

  // ---- The pass ----

  lemma {:induction false} RunInPad(pad: string, rest: string)
    requires forall i :: 0 <= i < |pad| ==> pad[i] == ' '
    requires rest == "" || rest[0] != ' '
    ensures RunIn(pad + rest, {' '}) == |pad|
    decreases |pad|
  {
    if pad == "" {
      assert pad + rest == rest;
    } else {
      assert (pad + rest)[1..] == pad[1..] + rest;
      RunInPad(pad[1..], rest);
    }
  }

  lemma TargetIsWhole(op: string, pad: string, f: string, u: string)
    requires IsTarget(op, pad, f) && Parted(u)
    ensures TargetLength(pad + (f + u)) == |pad| + |f|
  {
    var rest := f + u;
    assert rest[0] == f[0];
    RunInPad(pad, rest);
    assert (pad + rest)[|pad|..] == rest;
    RunOutIs(rest, BLANKS, |f|);
    hide RunIn, RunOut;
  }

  lemma NotJoined(pad: string, f: string, u: string)
    requires IsTarget("2>", pad, f) && Parted(u)
    ensures var t := "2>" + (pad + (f + u)); "2>" <= t && !("2>&1" <= t)
  {
    var g := pad + (f + u);
    var t := "2>" + g;
    assert t[2] == g[0] && (|t| > 3 ==> t[3] == g[1]);
    assert pad == "" ==> g == f + u;
    assert g[0] == if pad == "" then f[0] else ' ';
    assert |g| > 1 && pad == "" ==> g[1] == if |f| > 1 then f[1] else u[0];
    assert |f| > 1 && f[0] == '&' && f[1] == '1' ==> "&1" <= f;
  }

  lemma Front(op: string, pad: string, f: string, u: string)
    requires IsTarget(op, pad, f)
    ensures var t := op + (pad + (f + u));
            op <= t && t[0] == op[0] && |t| > |op| && t[|op|] == if pad == "" then f[0] else ' '
  {
    var g := pad + (f + u);
    assert (op + g)[|op|] == g[0];
  }

  /** The branch of the pass that a file operator takes. */
  lemma ReadsAsFile(op: string, pad: string, f: string, u: string, bodies: seq<PendingHeredoc>)
    returns (fd: int, append: bool)
    requires IsTarget(op, pad, f) && Parted(u)
    ensures var t := op + (pad + (f + u));
            op <= t && ReadUnquoted(t, bodies) == ReadFile(t, op, fd, append, bodies)
  {
    hide ReadFile, ReadHeredoc;
    Front(op, pad, f, u);
    if op == "2>" { NotJoined(pad, f, u); }
    var t := op + (pad + (f + u));
    fd := if op == "2>" then 2 else if op == "<" then 0 else 1;
    append := op == ">>";
    ReadsBySign(t, op, fd, append, bodies);
  }

  lemma ReadsBySign(t: string, op: string, fd: int, append: bool, bodies: seq<PendingHeredoc>)
    requires op in {"2>", ">>", ">", "<"} && op <= t
    requires op == "2>" ==> !("2>&1" <= t)
    requires (op == ">" || op == "<") && |t| > 1 ==> t[1] != op[0]
    requires fd == (if op == "2>" then 2 else if op == "<" then 0 else 1) && append == (op == ">>")
    ensures ReadUnquoted(t, bodies) == ReadFile(t, op, fd, append, bodies)
  {
    hide ReadFile, ReadHeredoc;
    assert t[0] == op[0];
  }

  /** The pass takes operator and target as a whole; they leave no heredoc entry and use no body. */
  lemma PassSkipsTarget(op: string, pad: string, f: string, u: string, bodies: seq<PendingHeredoc>)
    requires IsTarget(op, pad, f) && Parted(u)
    ensures Entries(Events(op + (pad + (f + u)), UNQUOTED, bodies)) == Entries(Events(u, UNQUOTED, bodies))
  {
    hide Entries, ReadUnquoted, TargetLength, TargetName, Events;
    var t := op + (pad + (f + u));
    var fd, append := ReadsAsFile(op, pad, f, u, bodies);
    var r := ReadFile(t, op, fd, append, bodies);
    Front(op, pad, f, u);
    TargetIsWhole(op, pad, f, u);
    FileHasNoEntries(t, op, fd, append, bodies);
    RestOfTarget(op, pad, f, u);
    EventsOutside(t, bodies);
    EntriesOfEvents(r.events, Events(u, UNQUOTED, bodies));
    assert [] + Entries(Events(u, UNQUOTED, bodies)) == Entries(Events(u, UNQUOTED, bodies));
  }

  lemma RestOfTarget(op: string, pad: string, f: string, u: string)
    ensures var t := op + (pad + (f + u)); t[|op|..] == pad + (f + u) && t[|op| + |pad| + |f|..] == u
  {
  }

  /** One step of the pass outside quotes. */
  lemma EventsOutside(t: string, bodies: seq<PendingHeredoc>)
    requires t != "" && !IsBoundary(UNQUOTED, t[0])
    ensures var r := ReadUnquoted(t, bodies);
            Events(t, UNQUOTED, bodies) == r.events + Events(t[r.len..], UNQUOTED, r.bodies)
  {
    hide ReadUnquoted;
  }

  // ---- The scan ----

  lemma ScanPassesOperator(op: string, pad: string, f: string, u: string)
    requires IsTarget(op, pad, f)
    ensures Scan(op + (pad + (f + u)), UNQUOTED) == Scan(f + u, UNQUOTED)
  {
    var front := op + pad;
    assert front + (f + u) == op + (pad + (f + u));
    FrontIsNeutral(op, pad, f);
    hide Scan, Neutral;
    assert (f + u)[0] == f[0];
    ScanSkipsNeutral(front, f + u, UNQUOTED);
  }

  lemma FrontIsNeutral(op: string, pad: string, f: string)
    requires IsTarget(op, pad, f)
    ensures var front := op + pad;
            Neutral(front, UNQUOTED) && front != "" && (f[0] == '<' ==> front[|front| - 1] != '<')
  {
    var front := op + pad;
    if op == "<" {
      if pad == "" {
        assert front == "<" && front[1..] == "";
        assert Neutral(front[1..], UNQUOTED);
      } else {
        assert front[1..] == pad && front[1] == ' ';
        PlainIsNeutral(pad);
        assert front[|front| - 1] == pad[|pad| - 1];
      }
    } else {
      PlainIsNeutral(front);
    }
  }

  lemma {:induction false} ScanInsideQuotes(u: string, q: Quotes)
    requires q.Active() && forall i :: 0 <= i < |u| ==> u[i] != '"' && u[i] != '\''
    ensures Scan(u, q) == []
    decreases |u|
  {
    if u != "" { ScanInsideQuotes(u[1..], q); }
  }

  const WORD := " E"
  const MARKER := " <<E"

  lemma {:induction false} RunInIs(t: string, cs: set<char>, n: nat)
    requires n < |t| && (forall i :: 0 <= i < n ==> t[i] in cs) && t[n] !in cs
    ensures RunIn(t, cs) == n
    decreases n
  {
    if n > 0 { RunInIs(t[1..], cs, n - 1); }
  }

  lemma BlankTail(t: string, a: nat)
    requires a <= |t| && RunIn(t[a..], BLANKS) == |t| - a
    ensures RunIn((t + WORD)[a..], BLANKS) == |t| - a + 1
  {
    var blanks := (t + WORD)[a..];
    assert forall i :: 0 <= i < |t| - a ==> blanks[i] == t[a..][i];
    assert blanks[|t| - a] == ' ' && blanks[|t| - a + 1] == 'E';
    RunInIs(blanks, BLANKS, |t| - a + 1);
  }

  lemma EmptyMarkerReadsOn(t: string)
    requires "<<" <= t && DelimStart(t) == |t|
    ensures "<<" <= t + WORD && ReadMarker(t + WORD).delim != ""
  {
    var all := t + WORD;
    var a := if |t| > 2 && t[2] == '-' then 3 else 2;
    BlankTail(t, a);
    hide RunIn;
    assert DelimStart(all) == |t| + 1;
    assert all[|t| + 1..] == "E";
    assert RunOut("E", DELIM_STOPS) > 0;
    hide RunOut, DelimStart;
  }

  lemma OpenQuoteReadsOn(t: string)
    requires "<<" <= t && DelimStart(t) < |t| && QuotedDelim(t)
    requires RunOut(t[DelimStart(t) + 1..], {t[DelimStart(t)]}) == |t| - DelimStart(t) - 1
    ensures "<<" <= t + WORD && ReadMarker(t + WORD).delim != ""
  {
    var all := t + WORD;
    var b := DelimStart(t);
    SameDelimKind(t, WORD);
    hide DelimStart, QuotedDelim;
    var inside := all[b + 1..];
    assert inside == t[b + 1..] + WORD;
    assert inside[0] != t[b];
    assert RunOut(inside, {t[b]}) > 0;
    hide RunOut;
  }

  /** A marker that is not complete in `t` takes a non-empty delimiter from what follows. */
  lemma CutMarkerReadsOn(t: string)
    requires "<<" <= t && !MarkerInside(t)
    ensures "<<" <= t + WORD && ReadMarker(t + WORD).delim != ""
  {
    if DelimStart(t) == |t| { EmptyMarkerReadsOn(t); } else { OpenQuoteReadsOn(t); }
  }

  /** Where the scan of `f` does not close, a word after it becomes a marker or a marker after it is lost. */
  lemma {:induction false} OpenScan(f: string, q: Quotes)
    requires !ScanCloses(f, q)
    ensures Scan(f + WORD, q) != [] || Scan(f + MARKER, q) == Scan(f, q)
    decreases |f|
  {
    hide Scan, ReadMarker, MarkerInside;
    if f == "" {
      assert f + MARKER == MARKER;
      ScanInsideQuotes(MARKER, q);
      ScanNothing(q);
    } else if IsBoundary(q, f[0]) || q.Active() || !("<<" <= f) {
      assert (f + WORD)[1..] == f[1..] + WORD && (f + MARKER)[1..] == f[1..] + MARKER;
      assert IsBoundary(q, f[0]) || q.Active() || (!("<<" <= f + WORD) && !("<<" <= f + MARKER));
      ScanUnfoldPlain(f, q);
      ScanUnfoldPlain(f + WORD, q);
      ScanUnfoldPlain(f + MARKER, q);
      OpenScan(f[1..], Toggle(q, f[0]));
    } else if !MarkerInside(f) {
      CutMarkerReadsOn(f);
      ScanUnfoldMarker(f + WORD, q);
    } else {
      var m := ReadMarker(f);
      MarkerExtends(f, WORD);
      MarkerExtends(f, MARKER);
      assert (f + WORD)[m.len..] == f[m.len..] + WORD && (f + MARKER)[m.len..] == f[m.len..] + MARKER;
      ScanUnfoldMarker(f, q);
      ScanUnfoldMarker(f + WORD, q);
      ScanUnfoldMarker(f + MARKER, q);
      OpenScan(f[m.len..], q);
    }
  }

  // ---- Targets ----

  /** The scan of `f` alone finds no marker and ends outside quotes and markers. */
  predicate HarmlessTarget(f: string) {
    ScanCloses(f, UNQUOTED) && Scan(f, UNQUOTED) == []
  }

  lemma FillIsEmpty(pending: seq<PendingHeredoc>, bodies: seq<PendingHeredoc>)
    ensures Fill(pending, bodies) == [] <==> pending == []
  {
  }

  lemma WordHasNoEntry()
    ensures Agreeable(WORD, UNQUOTED) && Entries(Events(WORD, UNQUOTED, [])) == []
  {
    assert Agreeable("E", UNQUOTED) && Scan("E", UNQUOTED) == [];
    LeadingBlank("E");
    assert " " + "E" == WORD;
    hide Scan, Agreeable, Events, Entries;
    EntriesAreScannedMarkers(WORD, UNQUOTED, []);
  }

  lemma MarkerHasAnEntry()
    ensures Agreeable(MARKER, UNQUOTED) && Entries(Events(MARKER, UNQUOTED, [])) != []
  {
    hide Scan, Agreeable, Events, Entries;
    ScanOfMarker();
    LeadingBlank("<<E");
    assert " " + "<<E" == MARKER;
    MarkerAfterBlank();
  }

  lemma NothingHasNoEntry()
    ensures Agreeable("", UNQUOTED) && Entries(Events("", UNQUOTED, [])) == []
  {
  }

  lemma HarmlessTargetAgrees(op: string, pad: string, f: string, u: string, bodies: seq<PendingHeredoc>)
    requires IsTarget(op, pad, f) && HarmlessTarget(f) && Parted(u) && Agreeable(u, UNQUOTED)
    ensures Agree(op + (pad + (f + u)), bodies)
  {
    hide Scan, Events, HeredocEntries, Redirections, Fill, ScanCloses, IsTarget, Parted;
    PassSkipsTarget(op, pad, f, u, bodies);
    ScanPassesOperator(op, pad, f, u);
    ScanAppend(f, u, UNQUOTED);
    EntriesAreScannedMarkers(u, UNQUOTED, bodies);
    assert [] + Scan(u, UNQUOTED) == Scan(u, UNQUOTED);
  }

  lemma OneSidedDisagrees(op: string, pad: string, f: string, u: string)
    requires IsTarget(op, pad, f) && Parted(u)
    requires (Entries(Events(u, UNQUOTED, [])) == []) != (Scan(f + u, UNQUOTED) == [])
    ensures !Agree(op + (pad + (f + u)), [])
  {
    hide Scan, Events, Entries, Fill, IsTarget, Parted;
    PassSkipsTarget(op, pad, f, u, []);
    ScanPassesOperator(op, pad, f, u);
    FillIsEmpty(Scan(f + u, UNQUOTED), []);
  }

  /** What follows a target that is not harmless, so that the two disagree. */
  lemma HarmfulTargetDisagrees(op: string, pad: string, f: string) returns (u: string)
    requires IsTarget(op, pad, f) && !HarmlessTarget(f)
    ensures Parted(u) && Agreeable(u, UNQUOTED) && !Agree(op + (pad + (f + u)), [])
  {
    hide Scan, Events, Entries, Fill, ScanCloses, IsTarget, Agreeable, Agree;
    if Scan(f, UNQUOTED) != [] {
      u := "";
      assert f + u == f;
      NothingHasNoEntry();
    } else {
      OpenScan(f, UNQUOTED);
      if Scan(f + WORD, UNQUOTED) != [] {
        u := WORD;
        WordHasNoEntry();
      } else {
        u := MARKER;
        MarkerHasAnEntry();
      }
    }
    OneSidedDisagrees(op, pad, f, u);
  }

  /**
   For every file operator: the two agree whatever follows the target, with whatever bodies, if
   and only if the scan of the target alone finds no marker and ends outside quotes and markers.
   */
  lemma TargetAgreesIff(op: string, pad: string, f: string)
    requires IsTarget(op, pad, f)
    ensures (forall u: string, bodies: seq<PendingHeredoc> | Parted(u) && Agreeable(u, UNQUOTED) ::
               Agree(op + (pad + (f + u)), bodies)) <==> HarmlessTarget(f)
  {
    if HarmlessTarget(f) {
      forall u: string, bodies: seq<PendingHeredoc> | Parted(u) && Agreeable(u, UNQUOTED)
        ensures Agree(op + (pad + (f + u)), bodies)
      {
        HarmlessTargetAgrees(op, pad, f, u, bodies);
      }
    } else {
      var u := HarmfulTargetDisagrees(op, pad, f);
      assert !Agree(op + (pad + (f + u)), []);
    }
  }

  /** Without `<`, only an open quote can do harm. */
  lemma {:induction false} PlainTargetScan(f: string, q: Quotes)
    requires '<' !in f
    ensures Scan(f, q) == [] && (ScanCloses(f, q) <==> QuotesAfter(q, f) == UNQUOTED)
    decreases |f|
  {
    hide ReadMarker;
    if f != "" { PlainTargetScan(f[1..], Toggle(q, f[0])); }
  }

  /** For a target without `<`: they agree whatever follows if and only if its quotes are closed. */
  lemma PlainTargetAgreesIff(op: string, pad: string, f: string)
    requires IsTarget(op, pad, f) && '<' !in f
    ensures (forall u: string, bodies: seq<PendingHeredoc> | Parted(u) && Agreeable(u, UNQUOTED) ::
               Agree(op + (pad + (f + u)), bodies)) <==> QuotesAfter(UNQUOTED, f) == UNQUOTED
  {
    PlainTargetScan(f, UNQUOTED);
    hide IsTarget, Agree, Parted, Agreeable, Scan, ScanCloses;
    TargetAgreesIff(op, pad, f);
  }

  // ---- Markers ----

  lemma {:induction false} ScannedDelimiters(t: string, q: Quotes)
    ensures forall h :: h in Scan(t, q) ==> h.delim != ""
    decreases |t|
  {
    hide ReadMarker;
    if t == "" {
    } else if IsBoundary(q, t[0]) || q.Active() || !("<<" <= t) {
      ScanUnfoldPlain(t, q);
      ScannedDelimiters(t[1..], Toggle(q, t[0]));
    } else {
      ScanUnfoldMarker(t, q);
      ScannedDelimiters(t[ReadMarker(t).len..], q);
    }
  }

  /** An entry with an empty delimiter never comes from the scan. */
  lemma EmptyDelimiterDisagrees(t: string, bodies: seq<PendingHeredoc>, h: PendingHeredoc)
    requires h in Entries(Events(t, UNQUOTED, bodies)) && h.delim == ""
    ensures !Agree(t, bodies)
  {
    hide Scan, Events, Entries;
    var pending := Scan(t, UNQUOTED);
    ScannedDelimiters(t, UNQUOTED);
    FillLength(pending, bodies);
    hide Fill;
    forall k | 0 <= k < |pending| ensures Fill(pending, bodies)[k].delim != "" {
      FillAt(pending, bodies, k);
      assert pending[k] in pending;
    }
  }

  lemma MarkerEntry(t: string, bodies: seq<PendingHeredoc>)
    requires "<<" <= t
    ensures exists h :: h in Entries(Events(t, UNQUOTED, bodies)) && h.delim == ReadMarker(t).delim
  {
    hide ReadMarker, ReadUnquoted, Events, Entries;
    var r := ReadHeredoc(t, bodies);
    var front, e := r.events[..|r.events| - 1], r.events[|r.events| - 1];
    assert t[0] == '<';
    ReadsMarker(t, bodies);
    EventsOutside(t, bodies);
    var more := Events(t[r.len..], UNQUOTED, r.bodies);
    EntriesOfEvents(r.events, more);
    assert r.events == front + [e];
    EntriesOfEvents(front, [e]);
    OneEntry(e);
    assert e.r.heredoc in Entries([e]);
  }

  /** At a `<<` whose continuation agrees: the two agree if and only if its delimiter is not empty. */
  lemma MarkerAgreesIff(t: string, bodies: seq<PendingHeredoc>)
    requires "<<" <= t && Agreeable(t[ReadMarker(t).len..], UNQUOTED)
    ensures Agree(t, bodies) <==> ReadMarker(t).delim != ""
  {
    if ReadMarker(t).delim != "" {
      AgreeableMarker(t);
      hide ReadMarker, ReadUnquoted, Events, Scan, Agreeable, Fill, HeredocEntries, Redirections;
      EntriesAreScannedMarkers(t, UNQUOTED, bodies);
    } else {
      hide ReadMarker, Events, Scan, Agree, Entries;
      MarkerEntry(t, bodies);
      var h :| h in Entries(Events(t, UNQUOTED, bodies)) && h.delim == ReadMarker(t).delim;
      EmptyDelimiterDisagrees(t, bodies, h);
    }
  }
}
