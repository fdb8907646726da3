/**
 From a segment to its processes: how `execute_single_command` takes a command apart and which of
 its parts are read with here-document bodies.
 */
module CommandDispatch {
  import opened Text
  import opened Runs
  import opened QuoteStates
  import opened CommandLine
  import opened Tokenizer
  import opened Heredocs
  import opened RedirectionPass
  import opened HeredocBodies

  /**
   What a command meets when it is executed: the aliases, whether a hook skips it, and what
   variable expansion and command substitution make of it.
   */
  datatype Env = Env(aliases: map<string, string>, skips: string -> bool, expand: string -> string)

  /** One process of a command, with its redirections; `inner` is the source of a subshell. */
  datatype Stage = Stage(inner: Option<string>, redirections: seq<Redirection>)

  /** `Nothing`: blank, skipped, or without words; `Refused`: an unmatched parenthesis. */
  datatype Plan = Nothing | Refused | Structured | Run(stages: seq<Stage>)

  // ---- Before the command is taken apart ----

  /** The first word replaced by its alias. */
  function AliasHead(c: string, aliases: map<string, string>): string {
    var start := RunIn(c, BLANKS);
    var end := start + RunOut(c[start..], BLANKS);
    if start < |c| && c[start..end] in aliases then c[..start] + aliases[c[start..end]] + c[end..] else c
  }

  /** The command to run: a leading backslash taken off, or else the alias put in and the hooks asked. */
  function Prepare(env: Env, c: string): Option<string> {
    var first := RunIn(c, BLANKS);
    if first == |c| then None
    else if c[first] == '\\' then Some(c[..first] + c[first + 1..])
    else if env.skips(AliasHead(c, env.aliases)) then None
    else Some(AliasHead(c, env.aliases))
  }

  // ---- Parentheses and pipes ----

  /** The position of the parenthesis that closes the `depth` open ones. */
  function CloseAt(t: string, q: Quotes, depth: int): (n: Option<nat>)
    ensures n.Some? ==> n.value < |t| && (depth != 1 ==> n.value >= 1)
    decreases |t|
  {
    if t == "" then None
    else if !IsBoundary(q, t[0]) && !q.Active() && t[0] == ')' && depth == 1 then Some(0)
    else
      var rest := CloseAt(t[1..], Toggle(q, t[0]), DepthAfter(q, t[0], depth));
      if rest.None? then None else Some(rest.value + 1)
  }

  function DepthAfter(q: Quotes, c: char, depth: int): int {
    if IsBoundary(q, c) || q.Active() then depth
    else if c == '(' then depth + 1
    else if c == ')' then depth - 1
    else depth
  }

  /** A `|` that is not the first of two. */
  predicate BarAt(t: string) {
    t != "" && t[0] == '|' && (|t| == 1 || t[1] != '|')
  }

  predicate HasPipe(t: string, q: Quotes)
    decreases |t|
  {
    t != "" && ((!IsBoundary(q, t[0]) && !q.Active() && BarAt(t)) || HasPipe(t[1..], Toggle(q, t[0])))
  }

  predicate HasStructuredPipe(t: string, q: Quotes)
    decreases |t|
  {
    t != "" && ((!IsBoundary(q, t[0]) && !q.Active() && "|>" <= t) || HasStructuredPipe(t[1..], Toggle(q, t[0])))
  }

  /** The parts between the pipes outside quotes and parentheses, `cur` being the part under way. */
  function SplitPipes(t: string, q: Quotes, depth: nat, cur: string): (parts: seq<string>)
    ensures parts != []
    decreases |t|
  {
    if t == "" then [cur]
    else if IsBoundary(q, t[0]) || q.Active() then SplitPipes(t[1..], Toggle(q, t[0]), depth, cur + [t[0]])
    else if depth == 0 && BarAt(t) then [cur] + SplitPipes(t[1..], q, 0, "")
    else
      SplitPipes(t[1..], q, DepthWithin(t[0], depth), cur + [t[0]])
  }

  function DepthWithin(c: char, depth: nat): nat {
    if c == '(' then depth + 1 else if c == ')' && depth > 0 then depth - 1 else depth
  }

  function Parts(x: string): (parts: seq<string>)
    ensures parts != []
  {
    SplitPipes(x, UNQUOTED, 0, "")
  }

  // ---- The plan ----

  function Pass(t: string, bodies: seq<PendingHeredoc>): seq<Redirection> {
    Redirections(Events(t, UNQUOTED, bodies))
  }

  /** Nothing but redirections is left of the text. */
  predicate NoWords(t: string) {
    Tokens(Remaining(Events(t, UNQUOTED, [])), UNQUOTED, "", " ") == []
  }

  /** The bodies a stage takes from those not taken yet; markers without one bring their own, empty one. */
  function Taken(pending: seq<PendingHeredoc>, hs: seq<PendingHeredoc>): seq<PendingHeredoc>
    decreases |pending|
  {
    if pending == [] then []
    else if hs == [] then pending
    else [hs[0]] + Taken(pending[1..], hs[1..])
  }

  predicate IsSubshellPart(part: string) {
    Trim(part) != "" && Trim(part)[0] == '('
  }

  /** The stages of a pipeline; None where a parenthesis is unmatched. */
  function Stages(parts: seq<string>, hs: seq<PendingHeredoc>): Option<seq<Stage>>
    decreases |parts|
  {
    if parts == [] then Some([])
    else if IsSubshellPart(parts[0]) then
      var t := Trim(parts[0]);
      var close := CloseAt(t, UNQUOTED, 0);
      if close.None? then None
      else Prepend(Stage(Some(t[1..close.value]), Pass(t[close.value + 1..], [])), Stages(parts[1..], hs))
    else
      var pending := Scan(parts[0], UNQUOTED);
      Prepend(Stage(None, Pass(parts[0], Taken(pending, hs))), Stages(parts[1..], Drop(hs, |pending|)))
  }

  function Prepend(stage: Stage, rest: Option<seq<Stage>>): Option<seq<Stage>> {
    if rest.None? then None else Some([stage] + rest.value)
  }

  /** The command is a subshell, with nothing piped from it: `(inner) trailing`. */
  datatype Lone = NotLone | Unmatched | Lone(inner: string, trailing: string)

  function LoneSubshell(p: string): Lone {
    var first := RunIn(p, BLANKS);
    if first == |p| || p[first] != '(' then NotLone
    else
      var close := CloseAt(p[first..], UNQUOTED, 0);
      if close.None? then Unmatched
      else
        var trailing := p[first..][close.value + 1..];
        if HasPipe(trailing, UNQUOTED) then NotLone else Lone(p[first..][1..close.value], trailing)
  }

  /** What follows expansion. */
  function PlanExpanded(x: string, hs: seq<PendingHeredoc>): Plan {
    if NoWords(x) then Nothing
    else if |Parts(x)| == 1 then Run([Stage(None, Pass(x, hs))])
    else
      var stages := Stages(Parts(x), hs);
      if stages.None? then Refused else Run(stages.value)
  }

  /** `execute_single_command`, up to where its processes are started. */
  function Dispatch(env: Env, c: string, hs: seq<PendingHeredoc>): Plan {
    var p := Prepare(env, c);
    if p.None? then Nothing
    else
      match LoneSubshell(p.value)
      case Unmatched => Refused
      case Lone(inner, trailing) => Run([Stage(Some(inner), Pass(trailing, []))])
      case NotLone =>
        if HasStructuredPipe(p.value, UNQUOTED) then Structured else PlanExpanded(env.expand(p.value), hs)
  }

  // ---- The original's loops ----

  function Later(k: nat, n: Option<nat>): Option<nat> {
    if n.None? then None else Some(k + n.value)
  }

  lemma {:induction false} CloseUnfold(k: nat, t: string, q: Quotes, depth: int)
    requires t != ""
    ensures Later(k, CloseAt(t, q, depth)) ==
            if !IsBoundary(q, t[0]) && !q.Active() && t[0] == ')' && depth == 1 then Some(k)
            else Later(k + 1, CloseAt(t[1..], Toggle(q, t[0]), DepthAfter(q, t[0], depth)))
  {
    hide DepthAfter, IsBoundary, Toggle;
  }

  lemma NothingCloses(t: string, q: Quotes, depth: int)
    requires t == ""
    ensures CloseAt(t, q, depth) == None
  {
  }

  /** The search for the parenthesis that closes the first one. */
  method FindClose(t: string) returns (close: Option<nat>)
    ensures close == CloseAt(t, UNQUOTED, 0)
  {
    var qs := new QuoteState();
    var depth, k := 0, 0;
    assert t[0..] == t;
    hide CloseAt;
    while k < |t|
      invariant 0 <= k <= |t|
      invariant Later(k, CloseAt(t[k..], qs.Fields(), depth)) == CloseAt(t, UNQUOTED, 0)
    {
      ghost var rest, q := t[k..], qs.Fields();
      assert rest[1..] == t[k + 1..] && rest[0] == t[k];
      CloseUnfold(k, rest, q, depth);
      var boundary := qs.Consume(t[k]);
      if !boundary && !qs.AnyActive() {
        if t[k] == '(' {
          depth := depth + 1;
        } else if t[k] == ')' {
          depth := depth - 1;
          if depth == 0 { return Some(k); }
        }
      }
      k := k + 1;
    }
    NothingCloses(t[k..], qs.Fields(), depth);
    return None;
  }

  method FindPipe(t: string) returns (found: bool)
    ensures found == HasPipe(t, UNQUOTED)
  {
    var qs := new QuoteState();
    var k := 0;
    assert t[0..] == t;
    while k < |t|
      invariant 0 <= k <= |t| && HasPipe(t[k..], qs.Fields()) == HasPipe(t, UNQUOTED)
    {
      ghost var rest := t[k..];
      assert rest[1..] == t[k + 1..];
      var boundary := qs.Consume(t[k]);
      if !boundary && !qs.AnyActive() && t[k] == '|' && (k + 1 >= |t| || t[k + 1] != '|') {
        return true;
      }
      k := k + 1;
    }
    return false;
  }

  method FindStructuredPipe(t: string) returns (found: bool)
    ensures found == HasStructuredPipe(t, UNQUOTED)
  {
    var qs := new QuoteState();
    var k := 0;
    assert t[0..] == t;
    while k < |t|
      invariant 0 <= k <= |t| && HasStructuredPipe(t[k..], qs.Fields()) == HasStructuredPipe(t, UNQUOTED)
    {
      ghost var rest := t[k..];
      assert rest[1..] == t[k + 1..];
      var boundary := qs.Consume(t[k]);
      if !boundary && !qs.AnyActive() && t[k] == '|' && k + 1 < |t| && t[k + 1] == '>' {
        return true;
      }
      k := k + 1;
    }
    return false;
  }

  lemma SplitStep(done: seq<string>, t: string, q: Quotes, depth: nat, cur: string)
    requires t != ""
    ensures IsBoundary(q, t[0]) || q.Active() ==>
              done + SplitPipes(t, q, depth, cur) == done + SplitPipes(t[1..], Toggle(q, t[0]), depth, cur + [t[0]])
    ensures !IsBoundary(q, t[0]) && !q.Active() && depth == 0 && BarAt(t) ==>
              done + SplitPipes(t, q, depth, cur) == (done + [cur]) + SplitPipes(t[1..], q, 0, "")
    ensures !IsBoundary(q, t[0]) && !q.Active() && !(depth == 0 && BarAt(t)) ==>
              done + SplitPipes(t, q, depth, cur) ==
              done + SplitPipes(t[1..], q, DepthWithin(t[0], depth), cur + [t[0]])
  {
    hide BarAt;
    var rest := SplitPipes(t[1..], q, 0, "");
    assert done + ([cur] + rest) == (done + [cur]) + rest;
  }

  /** The split at the pipes outside quotes and parentheses. */
  method SplitAtPipes(x: string) returns (parts: seq<string>)
    ensures parts == Parts(x)
  {
    parts := [];
    var qs := new QuoteState();
    var depth: nat, cur, k := 0, "", 0;
    assert x[0..] == x && [] + Parts(x) == Parts(x);
    hide SplitPipes;
    while k < |x|
      invariant 0 <= k <= |x| && parts + SplitPipes(x[k..], qs.Fields(), depth, cur) == Parts(x)
    {
      ghost var rest, q := x[k..], qs.Fields();
      assert rest[1..] == x[k + 1..] && rest[0] == x[k];
      assert BarAt(rest) == (x[k] == '|' && (k + 1 >= |x| || x[k + 1] != '|'));
      SplitStep(parts, rest, q, depth, cur);
      var boundary := qs.Consume(x[k]);
      if boundary {
        cur := cur + [x[k]];
      } else if !qs.AnyActive() && depth == 0 && x[k] == '|' && (k + 1 >= |x| || x[k + 1] != '|') {
        parts := parts + [cur];
        cur := "";
      } else {
        if !qs.AnyActive() {
          if x[k] == '(' {
            depth := depth + 1;
          } else if x[k] == ')' && depth > 0 {
            depth := depth - 1;
          }
        }
        cur := cur + [x[k]];
      }
      k := k + 1;
    }
    LastPart(parts, x[k..], qs.Fields(), depth, cur);
    parts := parts + [cur];
  }

  lemma LastPart(parts: seq<string>, t: string, q: Quotes, depth: nat, cur: string)
    requires t == ""
    ensures parts + SplitPipes(t, q, depth, cur) == parts + [cur]
  {
  }

  lemma DropDrop(hs: seq<PendingHeredoc>, m: nat, n: nat)
    ensures Drop(Drop(hs, m), n) == Drop(hs, m + n)
    ensures m + n > |hs| >= m ==> Drop(hs, m + n) == Drop(hs, |hs|)
  {
  }

  lemma {:induction false} TakenSnoc(front: seq<PendingHeredoc>, h: PendingHeredoc, hs: seq<PendingHeredoc>)
    ensures Taken(front + [h], hs) == Taken(front, hs) + [if |front| < |hs| then hs[|front|] else h]
    decreases |front|
  {
    var all := front + [h];
    if front == [] {
      assert all[1..] == [];
    } else if hs != [] {
      assert all[1..] == front[1..] + [h];
      TakenSnoc(front[1..], h, hs[1..]);
    }
  }

  /** One more marker of the stage: the body at `start + k`, or else the marker's own. */
  lemma TakenStep(pending: seq<PendingHeredoc>, hs: seq<PendingHeredoc>, start: nat, k: nat)
    requires start <= |hs| && k < |pending|
    ensures Taken(pending[..k + 1], Drop(hs, start)) ==
            Taken(pending[..k], Drop(hs, start)) + [if start + k < |hs| then hs[start + k] else pending[k]]
  {
    hide Taken;
    assert pending[..k + 1] == pending[..k] + [pending[k]];
    TakenSnoc(pending[..k], pending[k], Drop(hs, start));
  }

  /** The loop that takes a stage's bodies from index `start` on. */
  method TakeBodies(pending: seq<PendingHeredoc>, hs: seq<PendingHeredoc>, start: nat)
    returns (bodies: seq<PendingHeredoc>, next: nat)
    requires start <= |hs|
    ensures start <= next <= |hs|
    ensures bodies == Taken(pending, Drop(hs, start)) && Drop(hs, next) == Drop(Drop(hs, start), |pending|)
  {
    bodies, next := [], start;
    var k := 0;
    assert pending[..0] == [] && Taken([], Drop(hs, start)) == [];
    hide Taken, Drop;
    while k < |pending|
      invariant 0 <= k <= |pending| && next == (if start + k < |hs| then start + k else |hs|)
      invariant bodies == Taken(pending[..k], Drop(hs, start))
    {
      TakenStep(pending, hs, start, k);
      if next < |hs| {
        bodies := bodies + [hs[next]];
        next := next + 1;
      } else {
        bodies := bodies + [pending[k]];
      }
      k := k + 1;
    }
    assert pending[..k] == pending;
    DropDrop(hs, start, |pending|);
  }

  function Joined(done: seq<Stage>, rest: Option<seq<Stage>>): Option<seq<Stage>> {
    if rest.None? then None else Some(done + rest.value)
  }

  lemma JoinedOne(done: seq<Stage>, stage: Stage, rest: Option<seq<Stage>>)
    ensures Joined(done, Prepend(stage, rest)) == Joined(done + [stage], rest)
  {
    if rest.Some? { assert done + ([stage] + rest.value) == (done + [stage]) + rest.value; }
  }

  /** The loop over the parts of a pipeline. */
  method BuildStages(parts: seq<string>, hs: seq<PendingHeredoc>) returns (stages: Option<seq<Stage>>)
    ensures stages == Stages(parts, hs)
  {
    var done: seq<Stage> := [];
    var hdIdx: nat := 0;
    var i := 0;
    StartJoined(parts, hs);
    hide Scan, Trim, CloseAt, Joined, Prepend, Taken, Pass, IsSubshellPart, Drop;
    while i < |parts|
      invariant 0 <= i <= |parts| && hdIdx <= |hs|
      invariant Joined(done, Stages(parts[i..], Drop(hs, hdIdx))) == Stages(parts, hs)
    {
      ghost var left := parts[i..];
      assert left[0] == parts[i] && left[1..] == parts[i + 1..];
      var stage, refused, next := BuildStage(parts[i], hs, hdIdx);
      StagesStep(left, Drop(hs, hdIdx), done);
      if refused { return None; }
      done, hdIdx, i := done + [stage], next, i + 1;
    }
    EndJoined(done, parts[i..], Drop(hs, hdIdx));
    return Some(done);
  }

  lemma StartJoined(parts: seq<string>, hs: seq<PendingHeredoc>)
    ensures Joined([], Stages(parts[0..], Drop(hs, 0))) == Stages(parts, hs)
  {
    assert parts[0..] == parts && Drop(hs, 0) == hs;
    hide Stages;
    var all := Stages(parts, hs);
    if all.Some? { assert [] + all.value == all.value; }
  }

  lemma EndJoined(done: seq<Stage>, parts: seq<string>, hs: seq<PendingHeredoc>)
    requires parts == []
    ensures Joined(done, Stages(parts, hs)) == Some(done)
  {
    assert done + [] == done;
  }

  /** One part, as a stage, and the bodies left for the others. */
  function StageOf(part: string, hs: seq<PendingHeredoc>): Option<(Stage, seq<PendingHeredoc>)> {
    if IsSubshellPart(part) then
      var t := Trim(part);
      var close := CloseAt(t, UNQUOTED, 0);
      if close.None? then None
      else Some((Stage(Some(t[1..close.value]), Pass(t[close.value + 1..], [])), hs))
    else
      var pending := Scan(part, UNQUOTED);
      Some((Stage(None, Pass(part, Taken(pending, hs))), Drop(hs, |pending|)))
  }

  lemma StagesStep(parts: seq<string>, hs: seq<PendingHeredoc>, done: seq<Stage>)
    requires parts != []
    ensures var one := StageOf(parts[0], hs);
            Joined(done, Stages(parts, hs)) ==
            if one.None? then None else Joined(done + [one.value.0], Stages(parts[1..], one.value.1))
  {
    hide Scan, Trim, CloseAt, Taken, Pass, Joined;
    var one := StageOf(parts[0], hs);
    if one.None? {
      NoneJoined(done);
    } else {
      JoinedOne(done, one.value.0, Stages(parts[1..], one.value.1));
    }
  }

  lemma NoneJoined(done: seq<Stage>)
    ensures Joined(done, None) == None
  {
  }

  method BuildStage(part: string, hs: seq<PendingHeredoc>, hdIdx: nat) returns (stage: Stage, refused: bool, next: nat)
    requires hdIdx <= |hs|
    ensures next <= |hs|
    ensures var one := StageOf(part, Drop(hs, hdIdx));
            refused == one.None? && (!refused ==> one.value == (stage, Drop(hs, next)))
  {
    hide Scan, Trim, CloseAt, Taken, Drop, Events, Redirections, Remaining, MissingOperands;
    refused, next, stage := false, hdIdx, Stage(None, []);
    var trimmed := Trim(part);
    if trimmed != "" && trimmed[0] == '(' {
      var close := FindClose(trimmed);
      if close.None? {
        refused := true;
        return;
      }
      var redirections, _, _ := ParseRedirections(trimmed[close.value + 1..], []);
      stage := Stage(Some(trimmed[1..close.value]), redirections);
    } else {
      var pending := ScanPendingHeredocs(part);
      var bodies, later := TakeBodies(pending, hs, hdIdx);
      var redirections, _, _ := ParseRedirections(part, bodies);
      stage, next := Stage(None, redirections), later;
    }
  }

  // ---- The command ----

  lemma {:induction false} KeptWhateverBodies(t: string, q: Quotes, a: seq<PendingHeredoc>, b: seq<PendingHeredoc>)
    ensures Remaining(Events(t, q, a)) == Remaining(Events(t, q, b))
    decreases |t|
  {
    hide ReadUnquoted;
    if t == "" {
    } else if IsBoundary(q, t[0]) {
      KeptWhateverBodies(t[1..], Toggle(q, t[0]), a, b);
      RemainingAppend([Keep(t[0])], Events(t[1..], Toggle(q, t[0]), a));
      RemainingAppend([Keep(t[0])], Events(t[1..], Toggle(q, t[0]), b));
    } else if q.Active() {
      KeptWhateverBodies(t[1..], q, a, b);
      RemainingAppend([Keep(t[0])], Events(t[1..], q, a));
      RemainingAppend([Keep(t[0])], Events(t[1..], q, b));
    } else {
      var ra, rb := ReadUnquoted(t, a), ReadUnquoted(t, b);
      SameKept(t, a, b);
      KeptWhateverBodies(t[ra.len..], q, ra.bodies, rb.bodies);
      RemainingAppend(ra.events, Events(t[ra.len..], q, ra.bodies));
      RemainingAppend(rb.events, Events(t[rb.len..], q, rb.bodies));
    }
  }

  lemma KeptOfRead(e: Event)
    requires !e.Keep?
    ensures Remaining([e]) == "" && Remaining([Missing("<<")] + [e]) == ""
  {
    assert [e][1..] == [] && ([Missing("<<")] + [e])[1..] == [e];
    assert Remaining([e]) == KeptOf(e) + Remaining([]);
  }

  lemma SameKept(t: string, a: seq<PendingHeredoc>, b: seq<PendingHeredoc>)
    requires t != ""
    ensures ReadUnquoted(t, a).len == ReadUnquoted(t, b).len
    ensures Remaining(ReadUnquoted(t, a).events) == Remaining(ReadUnquoted(t, b).events)
  {
    hide Remaining, ReadMarker, ReadUnquoted;
    if "<<" <= t {
      ReadsMarker(t, a);
      ReadsMarker(t, b);
      var ra, rb := ReadHeredoc(t, a), ReadHeredoc(t, b);
      var ea, eb := ra.events[|ra.events| - 1], rb.events[|rb.events| - 1];
      KeptOfRead(ea);
      KeptOfRead(eb);
      assert ra.events == [ea] || ra.events == [Missing("<<")] + [ea];
      assert rb.events == [eb] || rb.events == [Missing("<<")] + [eb];
    } else {
      ReadsOther(t, a);
      ReadsOther(t, b);
    }
  }

  /** Replacing the first word by its alias. */
  method ExpandAliasHead(c: string, aliases: map<string, string>) returns (r: string)
    ensures r == AliasHead(c, aliases)
  {
    hide RunIn, RunOut;
    assert c[0..] == c;
    var start := SkipIn(c, 0, BLANKS);
    if start == |c| { return c; }
    var end, word := TakeOut(c, start, BLANKS);
    if word !in aliases { return c; }
    return c[..start] + aliases[word] + c[end..];
  }

  method PrepareCommand(env: Env, c: string) returns (p: Option<string>)
    ensures p == Prepare(env, c)
  {
    hide RunIn, AliasHead;
    assert c[0..] == c;
    var first := SkipIn(c, 0, BLANKS);
    if first == |c| { return None; }
    if c[first] == '\\' { return Some(c[..first] + c[first + 1..]); }
    var command := ExpandAliasHead(c, env.aliases);
    if env.skips(command) { return None; }
    return Some(command);
  }

  method FindLoneSubshell(p: string) returns (lone: Lone)
    ensures lone == LoneSubshell(p)
  {
    hide RunIn, CloseAt, HasPipe;
    assert p[0..] == p;
    var first := SkipIn(p, 0, BLANKS);
    if first == |p| || p[first] != '(' { return NotLone; }
    var close := FindClose(p[first..]);
    if close.None? { return Unmatched; }
    var trailing := p[first..][close.value + 1..];
    var hasPipe := FindPipe(trailing);
    if hasPipe { return NotLone; }
    return Lone(p[first..][1..close.value], trailing);
  }

  method PlanCommand(x: string, hs: seq<PendingHeredoc>) returns (plan: Plan)
    ensures plan == PlanExpanded(x, hs)
  {
    var redirections, remaining, _ := ParseRedirections(x, hs);
    KeptWhateverBodies(x, UNQUOTED, hs, []);
    hide Events, Redirections, Remaining, MissingOperands, Tokens, Stages, Parts;
    var words := TokenizeString(remaining, " ");
    if words == [] { return Nothing; }
    var parts := SplitAtPipes(x);
    if |parts| > 1 {
      var stages := BuildStages(parts, hs);
      return if stages.None? then Refused else Run(stages.value);
    }
    return Run([Stage(None, redirections)]);
  }

  /** `execute_single_command`, up to where its processes are started. */
  method DispatchCommand(env: Env, c: string, hs: seq<PendingHeredoc>) returns (plan: Plan)
    ensures plan == Dispatch(env, c, hs)
  {
    hide Prepare, LoneSubshell, HasStructuredPipe, PlanExpanded, Events, Redirections, Remaining, MissingOperands;
    var p := PrepareCommand(env, c);
    if p.None? { return Nothing; }
    var lone := FindLoneSubshell(p.value);
    if lone.Unmatched? { return Refused; }
    if lone.Lone? {
      var redirections, _, _ := ParseRedirections(lone.trailing, []);
      return Run([Stage(Some(lone.inner), redirections)]);
    }
    var structured := FindStructuredPipe(p.value);
    if structured { return Structured; }
    plan := PlanCommand(env.expand(p.value), hs);
  }
}
