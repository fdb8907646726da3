/**
 The retry and model-fallback machine above one streaming request. A server is an arbitrary
 function from the number of a request to the reply it gets, so every run is covered.
 */
module StreamingRetry {
  import opened Text

  datatype Transport = Ok | Aborted | Timeout | DnsFailure | ConnectFailed | TlsFailure | Overflow | Other

  /** How the transfer ended: below HTTP, or with a status. */
  datatype Outcome = Broken(kind: Transport) | Completed(status: int)

  /** The texts passed to the chunk callback during one transfer, and its end. */
  datatype Reply = Reply(chunks: seq<string>, outcome: Outcome)

  datatype Message = NoMessage | TransportText | Unexpected | ModelNotFound | HttpText(status: int) | Unavailable

  datatype Response = Response(success: bool, text: string, httpStatus: int, message: Message, transport: Transport)

  predicate Emits(r: Reply) {
    exists i :: 0 <= i < |r.chunks| && r.chunks[i] != ""
  }

  predicate IsRetryable(resp: Response) {
    !resp.success && (resp.httpStatus == 0 || resp.httpStatus >= 500 || resp.httpStatus == 429)
  }

  /** `map_gemini_error` on the empty body the streaming path passes. */
  function MapGeminiError(status: int): Message {
    if status == 404 then ModelNotFound else HttpText(status)
  }

  /** One classified round trip. */
  function Classify(r: Reply): Response {
    match r.outcome
    case Broken(kind) => Response(false, "", 0, TransportText, kind)
    case Completed(status) =>
      if status == 200 then
        var text := Concat(r.chunks);
        Response(text != "", text, 200, if text != "" then NoMessage else Unexpected, Ok)
      else if status == 0 then Response(false, "", 0, TransportText, Ok)
      else Response(false, "", status, MapGeminiError(status), Ok)
  }

  predicate Final(r: Reply) {
    var resp := Classify(r);
    resp.success || resp.transport.Aborted? || Emits(r) || !IsRetryable(resp)
  }

  /** The number of requests made, and the response handed up. */
  datatype Tally = Tally(made: nat, response: Response)

  /** `invoke_streaming`, starting with request number `k`. */
  function Attempts(server: nat -> Reply, k: nat, maxAttempts: nat): Tally
    requires maxAttempts >= 1
    decreases maxAttempts
  {
    if Final(server(k)) || maxAttempts == 1 then Tally(1, Classify(server(k)))
    else
      var rest := Attempts(server, k + 1, maxAttempts - 1);
      Tally(1 + rest.made, rest.response)
  }

  predicate Settled(resp: Response) {
    resp.success || resp.message != ModelNotFound
  }

  /** `gemini_streaming_chain` over `models` models, starting with request number `k`. */
  function Chain(server: nat -> Reply, k: nat, models: nat, maxAttempts: nat): Tally
    requires maxAttempts >= 1 && models >= 1
    decreases models
  {
    var t := Attempts(server, k, maxAttempts);
    if Settled(t.response) then t
    else if models == 1 then
      Tally(t.made, t.response.(success := false, httpStatus := 404, message := Unavailable))
    else
      var rest := Chain(server, k + t.made, models - 1, maxAttempts);
      Tally(t.made + rest.made, rest.response)
  }

  /** The models asked, in the order of the requests: each as long as its retries last. */
  function ModelsAsked(server: nat -> Reply, k: nat, models: seq<string>, maxAttempts: nat): seq<string>
    requires maxAttempts >= 1 && models != []
    decreases |models|
  {
    var t := Attempts(server, k, maxAttempts);
    seq(t.made, _ => models[0]) +
    (if Settled(t.response) || |models| == 1 then []
     else ModelsAsked(server, k + t.made, models[1..], maxAttempts))
  }

  /** Everything the user callback got from requests `i` up to `j`. */
  function Shown(server: nat -> Reply, i: nat, j: nat): seq<string>
    requires i <= j
    decreases j - i
  {
    if i == j then [] else server(i).chunks + Shown(server, i + 1, j)
  }

  // ---- Whole runs ----

  predicate Is404(r: Reply) {
    r.outcome == Completed(404)
  }

  lemma UnsettledIs404(r: Reply)
    requires !Settled(Classify(r))
    ensures Is404(r)
  {
  }

  lemma {:induction false} SilentConcat(chunks: seq<string>)
    requires forall i :: 0 <= i < |chunks| ==> chunks[i] == ""
    ensures Concat(chunks) == ""
  {
    if chunks != [] { SilentConcat(chunks[1..]); }
  }

  lemma {:induction false} AttemptsLaws(server: nat -> Reply, k: nat, maxAttempts: nat)
    requires maxAttempts >= 1
    ensures var t := Attempts(server, k, maxAttempts);
            && 1 <= t.made <= maxAttempts
            && t.response == Classify(server(k + t.made - 1))
            && forall i :: k <= i < k + t.made - 1 ==> !Emits(server(i)) && server(i).outcome != Broken(Aborted)
    decreases maxAttempts
  {
    if !(Final(server(k)) || maxAttempts == 1) {
      AttemptsLaws(server, k + 1, maxAttempts - 1);
    }
  }

  /** No text was shown, and the transfer broke other than by an abort, or ended with status 0, 429 or 500 and up. */
  predicate Transient(r: Reply) {
    && (forall i :: 0 <= i < |r.chunks| ==> r.chunks[i] == "")
    && match r.outcome
       case Broken(kind) => kind != Aborted
       case Completed(status) => status == 0 || status == 429 || status >= 500
  }

  /** A reply with status 200 that carries text. */
  predicate Answers(r: Reply) {
    r.outcome == Completed(200) && Concat(r.chunks) != ""
  }

  lemma FinalIff(r: Reply)
    ensures Final(r) <==> !Transient(r)
  {
    if Transient(r) { SilentConcat(r.chunks); }
  }

  /** Another request of the same model is made exactly after a transient failure, as long as there are attempts. */
  lemma {:induction false} RetriesIff(server: nat -> Reply, k: nat, maxAttempts: nat)
    requires maxAttempts >= 1
    ensures var made := Attempts(server, k, maxAttempts).made;
            && 1 <= made <= maxAttempts
            && (forall i :: k <= i < k + made - 1 ==> Transient(server(i)))
            && (made < maxAttempts ==> !Transient(server(k + made - 1)))
    decreases maxAttempts
  {
    hide Final, Transient, Classify;
    FinalIff(server(k));
    if Transient(server(k)) && maxAttempts > 1 {
      RetriesIff(server, k + 1, maxAttempts - 1);
    }
  }

  /** The response is about the last reply: its text when it answers, else a failure with its status or break. */
  lemma ReportsLastReply(server: nat -> Reply, k: nat, maxAttempts: nat)
    requires maxAttempts >= 1
    ensures var t := Attempts(server, k, maxAttempts);
            && t.made >= 1
            && var last := server(k + t.made - 1);
               && (t.response.success <==> Answers(last))
               && t.response.text == (if last.outcome == Completed(200) then Concat(last.chunks) else "")
               && t.response.httpStatus == (if last.outcome.Completed? then last.outcome.status else 0)
               && t.response.transport == (if last.outcome.Broken? then last.outcome.kind else Ok)
               && t.response.message ==
                  (if Answers(last) then NoMessage
                   else if last.outcome.Broken? || last.outcome.status == 0 then TransportText
                   else if last.outcome.status == 200 then Unexpected
                   else if last.outcome.status == 404 then ModelNotFound
                   else HttpText(last.outcome.status))
  {
    AttemptsLaws(server, k, maxAttempts);
    hide Attempts, Concat;
  }

  /** So transient failures are survived: the first answer within the attempts is the response. */
  lemma {:induction false} RetriesUntilAnswer(server: nat -> Reply, k: nat, n: nat, maxAttempts: nat)
    requires n < maxAttempts && (forall i :: k <= i < k + n ==> Transient(server(i))) && Answers(server(k + n))
    ensures Attempts(server, k, maxAttempts) ==
            Tally(n + 1, Response(true, Concat(server(k + n).chunks), 200, NoMessage, Ok))
    decreases n
  {
    FinalIff(server(k));
    if n > 0 {
      hide Classify, Final, Answers;
      RetriesUntilAnswer(server, k + 1, n - 1, maxAttempts - 1);
    }
  }

  lemma NotFoundIsAskedOnce(server: nat -> Reply, k: nat, maxAttempts: nat)
    requires maxAttempts >= 1 && Is404(server(k))
    ensures Attempts(server, k, maxAttempts) == Tally(1, Response(false, "", 404, ModelNotFound, Ok))
  {
  }

  /** Another model is asked exactly when the last reply to this one was a 404. */
  lemma NextModelIff(server: nat -> Reply, k: nat, models: nat, maxAttempts: nat)
    requires maxAttempts >= 1 && models >= 1
    ensures var made := Attempts(server, k, maxAttempts).made;
            && made >= 1
            && (Chain(server, k, models, maxAttempts).made > made <==> models > 1 && Is404(server(k + made - 1)))
  {
    hide Attempts;
    var made := Attempts(server, k, maxAttempts).made;
    AttemptsLaws(server, k, maxAttempts);
    assert Settled(Classify(server(k + made - 1))) <==> !Is404(server(k + made - 1));
    hide Classify;
    if models > 1 { ChainLaws(server, k + made, models - 1, maxAttempts); }
  }

  /** Models that answer 404 are passed over, each after one request, until one answers. */
  lemma {:induction false} FallsBackToAnswer(server: nat -> Reply, k: nat, names: seq<string>, j: nat, maxAttempts: nat)
    requires maxAttempts >= 1 && j < |names|
    requires (forall i :: k <= i < k + j ==> Is404(server(i))) && Answers(server(k + j))
    ensures Chain(server, k, |names|, maxAttempts) ==
            Tally(j + 1, Response(true, Concat(server(k + j).chunks), 200, NoMessage, Ok))
    ensures ModelsAsked(server, k, names, maxAttempts) == names[..j + 1]
    decreases j
  {
    if j == 0 {
      RetriesUntilAnswer(server, k, 0, maxAttempts);
      hide Attempts, Classify, Answers;
      assert seq(1, _ => names[0]) + [] == names[..1];
    } else {
      NotFoundIsAskedOnce(server, k, maxAttempts);
      FallsBackToAnswer(server, k + 1, names[1..], j - 1, maxAttempts);
      hide Attempts, Classify, Answers;
      assert seq(1, _ => names[0]) + names[1..][..j] == names[..j + 1];
    }
  }

  /** When every model answers 404, the chain says that none is available. */
  lemma {:induction false} AllNotFound(server: nat -> Reply, k: nat, models: nat, maxAttempts: nat)
    requires maxAttempts >= 1 && models >= 1 && forall i :: k <= i < k + models ==> Is404(server(i))
    ensures Chain(server, k, models, maxAttempts) == Tally(models, Response(false, "", 404, Unavailable, Ok))
    decreases models
  {
    NotFoundIsAskedOnce(server, k, maxAttempts);
    hide Attempts;
    if models > 1 { AllNotFound(server, k + 1, models - 1, maxAttempts); }
  }

  /**
   On every server: the number of requests is bounded, no request follows an aborted one, and
   a request that showed text is followed by another only when it was answered 404.
   */
  lemma {:induction false} ChainLaws(server: nat -> Reply, k: nat, models: nat, maxAttempts: nat)
    requires maxAttempts >= 1 && models >= 1
    ensures var made := Chain(server, k, models, maxAttempts).made;
            && 1 <= made <= maxAttempts * models
            && (forall i :: k <= i < k + made - 1 ==> server(i).outcome != Broken(Aborted))
            && (forall i :: k <= i < k + made - 1 && Emits(server(i)) ==> Is404(server(i)))
    decreases models
  {
    hide Attempts, Classify, Emits;
    var t := Attempts(server, k, maxAttempts);
    AttemptsLaws(server, k, maxAttempts);
    assert maxAttempts * models == maxAttempts + maxAttempts * (models - 1);
    if !Settled(t.response) && models > 1 {
      UnsettledIs404(server(k + t.made - 1));
      ChainLaws(server, k + t.made, models - 1, maxAttempts);
    }
  }

  predicate Silent404(server: nat -> Reply, k: nat, made: nat) {
    forall i :: k <= i < k + made ==> Is404(server(i)) ==> !Emits(server(i))
  }

  lemma {:induction false} ShownSplit(server: nat -> Reply, i: nat, j: nat, m: nat)
    requires i <= j <= m
    ensures Shown(server, i, m) == Shown(server, i, j) + Shown(server, j, m)
    decreases j - i
  {
    if i < j { ShownSplit(server, i + 1, j, m); }
  }

  lemma {:induction false} SilentShown(server: nat -> Reply, i: nat, j: nat)
    requires i <= j && forall n :: i <= n < j ==> !Emits(server(n))
    ensures Concat(Shown(server, i, j)) == ""
    decreases j - i
  {
    if i < j {
      SilentShown(server, i + 1, j);
      SilentConcat(server(i).chunks);
      ConcatAppend(server(i).chunks, Shown(server, i + 1, j));
    }
  }

  lemma {:induction false} ChainResponse(server: nat -> Reply, k: nat, models: nat, maxAttempts: nat)
    requires maxAttempts >= 1 && models >= 1
    ensures var t := Chain(server, k, models, maxAttempts);
            && t.made >= 1
            && (t.response.success ==> t.response == Classify(server(k + t.made - 1)))
    decreases models
  {
    hide Attempts, Classify, Emits;
    var t := Attempts(server, k, maxAttempts);
    AttemptsLaws(server, k, maxAttempts);
    if !Settled(t.response) && models > 1 {
      ChainResponse(server, k + t.made, models - 1, maxAttempts);
    }
  }

  /**
   When no 404 reply carries text, all text shown comes from the last request alone, and a
   successful response holds exactly the text that was shown.
   */
  lemma OneAttemptShows(server: nat -> Reply, models: nat, maxAttempts: nat)
    requires maxAttempts >= 1 && models >= 1
    requires Silent404(server, 0, Chain(server, 0, models, maxAttempts).made)
    ensures var t := Chain(server, 0, models, maxAttempts);
            && t.made >= 1
            && (forall i :: 0 <= i < t.made && Emits(server(i)) ==> i == t.made - 1)
            && Concat(Shown(server, 0, t.made)) == Concat(server(t.made - 1).chunks)
            && (t.response.success ==> Concat(Shown(server, 0, t.made)) == t.response.text)
  {
    var t := Chain(server, 0, models, maxAttempts);
    ChainLaws(server, 0, models, maxAttempts);
    ChainResponse(server, 0, models, maxAttempts);
    var last := t.made - 1;
    ShownSplit(server, 0, last, t.made);
    SilentShown(server, 0, last);
    ConcatAppend(Shown(server, 0, last), Shown(server, last, t.made));
    assert Shown(server, last, t.made) == server(last).chunks + Shown(server, last + 1, t.made);
    assert server(last).chunks + [] == server(last).chunks;
  }

  /** Two different requests of the run showed text. */
  ghost predicate ShowsTwice(server: nat -> Reply, models: nat, maxAttempts: nat)
    requires maxAttempts >= 1 && models >= 1
  {
    exists i: nat, j: nat :: i < j < Chain(server, 0, models, maxAttempts).made && Emits(server(i)) && Emits(server(j))
  }

  function FollowedByText(first: Reply): nat -> Reply {
    k => if k == 0 then first else Reply(["again"], Completed(200))
  }

  /** With a fallback, text in the first reply can be shown again exactly when that reply is a 404. */
  lemma ShownAgainIff404(first: Reply, models: nat, maxAttempts: nat)
    requires maxAttempts >= 1 && models >= 2 && Emits(first)
    ensures (exists server: nat -> Reply :: server(0) == first && ShowsTwice(server, models, maxAttempts))
            <==> Is404(first)
  {
    if Is404(first) {
      var server := FollowedByText(first);
      assert server(0) == first && server(1).chunks[0] == "again";
      assert Emits(server(1));
      assert Attempts(server, 0, maxAttempts) == Tally(1, Classify(first));
      ChainLaws(server, 1, models - 1, maxAttempts);
      assert 0 < 1 < Chain(server, 0, models, maxAttempts).made;
      assert ShowsTwice(server, models, maxAttempts);
    } else {
      forall server: nat -> Reply | server(0) == first ensures !ShowsTwice(server, models, maxAttempts) {
        ChainLaws(server, 0, models, maxAttempts);
        assert Chain(server, 0, models, maxAttempts).made == 1;
      }
    }
  }

  /** What the rest of the chain asks after response `resp`. */
  function StillToAsk(server: nat -> Reply, k: nat, models: seq<string>, maxAttempts: nat, resp: Response): seq<string>
    requires maxAttempts >= 1
  {
    if Settled(resp) || models == [] then [] else ModelsAsked(server, k, models, maxAttempts)
  }

  lemma AskedStep(server: nat -> Reply, k: nat, model: string, later: seq<string>, maxAttempts: nat,
                  before: seq<string>)
    requires maxAttempts >= 1
    ensures var t := Attempts(server, k, maxAttempts);
            before + ModelsAsked(server, k, [model] + later, maxAttempts) ==
            before + seq(t.made, _ => model) + StillToAsk(server, k + t.made, later, maxAttempts, t.response)
  {
    hide Attempts;
    assert ([model] + later)[1..] == later;
  }

  /** The requests still made, and the response handed up, once one model has answered `resp`. */
  function Rest(server: nat -> Reply, k: nat, models: nat, maxAttempts: nat, resp: Response): Tally
    requires maxAttempts >= 1
  {
    if Settled(resp) then Tally(0, resp)
    else if models == 0 then Tally(0, resp.(success := false, httpStatus := 404, message := Unavailable))
    else Chain(server, k, models, maxAttempts)
  }

  lemma ChainStep(server: nat -> Reply, k: nat, models: nat, maxAttempts: nat)
    requires maxAttempts >= 1
    ensures var t := Attempts(server, k, maxAttempts);
            var rest := Rest(server, k + t.made, models, maxAttempts, t.response);
            Chain(server, k, 1 + models, maxAttempts) == Tally(t.made + rest.made, rest.response)
  {
    hide Attempts;
  }

  class StreamingClient {
    const server: nat -> Reply
    /** The model asked for by each request so far. */
    var requests: seq<string>
    /** Everything the user callback was given. */
    var shown: seq<string>

    constructor (server: nat -> Reply)
      ensures this.server == server && requests == [] && shown == []
    {
      this.server := server;
      requests, shown := [], [];
    }

    method InvokeOnce(model: string) returns (resp: Response, emittedAny: bool)
      modifies this
      ensures requests == old(requests) + [model]
      ensures shown == old(shown) + server(|old(requests)|).chunks
      ensures resp == Classify(server(|old(requests)|)) && emittedAny == Emits(server(|old(requests)|))
    {
      var reply := server(|requests|);
      requests := requests + [model];
      resp := Classify(reply);
      emittedAny := false;
      var i := 0;
      while i < |reply.chunks|
        invariant 0 <= i <= |reply.chunks|
        invariant requests == old(requests) + [model]
        invariant shown == old(shown) + reply.chunks[..i]
        invariant emittedAny == exists j :: 0 <= j < i && reply.chunks[j] != ""
      {
        if reply.chunks[i] != "" { emittedAny := true; }
        shown := shown + [reply.chunks[i]];
        assert reply.chunks[..i + 1] == reply.chunks[..i] + [reply.chunks[i]];
        i := i + 1;
      }
      assert reply.chunks[..i] == reply.chunks;
    }

    method InvokeStreaming(model: string, maxAttempts: nat) returns (resp: Response)
      requires maxAttempts >= 1
      modifies this
      ensures var t := Attempts(server, |old(requests)|, maxAttempts);
              && resp == t.response
              && |requests| == |old(requests)| + t.made
              && requests == old(requests) + seq(t.made, _ => model)
              && shown == old(shown) + Shown(server, |old(requests)|, |requests|)
    {
      hide Classify, Emits, Shown;
      var emittedAny: bool;
      resp, emittedAny := InvokeOnce(model);
      ghost var start := |old(requests)|;
      ghost var all := Attempts(server, start, maxAttempts);
      ShownOne(server, start);
      var attempt := 1;
      while attempt < maxAttempts && !resp.success && !resp.transport.Aborted? && !emittedAny && IsRetryable(resp)
        invariant 1 <= attempt <= maxAttempts
        invariant |requests| == start + attempt
        invariant requests == old(requests) + seq(attempt, _ => model)
        invariant shown == old(shown) + Shown(server, start, |requests|)
        invariant resp == Classify(server(|requests| - 1)) && emittedAny == Emits(server(|requests| - 1))
        invariant all.made == attempt - 1 + Attempts(server, |requests| - 1, maxAttempts - attempt + 1).made
        invariant all.response == Attempts(server, |requests| - 1, maxAttempts - attempt + 1).response
        decreases maxAttempts - attempt
      {
        resp, emittedAny := InvokeOnce(model);
        ShownSplit(server, start, |requests| - 1, |requests|);
        ShownOne(server, |requests| - 1);
        attempt := attempt + 1;
      }
    }

    method StreamingChain(primary: string, fallbacks: seq<string>, maxAttempts: nat) returns (resp: Response)
      requires maxAttempts >= 1
      modifies this
      ensures var t := Chain(server, |old(requests)|, 1 + |fallbacks|, maxAttempts);
              && resp == t.response
              && |requests| == |old(requests)| + t.made
              && shown == old(shown) + Shown(server, |old(requests)|, |requests|)
      ensures requests == old(requests) + ModelsAsked(server, |old(requests)|, [primary] + fallbacks, maxAttempts)
    {
      hide Attempts, Classify, Emits, Shown, Chain, ModelsAsked;
      ghost var start := |old(requests)|;
      ghost var all := Chain(server, start, 1 + |fallbacks|, maxAttempts);
      ghost var asked := old(requests) + ModelsAsked(server, start, [primary] + fallbacks, maxAttempts);
      resp := InvokeStreaming(primary, maxAttempts);
      ChainStep(server, start, |fallbacks|, maxAttempts);
      AskedStep(server, start, primary, fallbacks, maxAttempts, old(requests));
      var i := 0;
      while i < |fallbacks| && !(resp.success || resp.message != ModelNotFound)
        invariant 0 <= i <= |fallbacks| && start <= |requests|
        invariant asked == requests + StillToAsk(server, |requests|, fallbacks[i..], maxAttempts, resp)
        invariant shown == old(shown) + Shown(server, start, |requests|)
        invariant all.made == |requests| - start + Rest(server, |requests|, |fallbacks| - i, maxAttempts, resp).made
        invariant all.response == Rest(server, |requests|, |fallbacks| - i, maxAttempts, resp).response
      {
        ghost var before := requests;
        assert fallbacks[i..] == [fallbacks[i]] + fallbacks[i + 1..];
        resp := InvokeStreaming(fallbacks[i], maxAttempts);
        ChainStep(server, |before|, |fallbacks| - i - 1, maxAttempts);
        AskedStep(server, |before|, fallbacks[i], fallbacks[i + 1..], maxAttempts, before);
        ShownSplit(server, start, |before|, |requests|);
        i := i + 1;
      }
      assert requests + [] == requests;
      if resp.success || resp.message != ModelNotFound { return; }
      resp := resp.(success := false, httpStatus := 404, message := Unavailable);
    }
  }

  lemma ShownOne(server: nat -> Reply, k: nat)
    ensures Shown(server, k, k + 1) == server(k).chunks
  {
    assert Shown(server, k, k + 1) == server(k).chunks + Shown(server, k + 1, k + 1);
    assert server(k).chunks + [] == server(k).chunks;
  }
}
