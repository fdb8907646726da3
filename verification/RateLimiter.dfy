/** The sliding-window rate limiter: what one call does, and what holds over whole runs of calls. */
module RateLimiter {

  /** The timestamps later than `cutoff`. */
  function Fresh(times: seq<int>, cutoff: int): seq<int>
    decreases |times|
  {
    if times == [] then []
    else
      var last := times[|times| - 1];
      if last <= cutoff then Fresh(times[..|times| - 1], cutoff) else Fresh(times[..|times| - 1], cutoff) + [last]
  }

  class AiRateLimiter {
    const maxRequests: int
    const windowSeconds: int
    var timestamps: seq<int>

    constructor (maxRequests: int, windowSeconds: int)
      ensures this.maxRequests == maxRequests && this.windowSeconds == windowSeconds && timestamps == []
    {
      this.maxRequests, this.windowSeconds, timestamps := maxRequests, windowSeconds, [];
    }

    /** A call at time `now`; calls are serialised by a mutex. */
    method Allow(now: int) returns (granted: bool)
      modifies `timestamps
      ensures granted == Grants(maxRequests, windowSeconds, old(timestamps), now)
      ensures timestamps == Next(maxRequests, windowSeconds, old(timestamps), now)
    {
      var cutoff := now - windowSeconds;
      var kept: seq<int> := [];
      var i := 0;
      while i < |timestamps|
        invariant 0 <= i <= |timestamps| && kept == Fresh(timestamps[..i], cutoff)
      {
        assert timestamps[..i + 1][..i] == timestamps[..i];
        if timestamps[i] > cutoff {
          kept := kept + [timestamps[i]];
        }
        i := i + 1;
      }
      assert timestamps[..i] == timestamps;
      timestamps := kept;
      if |timestamps| >= maxRequests {
        return false;
      }
      timestamps := timestamps + [now];
      return true;
    }

    /** A run of calls at the given times, and the times at which they were granted. */
    method Serve(clock: seq<int>) returns (granted: seq<int>)
      requires timestamps == []
      modifies `timestamps
      ensures granted == Granted(maxRequests, windowSeconds, clock)
      ensures timestamps == Held(maxRequests, windowSeconds, clock)
    {
      granted := [];
      var k := 0;
      while k < |clock|
        invariant 0 <= k <= |clock|
        invariant granted == Granted(maxRequests, windowSeconds, clock[..k])
        invariant timestamps == Held(maxRequests, windowSeconds, clock[..k])
      {
        var ok := Allow(clock[k]);
        assert clock[..k + 1][..k] == clock[..k];
        if ok {
          granted := granted + [clock[k]];
        }
        k := k + 1;
      }
      assert clock[..k] == clock;
    }
  }

  predicate Grants(max: int, window: int, times: seq<int>, now: int) {
    |Fresh(times, now - window)| < max
  }

  function Next(max: int, window: int, times: seq<int>, now: int): seq<int> {
    if Grants(max, window, times, now) then Fresh(times, now - window) + [now] else Fresh(times, now - window)
  }

  /** The timestamps held after a run. */
  function Held(max: int, window: int, clock: seq<int>): seq<int>
    decreases |clock|
  {
    if clock == [] then []
    else Next(max, window, Held(max, window, clock[..|clock| - 1]), clock[|clock| - 1])
  }

  /** The times of the calls granted in a run. */
  function Granted(max: int, window: int, clock: seq<int>): seq<int>
    decreases |clock|
  {
    if clock == [] then []
    else
      var before := clock[..|clock| - 1];
      if Grants(max, window, Held(max, window, before), clock[|clock| - 1])
      then Granted(max, window, before) + [clock[|clock| - 1]]
      else Granted(max, window, before)
  }

  predicate NonDecreasing(clock: seq<int>) {
    forall i, j :: 0 <= i < j < |clock| ==> clock[i] <= clock[j]
  }

  predicate UpTo(times: seq<int>, now: int) {
    forall i :: 0 <= i < |times| ==> times[i] <= now
  }

  /** How many of `times` lie in the half-open interval (lo, hi]. */
  function Within(times: seq<int>, lo: int, hi: int): nat
    decreases |times|
  {
    if times == [] then 0
    else Within(times[..|times| - 1], lo, hi) + if lo < times[|times| - 1] <= hi then 1 else 0
  }

  lemma FreshSnoc(times: seq<int>, t: int, cutoff: int)
    ensures Fresh(times + [t], cutoff) == if t <= cutoff then Fresh(times, cutoff) else Fresh(times, cutoff) + [t]
  {
    assert (times + [t])[..|times|] == times;
  }

  lemma {:induction false} FreshTwice(times: seq<int>, early: int, late: int)
    requires early <= late
    ensures Fresh(Fresh(times, early), late) == Fresh(times, late)
    ensures |Fresh(times, late)| <= |Fresh(times, early)|
    decreases |times|
  {
    if times != [] {
      var n := |times| - 1;
      FreshTwice(times[..n], early, late);
      FreshSnoc(Fresh(times[..n], early), times[n], late);
    }
  }

  lemma {:induction false} WithinIsFresh(times: seq<int>, lo: int, hi: int)
    requires UpTo(times, hi)
    ensures Within(times, lo, hi) == |Fresh(times, lo)|
    decreases |times|
  {
    if times != [] {
      WithinIsFresh(times[..|times| - 1], lo, hi);
    }
  }

  lemma {:induction false} GrantedByNow(max: int, window: int, clock: seq<int>, now: int)
    requires UpTo(clock, now)
    ensures UpTo(Granted(max, window, clock), now)
    decreases |clock|
  {
    if clock != [] {
      GrantedByNow(max, window, clock[..|clock| - 1], now);
    }
  }

  lemma OneMoreHeld(max: int, window: int, held: seq<int>, grants: seq<int>, now: int, cutoff: int)
    requires Fresh(held, cutoff) == Fresh(grants, cutoff) && now - window <= cutoff
    ensures Fresh(Next(max, window, held, now), cutoff)
            == Fresh(if Grants(max, window, held, now) then grants + [now] else grants, cutoff)
  {
    hide Fresh, Grants;
    FreshTwice(held, now - window, cutoff);
    FreshSnoc(Fresh(held, now - window), now, cutoff);
    FreshSnoc(grants, now, cutoff);
  }

  /** Forgetting old timestamps loses nothing a later call looks at. */
  lemma {:induction false} HeldIsEnough(max: int, window: int, clock: seq<int>, cutoff: int)
    requires NonDecreasing(clock) && UpTo(clock, cutoff + window)
    ensures Fresh(Held(max, window, clock), cutoff) == Fresh(Granted(max, window, clock), cutoff)
    decreases |clock|
  {
    hide Fresh, Grants, Next;
    if clock != [] {
      var n := |clock| - 1;
      var before := clock[..n];
      HeldIsEnough(max, window, before, cutoff);
      OneMoreHeld(max, window, Held(max, window, before), Granted(max, window, before), clock[n], cutoff);
    }
  }

  /** A call is granted exactly when fewer than the maximum number of grants lie in its own window. */
  lemma GrantedIffRoom(max: int, window: int, clock: seq<int>, now: int)
    requires NonDecreasing(clock + [now])
    ensures Grants(max, window, Held(max, window, clock), now)
            <==> Within(Granted(max, window, clock), now - window, now) < max
  {
    hide Held, Granted, Within, Fresh, NonDecreasing, UpTo;
    EarlierIsSorted(clock, now);
    assert now - window + window == now;
    HeldIsEnough(max, window, clock, now - window);
    GrantedByNow(max, window, clock, now);
    WithinIsFresh(Granted(max, window, clock), now - window, now);
  }

  lemma EarlierIsSorted(clock: seq<int>, now: int)
    requires NonDecreasing(clock + [now])
    ensures NonDecreasing(clock) && UpTo(clock, now)
  {
    var all := clock + [now];
    assert forall i :: 0 <= i < |clock| ==> all[i] == clock[i];
    assert all[|clock|] == now;
  }

  lemma WithinSnoc(times: seq<int>, t: int, lo: int, hi: int)
    ensures Within(times + [t], lo, hi) == Within(times, lo, hi) + if lo < t <= hi then 1 else 0
  {
    assert (times + [t])[..|times|] == times;
  }

  /** One more grant at `now` keeps every window of the same length within the maximum. */
  lemma OneMoreFits(max: int, window: int, grants: seq<int>, now: int, t: int)
    requires UpTo(grants, now)
    requires Within(grants, now - window, now) < max && Within(grants, t - window, t) <= max
    ensures Within(grants + [now], t - window, t) <= max
  {
    WithinSnoc(grants, now, t - window, t);
    if now <= t {
      WithinIsFresh(grants, t - window, t);
      WithinIsFresh(grants, now - window, now);
      FreshTwice(grants, now - window, t - window);
    }
  }

  /** With a non-decreasing clock no interval of the window's length ever holds more grants than allowed. */
  lemma {:induction false} NeverTooMany(max: int, window: int, clock: seq<int>, t: int)
    requires NonDecreasing(clock)
    ensures Within(Granted(max, window, clock), t - window, t) <= if max < 0 then 0 else max
    decreases |clock|
  {
    if clock != [] {
      hide Held, Within, Grants;
      var n := |clock| - 1;
      var now, before := clock[n], clock[..n];
      assert clock == before + [now];
      EarlierIsSorted(before, now);
      NeverTooMany(max, window, before, t);
      GrantedIffRoom(max, window, before, now);
      GrantedByNow(max, window, before, now);
      if Grants(max, window, Held(max, window, before), now) {
        OneMoreFits(max, window, Granted(max, window, before), now, t);
      }
    }
  }

  /** A refused call has exactly the maximum number of grants in its window. */
  lemma RefusedOnlyWhenFull(max: int, window: int, clock: seq<int>, now: int)
    requires max >= 0 && NonDecreasing(clock + [now])
    ensures !Grants(max, window, Held(max, window, clock), now)
            <==> Within(Granted(max, window, clock), now - window, now) == max
  {
    GrantedIffRoom(max, window, clock, now);
    EarlierIsSorted(clock, now);
    NeverTooMany(max, window, clock, now);
  }
}
