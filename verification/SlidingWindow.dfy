/**
 * The two sliding-window limiters (Yahoo Finance and CoinGlass) as a step protocol.  As for the
 * token bucket, each block run under the lock is one atomic event and an interleaving of callers
 * is a sequence of events whose clock readings never decrease.
 */
module SlidingWindow {
  import opened Prelude

  const WINDOW := 60.0

  /** The deque that remembers request times is bounded, and drops its oldest entry when full. */
  const MAX_TRACKED := 1000

  datatype Limiter = Limiter(
    minInterval: real,
    limit: int,
    lastRequestTime: real,
    requestTimes: seq<real>,
    backoffUntil: real)

  datatype Outcome = Admitted | Sleep(seconds: real) | EmptyDeque

  /** A granted request, with the per-minute limit in force when it was granted. */
  datatype Admission = Admission(time: real, limit: int)

  datatype Event =
    | BackoffCheck(now: real)
    | Attempt(now: real)
    | LimitHeader(now: real, value: int)
    | RateLimited(now: real, backoff: real)
    | Reset(now: real)

  function Fresh(minInterval: real, limit: int): Limiter {
    Limiter(minInterval, limit, 0.0, [], 0.0)
  }

  function Purge(times: seq<real>, cutoff: real): seq<real> {
    if times != [] && times[0] < cutoff then Purge(times[1..], cutoff) else times
  }

  function Push(times: seq<real>, t: real): seq<real> {
    if |times| < MAX_TRACKED then times + [t] else (times + [t])[|times| + 1 - MAX_TRACKED..]
  }

  /** The locked block of the admission phase. */
  function AttemptStep(w: Limiter, now: real): (Limiter, Outcome) {
    var kept := Purge(w.requestTimes, now - WINDOW);
    var purged := w.(requestTimes := kept);
    if now - w.lastRequestTime < w.minInterval then
      (purged, Sleep(w.minInterval - (now - w.lastRequestTime)))
    else if |kept| >= w.limit then
      if kept == [] then (purged, EmptyDeque)
      else (purged, Sleep(Max(0.0, WINDOW - (now - kept[0]))))
    else
      (purged.(lastRequestTime := now, requestTimes := Push(kept, now)), Admitted)
  }

  function ResetStep(w: Limiter): Limiter {
    Fresh(w.minInterval, w.limit)
  }

  function Apply(w: Limiter, history: seq<Admission>, e: Event): (Limiter, seq<Admission>) {
    match e
    case BackoffCheck(_) => (w, history)
    case Attempt(now) =>
      var (w', outcome) := AttemptStep(w, now);
      (w', if outcome == Admitted then history + [Admission(now, w.limit)] else history)
    case LimitHeader(_, value) => (w.(limit := MaxInt(1, value)), history)
    case RateLimited(now, backoff) => (w.(backoffUntil := now + backoff), history)
    case Reset(_) => (ResetStep(w), [])
  }

  /** The limiter after a run, and the admissions it granted since the last reset, in order. */
  function Run(w: Limiter, events: seq<Event>): (Limiter, seq<Admission>) {
    if events == [] then (w, [])
    else
      var n := |events| - 1;
      var (before, history) := Run(w, events[..n]);
      Apply(before, history, events[n])
  }

  lemma {:induction false} RunSnoc(w: Limiter, events: seq<Event>, e: Event)
    ensures Run(w, events + [e]) == Apply(Run(w, events).0, Run(w, events).1, e)
  {
    hide Apply;
    assert (events + [e])[..|events|] == events;
  }

  ghost predicate Timed(events: seq<Event>) {
    && (forall i :: 0 <= i < |events| ==> 0.0 <= events[i].now)
    && (forall i, j :: 0 <= i < j < |events| ==> events[i].now <= events[j].now)
  }

  // ---------------------------------------------------------------------------------------
  // What the deque holds
  // ---------------------------------------------------------------------------------------

  function Times(history: seq<Admission>): seq<real> {
    seq(|history|, i requires 0 <= i < |history| => history[i].time)
  }

  ghost predicate Ascending(history: seq<Admission>) {
    forall i, j :: 0 <= i < j < |history| ==> history[i].time <= history[j].time
  }

  /** Times of the admissions at or after the cutoff. */
  function Recent(history: seq<Admission>, cutoff: real): seq<real> {
    if history == [] then []
    else
      var n := |history| - 1;
      Recent(history[..n], cutoff) + if history[n].time >= cutoff then [history[n].time] else []
  }

  function LastOf(times: seq<real>, n: nat): seq<real> {
    if |times| <= n then times else times[|times| - n..]
  }

  /**
   * The deque is a suffix of the admission times, and whatever it no longer holds has either left
   * the window or been pushed out by the bound on its length.
   */
  ghost predicate Tracks(w: Limiter, history: seq<Admission>, now: real) {
    var dropped := |history| - |w.requestTimes|;
    && Ascending(history)
    && 0 <= dropped && |w.requestTimes| <= MAX_TRACKED
    && (forall i :: 0 <= i < |w.requestTimes| ==> w.requestTimes[i] == history[dropped + i].time)
    && (forall i :: 0 <= i < dropped ==> history[i].time < now - WINDOW || |w.requestTimes| == MAX_TRACKED)
    && (forall i :: 0 <= i < |history| ==> 0.0 <= history[i].time <= w.lastRequestTime <= now)
    && 0.0 <= w.lastRequestTime <= now
  }

  lemma {:induction false} PurgeIsSuffix(times: seq<real>, cutoff: real)
    requires forall i, j :: 0 <= i < j < |times| ==> times[i] <= times[j]
    ensures var kept := Purge(times, cutoff);
            var k := |times| - |kept|;
      && 0 <= k && kept == times[k..]
      && (forall i :: 0 <= i < k ==> times[i] < cutoff)
      && (forall i :: 0 <= i < |kept| ==> cutoff <= kept[i])
  {
    if times != [] && times[0] < cutoff {
      PurgeIsSuffix(times[1..], cutoff);
      var kept := Purge(times[1..], cutoff);
      assert kept == times[|times| - |kept|..];
    }
  }

  lemma {:induction false} TracksAfterPurge(w: Limiter, history: seq<Admission>, now: real)
    requires Tracks(w, history, now)
    ensures var kept := Purge(w.requestTimes, now - WINDOW);
      Tracks(w.(requestTimes := kept), history, now) && forall i :: 0 <= i < |kept| ==> now - WINDOW <= kept[i]
  {
    var dropped := |history| - |w.requestTimes|;
    forall i, j | 0 <= i < j < |w.requestTimes|
      ensures w.requestTimes[i] <= w.requestTimes[j]
    {
      assert history[dropped + i].time <= history[dropped + j].time;
    }
    PurgeIsSuffix(w.requestTimes, now - WINDOW);
    var kept := Purge(w.requestTimes, now - WINDOW);
    TracksAfterDrop(w, history, now, |w.requestTimes| - |kept|);
  }

  /** Dropping stale entries from the front keeps the deque in step. */
  lemma TracksAfterDrop(w: Limiter, history: seq<Admission>, now: real, k: nat)
    requires Tracks(w, history, now) && k <= |w.requestTimes|
    requires forall i :: 0 <= i < k ==> w.requestTimes[i] < now - WINDOW
    ensures Tracks(w.(requestTimes := w.requestTimes[k..]), history, now)
  {
    var kept := w.requestTimes[k..];
    var dropped := |history| - |w.requestTimes|;
    forall i | 0 <= i < |kept|
      ensures kept[i] == history[dropped + k + i].time
    {
      assert w.requestTimes[k + i] == history[dropped + (k + i)].time;
    }
    forall i | 0 <= i < dropped + k
      ensures history[i].time < now - WINDOW || |kept| == MAX_TRACKED
    {
      if dropped <= i {
        assert w.requestTimes[i - dropped] == history[dropped + (i - dropped)].time;
      } else if 0 < k {
        assert w.requestTimes[0] == history[dropped + 0].time;
        assert history[i].time <= history[dropped].time;
      }
    }
  }

  lemma TracksAfterPush(w: Limiter, history: seq<Admission>, now: real)
    requires Tracks(w, history, now)
    ensures Tracks(w.(lastRequestTime := now, requestTimes := Push(w.requestTimes, now)),
                   history + [Admission(now, w.limit)], now)
  {
    var w' := w.(lastRequestTime := now, requestTimes := Push(w.requestTimes, now));
    var longer := history + [Admission(now, w.limit)];
    var dropped, dropped' := |history| - |w.requestTimes|, |longer| - |w'.requestTimes|;
    assert dropped' == dropped || (dropped' == dropped + 1 && |w'.requestTimes| == MAX_TRACKED);
    forall i | 0 <= i < |w'.requestTimes|
      ensures w'.requestTimes[i] == longer[dropped' + i].time
    {
      var was := i + (dropped' - dropped);
      assert w'.requestTimes[i] == (w.requestTimes + [now])[was];
      if was < |w.requestTimes| {
        assert w.requestTimes[was] == history[dropped + was].time;
      }
    }
    hide Push;
  }

  lemma TracksLater(w: Limiter, w': Limiter, history: seq<Admission>, now: real, later: real)
    requires Tracks(w, history, now) && now <= later
    requires w'.requestTimes == w.requestTimes && w'.lastRequestTime == w.lastRequestTime
    ensures Tracks(w', history, later)
  {
  }

  lemma ApplyTracks(w: Limiter, history: seq<Admission>, e: Event, now: real)
    requires Tracks(w, history, now) && now <= e.now
    ensures var (w', history') := Apply(w, history, e); Tracks(w', history', e.now)
  {
    TracksLater(w, w, history, now, e.now);
    if e.Attempt? {
      TracksAfterPurge(w, history, e.now);
      var purged := w.(requestTimes := Purge(w.requestTimes, e.now - WINDOW));
      TracksAfterPush(purged, history, e.now);
      hide Tracks, Purge, Push;
    } else if e.Reset? {
      assert Tracks(ResetStep(w), [], e.now);
      hide Tracks;
    } else {
      TracksLater(w, Apply(w, history, e).0, history, now, e.now);
      hide Tracks;
    }
  }

  lemma AttemptLeavesRecent(w: Limiter, history: seq<Admission>, now: real)
    requires Tracks(w, history, now)
    ensures var left := AttemptStep(w, now).0.requestTimes; forall i :: 0 <= i < |left| ==> now - WINDOW <= left[i]
  {
    TracksAfterPurge(w, history, now);
    hide Tracks, Purge;
  }

  /** A locked attempt leaves in the deque exactly the admissions of the last minute, up to its bound. */
  lemma {:induction false} DequeHoldsTheWindow(w: Limiter, history: seq<Admission>, now: real)
    requires Tracks(w, history, now)
    ensures var (w', history') := Apply(w, history, Attempt(now));
      w'.requestTimes == LastOf(Recent(history', now - 60.0), 1000)
  {
    AttemptLeavesRecent(w, history, now);
    ApplyTracks(w, history, Attempt(now), now);
    var (w', history') := Apply(w, history, Attempt(now));
    assert w'.requestTimes == AttemptStep(w, now).0.requestTimes;
    hide AttemptStep, Apply;
    TrackedAreRecent(w', history', now);
  }

  lemma {:induction false} TrackedAreRecent(w: Limiter, history: seq<Admission>, now: real)
    requires Tracks(w, history, now)
    requires forall i :: 0 <= i < |w.requestTimes| ==> now - WINDOW <= w.requestTimes[i]
    ensures w.requestTimes == LastOf(Recent(history, now - WINDOW), MAX_TRACKED)
    ensures |w.requestTimes| < MAX_TRACKED ==> |Recent(history, now - WINDOW)| == |w.requestTimes|
  {
    var k := |history| - |w.requestTimes|;
    forall i | k <= i < |history|
      ensures now - WINDOW <= history[i].time
    {
      assert w.requestTimes[i - k] == history[k + (i - k)].time;
    }
    SuffixIsRecent(history, k, now - WINDOW);
    assert w.requestTimes == Times(history[k..]);
  }

  lemma {:induction false} SuffixIsRecent(history: seq<Admission>, k: nat, cutoff: real)
    requires |history| - MAX_TRACKED <= k <= |history|
    requires forall i :: k <= i < |history| ==> cutoff <= history[i].time
    requires forall i :: 0 <= i < k ==> history[i].time < cutoff || |history| - k == MAX_TRACKED
    ensures Times(history[k..]) == LastOf(Recent(history, cutoff), MAX_TRACKED)
    ensures |history| - k < MAX_TRACKED ==> |Recent(history, cutoff)| == |history| - k
  {
    assert history == history[..k] + history[k..];
    RecentSplits(history[..k], history[k..], cutoff);
    RecentAll(history[k..], cutoff);
    if |history| - k < MAX_TRACKED {
      RecentNone(history[..k], cutoff);
    }
  }

  lemma {:induction false} RecentSplits(a: seq<Admission>, b: seq<Admission>, cutoff: real)
    ensures Recent(a + b, cutoff) == Recent(a, cutoff) + Recent(b, cutoff)
  {
    if b == [] {
      assert a + b == a;
    } else {
      var n := |b| - 1;
      RecentSplits(a, b[..n], cutoff);
      assert (a + b)[..|a| + n] == a + b[..n];
    }
  }

  lemma {:induction false} RecentAll(history: seq<Admission>, cutoff: real)
    requires forall i :: 0 <= i < |history| ==> history[i].time >= cutoff
    ensures Recent(history, cutoff) == Times(history)
  {
    if history != [] {
      var n := |history| - 1;
      RecentAll(history[..n], cutoff);
      assert Times(history) == Times(history[..n]) + [history[n].time];
    }
  }

  lemma {:induction false} RecentNone(history: seq<Admission>, cutoff: real)
    requires forall i :: 0 <= i < |history| ==> history[i].time < cutoff
    ensures Recent(history, cutoff) == []
  {
    if history != [] {
      RecentNone(history[..|history| - 1], cutoff);
    }
  }

  // ---------------------------------------------------------------------------------------
  // The per-minute bound
  // ---------------------------------------------------------------------------------------

  /** Number of admissions in the closed interval [a, b]. */
  function CountIn(history: seq<Admission>, a: real, b: real): nat {
    if history == [] then 0
    else
      var n := |history| - 1;
      CountIn(history[..n], a, b) + if a <= history[n].time <= b then 1 else 0
  }

  lemma {:induction false} CountInSnoc(history: seq<Admission>, x: Admission, a: real, b: real)
    ensures CountIn(history + [x], a, b) == CountIn(history, a, b) + if a <= x.time <= b then 1 else 0
  {
    assert (history + [x])[..|history|] == history;
  }

  lemma {:induction false} CountIsRecent(history: seq<Admission>, a: real, b: real)
    requires forall i :: 0 <= i < |history| ==> history[i].time <= b
    ensures CountIn(history, a, b) == |Recent(history, a)|
  {
    if history != [] {
      CountIsRecent(history[..|history| - 1], a, b);
    }
  }

  lemma {:induction false} NarrowerCountsLess(history: seq<Admission>, a: real, b: real, a': real, b': real)
    requires forall i :: 0 <= i < |history| && a <= history[i].time <= b ==> a' <= history[i].time <= b'
    ensures CountIn(history, a, b) <= CountIn(history, a', b')
  {
    if history != [] {
      NarrowerCountsLess(history[..|history| - 1], a, b, a', b');
    }
  }

  /** The minute that ends at the k-th admission holds no more requests than the limit in force then. */
  ghost predicate Respected(history: seq<Admission>, k: nat)
    requires k < |history|
  {
    history[k].limit <= MAX_TRACKED ==>
      CountIn(history[..k + 1], history[k].time - WINDOW, history[k].time) <= history[k].limit
  }

  ghost predicate AllRespected(history: seq<Admission>) {
    forall k :: 0 <= k < |history| ==> Respected(history, k)
  }

  lemma AdmissionRespectsLimit(w: Limiter, history: seq<Admission>, now: real)
    requires Tracks(w, history, now) && AttemptStep(w, now).1 == Admitted
    ensures var longer := history + [Admission(now, w.limit)]; Respected(longer, |history|)
  {
    var longer := history + [Admission(now, w.limit)];
    var purged := w.(requestTimes := Purge(w.requestTimes, now - WINDOW));
    TracksAfterPurge(w, history, now);
    TrackedAreRecent(purged, history, now);
    CountIsRecent(history, now - WINDOW, now);
    CountInSnoc(history, Admission(now, w.limit), now - WINDOW, now);
    assert longer[..|history| + 1] == longer;
  }

  lemma ApplyRespects(w: Limiter, history: seq<Admission>, e: Event, now: real)
    requires Tracks(w, history, now) && now <= e.now && AllRespected(history)
    ensures AllRespected(Apply(w, history, e).1)
  {
    var history' := Apply(w, history, e).1;
    if e.Attempt? && history' != history {
      assert Tracks(w, history, e.now);
      AdmissionRespectsLimit(w, history, e.now);
      forall k | 0 <= k < |history'|
        ensures Respected(history', k)
      {
        if k < |history| {
          assert Respected(history, k);
          assert history'[..k + 1] == history[..k + 1];
        }
      }
    }
  }

  /**
   * Main theorem, with limits that change while the program runs: over every run, each admission
   * since the last reset was granted within the limit in force at that moment.
   */
  lemma {:induction false} EveryAdmissionRespected(minInterval: real, limit: int, events: seq<Event>)
    requires Timed(events)
    ensures var (w, history) := Run(Fresh(minInterval, limit), events);
      && AllRespected(history)
      && Tracks(w, history, if events == [] then 0.0 else events[|events| - 1].now)
  {
    if events != [] {
      var n := |events| - 1;
      EveryAdmissionRespected(minInterval, limit, events[..n]);
      var (before, history) := Run(Fresh(minInterval, limit), events[..n]);
      var now := if n == 0 then 0.0 else events[n - 1].now;
      ApplyTracks(before, history, events[n], now);
      ApplyRespects(before, history, events[n], now);
    }
  }

  /** From the minutes that end at an admission to every closed minute. */
  lemma {:induction false} EveryMinute(history: seq<Admission>, limit: nat, a: real, b: real)
    requires Ascending(history) && AllRespected(history) && limit <= MAX_TRACKED && b == a + WINDOW
    requires forall i :: 0 <= i < |history| ==> history[i].limit == limit
    ensures CountIn(history, a, b) <= limit
  {
    if history != [] {
      var n := |history| - 1;
      if history[n].time <= b {
        assert Respected(history, n) && history[..n + 1] == history;
        NarrowerCountsLess(history, a, b, history[n].time - WINDOW, history[n].time);
      } else {
        forall k | 0 <= k < n
          ensures Respected(history[..n], k)
        {
          assert Respected(history, k) && history[..n][..k + 1] == history[..k + 1];
        }
        EveryMinute(history[..n], limit, a, b);
      }
    }
  }
}
