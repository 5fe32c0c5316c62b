/** When a fixed per-minute limit is kept over every run, and when it is not. */
module SlidingWindowBound {
  import opened Prelude
  import opened SlidingWindow

  ghost predicate Fixed(events: seq<Event>) {
    forall i :: 0 <= i < |events| ==> !events[i].LimitHeader?
  }

  /** Consecutive admissions at least the minimum interval apart. */
  ghost predicate Spread(w: Limiter, history: seq<Admission>) {
    && (forall i :: 0 < i < |history| ==> Apart(w.minInterval, history, i))
    && (history != [] ==> w.lastRequestTime == history[|history| - 1].time)
  }

  predicate Apart(minInterval: real, history: seq<Admission>, i: nat)
    requires 0 < i < |history|
  {
    history[i].time - history[i - 1].time >= minInterval
  }

  lemma ApplyKeepsSpread(w: Limiter, history: seq<Admission>, e: Event)
    requires Spread(w, history)
    ensures var (w', history') := Apply(w, history, e);
      && Spread(w', history') && w'.minInterval == w.minInterval && (!e.LimitHeader? ==> w'.limit == w.limit)
  {
    var (w', history') := Apply(w, history, e);
    if e.Attempt? && history' != history {
      forall i | 0 < i < |history'|
        ensures Apart(w.minInterval, history', i)
      {
        if i < |history| {
          assert Apart(w.minInterval, history, i);
        }
      }
    }
  }

  lemma {:induction false} RunIsSpread(minInterval: real, limit: int, events: seq<Event>)
    ensures var (w, history) := Run(Fresh(minInterval, limit), events);
      Spread(w, history) && w.minInterval == minInterval
  {
    hide Apply;
    if events != [] {
      var n := |events| - 1;
      RunIsSpread(minInterval, limit, events[..n]);
      var (before, history) := Run(Fresh(minInterval, limit), events[..n]);
      ApplyKeepsSpread(before, history, events[n]);
    }
  }

  lemma {:induction false} RunIsUniform(minInterval: real, limit: int, events: seq<Event>)
    requires Fixed(events)
    ensures var (w, history) := Run(Fresh(minInterval, limit), events);
      w.limit == limit && forall i :: 0 <= i < |history| ==> history[i].limit == limit
  {
    hide Purge, Push;
    if events != [] {
      RunIsUniform(minInterval, limit, events[..|events| - 1]);
    }
  }

  /** n intervals of the minimum length. */
  function Intervals(n: int, minInterval: real): real {
    n as real * minInterval
  }

  lemma IntervalsStep(n: int, minInterval: real)
    ensures Intervals(n + 1, minInterval) == Intervals(n, minInterval) + minInterval
    ensures Intervals(0, minInterval) == 0.0
  {
  }

  lemma IntervalsGrow(m: int, n: int, minInterval: real)
    requires 0.0 <= minInterval && m <= n
    ensures Intervals(m, minInterval) <= Intervals(n, minInterval)
  {
    assert 0.0 <= (n - m) as real * minInterval;
  }

  /** Spacing alone limits how many admissions fit between a and b. */
  lemma {:induction false} SpacedCount(w: Limiter, history: seq<Admission>, a: real, b: real)
    requires Spread(w, history) && 0.0 <= w.minInterval
    requires forall i :: 0 <= i < |history| ==> history[i].time <= b
    ensures var count := CountIn(history, a, b);
      0 < count ==> history != [] && history[|history| - 1].time >= a + Intervals(count - 1, w.minInterval)
    decreases |history|
  {
    hide Intervals;
    if history != [] {
      var n := |history| - 1;
      var w' := if n == 0 then w else w.(lastRequestTime := history[n - 1].time);
      forall i | 0 < i < n
        ensures Apart(w.minInterval, history[..n], i)
      {
        assert Apart(w.minInterval, history, i);
      }
      SpacedCount(w', history[..n], a, b);
      var before: int := CountIn(history[..n], a, b);
      IntervalsStep(before - 1, w.minInterval);
      IntervalsStep(0, w.minInterval);
      if 0 < before {
        IntervalsGrow(0, before - 1, w.minInterval);
        assert Apart(w.minInterval, history, n);
      }
    }
  }

  /** Where a limit is enforced by spacing alone, no closed minute exceeds it. */
  lemma {:induction false} SpacedMinute(w: Limiter, history: seq<Admission>, limit: int, a: real, b: real)
    requires Spread(w, history) && Ascending(history) && 0.0 <= w.minInterval && b == a + WINDOW
    requires 0 <= limit && Intervals(limit, w.minInterval) > WINDOW
    ensures CountIn(history, a, b) <= limit
    decreases |history|
  {
    hide Intervals;
    if history != [] {
      var n := |history| - 1;
      if history[n].time <= b {
        SpacedCount(w, history, a, b);
        var count := CountIn(history, a, b);
        if limit < count {
          IntervalsGrow(limit, count - 1, w.minInterval);
          assert false;
        }
      } else {
        var w' := if n == 0 then w else w.(lastRequestTime := history[n - 1].time);
        forall i | 0 < i < n
          ensures Apart(w.minInterval, history[..n], i)
        {
          assert Apart(w.minInterval, history, i);
        }
        SpacedMinute(w', history[..n], limit, a, b);
      }
    }
  }

  /** A limit that is kept, because the deque is long enough to see it or because spacing enforces it. */
  predicate Enforced(limit: int, minInterval: real) {
    limit <= MAX_TRACKED || limit as real * minInterval > WINDOW
  }

  /**
   * With limits that change while the program runs: in every run, the minute that ends at an
   * admission respects the limit in force then, if that limit is enforced at all.
   */
  lemma {:induction false} EnforcedLimitsRespected(minInterval: real, limit: int, events: seq<Event>, k: nat)
    requires Timed(events) && 0.0 <= minInterval && k < |Run(Fresh(minInterval, limit), events).1|
    ensures var history := Run(Fresh(minInterval, limit), events).1;
      Enforced(history[k].limit, minInterval) ==>
        CountIn(history[..k + 1], history[k].time - WINDOW, history[k].time) <= history[k].limit
  {
    hide Run, CountIn, Intervals;
    var (w, history) := Run(Fresh(minInterval, limit), events);
    EveryAdmissionRespected(minInterval, limit, events);
    RunIsSpread(minInterval, limit, events);
    assert Respected(history, k);
    if history[k].limit > MAX_TRACKED && Intervals(history[k].limit, minInterval) > WINDOW {
      SpreadPrefix(w, history, k);
      SpacedMinute(w.(lastRequestTime := history[k].time), history[..k + 1], history[k].limit,
                   history[k].time - WINDOW, history[k].time);
    }
    IntervalsMean(history[k].limit, minInterval);
  }

  lemma SpreadPrefix(w: Limiter, history: seq<Admission>, k: nat)
    requires Spread(w, history) && k < |history|
    ensures Spread(w.(lastRequestTime := history[k].time), history[..k + 1])
  {
    var prefix := history[..k + 1];
    forall i | 0 < i < |prefix|
      ensures Apart(w.minInterval, prefix, i)
    {
      assert Apart(w.minInterval, history, i);
    }
  }

  lemma IntervalsMean(n: int, minInterval: real)
    ensures Intervals(n, minInterval) == n as real * minInterval
  {
  }

  /** A caller that asks again as soon as the minimum interval allows. */
  function Burst(minInterval: real, n: nat): seq<Event> {
    if n == 0 then [] else Burst(minInterval, n - 1) + [Attempt(Intervals(n, minInterval))]
  }

  lemma {:induction false} BurstIsTimed(minInterval: real, n: nat)
    requires 0.0 <= minInterval
    ensures Timed(Burst(minInterval, n)) && Fixed(Burst(minInterval, n)) && |Burst(minInterval, n)| == n
    ensures forall i :: 0 <= i < n ==> Burst(minInterval, n)[i].now <= Intervals(n, minInterval)
  {
    hide Intervals;
    IntervalsGrow(0, n, minInterval);
    IntervalsStep(0, minInterval);
    if n > 0 {
      BurstIsTimed(minInterval, n - 1);
      IntervalsGrow(n - 1, n, minInterval);
    }
  }

  /** Exactly n admissions at or after a, none of them after the last. */
  ghost predicate Counted(history: seq<Admission>, a: real, last: real, n: nat) {
    forall b :: last <= b ==> CountIn(history, a, b) == n
  }

  /** A limit beyond the length of the deque is never felt: a spaced attempt is admitted. */
  lemma UnfeltLimit(w: Limiter, history: seq<Admission>, now: real, a: real, n: nat)
    requires Tracks(w, history, w.lastRequestTime) && MAX_TRACKED < w.limit
    requires 0.0 <= w.minInterval <= now - w.lastRequestTime && a <= now
    requires Counted(history, a, w.lastRequestTime, n)
    ensures var (w', history') := Apply(w, history, Attempt(now));
      && w'.lastRequestTime == now && w'.limit == w.limit && w'.minInterval == w.minInterval
      && Counted(history', a, now, n + 1) && Tracks(w', history', now)
  {
    assert Tracks(w, history, now);
    ApplyTracks(w, history, Attempt(now), now);
    TracksAfterPurge(w, history, now);
    hide Purge, Tracks;
    assert Apply(w, history, Attempt(now)).1 == history + [Admission(now, w.limit)];
    forall b | now <= b
      ensures CountIn(history + [Admission(now, w.limit)], a, b) == n + 1
    {
      CountInSnoc(history, Admission(now, w.limit), a, b);
    }
  }

  /** The state after n requests of the burst, all of them admitted. */
  ghost predicate Bursting(run: (Limiter, seq<Admission>), minInterval: real, limit: int, n: nat) {
    && run.0.lastRequestTime == Intervals(n, minInterval)
    && run.0.limit == limit && run.0.minInterval == minInterval
    && Tracks(run.0, run.1, run.0.lastRequestTime)
    && Counted(run.1, minInterval, run.0.lastRequestTime, n)
  }

  lemma BurstContinues(run: (Limiter, seq<Admission>), minInterval: real, limit: int, n: nat)
    requires 0.0 <= minInterval && MAX_TRACKED < limit && Bursting(run, minInterval, limit, n)
    ensures Bursting(Apply(run.0, run.1, Attempt(Intervals(n + 1, minInterval))), minInterval, limit, n + 1)
  {
    IntervalsStep(n, minInterval);
    IntervalsStep(0, minInterval);
    IntervalsGrow(1, n + 1, minInterval);
    hide Intervals, Tracks, Counted;
    UnfeltLimit(run.0, run.1, Intervals(n + 1, minInterval), minInterval, n);
  }

  lemma {:induction false} BurstAdmitted(minInterval: real, limit: int, n: nat)
    requires 0.0 <= minInterval && MAX_TRACKED < limit
    ensures Bursting(Run(Fresh(minInterval, limit), Burst(minInterval, n)), minInterval, limit, n)
  {
    if n == 0 {
      IntervalsStep(0, minInterval);
    } else {
      BurstAdmitted(minInterval, limit, n - 1);
      var earlier, next := Burst(minInterval, n - 1), Attempt(Intervals(n, minInterval));
      assert Burst(minInterval, n) == earlier + [next];
      hide Bursting, Apply, Intervals, Fresh, Run, Burst;
      BurstContinues(Run(Fresh(minInterval, limit), earlier), minInterval, limit, n - 1);
      RunSnoc(Fresh(minInterval, limit), earlier, next);
    }
  }

  /** Every closed minute of every run under a fixed limit stays within that limit. */
  ghost predicate MinuteCap(minInterval: real, limit: int) {
    forall events, a, b :: Timed(events) && Fixed(events) && b == a + 60.0 ==>
      CountIn(Run(Fresh(minInterval, limit), events).1, a, b) <= limit
  }

  /**
   * Main theorem: the limit is kept over every run exactly when the deque is long enough to see
   * it, or when spacing alone already keeps it.
   */
  lemma MinuteCapExactly(minInterval: real, limit: int)
    requires 0.0 <= minInterval && 1 <= limit
    ensures MinuteCap(minInterval, limit) <==> limit <= 1000 || limit as real * minInterval > 60.0
  {
    if Enforced(limit, minInterval) {
      forall events, a, b | Timed(events) && Fixed(events) && b == a + WINDOW
        ensures CountIn(Run(Fresh(minInterval, limit), events).1, a, b) <= limit
      {
        EveryAdmissionRespected(minInterval, limit, events);
        RunIsUniform(minInterval, limit, events);
        RunIsSpread(minInterval, limit, events);
        var (w, history) := Run(Fresh(minInterval, limit), events);
        if limit <= MAX_TRACKED {
          EveryMinute(history, limit, a, b);
        } else {
          SpacedMinute(w, history, limit, a, b);
        }
      }
    } else {
      CapBroken(minInterval, limit);
    }
  }

  lemma EnforcedIsKept(minInterval: real, limit: int)
    requires 0.0 <= minInterval && 1 <= limit && Enforced(limit, minInterval)
    ensures MinuteCap(minInterval, limit)
  {
    MinuteCapExactly(minInterval, limit);
    hide MinuteCap;
  }

  lemma CapBroken(minInterval: real, limit: int)
    requires 0.0 <= minInterval && MAX_TRACKED < limit && Intervals(limit, minInterval) <= WINDOW
    ensures !MinuteCap(minInterval, limit)
  {
    hide Intervals;
    var events := Burst(minInterval, limit + 1);
    BurstIsTimed(minInterval, limit + 1);
    BurstAdmitted(minInterval, limit, limit + 1);
    IntervalsStep(limit, minInterval);
    var b := minInterval + WINDOW;
    assert CountIn(Run(Fresh(minInterval, limit), events).1, minInterval, b) == limit + 1;
  }

  // ---------------------------------------------------------------------------------------
  // Runs with resets
  // ---------------------------------------------------------------------------------------

  /** All admissions of a run, which a reset does not erase. */
  function Lifetime(w: Limiter, events: seq<Event>): seq<Admission> {
    if events == [] then []
    else
      var n := |events| - 1;
      var before := Run(w, events[..n]).0;
      Lifetime(w, events[..n])
      + if events[n].Attempt? && AttemptStep(before, events[n].now).1 == Admitted
        then [Admission(events[n].now, before.limit)] else []
  }

  function ResetsIn(events: seq<Event>, a: real, b: real): (n: nat)
    ensures n <= |events|
    ensures (forall e <- events :: !e.Reset? || e.now < a || b < e.now) ==> n == 0
  {
    if events == [] then 0
    else
      var n := |events| - 1;
      ResetsIn(events[..n], a, b) + if events[n].Reset? && a <= events[n].now <= b then 1 else 0
  }

  lemma {:induction false} LifetimeIsTimed(w: Limiter, events: seq<Event>, last: real)
    requires forall i :: 0 <= i < |events| ==> events[i].now <= last
    ensures forall i :: 0 <= i < |Lifetime(w, events)| ==> Lifetime(w, events)[i].time <= last
  {
    hide Run, AttemptStep;
    if events != [] {
      LifetimeIsTimed(w, events[..|events| - 1], last);
    }
  }

  /** Without resets a run remembers its whole life. */
  lemma {:induction false} NothingForgotten(w: Limiter, events: seq<Event>)
    requires forall i :: 0 <= i < |events| ==> !events[i].Reset?
    ensures Lifetime(w, events) == Run(w, events).1
  {
    hide AttemptStep;
    if events != [] {
      NothingForgotten(w, events[..|events| - 1]);
    }
  }

  /** After the reset at r, a run remembers what it admitted since. */
  lemma {:induction false} LifeSinceReset(w: Limiter, events: seq<Event>, r: nat)
    requires Timed(events) && r < |events| && events[r].Reset?
    requires forall i :: r < i < |events| ==> !events[i].Reset?
    ensures var history := Run(w, events).1;
      && Lifetime(w, events) == Lifetime(w, events[..r]) + history
      && forall i :: 0 <= i < |history| ==> events[r].now <= history[i].time
  {
    hide Run, Lifetime, AttemptStep;
    var n := |events| - 1;
    assert events == events[..n] + [events[n]];
    RunSnoc(w, events[..n], events[n]);
    LifetimeSnoc(w, events[..n], events[n]);
    if r < n {
      assert events[..n][..r] == events[..r];
      LifeSinceReset(w, events[..n], r);
      var base, history := Lifetime(w, events[..r]), Run(w, events[..n]).1;
      assert base + history + [] == base + history;
      assert forall x: Admission :: base + history + [x] == base + (history + [x]);
    }
  }

  lemma {:induction false} ResetsUpTo(events: seq<Event>, r: nat, a: real, b: real)
    requires r < |events| && events[r].Reset? && forall i :: r < i < |events| ==> !events[i].Reset?
    ensures ResetsIn(events, a, b) == ResetsIn(events[..r], a, b) + if a <= events[r].now <= b then 1 else 0
  {
    var n := |events| - 1;
    if r < n {
      assert events[..n][..r] == events[..r];
      ResetsUpTo(events[..n], r, a, b);
    }
  }

  lemma {:induction false} LastReset(events: seq<Event>) returns (r: int)
    ensures -1 <= r < |events|
    ensures r >= 0 ==> events[r].Reset?
    ensures forall i :: r < i < |events| ==> !events[i].Reset?
  {
    r := |events| - 1;
    while 0 <= r && !events[r].Reset?
      invariant -1 <= r < |events|
      invariant forall i :: r < i < |events| ==> !events[i].Reset?
    {
      r := r - 1;
    }
  }

  lemma {:induction false} CountInAppend(x: seq<Admission>, y: seq<Admission>, a: real, b: real)
    ensures CountIn(x + y, a, b) == CountIn(x, a, b) + CountIn(y, a, b)
  {
    if y == [] {
      assert x + y == x;
    } else {
      var n := |y| - 1;
      CountInAppend(x, y[..n], a, b);
      assert (x + y)[..|x| + n] == x + y[..n];
    }
  }

  lemma {:induction false} NoneInside(history: seq<Admission>, a: real, b: real)
    requires forall i :: 0 <= i < |history| ==> !(a <= history[i].time <= b)
    ensures CountIn(history, a, b) == 0
  {
    if history != [] {
      NoneInside(history[..|history| - 1], a, b);
    }
  }

  /**
   * Main theorem on resets: over the whole life of a limiter with an enforced limit, a closed minute
   * holds at most the limit once, and once more for each reset inside it.
   */
  lemma {:induction false} LifetimeBound(minInterval: real, limit: nat, events: seq<Event>, a: real, b: real)
    requires 0.0 <= minInterval && 1 <= limit && Enforced(limit, minInterval)
    requires Timed(events) && Fixed(events) && b == a + WINDOW
    ensures CountIn(Lifetime(Fresh(minInterval, limit), events), a, b) <= Buckets(ResetsIn(events, a, b) + 1, limit)
    decreases |events|
  {
    hide Run, Lifetime, CountIn, ResetsIn, Buckets, Enforced;
    var w := Fresh(minInterval, limit);
    var history := Run(w, events).1;
    EnforcedIsKept(minInterval, limit);
    assert CountIn(history, a, b) <= limit;
    BucketsStep(0, limit);
    BucketsStep(ResetsIn(events, a, b), limit);
    var r := LastReset(events);
    if r < 0 {
      NothingForgotten(w, events);
      BucketsGrow(1, ResetsIn(events, a, b) + 1, limit);
    } else {
      var earlier := events[..r];
      LifeSinceReset(w, events, r);
      LifetimeIsTimed(w, earlier, events[r].now);
      ResetsUpTo(events, r, a, b);
      LifetimeBound(minInterval, limit, earlier, a, b);
      BucketsStep(ResetsIn(earlier, a, b), limit);
      BucketsGrow(1, ResetsIn(events, a, b) + 1, limit);
      CountInAppend(Lifetime(w, earlier), history, a, b);
      if events[r].now < a {
        NoneInside(Lifetime(w, earlier), a, b);
      } else if b < events[r].now {
        NoneInside(history, a, b);
      }
    }
  }

  /** n times the limit. */
  function Buckets(n: nat, limit: nat): nat {
    n * limit
  }

  lemma BucketsStep(n: nat, limit: nat)
    ensures Buckets(n + 1, limit) == Buckets(n, limit) + limit && Buckets(0, limit) == 0
  {
  }

  lemma BucketsGrow(m: nat, n: nat, limit: nat)
    requires m <= n
    ensures Buckets(m, limit) <= Buckets(n, limit)
  {
    assert 0 <= (n - m) * limit;
  }

  /** A caller that resets after every request, all at one moment. */
  function ResetEachTime(now: real, n: nat): seq<Event> {
    if n == 0 then [] else ResetEachTime(now, n - 1) + [Attempt(now), Reset(now)]
  }

  lemma {:induction false} ResetsAdmitAll(minInterval: real, limit: nat, now: real, n: nat)
    requires 1 <= limit && 0.0 <= now && minInterval <= now
    ensures forall e :: e in ResetEachTime(now, n) ==> e == Attempt(now) || e == Reset(now)
    ensures Run(Fresh(minInterval, limit), ResetEachTime(now, n)) == (Fresh(minInterval, limit), [])
    ensures CountIn(Lifetime(Fresh(minInterval, limit), ResetEachTime(now, n)), now, now + WINDOW) == n
  {
    hide ResetEachTime, Lifetime, CountIn, Run, AttemptStep;
    NoRounds(minInterval, limit, now);
    if n > 0 {
      ResetsAdmitAll(minInterval, limit, now, n - 1);
      OneMoreRound(now, n);
      RoundAdmits(minInterval, limit, now, ResetEachTime(now, n - 1));
    }
  }

  lemma {:induction false} NoRounds(minInterval: real, limit: nat, now: real)
    ensures var w := Fresh(minInterval, limit);
      && ResetEachTime(now, 0) == [] && Run(w, []) == (w, []) && CountIn(Lifetime(w, []), now, now + WINDOW) == 0
  {
  }

  /** An attempt and a reset from the initial state: one more admission, and the initial state again. */
  lemma {:induction false} RoundAdmits(minInterval: real, limit: nat, now: real, earlier: seq<Event>)
    requires 1 <= limit && 0.0 <= now && minInterval <= now
    requires Run(Fresh(minInterval, limit), earlier) == (Fresh(minInterval, limit), [])
    ensures var w, events := Fresh(minInterval, limit), earlier + [Attempt(now)] + [Reset(now)];
      && Run(w, events) == (w, [])
      && CountIn(Lifetime(w, events), now, now + WINDOW) == CountIn(Lifetime(w, earlier), now, now + WINDOW) + 1
  {
    hide Lifetime, CountIn, Run, AttemptStep;
    var w, life := Fresh(minInterval, limit), Lifetime(Fresh(minInterval, limit), earlier);
    FirstAttempt(minInterval, limit, now);
    RunSnoc(w, earlier, Attempt(now));
    RunSnoc(w, earlier + [Attempt(now)], Reset(now));
    LifetimeSnoc(w, earlier, Attempt(now));
    LifetimeSnoc(w, earlier + [Attempt(now)], Reset(now));
    CountInSnoc(life, Admission(now, limit), now, now + WINDOW);
    assert life + [Admission(now, limit)] + [] == life + [Admission(now, limit)];
  }

  lemma FirstAttempt(minInterval: real, limit: nat, now: real)
    requires 1 <= limit && minInterval <= now
    ensures AttemptStep(Fresh(minInterval, limit), now).1 == Admitted
    ensures var w := AttemptStep(Fresh(minInterval, limit), now).0; ResetStep(w) == Fresh(minInterval, limit)
  {
  }

  lemma OneMoreRound(now: real, n: nat)
    requires 0 < n
    ensures ResetEachTime(now, n) == ResetEachTime(now, n - 1) + [Attempt(now)] + [Reset(now)]
  {
    var earlier := ResetEachTime(now, n - 1);
    assert earlier + [Attempt(now), Reset(now)] == earlier + [Attempt(now)] + [Reset(now)];
  }

  lemma {:induction false} LifetimeSnoc(w: Limiter, events: seq<Event>, e: Event)
    ensures var before := Run(w, events).0;
      Lifetime(w, events + [e]) == Lifetime(w, events)
        + if e.Attempt? && AttemptStep(before, e.now).1 == Admitted then [Admission(e.now, before.limit)] else []
  {
    hide Run, AttemptStep;
    assert (events + [e])[..|events|] == events;
  }

  /** Every closed minute of the whole life of a limiter, resets included, stays within the limit. */
  ghost predicate LifetimeCap(minInterval: real, limit: int) {
    forall events, a, b :: Timed(events) && Fixed(events) && b == a + WINDOW ==>
      CountIn(Lifetime(Fresh(minInterval, limit), events), a, b) <= limit
  }

  /** A reset forgets the window: with resets the cap is kept only by a limit that admits nothing. */
  lemma ResetForgetsTheWindow(minInterval: real, limit: nat)
    ensures LifetimeCap(minInterval, limit) <==> limit == 0
  {
    hide Run, Lifetime, CountIn;
    if limit == 0 {
      forall events, a, b | Timed(events) && Fixed(events) && b == a + WINDOW
        ensures CountIn(Lifetime(Fresh(minInterval, 0), events), a, b) <= 0
      {
        NothingAdmitted(minInterval, 0, events);
        NoneInside([], a, b);
      }
    } else {
      var now := Max(0.0, minInterval);
      var events := ResetEachTime(now, limit + 1);
      ResetsAdmitAll(minInterval, limit, now, limit + 1);
      assert forall i :: 0 <= i < |events| ==> events[i] in events;
      var b := now + WINDOW;
      assert CountIn(Lifetime(Fresh(minInterval, limit), events), now, b) == limit + 1;
    }
  }

  lemma {:induction false} NothingAdmitted(minInterval: real, limit: int, events: seq<Event>)
    requires limit <= 0 && Fixed(events)
    ensures Lifetime(Fresh(minInterval, limit), events) == []
  {
    hide Run, AttemptStep;
    if events != [] {
      var n := |events| - 1;
      NothingAdmitted(minInterval, limit, events[..n]);
      NonPositiveLimitNeverAdmits(minInterval, limit, events[..n]);
    }
  }

  // ---------------------------------------------------------------------------------------
  // Limits that are not positive, and retries
  // ---------------------------------------------------------------------------------------

  /** An attempt indexes an empty deque exactly when it is spaced, the window is empty and the limit is not positive. */
  lemma {:induction false} EmptyDequeExactly(w: Limiter, now: real)
    ensures AttemptStep(w, now).1 == EmptyDeque <==>
            && w.limit <= 0
            && w.minInterval <= now - w.lastRequestTime
            && Purge(w.requestTimes, now - WINDOW) == []
  {
    hide Purge;
  }

  /** A limit that is not positive admits nothing, ever, and a spaced attempt indexes an empty deque. */
  lemma {:induction false} NonPositiveLimitNeverAdmits(minInterval: real, limit: int, events: seq<Event>)
    requires limit <= 0 && Fixed(events)
    ensures var (w, history) := Run(Fresh(minInterval, limit), events);
      && history == [] && w.requestTimes == [] && w.limit == limit && w.minInterval == minInterval
      && forall now :: AttemptStep(w, now).1 ==
           if now - w.lastRequestTime < minInterval then Sleep(minInterval - (now - w.lastRequestTime)) else EmptyDeque
  {
    if events != [] {
      NonPositiveLimitNeverAdmits(minInterval, limit, events[..|events| - 1]);
    }
  }

  lemma {:induction false} PurgedBelow(times: seq<real>, cutoff: real, limit: nat)
    requires forall i, j :: 0 <= i < j < |times| ==> times[i] <= times[j]
    requires 0 < limit <= |times|
    ensures |Purge(times, cutoff)| < limit <==> times[|times| - limit] < cutoff
  {
    PurgeIsSuffix(times, cutoff);
    hide Purge;
    var dropped, i := |times| - |Purge(times, cutoff)|, |times| - limit;
    if dropped <= i {
      assert Purge(times, cutoff)[i - dropped] == times[i];
    }
  }

  /**
   * A caller refused because the window is full, or over-full after the limit was lowered, is
   * admitted, if nobody else interferes, exactly when the latest requests but `limit` - 1 have left the
   * window.  Where the window was just full that is strictly after the time it was told to sleep:
   * waking on time, it finds the oldest request still inside the closed window and is told to sleep
   * for nothing.
   */
  lemma {:induction false} RetryAfterSleep(w: Limiter, history: seq<Admission>, now: real, later: real)
    requires Tracks(w, history, now) && w.limit <= |Purge(w.requestTimes, now - WINDOW)|
    requires 0 < w.limit && 0.0 <= w.minInterval <= now - w.lastRequestTime
    ensures var kept := Purge(w.requestTimes, now - WINDOW);
            var (w', outcome) := AttemptStep(w, now);
      && outcome.Sleep? && 0.0 <= outcome.seconds == WINDOW - (now - kept[0])
      && (later >= now ==>
            (AttemptStep(w', later).1 == Admitted <==> later > kept[|kept| - w.limit] + WINDOW))
      && (|kept| == w.limit ==> kept[|kept| - w.limit] + WINDOW == now + outcome.seconds)
      && (later == now + outcome.seconds ==> AttemptStep(w', later).1 == Sleep(0.0))
  {
    var (w', outcome) := AttemptStep(w, now);
    var kept := Purge(w.requestTimes, now - WINDOW);
    TracksAfterPurge(w, history, now);
    KeptIsAscending(w.(requestTimes := kept), history, now);
    assert w'.requestTimes == kept && w' == w.(requestTimes := kept);
    assert kept[0] <= now by {
      var dropped := |history| - |kept|;
      assert kept[0] == history[dropped].time;
    }
    hide Tracks;
    if later >= now {
      PurgedBelow(kept, later - WINDOW, w.limit);
      if later == now + outcome.seconds {
        PurgeIsSuffix(kept, later - WINDOW);
      }
    }
  }

  lemma KeptIsAscending(w: Limiter, history: seq<Admission>, now: real)
    requires Tracks(w, history, now)
    ensures forall i, j :: 0 <= i < j < |w.requestTimes| ==> w.requestTimes[i] <= w.requestTimes[j]
  {
    var dropped := |history| - |w.requestTimes|;
    forall i, j | 0 <= i < j < |w.requestTimes|
      ensures w.requestTimes[i] <= w.requestTimes[j]
    {
      assert history[dropped + i].time <= history[dropped + j].time;
    }
  }

  /** Under a fixed limit the deque never holds more than the limit. */
  lemma {:induction false} DequeWithinLimit(minInterval: real, limit: nat, events: seq<Event>)
    requires Fixed(events)
    ensures |Run(Fresh(minInterval, limit), events).0.requestTimes| <= limit
  {
    if events != [] {
      var n := |events| - 1;
      DequeWithinLimit(minInterval, limit, events[..n]);
      RunIsUniform(minInterval, limit, events[..n]);
      hide Run;
      var before := Run(Fresh(minInterval, limit), events[..n]).0;
      if events[n].Attempt? {
        PurgeShrinks(before.requestTimes, events[n].now - WINDOW);
      }
    }
  }

  lemma {:induction false} PurgeShrinks(times: seq<real>, cutoff: real)
    ensures |Purge(times, cutoff)| <= |times|
  {
    if times != [] && times[0] < cutoff {
      PurgeShrinks(times[1..], cutoff);
    }
  }

  /**
   * Progress: a caller left alone, under a limit the deque does not exceed, is admitted by its third
   * attempt at the latest, if it wakes later than it was told to.
   */
  lemma AdmittedByThirdAttempt(w: Limiter, history: seq<Admission>, t0: real, t1: real, t2: real)
    requires Tracks(w, history, t0) && 0 < w.limit && |w.requestTimes| <= w.limit && 0.0 <= w.minInterval
    requires var first := AttemptStep(w, t0); first.1.Sleep? ==>
      && t0 + first.1.seconds < t1
      && var second := AttemptStep(first.0, t1); second.1.Sleep? ==> t1 + second.1.seconds < t2
    ensures var first := AttemptStep(w, t0);
            var second := AttemptStep(first.0, t1);
      first.1 == Admitted || second.1 == Admitted || AttemptStep(second.0, t2).1 == Admitted
  {
    PurgeShrinks(w.requestTimes, t0 - WINDOW);
    TracksAfterPurge(w, history, t0);
    var first := AttemptStep(w, t0);
    hide Purge, Tracks;
    if first.1 != Admitted {
      var w1 := first.0;
      assert w1 == w.(requestTimes := Purge(w.requestTimes, t0 - WINDOW));
      assert Tracks(w1, history, t1) by {
        SleepIsForward(w, t0);
        TracksLater(w1, w1, history, t0, t1);
      }
      if w.minInterval <= t0 - w.lastRequestTime {
        RetryAfterSleep(w, history, t0, t1);
      } else {
        PurgeShrinks(w1.requestTimes, t1 - WINDOW);
        if AttemptStep(w1, t1).1 != Admitted {
          SleepIsForward(w1, t1);
          RetryAfterSleep(w1, history, t1, t2);
        }
      }
    }
  }

  lemma SleepIsForward(w: Limiter, now: real)
    ensures AttemptStep(w, now).1.Sleep? ==> 0.0 <= AttemptStep(w, now).1.seconds
    ensures 0 < w.limit ==> AttemptStep(w, now).1 != EmptyDeque
  {
    hide Purge;
  }
}
