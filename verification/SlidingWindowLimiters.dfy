/**
 * The two limiter objects.  Their ghost fields record every event since construction, so that
 * what is proved about runs holds of the object after any sequence of calls by any callers.
 */
module SlidingWindowLimiters {
  import opened Prelude
  import opened SlidingWindow
  import opened SlidingWindowBound

  /** Pops entries from the front of the deque while they are older than the cutoff. */
  method PurgeDeque(times: seq<real>, cutoff: real) returns (kept: seq<real>)
    ensures kept == Purge(times, cutoff)
  {
    kept := times;
    while kept != [] && kept[0] < cutoff
      invariant Purge(kept, cutoff) == Purge(times, cutoff)
    {
      kept := kept[1..];
    }
  }

  function BackoffFor(baseBackoff: real, attempt: nat): real {
    baseBackoff * Pow2(if attempt < 10 then attempt else 10)
  }

  /** The backoff grows with the attempt number up to 1024 times the base. */
  lemma {:induction false} BackoffIsCapped(baseBackoff: real, attempt: nat)
    requires 0.0 <= baseBackoff
    ensures baseBackoff <= BackoffFor(baseBackoff, attempt) <= BackoffFor(baseBackoff, attempt + 1)
    ensures BackoffFor(baseBackoff, 0) == baseBackoff
    ensures attempt < 10 ==> BackoffFor(baseBackoff, attempt + 1) == 2.0 * BackoffFor(baseBackoff, attempt)
    ensures 10 <= attempt ==> BackoffFor(baseBackoff, attempt) == 1024.0 * baseBackoff
  {
    if attempt == 0 {
      assert Pow2(1) == 2.0;
    } else if attempt < 10 {
      BackoffIsCapped(baseBackoff, attempt - 1);
      assert Pow2(attempt) == 2.0 * Pow2(attempt - 1);
      assert BackoffFor(baseBackoff, attempt) == 2.0 * BackoffFor(baseBackoff, attempt - 1);
      assert attempt < 9 ==> BackoffFor(baseBackoff, attempt + 1) == 2.0 * BackoffFor(baseBackoff, attempt);
      PowersUpToTen();
    } else {
      BackoffIsCapped(baseBackoff, 9);
      PowersUpToTen();
    }
  }

  lemma PowersUpToTen()
    ensures Pow2(9) == 512.0 && Pow2(10) == 1024.0
  {
    assert Pow2(3) == 8.0;
    assert Pow2(6) == 64.0;
  }

  class YahooFinanceRateLimiter {
    const minInterval: real
    const maxPerMinute: int
    const baseBackoff: real
    var lastRequestTime: real
    var requestTimes: seq<real>
    var backoffUntil: real
    ghost var events: seq<Event>
    ghost var history: seq<Admission>

    ghost function View(): Limiter
      reads this
    {
      Limiter(minInterval, maxPerMinute, lastRequestTime, requestTimes, backoffUntil)
    }

    ghost predicate Valid()
      reads this
    {
      Timed(events) && Fixed(events) && (View(), history) == Run(Fresh(minInterval, maxPerMinute), events)
    }

    ghost predicate Past(now: real)
      reads this
    {
      0.0 <= now && forall i :: 0 <= i < |events| ==> events[i].now <= now
    }

    constructor (requestsPerSecond: real, requestsPerMinute: int, baseBackoff: real)
      requires requestsPerSecond != 0.0
      ensures Valid() && events == []
      ensures minInterval == 1.0 / requestsPerSecond && maxPerMinute == requestsPerMinute
      ensures this.baseBackoff == baseBackoff
    {
      minInterval := 1.0 / requestsPerSecond;
      maxPerMinute := requestsPerMinute;
      this.baseBackoff := baseBackoff;
      lastRequestTime, requestTimes, backoffUntil := 0.0, [], 0.0;
      events, history := [], [];
    }

    ghost method Record(e: Event, before: Limiter)
      requires Timed(events) && Fixed(events) && Past(e.now) && !e.LimitHeader?
      requires (before, history) == Run(Fresh(minInterval, maxPerMinute), events)
      requires View() == Apply(before, history, e).0
      modifies `events, `history
      ensures Valid() && Past(e.now)
      ensures events == old(events) + [e] && history == Apply(before, old(history), e).1
    {
      hide Apply;
      assert (events + [e])[..|events|] == events;
      history := Apply(before, history, e).1;
      events := events + [e];
    }

    method BackoffRemaining(now: real) returns (remaining: real)
      requires Valid() && Past(now)
      modifies `events, `history
      ensures Valid() && Past(now) && View() == old(View()) && history == old(history)
      ensures remaining == backoffUntil - now
    {
      remaining := backoffUntil - now;
      Record(BackoffCheck(now), View());
    }

    /** Purges, then checks spacing and the window, and records the request if both allow it. */
    method Admit(now: real) returns (outcome: Outcome)
      modifies `lastRequestTime, `requestTimes
      ensures (View(), outcome) == AttemptStep(old(View()), now)
    {
      requestTimes := PurgeDeque(requestTimes, now - WINDOW);
      var elapsedSinceLast := now - lastRequestTime;
      if elapsedSinceLast < minInterval {
        outcome := Sleep(minInterval - elapsedSinceLast);
      } else if |requestTimes| >= maxPerMinute {
        if requestTimes == [] {
          outcome := EmptyDeque;
        } else {
          outcome := Sleep(Max(0.0, WINDOW - (now - requestTimes[0])));
        }
      } else {
        lastRequestTime := now;
        requestTimes := Push(requestTimes, now);
        outcome := Admitted;
      }
    }

    /** The locked block of the admission phase. */
    method Attempt(now: real) returns (outcome: Outcome)
      requires Valid() && Past(now)
      modifies this
      ensures Valid() && Past(now)
      ensures (View(), outcome) == AttemptStep(old(View()), now)
      ensures history == old(history) + if outcome == Admitted then [Admission(now, maxPerMinute)] else []
    {
      ghost var before := View();
      outcome := Admit(now);
      hide AttemptStep, Run;
      Record(Event.Attempt(now), before);
    }

    method OnRateLimitError(attempt: nat, now: real) returns (backoff: real)
      requires Valid() && Past(now)
      modifies this
      ensures Valid() && Past(now) && history == old(history)
      ensures backoff == BackoffFor(baseBackoff, attempt)
      ensures View() == old(View()).(backoffUntil := now + backoff)
    {
      ghost var before := View();
      backoff := BackoffFor(baseBackoff, attempt);
      backoffUntil := now + backoff;
      Record(RateLimited(now, backoff), before);
    }

    method Reset(now: real)
      requires Valid() && Past(now)
      modifies this
      ensures Valid() && Past(now) && history == []
      ensures View() == Fresh(minInterval, maxPerMinute)
    {
      ghost var before := View();
      lastRequestTime, requestTimes, backoffUntil := 0.0, [], 0.0;
      Record(Event.Reset(now), before);
    }
  }

  /** Since its last reset, every closed minute of the object is within the limit, if that is enforced. */
  lemma YahooKeepsCap(limiter: YahooFinanceRateLimiter, a: real)
    requires limiter.Valid() && 1 <= limiter.maxPerMinute && 0.0 <= limiter.minInterval
    requires Enforced(limiter.maxPerMinute, limiter.minInterval)
    ensures CountIn(limiter.history, a, a + 60.0) <= limiter.maxPerMinute
  {
    EnforcedIsKept(limiter.minInterval, limiter.maxPerMinute);
    var b := a + 60.0;
    assert CountIn(Run(Fresh(limiter.minInterval, limiter.maxPerMinute), limiter.events).1, a, b)
        <= limiter.maxPerMinute;
  }

  /** Over its whole life it is within the limit once, and once more for each reset inside the minute. */
  lemma YahooLifetimeBound(limiter: YahooFinanceRateLimiter, a: real)
    requires limiter.Valid() && 1 <= limiter.maxPerMinute && 0.0 <= limiter.minInterval
    requires Enforced(limiter.maxPerMinute, limiter.minInterval)
    ensures var b, limit := a + WINDOW, limiter.maxPerMinute;
      CountIn(Lifetime(Fresh(limiter.minInterval, limit), limiter.events), a, b)
        <= Buckets(ResetsIn(limiter.events, a, b) + 1, limit)
  {
    LifetimeBound(limiter.minInterval, limiter.maxPerMinute, limiter.events, a, a + WINDOW);
  }

  /** What the limiter makes of one response header: whether it names the limit, and its integer value. */
  datatype Header = Header(namesLimit: bool, value: Option<int>)

  /** The limit after the headers of one response: the last readable one wins, and is at least 1. */
  function LimitAfter(limit: int, headers: seq<Header>): int {
    if headers == [] then limit
    else
      var last := headers[|headers| - 1];
      if last.namesLimit && last.value.Some? then MaxInt(1, last.value.value)
      else LimitAfter(limit, headers[..|headers| - 1])
  }

  class CoinGlassRateLimiter {
    const initialLimit: int
    const minInterval: real
    const baseBackoff: real
    var maxPerMinute: int
    var lastRequestTime: real
    var requestTimes: seq<real>
    var backoffUntil: real
    ghost var events: seq<Event>
    ghost var history: seq<Admission>

    ghost function View(): Limiter
      reads this
    {
      Limiter(minInterval, maxPerMinute, lastRequestTime, requestTimes, backoffUntil)
    }

    ghost predicate Valid()
      reads this
    {
      && 0.0 <= minInterval
      && Timed(events)
      && (View(), history) == Run(Fresh(minInterval, initialLimit), events)
    }

    ghost predicate Past(now: real)
      reads this
    {
      0.0 <= now && forall i :: 0 <= i < |events| ==> events[i].now <= now
    }

    constructor (requestsPerSecond: real, requestsPerMinute: int, baseBackoff: real)
      ensures Valid() && events == []
      ensures minInterval == (if requestsPerSecond > 0.0 then 1.0 / requestsPerSecond else 0.0)
      ensures maxPerMinute == initialLimit == requestsPerMinute && this.baseBackoff == baseBackoff
    {
      minInterval := if requestsPerSecond > 0.0 then 1.0 / requestsPerSecond else 0.0;
      initialLimit, maxPerMinute := requestsPerMinute, requestsPerMinute;
      this.baseBackoff := baseBackoff;
      lastRequestTime, requestTimes, backoffUntil := 0.0, [], 0.0;
      events, history := [], [];
    }

    ghost method Record(e: Event, before: Limiter)
      requires 0.0 <= minInterval && Timed(events) && Past(e.now)
      requires (before, history) == Run(Fresh(minInterval, initialLimit), events)
      requires View() == Apply(before, history, e).0
      modifies `events, `history
      ensures Valid() && Past(e.now)
      ensures events == old(events) + [e] && history == Apply(before, old(history), e).1
    {
      hide Apply;
      assert (events + [e])[..|events|] == events;
      history := Apply(before, history, e).1;
      events := events + [e];
    }

    method UpdateFromHeaders(headers: seq<Header>, now: real)
      requires Valid() && Past(now)
      modifies this
      ensures Valid() && Past(now) && history == old(history)
      ensures View() == old(View()).(limit := LimitAfter(old(maxPerMinute), headers))
      ensures maxPerMinute != old(maxPerMinute) ==> 1 <= maxPerMinute
    {
      for i := 0 to |headers|
        invariant Valid() && Past(now) && history == old(history)
        invariant View() == old(View()).(limit := LimitAfter(old(maxPerMinute), headers[..i]))
        invariant maxPerMinute != old(maxPerMinute) ==> 1 <= maxPerMinute
      {
        assert headers[..i + 1][..i] == headers[..i];
        if headers[i].namesLimit && headers[i].value.Some? {
          ghost var before := View();
          maxPerMinute := MaxInt(1, headers[i].value.value);
          Record(LimitHeader(now, headers[i].value.value), before);
        }
      }
      assert headers[..|headers|] == headers;
    }

    method BackoffRemaining(now: real) returns (remaining: real)
      requires Valid() && Past(now)
      modifies `events, `history
      ensures Valid() && Past(now) && View() == old(View()) && history == old(history)
      ensures remaining == backoffUntil - now
    {
      remaining := backoffUntil - now;
      Record(BackoffCheck(now), View());
    }

    /** Purges, then checks spacing, if an interval is set, and the window, and records the request. */
    method Admit(now: real) returns (outcome: Outcome)
      requires 0.0 <= minInterval && lastRequestTime <= now
      modifies `lastRequestTime, `requestTimes
      ensures (View(), outcome) == AttemptStep(old(View()), now)
    {
      requestTimes := PurgeDeque(requestTimes, now - WINDOW);
      var elapsed := now - lastRequestTime;
      if minInterval > 0.0 && elapsed < minInterval {
        outcome := Sleep(minInterval - elapsed);
      } else if |requestTimes| >= maxPerMinute {
        if requestTimes == [] {
          outcome := EmptyDeque;
        } else {
          outcome := Sleep(Max(0.0, WINDOW - (now - requestTimes[0])));
        }
      } else {
        lastRequestTime := now;
        requestTimes := Push(requestTimes, now);
        outcome := Admitted;
      }
    }

    /** The locked block of the admission phase. */
    method Attempt(now: real) returns (outcome: Outcome)
      requires Valid() && Past(now)
      modifies this
      ensures Valid() && Past(now)
      ensures (View(), outcome) == AttemptStep(old(View()), now)
      ensures history == old(history) + if outcome == Admitted then [Admission(now, maxPerMinute)] else []
    {
      ghost var before := View();
      EveryAdmissionRespected(minInterval, initialLimit, events);
      assert lastRequestTime <= now;
      outcome := Admit(now);
      hide AttemptStep, Run;
      Record(Event.Attempt(now), before);
    }

    method OnRateLimitError(attempt: nat, now: real) returns (backoff: real)
      requires Valid() && Past(now)
      modifies this
      ensures Valid() && Past(now) && history == old(history)
      ensures backoff == BackoffFor(baseBackoff, attempt)
      ensures View() == old(View()).(backoffUntil := now + backoff)
    {
      ghost var before := View();
      backoff := BackoffFor(baseBackoff, attempt);
      backoffUntil := now + backoff;
      Record(RateLimited(now, backoff), before);
    }

    method Reset(now: real)
      requires Valid() && Past(now)
      modifies this
      ensures Valid() && Past(now) && history == []
      ensures View() == Fresh(minInterval, old(maxPerMinute))
    {
      ghost var before := View();
      lastRequestTime, requestTimes, backoffUntil := 0.0, [], 0.0;
      Record(Event.Reset(now), before);
    }
  }

  /** Whatever the headers did to the limit, each admission was within the limit in force at the time, if enforced. */
  lemma CoinGlassRespectsLimits(limiter: CoinGlassRateLimiter, k: nat)
    requires limiter.Valid() && k < |limiter.history|
    requires Enforced(limiter.history[k].limit, limiter.minInterval)
    ensures var h := limiter.history;
      CountIn(h[..k + 1], h[k].time - WINDOW, h[k].time) <= h[k].limit
  {
    EnforcedLimitsRespected(limiter.minInterval, limiter.initialLimit, limiter.events, k);
  }
}
