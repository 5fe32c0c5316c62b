/**
 * The weight-based limiter for the Hyperliquid API as a step protocol.  Every block that the
 * program runs under the limiter's lock is one atomic event; callers sleep between events, so
 * an arbitrary interleaving of arbitrarily many callers is an arbitrary sequence of events
 * whose clock readings never decrease.
 */
module TokenBucket {
  import opened Prelude
  import opened Clocks

  datatype Config = Config(maxWeight: int, replenishRate: real, minInterval: real)

  datatype Bucket = Bucket(
    currentWeight: real,
    lastUpdate: real,
    lastRequestTime: real,
    consecutiveErrors: nat,
    backoffUntil: real,
    totalRequests: nat,
    totalWeightUsed: int)

  datatype Outcome = Admitted | Sleep(seconds: real) | DivisionByZero

  datatype Admission = Admission(time: real, weight: nat)

  /** One locked block, stamped with the clock reading taken inside it. */
  datatype Event =
    | BackoffCheck(now: real)
    | Attempt(now: real, weight: nat)
    | RateLimited(now: real, jitter: real)
    | Succeeded(now: real)

  /** What the constructor computes from its arguments; the rate is per second. */
  function ConfigOf(requestsPerMinute: int, maxWeight: nat, safetyMargin: real): Config
    requires requestsPerMinute != 0 && 0.0 <= safetyMargin
  {
    Config((maxWeight as real * safetyMargin).Floor, maxWeight as real / 60.0, 60.0 / requestsPerMinute as real)
  }

  const RATE_LIMIT_RPM := 1000
  const RATE_LIMIT_WEIGHT := 1200
  const SAFETY_MARGIN := 0.8
  const DEFAULT_CONFIG := ConfigOf(RATE_LIMIT_RPM, RATE_LIMIT_WEIGHT, SAFETY_MARGIN)

  function Fresh(now: real): Bucket {
    Bucket(0.0, now, 0.0, 0, 0.0, 0, 0)
  }

  predicate ConfigOk(c: Config) {
    0 <= c.maxWeight && 0.0 <= c.replenishRate && (c.replenishRate == 0.0 ==> c.maxWeight == 0)
  }

  predicate BucketOk(c: Config, b: Bucket) {
    0.0 <= b.currentWeight <= c.maxWeight as real && b.lastRequestTime <= b.lastUpdate
  }

  /** The weight that drains out of a full enough bucket in the given time. */
  function Drain(c: Config, elapsed: real): real {
    elapsed * c.replenishRate
  }

  lemma DrainAdds(c: Config, x: real, y: real)
    ensures Drain(c, x + y) == Drain(c, x) + Drain(c, y)
  {
  }

  lemma DrainGrows(c: Config, x: real, y: real)
    requires ConfigOk(c) && x <= y
    ensures Drain(c, x) <= Drain(c, y)
    ensures Drain(c, 0.0) == 0.0
  {
    assert 0.0 <= (y - x) * c.replenishRate;
  }

  function Drained(c: Config, b: Bucket, now: real): real {
    Max(0.0, b.currentWeight - Drain(c, now - b.lastUpdate))
  }

  /** The locked block of the admission phase. */
  function AttemptStep(c: Config, b: Bucket, weight: nat, now: real): (Bucket, Outcome) {
    var current := Drained(c, b, now);
    var drained := b.(currentWeight := current, lastUpdate := now);
    if current + weight as real > c.maxWeight as real then
      if c.replenishRate == 0.0 then (drained, DivisionByZero)
      else (drained, Sleep((current + weight as real - c.maxWeight as real) / c.replenishRate))
    else if c.minInterval > 0.0 && now - b.lastRequestTime < c.minInterval then
      (drained, Sleep(c.minInterval - (now - b.lastRequestTime)))
    else
      (drained.(currentWeight := current + weight as real,
                lastRequestTime := now,
                totalRequests := b.totalRequests + 1,
                totalWeightUsed := b.totalWeightUsed + weight), Admitted)
  }

  function BaseBackoff(errors: nat): real {
    Min(Pow2(errors), 60.0)
  }

  function ErrorStep(b: Bucket, now: real, jitter: real): Bucket {
    var errors := b.consecutiveErrors + 1;
    b.(consecutiveErrors := errors, backoffUntil := now + (BaseBackoff(errors) + jitter))
  }

  function SuccessStep(b: Bucket): Bucket {
    if b.consecutiveErrors > 0 then b.(consecutiveErrors := 0, backoffUntil := 0.0) else b
  }

  /** The bucket after an event, and the admission it granted, if any. */
  function Apply(c: Config, b: Bucket, e: Event): (Bucket, seq<Admission>) {
    match e
    case BackoffCheck(_) => (b, [])
    case Attempt(now, weight) =>
      var (b', outcome) := AttemptStep(c, b, weight, now);
      (b', if outcome == Admitted then [Admission(now, weight)] else [])
    case RateLimited(now, jitter) => (ErrorStep(b, now, jitter), [])
    case Succeeded(_) => (SuccessStep(b), [])
  }

  /** The bucket after a whole run, and every admission it granted, in order. */
  function Run(c: Config, b: Bucket, events: seq<Event>): (Bucket, seq<Admission>) {
    if events == [] then (b, [])
    else
      var n := |events| - 1;
      var (before, history) := Run(c, b, events[..n]);
      var (after, granted) := Apply(c, before, events[n]);
      (after, history + granted)
  }

  lemma {:induction false} RunSnoc(c: Config, b: Bucket, events: seq<Event>, e: Event)
    ensures var (before, history) := Run(c, b, events);
      var (after, granted) := Apply(c, before, e);
      Run(c, b, events + [e]) == (after, history + granted)
  {
    hide Apply;
    assert (events + [e])[..|events|] == events;
  }

  /** Clock readings start no earlier than the last one taken and never decrease. */
  ghost predicate Timed(start: real, events: seq<Event>) {
    && (forall i :: 0 <= i < |events| ==> start <= events[i].now)
    && (forall i, j :: 0 <= i < j < |events| ==> events[i].now <= events[j].now)
  }

  /** Total weight admitted in the closed interval [s, t]. */
  function WeightIn(history: seq<Admission>, s: real, t: real): nat {
    if history == [] then 0
    else
      var last := history[|history| - 1];
      WeightIn(history[..|history| - 1], s, t) + (if s <= last.time <= t then last.weight else 0)
  }

  function TotalWeight(history: seq<Admission>): nat {
    if history == [] then 0 else TotalWeight(history[..|history| - 1]) + history[|history| - 1].weight
  }

  lemma {:induction false} TotalWeightSnoc(history: seq<Admission>, a: Admission)
    ensures TotalWeight(history + [a]) == TotalWeight(history) + a.weight
  {
    assert (history + [a])[..|history|] == history;
  }

  lemma {:induction false} WeightInSnoc(history: seq<Admission>, a: Admission, s: real, t: real)
    ensures WeightIn(history + [a], s, t) == WeightIn(history, s, t) + if s <= a.time <= t then a.weight else 0
  {
    assert (history + [a])[..|history|] == history;
  }

  lemma {:induction false} NothingAfter(history: seq<Admission>, s: real, t: real)
    requires forall i :: 0 <= i < |history| ==> history[i].time < s
    ensures WeightIn(history, s, t) == 0
  {
    if history != [] {
      NothingAfter(history[..|history| - 1], s, t);
    }
  }

  /** Raising the right end of the interval changes nothing once it covers every admission. */
  lemma DrainOnlyHelps(c: Config, b: Bucket, now: real)
    requires ConfigOk(c) && BucketOk(c, b) && b.lastUpdate <= now
    ensures 0.0 <= Drained(c, b, now) <= b.currentWeight
    ensures Drained(c, b, now) >= b.currentWeight - Drain(c, now - b.lastUpdate)
  {
    DrainGrows(c, 0.0, now - b.lastUpdate);
  }

  /** What one locked block may do to the bucket, given the admission it granted, if any. */
  predicate StepOk(c: Config, b: Bucket, now: real, b': Bucket, granted: seq<Admission>) {
    && BucketOk(c, b')
    && b.lastUpdate <= b'.lastUpdate <= now
    && |granted| <= 1
    && b'.totalRequests == b.totalRequests + |granted|
    && b'.totalWeightUsed == b.totalWeightUsed + TotalWeight(granted)
    && (granted == [] ==> b'.lastRequestTime == b.lastRequestTime)
    && (granted != [] ==>
          && granted[0].time == now == b'.lastRequestTime
          && (c.minInterval > 0.0 ==> now - b.lastRequestTime >= c.minInterval))
  }

  /** Every locked block keeps the level between 0 and the capacity and counts what it grants. */
  lemma ApplyKeepsInvariant(c: Config, b: Bucket, e: Event)
    requires ConfigOk(c) && BucketOk(c, b) && b.lastUpdate <= e.now
    ensures var (b', granted) := Apply(c, b, e); StepOk(c, b, e.now, b', granted)
  {
    if e.Attempt? {
      DrainOnlyHelps(c, b, e.now);
      hide Drain, Drained;
      TotalWeightSnoc([], Admission(e.now, e.weight));
      assert [] + [Admission(e.now, e.weight)] == [Admission(e.now, e.weight)];
    }
  }

  /** Admissions in time order, within the run, and spaced by the minimum interval. */
  ghost predicate HistoryOk(c: Config, b: Bucket, b': Bucket, history: seq<Admission>) {
    && b.lastUpdate <= b'.lastUpdate
    && b'.totalRequests == b.totalRequests + |history|
    && b'.totalWeightUsed == b.totalWeightUsed + TotalWeight(history)
    && (forall i :: 0 <= i < |history| ==> b.lastUpdate <= history[i].time <= b'.lastUpdate)
    && b'.lastRequestTime == (if history == [] then b.lastRequestTime else history[|history| - 1].time)
    && (forall i :: 0 <= i < |history| ==> Spaced(c, b, history, i))
  }

  /** The i-th admission comes no earlier than the minimum interval after the one before it. */
  predicate Spaced(c: Config, b: Bucket, history: seq<Admission>, i: nat)
    requires i < |history|
  {
    var earlier := if i == 0 then b.lastRequestTime else history[i - 1].time;
    earlier <= history[i].time && (c.minInterval > 0.0 ==> history[i].time - earlier >= c.minInterval)
  }

  lemma HistoryExtends(c: Config, b: Bucket, before: Bucket, history: seq<Admission>, now: real,
                       after: Bucket, granted: seq<Admission>)
    requires BucketOk(c, b) && BucketOk(c, before)
    requires HistoryOk(c, b, before, history) && StepOk(c, before, now, after, granted)
    ensures HistoryOk(c, b, after, history + granted)
  {
    assert history + [] == history;
    if granted != [] {
      assert granted == [granted[0]] == [] + [granted[0]];
      TotalWeightSnoc(history, granted[0]);
      TotalWeightSnoc([], granted[0]);
      var longer := history + granted;
      forall i | 0 <= i < |longer|
        ensures Spaced(c, b, longer, i)
      {
        if i < |history| {
          assert Spaced(c, b, history, i);
        }
      }
    }
  }

  /** Everything a run keeps: the level, the counters, and the order and spacing of admissions. */
  lemma {:induction false} RunKeepsInvariant(c: Config, b: Bucket, events: seq<Event>)
    requires ConfigOk(c) && BucketOk(c, b) && Timed(b.lastUpdate, events)
    ensures var (b', history) := Run(c, b, events);
      && BucketOk(c, b')
      && HistoryOk(c, b, b', history)
      && b'.lastUpdate <= if events == [] then b.lastUpdate else events[|events| - 1].now
  {
    hide Apply, ConfigOk;
    if events != [] {
      var n := |events| - 1;
      var (before, history) := Run(c, b, events[..n]);
      RunKeepsInvariant(c, b, events[..n]);
      assert before.lastUpdate <= events[n].now;
      ApplyKeepsInvariant(c, before, events[n]);
      HistoryExtends(c, b, before, history, events[n].now, Apply(c, before, events[n]).0, Apply(c, before, events[n]).1);
    }
  }

  /** What the potential argument says of a bucket and the admissions that led to it. */
  predicate Accounted(c: Config, b: Bucket, history: seq<Admission>, s: real, t: real) {
    if b.lastUpdate < s then WeightIn(history, s, t) == 0
    else WeightIn(history, s, t) as real <= b.currentWeight + Drain(c, b.lastUpdate - s)
  }

  lemma AccountedStep(c: Config, b: Bucket, history: seq<Admission>, e: Event, s: real, t: real)
    requires ConfigOk(c) && BucketOk(c, b) && b.lastUpdate <= e.now <= t
    requires Accounted(c, b, history, s, t)
    ensures var (b', granted) := Apply(c, b, e); Accounted(c, b', history + granted, s, t)
  {
    hide Drain, Drained, Pow2, BaseBackoff, WeightIn, ConfigOk;
    assert history + [] == history;
    if e.Attempt? {
      DrainOnlyHelps(c, b, e.now);
      WeightInSnoc(history, Admission(e.now, e.weight), s, t);
      if s <= b.lastUpdate {
        DrainAdds(c, e.now - b.lastUpdate, b.lastUpdate - s);
        assert e.now - b.lastUpdate + (b.lastUpdate - s) == e.now - s;
      } else if s <= e.now {
        DrainGrows(c, 0.0, e.now - s);
      }
    }
  }

  /**
   * The potential argument: whatever was admitted since s is still in the bucket or has
   * drained out of it since s.
   */
  lemma {:induction false} Potential(c: Config, b: Bucket, events: seq<Event>, s: real, t: real)
    requires ConfigOk(c) && BucketOk(c, b) && Timed(b.lastUpdate, events)
    requires forall i :: 0 <= i < |events| ==> events[i].now <= t
    ensures var (b', history) := Run(c, b, events); Accounted(c, b', history, s, t)
  {
    hide Drain, Apply;
    if events == [] {
      if s <= b.lastUpdate {
        DrainGrows(c, 0.0, b.lastUpdate - s);
      }
    } else {
      var n := |events| - 1;
      RunKeepsInvariant(c, b, events[..n]);
      Potential(c, b, events[..n], s, t);
      AccountedStep(c, Run(c, b, events[..n]).0, Run(c, b, events[..n]).1, events[n], s, t);
    }
  }

  /** An event after t adds nothing to an interval that ends at t. */
  lemma {:induction false} LateEvent(c: Config, b: Bucket, history: seq<Admission>, e: Event, s: real, t: real)
    requires t < e.now
    ensures WeightIn(history + Apply(c, b, e).1, s, t) == WeightIn(history, s, t)
  {
    assert history + [] == history;
    if e.Attempt? {
      WeightInSnoc(history, Admission(e.now, e.weight), s, t);
    }
  }

  /**
   * Main theorem: over every run, the weight admitted in any closed interval [s, t] is at most
   * the bucket's capacity plus what drains in t - s.
   */
  lemma {:induction false} WindowBound(c: Config, b: Bucket, events: seq<Event>, s: real, t: real)
    requires ConfigOk(c) && BucketOk(c, b) && Timed(b.lastUpdate, events) && s <= t
    ensures WeightIn(Run(c, b, events).1, s, t) as real <= c.maxWeight as real + Drain(c, t - s)
  {
    hide Drain, Apply;
    DrainGrows(c, 0.0, t - s);
    if events != [] {
      var n := |events| - 1;
      if events[n].now <= t {
        Potential(c, b, events, s, t);
        RunKeepsInvariant(c, b, events);
        var b' := Run(c, b, events).0;
        if s <= b'.lastUpdate {
          DrainGrows(c, b'.lastUpdate - s, t - s);
        }
      } else {
        WindowBound(c, b, events[..n], s, t);
        LateEvent(c, Run(c, b, events[..n]).0, Run(c, b, events[..n]).1, events[n], s, t);
      }
    }
  }

  // ---------------------------------------------------------------------------------------
  // The bound is attained, so the documented budget of maxWeight per minute is not kept
  // ---------------------------------------------------------------------------------------

  /** A caller that asks for the whole bucket once every period. */
  function FullBucketRequests(c: Config, start: real, period: real, n: nat): seq<Event>
    requires 0 <= c.maxWeight
  {
    var earlier := if n == 0 then [] else FullBucketRequests(c, start, period, n - 1);
    earlier + [Attempt(RequestTime(start, period, n), c.maxWeight)]
  }

  function RequestTime(start: real, period: real, i: nat): real {
    start + i as real * period
  }

  lemma RequestTimesAdvance(start: real, period: real, i: nat)
    requires 0.0 <= period
    ensures RequestTime(start, period, i + 1) == RequestTime(start, period, i) + period
    ensures start <= RequestTime(start, period, i)
    ensures RequestTime(start, period, 0) == start
  {
  }

  /** A period in which a full bucket drains, long enough for the next request to be spaced. */
  predicate DrainPeriod(c: Config, period: real) {
    0 < c.maxWeight && 0.0 < period && c.maxWeight as real <= Drain(c, period) && c.minInterval <= period
  }

  /** The weight of n full buckets. */
  function Buckets(c: Config, n: nat): nat
    requires 0 <= c.maxWeight
  {
    n * c.maxWeight
  }

  lemma BucketsStep(c: Config, n: nat)
    requires 0 <= c.maxWeight
    ensures Buckets(c, n + 1) == Buckets(c, n) + c.maxWeight && Buckets(c, 0) == 0
  {
  }

  lemma {:induction false} RequestsAreTimed(c: Config, start: real, period: real, n: nat)
    requires 0 <= c.maxWeight && 0.0 <= period
    ensures var events := FullBucketRequests(c, start, period, n);
      |events| == n + 1 && events[n].now == RequestTime(start, period, n) && Timed(start, events)
  {
    RequestTimesAdvance(start, period, n);
    if n > 0 {
      RequestsAreTimed(c, start, period, n - 1);
      RequestTimesAdvance(start, period, n - 1);
    }
  }

  /** A full bucket whose last admission was at the given time, having admitted that much since start. */
  ghost predicate Saturated(c: Config, run: (Bucket, seq<Admission>), start: real, last: real, total: nat) {
    && start <= last
    && run.0.currentWeight == c.maxWeight as real
    && run.0.lastUpdate == run.0.lastRequestTime == last
    && forall t :: last <= t ==> WeightIn(run.1, start, t) == total
  }

  /** Every one of those requests is admitted at once, and their weights add up. */
  lemma {:induction false} FullBucketsAdmitted(c: Config, start: real, period: real, n: nat)
    requires ConfigOk(c) && DrainPeriod(c, period) && 0.0 <= start && c.minInterval <= start
    ensures Timed(start, FullBucketRequests(c, start, period, n))
    ensures Saturated(c, Run(c, Fresh(start), FullBucketRequests(c, start, period, n)), start,
                      RequestTime(start, period, n), Buckets(c, n + 1))
  {
    RequestsAreTimed(c, start, period, n);
    RequestTimesAdvance(start, period, n);
    BucketsStep(c, n);
    BucketsStep(c, 0);
    var events := FullBucketRequests(c, start, period, n);
    var earlier := if n == 0 then [] else FullBucketRequests(c, start, period, n - 1);
    if n > 0 {
      RequestsAreTimed(c, start, period, n - 1);
      FullBucketsAdmitted(c, start, period, n - 1);
      RequestTimesAdvance(start, period, n - 1);
    }
    assert events[..n] == earlier;
    var run := Run(c, Fresh(start), earlier);
    FullRequestAdmitted(c, run.0, RequestTime(start, period, n), n == 0, period);
    SaturatedStep(c, run, start, n == 0, RequestTime(start, period, n), period, Buckets(c, n));
    assert Run(c, Fresh(start), events) == (Apply(c, run.0, events[n]).0, run.1 + Apply(c, run.0, events[n]).1);
  }

  lemma SaturatedStep(c: Config, run: (Bucket, seq<Admission>), start: real, first: bool, now: real,
                      period: real, total: nat)
    requires ConfigOk(c) && DrainPeriod(c, period) && c.minInterval <= now && 0.0 <= now && start <= now
    requires if first then run == (Fresh(now), []) && total == 0
             else Saturated(c, run, start, now - period, total)
    ensures var (b, granted) := Apply(c, run.0, Attempt(now, c.maxWeight));
      Saturated(c, (b, run.1 + granted), start, now, total + c.maxWeight)
  {
    FullRequestAdmitted(c, run.0, now, first, period);
    assert 0.0 < period;
    hide DrainPeriod, Apply, ConfigOk;
    var last := Admission(now, c.maxWeight);
    forall t | now <= t
      ensures WeightIn(run.1 + [last], start, t) == total + c.maxWeight
    {
      WeightInSnoc(run.1, last, start, t);
    }
  }

  lemma FullRequestAdmitted(c: Config, b: Bucket, now: real, first: bool, period: real)
    requires ConfigOk(c) && DrainPeriod(c, period) && c.minInterval <= now && 0.0 <= now
    requires first ==> b == Fresh(now)
    requires !first ==> b.currentWeight == c.maxWeight as real && b.lastUpdate == b.lastRequestTime == now - period
    ensures Apply(c, b, Attempt(now, c.maxWeight)).1 == [Admission(now, c.maxWeight)]
    ensures var b' := Apply(c, b, Attempt(now, c.maxWeight)).0;
      b'.currentWeight == c.maxWeight as real && b'.lastUpdate == now == b'.lastRequestTime
  {
    DrainGrows(c, 0.0, period);
    hide Drain;
    assert Drained(c, b, now) == 0.0;
  }

  /** The window bound cannot be improved: these runs meet it with equality. */
  lemma {:induction false} WindowBoundIsAttained(c: Config, start: real, period: real, n: nat)
    requires ConfigOk(c) && DrainPeriod(c, period) && 0.0 <= start && c.minInterval <= start
    requires Drain(c, period) == c.maxWeight as real
    ensures var t := RequestTime(start, period, n);
            WeightIn(Run(c, Fresh(start), FullBucketRequests(c, start, period, n)).1, start, t) as real
              == c.maxWeight as real + Drain(c, t - start)
  {
    FullBucketsAdmitted(c, start, period, n);
    BucketsDrain(c, start, period, n);
    hide *;
  }

  lemma BucketsDrain(c: Config, start: real, period: real, n: nat)
    requires 0 <= c.maxWeight && Drain(c, period) == c.maxWeight as real
    ensures Buckets(c, n + 1) as real == c.maxWeight as real + Drain(c, RequestTime(start, period, n) - start)
  {
    assert (n as real * period) * c.replenishRate == n as real * (period * c.replenishRate);
    assert (n * c.maxWeight) as real == n as real * c.maxWeight as real;
  }

  /** No run of a fresh limiter admits more than the given weight in any 60 seconds. */
  ghost predicate MinuteBudget(c: Config, budget: int) {
    forall start, events, s, t :: 0.0 <= start && Timed(start, events) && t == s + 60.0 ==>
      WeightIn(Run(c, Fresh(start), events).1, s, t) <= budget
  }

  /**
   * The budget of maxWeight per minute that the limiter is documented to keep holds exactly when
   * spacing alone keeps it: one full bucket for each of the requests that fit into a closed minute.
   */
  lemma MinuteBudgetExactly(requestsPerMinute: int, maxWeight: nat, safetyMargin: real)
    requires 0 < requestsPerMinute && 0.0 <= safetyMargin
    ensures 0 <= ConfigOf(requestsPerMinute, maxWeight, safetyMargin).maxWeight
    ensures var c := ConfigOf(requestsPerMinute, maxWeight, safetyMargin);
      MinuteBudget(c, maxWeight) <==> Buckets(c, requestsPerMinute + 1) <= maxWeight
  {
    hide *;
    ConfigParts(requestsPerMinute, maxWeight, safetyMargin);
    var c := ConfigOf(requestsPerMinute, maxWeight, safetyMargin);
    if Buckets(c, requestsPerMinute + 1) <= maxWeight {
      SpacingKeepsBudget(c, requestsPerMinute, maxWeight);
    } else if c.minInterval <= c.maxWeight as real / c.replenishRate {
      FastCallersExceed(c, maxWeight);
    } else {
      SpacedCallersExceed(c, requestsPerMinute, maxWeight);
    }
  }

  lemma ConfigParts(requestsPerMinute: int, maxWeight: nat, safetyMargin: real)
    requires 0 < requestsPerMinute && 0.0 <= safetyMargin
    ensures var c := ConfigOf(requestsPerMinute, maxWeight, safetyMargin);
      && ConfigOk(c) && 0 <= c.maxWeight
      && c.replenishRate == maxWeight as real / 60.0
      && c.minInterval == 60.0 / requestsPerMinute as real && 0.0 < c.minInterval
      && (maxWeight < Buckets(c, requestsPerMinute + 1) ==> 0 < c.maxWeight && 0.0 < c.replenishRate)
  {
    CapacityIsNatural(maxWeight, safetyMargin);
  }

  lemma FastCallersExceed(c: Config, maxWeight: nat)
    requires ConfigOk(c) && 0 < c.maxWeight && 0.0 < c.replenishRate == maxWeight as real / 60.0
    requires 0.0 < c.minInterval <= c.maxWeight as real / c.replenishRate
    ensures !MinuteBudget(c, maxWeight)
  {
    var period := c.maxWeight as real / c.replenishRate;
    assert period * c.replenishRate == c.maxWeight as real;
    BucketsPerMinute(c, maxWeight, period);
    MinuteBudgetExceeded(c, maxWeight, c.minInterval, period, maxWeight / c.maxWeight);
  }

  lemma SpacedCallersExceed(c: Config, requestsPerMinute: nat, maxWeight: nat)
    requires ConfigOk(c) && 0 < c.maxWeight && 0.0 < c.replenishRate && 0 < requestsPerMinute
    requires c.minInterval == 60.0 / requestsPerMinute as real
    requires c.maxWeight as real / c.replenishRate < c.minInterval
    requires maxWeight < Buckets(c, requestsPerMinute + 1)
    ensures !MinuteBudget(c, maxWeight)
  {
    hide Buckets, MinuteBudget;
    ScaleUp(c.maxWeight as real, c.minInterval, c.replenishRate);
    MinuteOfIntervals(c.minInterval, requestsPerMinute, c.minInterval, requestsPerMinute);
    MinuteBudgetExceeded(c, maxWeight, c.minInterval, c.minInterval, requestsPerMinute);
  }

  lemma ScaleUp(x: real, y: real, rate: real)
    requires 0.0 < rate && x / rate < y
    ensures x <= y * rate
  {
    var q := x / rate;
    assert x == q * rate;
    assert 0.0 <= (y - q) * rate;
  }

  /** Exactly the given number of intervals fit into a minute. */
  lemma MinuteOfIntervals(start: real, requestsPerMinute: nat, interval: real, n: nat)
    requires 0 < requestsPerMinute && interval == 60.0 / requestsPerMinute as real
    ensures RequestTime(start, interval, n) <= start + 60.0 <==> n <= requestsPerMinute
  {
    var r := requestsPerMinute as real;
    assert interval * r == 60.0;
    assert n <= requestsPerMinute ==> 0.0 <= (r - n as real) * interval;
    assert n > requestsPerMinute ==> 0.0 < (n as real - r) * interval;
  }

  /** No admission outweighs the capacity. */
  lemma {:induction false} WeightsFit(c: Config, b: Bucket, events: seq<Event>)
    requires ConfigOk(c) && BucketOk(c, b) && Timed(b.lastUpdate, events)
    ensures forall i :: 0 <= i < |Run(c, b, events).1| ==> Run(c, b, events).1[i].weight <= c.maxWeight
  {
    hide Drain, Drained, Pow2, BaseBackoff, ConfigOk;
    if events != [] {
      var n := |events| - 1;
      WeightsFit(c, b, events[..n]);
      RunKeepsInvariant(c, b, events[..n]);
      DrainOnlyHelps(c, Run(c, b, events[..n]).0, events[n].now);
    }
  }

  /** Spaced admissions of bounded weight. */
  ghost predicate Restrained(c: Config, b: Bucket, history: seq<Admission>) {
    forall i :: 0 <= i < |history| ==> Spaced(c, b, history, i) && history[i].weight <= c.maxWeight
  }

  lemma RestrainedPrefix(c: Config, b: Bucket, history: seq<Admission>)
    requires Restrained(c, b, history) && history != [] && 0.0 < c.minInterval
    ensures var n := |history| - 1;
      && Restrained(c, b, history[..n]) && history[n].weight <= c.maxWeight
      && (0 < n ==> history[..n][n - 1].time + c.minInterval <= history[n].time)
  {
    var n := |history| - 1;
    assert Spaced(c, b, history, n);
    forall i | 0 <= i < n
      ensures Spaced(c, b, history[..n], i) && history[..n][i].weight <= c.maxWeight
    {
      assert Spaced(c, b, history, i);
    }
  }

  /** k restrained admissions in a window span k - 1 intervals of it. */
  lemma {:induction false} SpacedWeight(c: Config, b: Bucket, history: seq<Admission>, s: real, t: real)
    returns (k: nat)
    requires 0 <= c.maxWeight && 0.0 < c.minInterval && Restrained(c, b, history)
    ensures WeightIn(history, s, t) <= Buckets(c, k)
    ensures 0 < k ==> history != [] && RequestTime(s, c.minInterval, k - 1) <= t
    ensures 0 < k ==> RequestTime(s, c.minInterval, k - 1) <= history[|history| - 1].time
  {
    hide *;
    k := 0;
    BucketsStep(c, 0);
    if history == [] {
      NothingAfter(history, s, t);
    } else {
      var n := |history| - 1;
      RestrainedPrefix(c, b, history);
      k := SpacedWeight(c, b, history[..n], s, t);
      WeightInSnoc(history[..n], history[n], s, t);
      assert history[..n] + [history[n]] == history;
      RequestTimesAdvance(s, c.minInterval, if 0 < k then k - 1 else 0);
      if s <= history[n].time <= t {
        BucketsStep(c, k);
        k := k + 1;
      }
    }
  }

  lemma SpacingKeepsBudget(c: Config, requestsPerMinute: nat, maxWeight: nat)
    requires ConfigOk(c) && 0 < requestsPerMinute && c.minInterval == 60.0 / requestsPerMinute as real
    requires 0.0 < c.minInterval && Buckets(c, requestsPerMinute + 1) <= maxWeight
    ensures MinuteBudget(c, maxWeight)
  {
    hide Buckets, RequestTime, WeightIn, Run, Spaced, Apply;
    forall start, events, s, t | 0.0 <= start && Timed(start, events) && t == s + 60.0
      ensures WeightIn(Run(c, Fresh(start), events).1, s, t) <= maxWeight
    {
      var history := Run(c, Fresh(start), events).1;
      RunKeepsInvariant(c, Fresh(start), events);
      WeightsFit(c, Fresh(start), events);
      var k := SpacedWeight(c, Fresh(start), history, s, t);
      if 0 < k {
        MinuteOfIntervals(s, requestsPerMinute, c.minInterval, k - 1);
      }
      MoreBuckets(c, k, requestsPerMinute + 1);
    }
  }

  lemma MoreBuckets(c: Config, m: nat, n: nat)
    requires 0 <= c.maxWeight && m <= n
    ensures Buckets(c, m) <= Buckets(c, n)
  {
    assert 0 <= (n - m) * c.maxWeight;
  }

  lemma CapacityIsNatural(maxWeight: nat, safetyMargin: real)
    requires 0.0 <= safetyMargin
    ensures 0 <= (maxWeight as real * safetyMargin).Floor
    ensures maxWeight == 0 ==> (maxWeight as real * safetyMargin).Floor == 0
  {
    assert 0.0 <= maxWeight as real * safetyMargin;
  }

  lemma MinuteBudgetExceeded(c: Config, budget: int, start: real, period: real, n: nat)
    requires ConfigOk(c) && DrainPeriod(c, period) && 0.0 <= start && c.minInterval <= start
    requires budget < Buckets(c, n + 1) && RequestTime(start, period, n) <= start + 60.0
    ensures !MinuteBudget(c, budget)
  {
    FullBucketsAdmitted(c, start, period, n);
    hide Run, FullBucketRequests, DrainPeriod, ConfigOk, RequestTime, Fresh, WeightIn, Timed, Buckets;
    var events, t := FullBucketRequests(c, start, period, n), start + 60.0;
    assert WeightIn(Run(c, Fresh(start), events).1, start, t) == Buckets(c, n + 1);
  }

  lemma BucketsPerMinute(c: Config, maxWeight: nat, period: real)
    requires 0 < c.maxWeight && 0.0 < c.replenishRate == maxWeight as real / 60.0
    requires period * c.replenishRate == c.maxWeight as real
    ensures var n := maxWeight / c.maxWeight;
      && maxWeight < Buckets(c, n + 1)
      && forall start :: RequestTime(start, period, n) <= start + 60.0
  {
    var n := maxWeight / c.maxWeight;
    var total := n * c.maxWeight;
    assert total <= maxWeight;
    assert total as real == n as real * c.maxWeight as real;
    assert (n as real * period) * c.replenishRate == n as real * (period * c.replenishRate);
    QuotientBound(n as real * period, 60.0, c.replenishRate);
  }

  lemma QuotientBound(x: real, y: real, rate: real)
    requires 0.0 < rate && x * rate <= y * rate
    ensures x <= y
  {
  }

  /** With the shipped settings, 1920 weight can pass in 48 seconds, where 1200 a minute is documented. */
  lemma DefaultBudgetCounterexample()
    ensures DEFAULT_CONFIG == Config(960, 20.0, 0.06)
    ensures var (b, history) := Run(DEFAULT_CONFIG, Fresh(1.0), [Attempt(1.0, 960), Attempt(49.0, 960)]);
            WeightIn(history, 1.0, 49.0) == 1920 > RATE_LIMIT_WEIGHT
  {
    var c := DEFAULT_CONFIG;
    assert c == Config(960, 20.0, 0.06);
    FullBucketsAdmitted(c, 1.0, 48.0, 1);
    assert FullBucketRequests(c, 1.0, 48.0, 0) == [Attempt(1.0, 960)];
    assert FullBucketRequests(c, 1.0, 48.0, 1) == [Attempt(1.0, 960), Attempt(49.0, 960)];
    assert RequestTime(1.0, 48.0, 1) == 49.0 && Buckets(c, 2) == 1920;
    hide *;
  }

  // ---------------------------------------------------------------------------------------
  // Backoff
  // ---------------------------------------------------------------------------------------

  /** Consecutive errors double the base pause until it reaches a minute and stays there. */
  lemma {:induction false} BackoffDoubles(errors: nat)
    ensures BaseBackoff(0) == 1.0
    ensures errors < 5 ==> BaseBackoff(errors + 1) == 2.0 * BaseBackoff(errors)
    ensures 6 <= errors ==> BaseBackoff(errors) == 60.0
    ensures BaseBackoff(errors) == if errors < 6 then Pow2(errors) else 60.0
    ensures 1.0 <= BaseBackoff(errors) <= BaseBackoff(errors + 1) <= 60.0
    ensures 6 <= errors ==> 64.0 <= Pow2(errors)
  {
    if errors < 6 {
      assert Pow2(1) == 2.0 && Pow2(2) == 4.0 && Pow2(3) == 8.0 && Pow2(4) == 16.0;
      assert Pow2(5) == 32.0 && Pow2(6) == 64.0;
    } else if errors == 6 {
      assert Pow2(1) == 2.0 && Pow2(2) == 4.0 && Pow2(3) == 8.0 && Pow2(4) == 16.0;
      assert Pow2(5) == 32.0;
    } else {
      BackoffDoubles(errors - 1);
    }
  }

  // ---------------------------------------------------------------------------------------
  // Progress of one uncontended caller
  // ---------------------------------------------------------------------------------------

  predicate Fits(c: Config, b: Bucket, weight: nat, now: real) {
    Drained(c, b, now) + weight as real <= c.maxWeight as real
  }

  /** A request heavier than the bucket is refused by every state the bucket can be in. */
  lemma HeavyRequestNeverAdmitted(c: Config, b: Bucket, weight: nat, now: real)
    requires ConfigOk(c) && BucketOk(c, b) && b.lastUpdate <= now
    ensures weight > c.maxWeight ==> AttemptStep(c, b, weight, now).1 != Admitted
    ensures AttemptStep(c, b, weight, now).1 == DivisionByZero <==> c.replenishRate == 0.0 && 0 < weight
    ensures weight <= c.maxWeight ==> AttemptStep(c, b, weight, now).1 != DivisionByZero
  {
    DrainOnlyHelps(c, b, now);
  }

  /** What a refused attempt tells its caller to wait is enough to remove the reason it was refused for. */
  lemma SleepIsEnough(c: Config, b: Bucket, weight: nat, now: real, later: real)
    requires ConfigOk(c) && BucketOk(c, b) && b.lastUpdate <= now && weight <= c.maxWeight
    requires AttemptStep(c, b, weight, now).1.Sleep? && later >= now + AttemptStep(c, b, weight, now).1.seconds
    ensures 0.0 <= AttemptStep(c, b, weight, now).1.seconds
    ensures Fits(c, AttemptStep(c, b, weight, now).0, weight, later)
    ensures Fits(c, b, weight, now) ==> later - b.lastRequestTime >= c.minInterval
  {
    var (b', outcome) := AttemptStep(c, b, weight, now);
    DrainOnlyHelps(c, b, now);
    if Fits(c, b, weight, now) {
      DrainOnlyHelps(c, b', later);
    } else {
      var needed := b'.currentWeight + weight as real - c.maxWeight as real;
      assert outcome.seconds == needed / c.replenishRate;
      assert Drain(c, needed / c.replenishRate) == needed;
      assert 0.0 < needed / c.replenishRate by {
        if needed / c.replenishRate <= 0.0 {
          DrainGrows(c, needed / c.replenishRate, 0.0);
        }
      }
      DrainGrows(c, needed / c.replenishRate, later - now);
    }
  }

  /** Nor is it more than enough: no retry before the end of the sleep is admitted. */
  lemma SleepIsNeeded(c: Config, b: Bucket, weight: nat, now: real, earlier: real)
    requires ConfigOk(c) && BucketOk(c, b) && b.lastUpdate <= now
    requires AttemptStep(c, b, weight, now).1.Sleep? && now <= earlier < now + AttemptStep(c, b, weight, now).1.seconds
    ensures AttemptStep(c, AttemptStep(c, b, weight, now).0, weight, earlier).1 != Admitted
  {
    hide Drain;
    var (b', outcome) := AttemptStep(c, b, weight, now);
    var needed := b'.currentWeight + weight as real - c.maxWeight as real;
    if 0.0 < needed {
      DrainsLess(c, needed, earlier - now);
    }
  }

  /** In less time than a weight takes to drain, less than that weight drains. */
  lemma DrainsLess(c: Config, needed: real, elapsed: real)
    requires 0.0 < c.replenishRate && elapsed < needed / c.replenishRate
    ensures Drain(c, elapsed) < needed
  {
    var time := needed / c.replenishRate;
    assert time * c.replenishRate == needed;
    PositiveTimes(time - elapsed, c.replenishRate);
    assert Times(time - elapsed, c.replenishRate) == time * c.replenishRate - elapsed * c.replenishRate;
  }

  /** A request that fits keeps fitting while nothing else is admitted. */
  lemma FitsLater(c: Config, b: Bucket, weight: nat, now: real, later: real)
    requires ConfigOk(c) && BucketOk(c, b) && b.lastUpdate <= now <= later && Fits(c, b, weight, now)
    ensures Fits(c, b, weight, later)
  {
    DrainGrows(c, now - b.lastUpdate, later - b.lastUpdate);
  }

  /** Room in the bucket and enough distance from the last admission are exactly what admission takes. */
  lemma AdmittedExactlyWhenReady(c: Config, b: Bucket, weight: nat, now: real)
    ensures AttemptStep(c, b, weight, now).1 == Admitted <==>
            && Fits(c, b, weight, now)
            && (c.minInterval > 0.0 ==> now - b.lastRequestTime >= c.minInterval)
  {
  }

  /** An attempt leaves the backoff state alone, and one that is refused leaves the spacing alone. */
  lemma AttemptFrame(c: Config, b: Bucket, weight: nat, now: real)
    ensures var (b', outcome) := AttemptStep(c, b, weight, now);
      && b'.backoffUntil == b.backoffUntil && b'.consecutiveErrors == b.consecutiveErrors
      && (outcome != Admitted ==> b'.lastRequestTime == b.lastRequestTime)
  {
  }

  /**
   * The limiter object.  Its ghost fields record every event since construction, so that what is
   * proved about runs holds of the object after any sequence of calls by any number of callers.
   */
  class HyperliquidRateLimiter {
    const config: Config
    ghost const createdAt: real
    ghost var events: seq<Event>
    ghost var history: seq<Admission>

    var currentWeight: real
    var lastUpdate: real
    var lastRequestTime: real
    var consecutiveErrors: nat
    var backoffUntil: real
    var totalRequests: nat
    var totalWeightUsed: int

    ghost function View(): Bucket
      reads this
    {
      Bucket(currentWeight, lastUpdate, lastRequestTime, consecutiveErrors, backoffUntil, totalRequests, totalWeightUsed)
    }

    ghost predicate Valid()
      reads this
    {
      && ConfigOk(config)
      && BucketOk(config, View())
      && Timed(createdAt, events)
      && 0.0 <= createdAt <= lastUpdate
      && (View(), history) == Run(config, Fresh(createdAt), events)
    }

    /** No event lies in the future of the given clock reading. */
    ghost predicate Past(now: real)
      reads this
    {
      lastUpdate <= now && forall i :: 0 <= i < |events| ==> events[i].now <= now
    }

    constructor (requestsPerMinute: int, maxWeight: nat, safetyMargin: real, now: real)
      requires requestsPerMinute != 0 && 0.0 <= safetyMargin && 0.0 <= now
      ensures Valid() && Past(now)
      ensures config == ConfigOf(requestsPerMinute, maxWeight, safetyMargin)
      ensures View() == Fresh(now) && history == [] && events == []
    {
      CapacityIsNatural(maxWeight, safetyMargin);
      config := ConfigOf(requestsPerMinute, maxWeight, safetyMargin);
      createdAt := now;
      events, history := [], [];
      currentWeight, lastUpdate, lastRequestTime := 0.0, now, 0.0;
      consecutiveErrors, backoffUntil := 0, 0.0;
      totalRequests, totalWeightUsed := 0, 0;
    }

    /** Appends an event to the record of the run and re-establishes that the object is that run. */
    ghost method Record(e: Event, before: Bucket)
      requires ConfigOk(config) && BucketOk(config, before) && Timed(createdAt, events)
      requires 0.0 <= createdAt <= before.lastUpdate <= e.now
      requires forall i :: 0 <= i < |events| ==> events[i].now <= e.now
      requires (before, history) == Run(config, Fresh(createdAt), events)
      requires View() == Apply(config, before, e).0
      modifies `events, `history
      ensures Valid() && Past(e.now)
      ensures events == old(events) + [e]
      ensures history == old(history) + Apply(config, before, e).1
    {
      hide Apply, Run, ConfigOk, BucketOk;
      ApplyKeepsInvariant(config, before, e);
      RunSnoc(config, Fresh(createdAt), events, e);
      history := history + Apply(config, before, e).1;
      events := events + [e];
    }

    /** The locked block of the backoff phase. */
    method BackoffRemaining(now: real) returns (remaining: real)
      requires Valid() && Past(now)
      modifies `events, `history
      ensures Valid() && Past(now) && View() == old(View()) && history == old(history)
      ensures events == old(events) + [BackoffCheck(now)]
      ensures remaining == backoffUntil - now
    {
      remaining := backoffUntil - now;
      Record(BackoffCheck(now), View());
      assert history == old(history);
    }

    /** Replenishes, checks capacity and spacing, and consumes the weight if both allow it. */
    method Admit(weight: nat, now: real) returns (outcome: Outcome)
      modifies `currentWeight, `lastUpdate, `lastRequestTime, `totalRequests, `totalWeightUsed
      ensures (View(), outcome) == AttemptStep(config, old(View()), weight, now)
    {
      var elapsed := now - lastUpdate;
      currentWeight := Max(0.0, currentWeight - elapsed * config.replenishRate);
      assert currentWeight == Drained(config, old(View()), now);
      hide Drained, Drain;
      lastUpdate := now;
      if currentWeight + weight as real > config.maxWeight as real {
        if config.replenishRate == 0.0 {
          outcome := DivisionByZero;
        } else {
          var needed := currentWeight + weight as real - config.maxWeight as real;
          outcome := Sleep(needed / config.replenishRate);
        }
      } else {
        var timeSinceLast := now - lastRequestTime;
        if config.minInterval > 0.0 && timeSinceLast < config.minInterval {
          outcome := Sleep(config.minInterval - timeSinceLast);
        } else {
          currentWeight := currentWeight + weight as real;
          lastRequestTime := now;
          totalRequests := totalRequests + 1;
          totalWeightUsed := totalWeightUsed + weight;
          outcome := Admitted;
        }
      }
    }

    /** The locked block of the admission phase. */
    method Attempt(weight: nat, now: real) returns (outcome: Outcome)
      requires Valid() && Past(now)
      modifies this
      ensures Valid() && Past(now)
      ensures (View(), outcome) == AttemptStep(config, old(View()), weight, now)
      ensures events == old(events) + [Event.Attempt(now, weight)]
      ensures history == old(history) + if outcome == Admitted then [Admission(now, weight)] else []
    {
      ghost var before := View();
      outcome := Admit(weight, now);
      hide AttemptStep, ConfigOk, BucketOk, Run;
      Record(Event.Attempt(now, weight), before);
    }

    method OnRateLimitError(now: real, jitter: real)
      requires Valid() && Past(now)
      requires 0.0 <= jitter <= BaseBackoff(consecutiveErrors + 1) * 0.25
      modifies this
      ensures Valid() && Past(now) && history == old(history)
      ensures events == old(events) + [RateLimited(now, jitter)]
      ensures View() == ErrorStep(old(View()), now, jitter)
      ensures now + BaseBackoff(consecutiveErrors) <= backoffUntil <= now + 75.0
    {
      ghost var before := View();
      consecutiveErrors := consecutiveErrors + 1;
      var baseBackoff := Min(Pow2(consecutiveErrors), 60.0);
      backoffUntil := now + (baseBackoff + jitter);
      Record(RateLimited(now, jitter), before);
      assert history == old(history);
    }

    method OnSuccess(now: real)
      requires Valid() && Past(now)
      modifies this
      ensures Valid() && Past(now) && history == old(history)
      ensures events == old(events) + [Succeeded(now)]
      ensures View() == SuccessStep(old(View()))
    {
      ghost var before := View();
      if consecutiveErrors > 0 {
        consecutiveErrors := 0;
        backoffUntil := 0.0;
      }
      Record(Succeeded(now), before);
      assert history == old(history);
    }

    /**
     * The whole of wait, for a caller that no other caller interrupts: at most one backoff sleep,
     * at most two admission sleeps, and then exactly one admission of the requested weight, no
     * earlier than the backoff deadline.
     */
    method Wait(weight: nat, clock: Clock) returns (backoffSleeps: nat, admissionSleeps: nat)
      requires Valid() && Past(clock.now) && weight <= config.maxWeight
      modifies this, clock
      ensures Valid() && Past(clock.now) && old(clock.now) <= clock.now
      ensures backoffSleeps <= 1 && admissionSleeps <= 2
      ensures history == old(history) + [Admission(clock.now, weight)]
      ensures old(backoffUntil) <= clock.now
      ensures backoffUntil == old(backoffUntil) && consecutiveErrors == old(consecutiveErrors)
    {
      hide Run, AttemptStep, Fits, ConfigOk, BucketOk, ErrorStep, SuccessStep;
      backoffSleeps, admissionSleeps := 0, 0;
      while true
        invariant Valid() && Past(clock.now) && old(clock.now) <= clock.now
        invariant View() == old(View()) && history == old(history)
        invariant backoffSleeps <= 1 && (backoffSleeps == 1 ==> backoffUntil <= clock.now)
        decreases 1 - backoffSleeps
      {
        var now := clock.Read();
        var remaining := BackoffRemaining(now);
        if remaining <= 0.0 {
          break;
        }
        clock.Sleep(remaining);
        backoffSleeps := backoffSleeps + 1;
      }

      while true
        invariant Valid() && Past(clock.now) && old(clock.now) <= clock.now && backoffUntil <= clock.now
        invariant history == old(history) && admissionSleeps <= 2
        invariant backoffUntil == old(backoffUntil) && consecutiveErrors == old(consecutiveErrors)
        invariant 1 <= admissionSleeps ==> Fits(config, View(), weight, clock.now)
        invariant 2 <= admissionSleeps ==> clock.now - lastRequestTime >= config.minInterval
        decreases 2 - admissionSleeps
      {
        ghost var asked := clock.now;
        var now := clock.Read();
        ghost var before := View();
        if 1 <= admissionSleeps {
          FitsLater(config, before, weight, asked, now);
        }
        HeavyRequestNeverAdmitted(config, before, weight, now);
        var outcome := Attempt(weight, now);
        AttemptFrame(config, before, weight, now);
        AdmittedExactlyWhenReady(config, before, weight, now);
        if outcome == Admitted {
          return;
        }
        SleepIsEnough(config, before, weight, now, now + outcome.seconds);
        clock.Sleep(outcome.seconds);
        SleepIsEnough(config, before, weight, now, clock.now);
        admissionSleeps := admissionSleeps + 1;
      }
    }
  }

  /** What the object's record says about every window of its life so far, and its counters. */
  lemma {:induction false} LimiterKeepsBound(limiter: HyperliquidRateLimiter, s: real, t: real)
    requires limiter.Valid() && s <= t
    ensures WeightIn(limiter.history, s, t) as real
         <= limiter.config.maxWeight as real + Drain(limiter.config, t - s)
    ensures limiter.totalRequests == |limiter.history|
    ensures limiter.totalWeightUsed == TotalWeight(limiter.history)
  {
    WindowBound(limiter.config, Fresh(limiter.createdAt), limiter.events, s, t);
    RunKeepsInvariant(limiter.config, Fresh(limiter.createdAt), limiter.events);
  }
}
