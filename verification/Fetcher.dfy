/**
 * Paginated fetching of Hyperliquid price bars: the date range is cut into chunks, each chunk
 * waits for the rate limiter and asks the API once, and the bars are deduplicated at the end.
 * The API is a function from a chunk to its reply.
 */
module Fetcher {
  import opened Prelude
  import opened Clocks
  import TokenBucket

  datatype PriceBar = PriceBar(timestamp: string, open: real, high: real, low: real, close: real, volume: Option<int>)

  datatype Chunk = Chunk(startMs: int, endMs: int)

  datatype Reply = Candles(bars: seq<PriceBar>) | RateLimitError | OtherError

  datatype FetchResult = InvalidRange | ChunkFailed | Bars(bars: seq<PriceBar>)

  const CANDLE_WEIGHT_BASE := 20
  const MAX_ESTIMATED_BARS := 5000
  const SAFETY_LIMIT := 50000

  function MaxBars(interval: string): nat {
    if interval in ["5min", "30min", "1h", "1d", "1w"] then 5000 else 1000
  }

  function IntervalMs(interval: string): nat {
    if interval == "5min" then 5 * 60 * 1000
    else if interval == "30min" then 30 * 60 * 1000
    else if interval == "1h" then 60 * 60 * 1000
    else if interval == "1d" then 24 * 60 * 60 * 1000
    else if interval == "1w" then 7 * 24 * 60 * 60 * 1000
    else 3600000
  }

  function ChunkMs(interval: string): (ms: nat)
    ensures 0 < ms
  {
    IntervalMs(interval) * MaxBars(interval)
  }

  function CandleWeight(candles: nat): nat {
    CANDLE_WEIGHT_BASE + candles / 60
  }

  function ChunkWeight(interval: string, chunk: Chunk): nat {
    var width := if chunk.endMs < chunk.startMs then chunk.startMs - chunk.endMs else chunk.endMs - chunk.startMs;
    CandleWeight(MinInt(width / IntervalMs(interval), MAX_ESTIMATED_BARS))
  }

  /** No chunk costs more than 103, so a bucket of the shipped capacity can always admit it. */
  lemma ChunkWeightBound(interval: string, chunk: Chunk)
    ensures CANDLE_WEIGHT_BASE <= ChunkWeight(interval, chunk) <= 103 <= TokenBucket.DEFAULT_CONFIG.maxWeight
  {
    assert TokenBucket.DEFAULT_CONFIG.maxWeight == 960 by {
      TokenBucket.DefaultBudgetCounterexample();
    }
  }

  /** A chunk costs the base and one more for every 60 whole candles it spans, up to 83 times. */
  lemma ChunkWeightExactly(interval: string, chunk: Chunk)
    ensures var extra, candle := ChunkWeight(interval, chunk) - CANDLE_WEIGHT_BASE, IntervalMs(interval);
            var width := MaxInt(chunk.endMs - chunk.startMs, chunk.startMs - chunk.endMs);
      && CANDLE_WEIGHT_BASE == 20 && 0 <= extra <= 83
      && 60 * extra * candle <= width
      && (extra < 83 ==> width < 60 * (extra + 1) * candle)
  {
    hide IntervalMs;
    IntervalIsPositive(interval);
    WholeCandles(MaxInt(chunk.endMs - chunk.startMs, chunk.startMs - chunk.endMs), IntervalMs(interval));
  }

  lemma IntervalIsPositive(interval: string)
    ensures 0 < IntervalMs(interval)
  {
  }

  lemma WholeCandles(width: nat, candle: nat)
    requires 0 < candle
    ensures var extra := MinInt(width / candle, 5000) / 60;
      0 <= extra <= 83 && 60 * extra * candle <= width && (extra < 83 ==> width < 60 * (extra + 1) * candle)
  {
    var candles := width / candle;
    var extra := MinInt(candles, 5000) / 60;
    WholeParts(width, candle);
    ScaledUp(60 * extra, candles, candle);
    if extra < 83 {
      ScaledUp(candles + 1, 60 * (extra + 1), candle);
    }
  }

  lemma WholeParts(width: nat, candle: nat)
    requires 0 < candle
    ensures 0 <= width / candle && width / candle * candle <= width < (width / candle + 1) * candle
  {
  }

  lemma ScaledUp(a: nat, b: nat, size: nat)
    requires a <= b
    ensures a * size <= b * size
  {
    assert 0 <= (b - a) * size;
  }

  /** The intervals the API knows, in minutes. */
  const INTERVAL_MINUTES := map["5min" := 5, "30min" := 30, "1h" := 60, "1d" := 1440, "1w" := 10080]

  /** A chunk spans 5000 candles of a known interval, and 1000 hours of any other. */
  lemma ChunkSpans(interval: string)
    ensures ChunkMs(interval)
         == if interval in INTERVAL_MINUTES then 5000 * INTERVAL_MINUTES[interval] * 60000 else 1000 * 3600000
    ensures IntervalMs(interval) == if interval in INTERVAL_MINUTES then INTERVAL_MINUTES[interval] * 60000 else 3600000
  {
  }

  // ---------------------------------------------------------------------------------------
  // Cutting the range
  // ---------------------------------------------------------------------------------------

  function Chunks(startMs: int, endMs: int, chunkMs: nat): seq<Chunk>
    requires 0 < chunkMs
    decreases endMs - startMs
  {
    if startMs >= endMs then []
    else
      var chunkEnd := NextEnd(startMs, endMs, chunkMs);
      [Chunk(startMs, chunkEnd)] + Chunks(chunkEnd, endMs, chunkMs)
  }

  /** Adjacent, nonempty chunks no wider than chunkMs that cover [startMs, endMs) exactly. */
  ghost predicate Tiles(chunks: seq<Chunk>, startMs: int, endMs: int, chunkMs: nat) {
    if chunks == [] then startMs >= endMs
    else
      && chunks[0].startMs == startMs && chunks[|chunks| - 1].endMs == endMs
      && (forall i :: 0 <= i < |chunks| ==> chunks[i].startMs < chunks[i].endMs <= chunks[i].startMs + chunkMs)
      && (forall i :: 0 < i < |chunks| ==> chunks[i].startMs == chunks[i - 1].endMs)
  }

  lemma {:induction false} ChunksTile(startMs: int, endMs: int, chunkMs: nat)
    requires 0 < chunkMs
    ensures Tiles(Chunks(startMs, endMs, chunkMs), startMs, endMs, chunkMs)
    decreases endMs - startMs
  {
    if startMs < endMs {
      var chunkEnd := NextEnd(startMs, endMs, chunkMs);
      var rest := Chunks(chunkEnd, endMs, chunkMs);
      ChunksTile(chunkEnd, endMs, chunkMs);
      var chunks := [Chunk(startMs, chunkEnd)] + rest;
      assert forall i :: 0 < i < |chunks| ==> chunks[i] == rest[i - 1];
    }
  }

  /** Every millisecond of the range is asked for in exactly one chunk. */
  lemma {:induction false} EveryInstantOnce(chunks: seq<Chunk>, startMs: int, endMs: int, chunkMs: nat, ms: int) returns (k: nat)
    requires Tiles(chunks, startMs, endMs, chunkMs) && startMs <= ms < endMs
    ensures k < |chunks| && chunks[k].startMs <= ms < chunks[k].endMs
    ensures forall i :: 0 <= i < |chunks| && chunks[i].startMs <= ms < chunks[i].endMs ==> i == k
  {
    k := 0;
    while chunks[k].endMs <= ms
      invariant k < |chunks| && chunks[k].startMs <= ms
      invariant forall i :: 0 <= i < k ==> chunks[i].endMs <= chunks[k].startMs
      decreases |chunks| - k
    {
      k := k + 1;
    }
    var j := k;
    while j + 1 < |chunks|
      invariant k <= j < |chunks|
      invariant forall i :: k < i <= j ==> chunks[k].endMs <= chunks[i].startMs
      invariant k == j || chunks[k].endMs <= chunks[j].startMs
    {
      j := j + 1;
    }
  }

  // ---------------------------------------------------------------------------------------
  // Deduplication
  // ---------------------------------------------------------------------------------------

  function Timestamps(bars: seq<PriceBar>): set<string> {
    set i | 0 <= i < |bars| :: bars[i].timestamp
  }

  /** Bars whose timestamp no earlier bar has. */
  function Deduplicated(bars: seq<PriceBar>): seq<PriceBar> {
    if bars == [] then []
    else
      var n := |bars| - 1;
      Deduplicated(bars[..n]) + if bars[n].timestamp in Timestamps(bars[..n]) then [] else [bars[n]]
  }

  method DeduplicateBars(bars: seq<PriceBar>) returns (unique: seq<PriceBar>)
    ensures unique == Deduplicated(bars)
  {
    var seen: set<string> := {};
    unique := [];
    for i := 0 to |bars|
      invariant seen == Timestamps(bars[..i])
      invariant unique == Deduplicated(bars[..i])
    {
      assert bars[..i + 1][..i] == bars[..i];
      TimestampsSnoc(bars[..i], bars[i]);
      assert bars[..i + 1] == bars[..i] + [bars[i]];
      if bars[i].timestamp in seen {
        continue;
      }
      seen := seen + {bars[i].timestamp};
      unique := unique + [bars[i]];
    }
    assert bars[..|bars|] == bars;
  }

  lemma TimestampsSnoc(bars: seq<PriceBar>, bar: PriceBar)
    ensures Timestamps(bars + [bar]) == Timestamps(bars) + {bar.timestamp}
  {
    var longer := bars + [bar];
    assert longer[|bars|] == bar;
    forall t | t in Timestamps(bars)
      ensures t in Timestamps(longer)
    {
      var i :| 0 <= i < |bars| && bars[i].timestamp == t;
      assert longer[i].timestamp == t;
    }
  }

  /**
   * The kept bars are, in order, exactly the first bar of each timestamp: the result has the same
   * timestamps as the input, none of them twice, and `at` says where each kept bar came from.
   */
  lemma {:induction false} DeduplicationKeepsFirsts(bars: seq<PriceBar>) returns (at: seq<nat>)
    ensures var unique := Deduplicated(bars);
      && |at| == |unique|
      && (forall k :: 0 <= k < |at| ==> at[k] < |bars| && bars[at[k]] == unique[k])
      && (forall j, k :: 0 <= j < k < |at| ==> at[j] < at[k])
      && (forall k, i :: 0 <= k < |at| && 0 <= i < at[k] ==> bars[i].timestamp != unique[k].timestamp)
      && (forall j, k :: 0 <= j < k < |unique| ==> unique[j].timestamp != unique[k].timestamp)
      && Timestamps(unique) == Timestamps(bars)
  {
    if bars == [] {
      at := [];
    } else {
      var n := |bars| - 1;
      at := DeduplicationKeepsFirsts(bars[..n]);
      assert bars == bars[..n] + [bars[n]];
      TimestampsSnoc(bars[..n], bars[n]);
      hide Timestamps;
      var before := Deduplicated(bars[..n]);
      if bars[n].timestamp in Timestamps(bars[..n]) {
        assert Deduplicated(bars) == before;
      } else {
        TimestampsSnoc(before, bars[n]);
        forall i | 0 <= i < n
          ensures bars[i].timestamp != bars[n].timestamp
        {
          assert bars[..n][i].timestamp in Timestamps(bars[..n]);
        }
        at := at + [n];
      }
    }
  }

  // ---------------------------------------------------------------------------------------
  // The fetch loop
  // ---------------------------------------------------------------------------------------

  /** All bars of a list of replies, in order; replies without candles contribute nothing. */
  function AllBars(api: Chunk -> Reply, chunks: seq<Chunk>): seq<PriceBar> {
    if chunks == [] then []
    else
      var n := |chunks| - 1;
      AllBars(api, chunks[..n]) + if api(chunks[n]).Candles? then api(chunks[n]).bars else []
  }

  ghost predicate AllAnswered(api: Chunk -> Reply, chunks: seq<Chunk>) {
    forall i :: 0 <= i < |chunks| ==> api(chunks[i]).Candles?
  }

  /** Until the last chunk was asked for, the safety limit had not been passed. */
  ghost predicate WithinLimit(api: Chunk -> Reply, chunks: seq<Chunk>) {
    forall k :: 0 <= k < |chunks| ==> |AllBars(api, chunks[..k])| <= SAFETY_LIMIT
  }

  ghost predicate Weighs(admissions: seq<TokenBucket.Admission>, interval: string, chunks: seq<Chunk>) {
    && |admissions| == |chunks|
    && forall i :: 0 <= i < |chunks| ==> admissions[i].weight == ChunkWeight(interval, chunks[i])
  }

  method FetchChunk(api: Chunk -> Reply, interval: string, chunk: Chunk,
                    limiter: TokenBucket.HyperliquidRateLimiter, clock: Clock)
    returns (bars: Option<seq<PriceBar>>)
    requires limiter.Valid() && limiter.Past(clock.now) && 103 <= limiter.config.maxWeight
    modifies limiter, clock
    ensures limiter.Valid() && limiter.Past(clock.now)
    ensures bars == if api(chunk).Candles? then Some(api(chunk).bars) else None
    ensures exists t :: limiter.history == old(limiter.history) + [TokenBucket.Admission(t, ChunkWeight(interval, chunk))]
    ensures limiter.consecutiveErrors
         == match api(chunk)
            case Candles(_) => 0
            case RateLimitError => old(limiter.consecutiveErrors) + 1
            case OtherError => old(limiter.consecutiveErrors)
    ensures api(chunk) == RateLimitError ==>
      var base := TokenBucket.BaseBackoff(limiter.consecutiveErrors);
      clock.now + 1.0 <= clock.now + base <= limiter.backoffUntil <= clock.now + base * 1.25
  {
    ChunkWeightBound(interval, chunk);
    var weight := ChunkWeight(interval, chunk);
    var _, _ := limiter.Wait(weight, clock);
    assert limiter.history == old(limiter.history) + [TokenBucket.Admission(clock.now, weight)];
    match api(chunk)
    case Candles(candles) =>
      var now := clock.Read();
      limiter.OnSuccess(now);
      bars := Some(candles);
    case RateLimitError =>
      var now := clock.Read();
      TokenBucket.BackoffDoubles(limiter.consecutiveErrors + 1);
      var draw: real := *;
      var jitter := Max(0.0, Min(draw, TokenBucket.BaseBackoff(limiter.consecutiveErrors + 1) * 0.25));
      limiter.OnRateLimitError(now, jitter);
      bars := None;
    case OtherError =>
      bars := None;
  }

  /**
   * What was asked for: a prefix of the plan, past the safety limit with its last chunk at the
   * earliest, every chunk admitted by the limiter, in order and with its own weight.
   */
  ghost predicate Asked(api: Chunk -> Reply, interval: string, plan: seq<Chunk>, requested: seq<Chunk>,
                        before: seq<TokenBucket.Admission>, after: seq<TokenBucket.Admission>)
  {
    && requested <= plan
    && WithinLimit(api, requested)
    && before <= after
    && Weighs(after[|before|..], interval, requested)
  }

  /** What is made of the replies to the requested chunks. */
  ghost predicate Answered(api: Chunk -> Reply, plan: seq<Chunk>, requested: seq<Chunk>, result: FetchResult) {
    match result
    case InvalidRange => requested == []
    case ChunkFailed =>
      && requested != [] && AllAnswered(api, requested[..|requested| - 1])
      && !api(requested[|requested| - 1]).Candles?
    case Bars(bars) =>
      && AllAnswered(api, requested)
      && bars == Deduplicated(AllBars(api, requested))
      && (requested == plan || |AllBars(api, requested)| > SAFETY_LIMIT)
  }

  function Plan(interval: string, startMicros: nat, endMicros: nat): seq<Chunk> {
    Chunks(startMicros / 1000, endMicros / 1000, ChunkMs(interval))
  }

  /** The whole fetch; `requested` lists the chunks that were asked for. */
  method FetchDateRange(api: Chunk -> Reply, interval: string, startMicros: nat, endMicros: nat,
                        limiter: TokenBucket.HyperliquidRateLimiter, clock: Clock)
    returns (result: FetchResult, ghost requested: seq<Chunk>)
    requires limiter.Valid() && limiter.Past(clock.now) && 103 <= limiter.config.maxWeight
    modifies limiter, clock
    ensures limiter.Valid() && limiter.Past(clock.now)
    ensures result == InvalidRange <==> startMicros >= endMicros
    ensures Asked(api, interval, Plan(interval, startMicros, endMicros), requested,
                  old(limiter.history), limiter.history)
    ensures Answered(api, Plan(interval, startMicros, endMicros), requested, result)
  {
    if startMicros >= endMicros {
      return InvalidRange, [];
    }
    var allBars;
    allBars, requested := FetchChunks(api, interval, startMicros / 1000, endMicros / 1000, limiter, clock);
    if allBars.None? {
      return ChunkFailed, requested;
    }
    var unique := DeduplicateBars(allBars.value);
    result := Bars(unique);
  }

  /** The chunk loop: no bars at all if a chunk fails, otherwise those of all the chunks asked for. */
  method FetchChunks(api: Chunk -> Reply, interval: string, startMs: int, endMs: int,
                     limiter: TokenBucket.HyperliquidRateLimiter, clock: Clock)
    returns (bars: Option<seq<PriceBar>>, ghost requested: seq<Chunk>)
    requires limiter.Valid() && limiter.Past(clock.now) && 103 <= limiter.config.maxWeight
    modifies limiter, clock
    ensures limiter.Valid() && limiter.Past(clock.now)
    ensures Asked(api, interval, Chunks(startMs, endMs, ChunkMs(interval)), requested,
                  old(limiter.history), limiter.history)
    ensures bars.None? ==> Answered(api, Chunks(startMs, endMs, ChunkMs(interval)), requested, ChunkFailed)
    ensures bars.Some? ==>
      Answered(api, Chunks(startMs, endMs, ChunkMs(interval)), requested, Bars(Deduplicated(bars.value)))
  {
    hide *;
    var chunkMs := ChunkMs(interval);
    ghost var plan, before := Chunks(startMs, endMs, chunkMs), limiter.history;
    var allBars: seq<PriceBar> := [];
    var currentStart := startMs;
    requested := [];
    NothingAsked(api, interval, plan, before);
    while currentStart < endMs
      invariant limiter.Valid() && limiter.Past(clock.now)
      invariant plan == requested + Chunks(currentStart, endMs, chunkMs)
      invariant Asked(api, interval, plan, requested, before, limiter.history)
      invariant AllAnswered(api, requested) && allBars == AllBars(api, requested) && |allBars| <= SAFETY_LIMIT
      decreases endMs - currentStart
    {
      ChunksNext(currentStart, endMs, chunkMs);
      var currentEnd := NextEnd(currentStart, endMs, chunkMs);
      ghost var chunk, asked, admitted := Chunk(currentStart, currentEnd), requested, limiter.history;
      var reply := FetchChunk(api, interval, Chunk(currentStart, currentEnd), limiter, clock);
      requested := asked + [chunk];
      assert plan == requested + Chunks(currentEnd, endMs, chunkMs);
      AskedNext(api, interval, plan, asked, chunk, before, admitted, limiter.history);
      if reply.None? {
        return None, requested;
      }
      allBars := allBars + reply.value;
      currentStart := currentEnd;
      if |allBars| > SAFETY_LIMIT {
        break;
      }
    }
    ChunksDone(currentStart, endMs, chunkMs);
    FetchedAll(api, plan, requested, allBars);
    return Some(allBars), requested;
  }

  function NextEnd(startMs: int, endMs: int, chunkMs: nat): int {
    MinInt(startMs + chunkMs, endMs)
  }

  lemma {:induction false} ChunksNext(startMs: int, endMs: int, chunkMs: nat)
    requires 0 < chunkMs && startMs < endMs
    ensures var next := NextEnd(startMs, endMs, chunkMs);
      && startMs < next <= endMs
      && Chunks(startMs, endMs, chunkMs) == [Chunk(startMs, next)] + Chunks(next, endMs, chunkMs)
  {
  }

  lemma {:induction false} ChunksDone(startMs: int, endMs: int, chunkMs: nat)
    requires 0 < chunkMs
    ensures startMs >= endMs ==> Chunks(startMs, endMs, chunkMs) == []
  {
  }

  lemma NothingAsked(api: Chunk -> Reply, interval: string, plan: seq<Chunk>, before: seq<TokenBucket.Admission>)
    ensures Asked(api, interval, plan, [], before, before) && AllAnswered(api, []) && AllBars(api, []) == []
    ensures 0 <= SAFETY_LIMIT
  {
    assert before[|before|..] == [];
  }

  lemma {:induction false} AskedNext(api: Chunk -> Reply, interval: string, plan: seq<Chunk>, asked: seq<Chunk>, chunk: Chunk,
                  before: seq<TokenBucket.Admission>, admitted: seq<TokenBucket.Admission>,
                  after: seq<TokenBucket.Admission>)
    requires Asked(api, interval, plan, asked, before, admitted) && asked + [chunk] <= plan
    requires AllAnswered(api, asked) && |AllBars(api, asked)| <= SAFETY_LIMIT
    requires exists t :: after == admitted + [TokenBucket.Admission(t, ChunkWeight(interval, chunk))]
    ensures var requested := asked + [chunk];
      && Asked(api, interval, plan, requested, before, after)
      && AllBars(api, requested) == AllBars(api, asked) + (if api(chunk).Candles? then api(chunk).bars else [])
      && (if api(chunk).Candles? then AllAnswered(api, requested) else Answered(api, plan, requested, ChunkFailed))
  {
    var requested := asked + [chunk];
    assert requested[..|asked|] == asked;
    assert after[|before|..] == admitted[|before|..] + [after[|admitted|]];
    forall k | 0 <= k < |requested|
      ensures |AllBars(api, requested[..k])| <= SAFETY_LIMIT
    {
      if k < |asked| {
        assert requested[..k] == asked[..k];
      }
    }
    hide ChunkWeight;
  }

  lemma {:induction false} FetchedAll(api: Chunk -> Reply, plan: seq<Chunk>, requested: seq<Chunk>, bars: seq<PriceBar>)
    requires AllAnswered(api, requested) && bars == AllBars(api, requested)
    requires requested == plan || |bars| > SAFETY_LIMIT
    ensures Answered(api, plan, requested, Bars(Deduplicated(bars)))
  {
  }

  /** When nothing fails and the limit is not passed, the whole range has been fetched, once. */
  lemma {:induction false} CompleteFetch(api: Chunk -> Reply, interval: string, startMicros: nat, endMicros: nat,
                      requested: seq<Chunk>, result: FetchResult)
    requires Answered(api, Plan(interval, startMicros, endMicros), requested, result)
    requires result.Bars? && |AllBars(api, requested)| <= SAFETY_LIMIT
    ensures Tiles(requested, startMicros / 1000, endMicros / 1000, ChunkMs(interval))
    ensures Timestamps(result.bars) == Timestamps(AllBars(api, Plan(interval, startMicros, endMicros)))
  {
    ChunksTile(startMicros / 1000, endMicros / 1000, ChunkMs(interval));
    var _ := DeduplicationKeepsFirsts(AllBars(api, requested));
  }
}
