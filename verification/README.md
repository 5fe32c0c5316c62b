# Finbar, verified

A Dafny model of the parts of Finbar whose correctness is hard to see from the code: rate limiters
shared by many callers, the two-pass condition evaluator of rule-based strategies, fast forms of
metrics next to the slow forms they replace, parameter search and walk-forward splitting, the
arithmetic of equity curves, and the state machines of the backtest and of its stores. Numbers are
mathematical integers and reals; rounding and floating-point drift are not modelled.

`dafny verify dfyconfig.toml` checks everything.

| file | what it models |
|---|---|
| `Prelude.dfy`, `Lexical.dfy`, `Clock.dfy` | options, sums and named products; the order of strings and sorted lists; a clock that never goes back |
| `TokenBucket.dfy` | the Hyperliquid limiter, one locked block a step |
| `SlidingWindow.dfy`, `SlidingWindowBound.dfy`, `SlidingWindowLimiters.dfy` | the Yahoo Finance and CoinGlass limiters |
| `Fetcher.dfy` | chunked downloads and deduplication |
| `Conditions.dfy`, `ConditionEvaluator.dfy`, `CrossoverRuns.dfy` | condition trees, the two passes, crossovers over whole runs, the strategy on top |
| `RollingSharpe.dfy`, `RollingWinRate.dfy`, `Portfolio.dfy`, `Paging.dfy` | fast forms and the slow forms they refine |
| `ParamSearch.dfy`, `Folds.dfy`, `Ranks.dfy`, `Pearson.dfy` | search, splitting, ranking, correlation |
| `Drawdown.dfy`, `CalendarReturns.dfy` | equity mathematics |
| `Simulation.dfy`, `Execution.dfy`, `BarLoop.dfy`, `BacktestRunner.dfy` | positions and cash, what every fill comes to, the bar loop, and the loop as it updates its state in place |
| `Eviction.dfy`, `ResultStore.dfy`, `StoreInterleavings.dfy` | oldest-first eviction, the result cache over its table, and overlapping calls to it |

Code that updates objects is modelled as classes whose methods are proved equal to specification
functions; the theorems are about those functions, over every run. Concurrency is a run of atomic
steps: each locked block is one event, the events of all callers are interleaved arbitrarily, and
sleeping is time passing between events. What the helpers of a specification compute is stated
again without them, in amounts, positions and quantifiers over the inputs (`Execution.dfy`, and the
lemmas named ...Exactly, ...Mean or ...SpelledOut). Lemmas are marked `{:induction false}` wherever
Dafny would otherwise apply induction of its own, so that every induction is one written down.

## Where code and promise differ

- The Hyperliquid limiter does not keep its documented 1200 weight per minute
  (`hyperliquid_rate_limiter.py:1-8`). It keeps capacity plus rate times length, and reaches that;
  the documented budget holds only when spacing is slow enough to keep it alone.
- The sliding windows remember 1000 timestamps (`rate_limiter.py:34`). A larger per-minute limit
  holds only when spacing enforces it. A reset forgets the window: the limit then holds once, and once
  more for each reset inside the minute. A limit of zero or less indexes an empty deque.
- After the exact sleep of a full window the oldest timestamp is still in it, because the purge is
  strict; the caller loops once more with a sleep of 0.
- Crossovers whose operands carry no label share one key (`condition_evaluator.py:33-39`), and one
  overwrites the other's memory, so that a crossing can go unnoticed. What is remembered then also
  depends on where evaluation stopped. At any boundary memory is right exactly when crossovers that
  share a key have the same latest pair; labels that determine operands and are free of the separator
  ensure it.
- The listed values of a parameter range can include one above the maximum, which the size estimate
  does not count (`param_range.py:23-32`, `grid_search_optimizer.py:359-365`).
- `compute_fold_indices` does not check its training ratio; for some ratios outside
  [0, 1] rolling folds leave the data.
- Tie-averaged ranks group by closeness to the first of a run, which is not transitive; they are
  the fair ranks exactly when no two different values are close.
- The single-pass pager clamps the page number only after collecting, so a page past the end is
  empty where the slicing pager returns the last page; without explicit columns it takes those of
  the first matching bar only.
- The maximum drawdown can miss the largest pairwise drop once equity falls below zero after having
  been positive. It still finds it exactly when the worst such fall starts at the only positive value
  seen by then.
- The final liquidation overwrites the last equity point but leaves the overwritten value in the
  peak, so the last drawdown can refer to a peak that the curve no longer shows.
- The reconciliation error is zero before rounding. Trades are rounded to cents one by one, and the
  reported error is what that rounding dropped.
- A save writes the table after releasing the lock (`in_memory_backtest_result_store.py:38-42`). A
  delete that finishes in between is undone by it.
- Without leverage used margin is added on entry and never released (`position_opener.py:98-100`,
  `position_closer.py:153-159`), so after the first trade it is not zero when flat.

## Model

| member | source | states |
|---|---|---|
| TokenBucket.WindowBound | finbar/infrastructure/services/hyperliquid_rate_limiter.py:119-156 | over every interleaving of callers and every nondecreasing clock, the weight admitted in any closed interval [s, t] is at most the capacity plus the replenish rate times (t - s) |
| TokenBucket.Potential | finbar/infrastructure/services/hyperliquid_rate_limiter.py:122-144 | what was admitted since s is still in the bucket or has drained since s |
| TokenBucket.WindowBoundIsAttained | finbar/infrastructure/services/hyperliquid_rate_limiter.py:122-156 | callers that ask for a whole bucket each time it has drained reach the bound exactly, for windows of any number of buckets |
| TokenBucket.FullBucketsAdmitted | finbar/infrastructure/services/hyperliquid_rate_limiter.py:122-156 | every one of those requests is admitted and leaves the bucket full |
| TokenBucket.MinuteBudgetExactly | finbar/infrastructure/services/hyperliquid_rate_limiter.py:73-75 | the documented weight per minute is kept over all runs if and only if it covers one full bucket for each of the requests that spacing lets into a closed minute: (requests per minute + 1) times the capacity |
| TokenBucket.SpacedWeight | finbar/infrastructure/services/hyperliquid_rate_limiter.py:135-144 | k admissions inside a window span k - 1 minimum intervals of it and weigh at most k capacities |
| TokenBucket.DefaultBudgetCounterexample | finbar/infrastructure/services/hyperliquid_rate_limiter.py:1-8 | with the default settings two requests 48 seconds apart admit 1920 weight against the documented 1200 |
| TokenBucket.ApplyKeepsInvariant | finbar/infrastructure/services/hyperliquid_rate_limiter.py:119-186 | every locked block keeps the level between 0 and the capacity, the clock fields ordered, and counts exactly the admission it grants |
| TokenBucket.RunKeepsInvariant | finbar/infrastructure/services/hyperliquid_rate_limiter.py:119-156 | after any run the level is in range, the counters equal the history, and successive admissions are in order and at least the minimum interval apart |
| TokenBucket.AdmittedExactlyWhenReady | finbar/infrastructure/services/hyperliquid_rate_limiter.py:129-144 | a request is admitted exactly when its weight fits after draining and the minimum interval has passed |
| TokenBucket.SleepIsEnough | finbar/infrastructure/services/hyperliquid_rate_limiter.py:129-138 | after the computed sleep the request fits; if it already fitted, its spacing is satisfied too |
| TokenBucket.SleepIsNeeded | finbar/infrastructure/services/hyperliquid_rate_limiter.py:129-138 | and no retry before the end of that sleep is admitted |
| TokenBucket.HeavyRequestNeverAdmitted | finbar/infrastructure/services/hyperliquid_rate_limiter.py:129-133 | a weight above the capacity is never admitted; the division by the replenish rate fails exactly when that rate is 0 and the weight is positive |
| TokenBucket.BackoffDoubles | finbar/infrastructure/services/hyperliquid_rate_limiter.py:163-168 | the base pause starts at a second, doubles per consecutive error, never shrinks, and stays at 60 seconds from the sixth error on |
| TokenBucket.LimiterKeepsBound | finbar/infrastructure/services/hyperliquid_rate_limiter.py:56-89 | every object reached through its methods satisfies the window bound, and its counters equal its history |
| TokenBucket.HyperliquidRateLimiter.constructor | finbar/infrastructure/services/hyperliquid_rate_limiter.py:67-89 | starts empty, with capacity, rate and spacing derived from the arguments |
| TokenBucket.HyperliquidRateLimiter.BackoffRemaining | finbar/infrastructure/services/hyperliquid_rate_limiter.py:106-112 | reads the time left until the backoff deadline and changes nothing |
| TokenBucket.HyperliquidRateLimiter.Admit | finbar/infrastructure/services/hyperliquid_rate_limiter.py:120-156 | the locked admission block in place, equal to the specified step on every field |
| TokenBucket.HyperliquidRateLimiter.Attempt | finbar/infrastructure/services/hyperliquid_rate_limiter.py:119-156 | one admission attempt as a step of the run: the new state, the outcome and the history it leaves |
| TokenBucket.HyperliquidRateLimiter.OnRateLimitError | finbar/infrastructure/services/hyperliquid_rate_limiter.py:160-168 | one more error, and a deadline between the base pause and 75 seconds from now |
| TokenBucket.HyperliquidRateLimiter.OnSuccess | finbar/infrastructure/services/hyperliquid_rate_limiter.py:177-186 | clears the error count and the deadline exactly when there were errors |
| TokenBucket.HyperliquidRateLimiter.Wait | finbar/infrastructure/services/hyperliquid_rate_limiter.py:91-158 | an uncontended call is admitted exactly once, past the deadline, after at most one backoff sleep and two admission sleeps, each of at least the requested length |
| SlidingWindow.PurgeIsSuffix | finbar/infrastructure/services/rate_limiter.py:70-73 | purging keeps exactly the timestamps of the last 60 seconds, as a suffix of the deque |
| SlidingWindow.DequeHoldsTheWindow | finbar/infrastructure/services/rate_limiter.py:66-86 | after an attempt the deque is exactly the admissions of the last 60 seconds, or the latest 1000 of them |
| SlidingWindow.ApplyTracks | finbar/infrastructure/services/rate_limiter.py:34-86 | every step keeps the deque a suffix of the history that misses no recent admission, up to its length bound |
| SlidingWindow.AdmissionRespectsLimit | finbar/infrastructure/services/coinglass_rate_limiter.py:80-100 | an admission under a limit of at most 1000 leaves at most that many in the minute that ends at it |
| SlidingWindow.EveryAdmissionRespected | finbar/infrastructure/services/coinglass_rate_limiter.py:45-100 | in every run, whatever headers arrive in between, the minute ending at each admission respects the limit then in force (when that limit is at most 1000) |
| SlidingWindow.EveryMinute | finbar/infrastructure/services/rate_limiter.py:66-86 | with one fixed limit of at most 1000 every closed 60-second window holds at most that many admissions |
| SlidingWindowBound.MinuteCapExactly | finbar/infrastructure/services/rate_limiter.py:28-34 | the per-minute cap holds over all runs, counted since the last reset, if and only if it is at most 1000 or that many spaced requests do not fit into a minute |
| SlidingWindowBound.EnforcedLimitsRespected | finbar/infrastructure/services/coinglass_rate_limiter.py:45-100 | in every run, whatever headers arrive, the minute ending at each admission respects the limit then in force, when that limit is at most 1000 or enforced by spacing |
| SlidingWindowBound.SpacedMinute | finbar/infrastructure/services/rate_limiter.py:75-78 | spacing alone keeps the cap when that many intervals exceed a minute |
| SlidingWindowBound.BurstAdmitted | finbar/infrastructure/services/rate_limiter.py:34-86 | above 1000 the cap is never felt: a burst of evenly spaced requests is admitted without end |
| SlidingWindowBound.CapBroken | finbar/infrastructure/services/rate_limiter.py:34-86 | a cap above 1000 whose requests fit into a minute is exceeded by a concrete run |
| SlidingWindowBound.LifetimeBound | finbar/infrastructure/services/rate_limiter.py:66-111 | over the whole life of a limiter whose limit is enforced, a closed minute holds at most the limit once, and once more for each reset inside it |
| SlidingWindowBound.ResetForgetsTheWindow | finbar/infrastructure/services/rate_limiter.py:106-111 | with resets allowed, every closed minute of every life keeps the limit if and only if the limit is zero |
| SlidingWindowBound.EmptyDequeExactly | finbar/infrastructure/services/rate_limiter.py:76-81 | an attempt indexes an empty deque if and only if it is spaced, the window is empty and the limit is not positive |
| SlidingWindowBound.NonPositiveLimitNeverAdmits | finbar/infrastructure/services/rate_limiter.py:79-81 | a limit of zero or less never admits; once spacing is satisfied every attempt indexes an empty deque |
| SlidingWindowBound.RetryAfterSleep | finbar/infrastructure/services/rate_limiter.py:79-81 | a caller refused because the window is full or over-full is admitted if and only if all but limit - 1 of the latest requests have left the window; at exactly the time it was told it is told to sleep 0 seconds |
| SlidingWindowBound.DequeWithinLimit | finbar/infrastructure/services/rate_limiter.py:79-86 | under a fixed limit the deque never exceeds it |
| SlidingWindowBound.AdmittedByThirdAttempt | finbar/infrastructure/services/rate_limiter.py:66-91 | then a caller left alone is admitted by its third attempt at the latest, if it wakes later than it was told to |
| SlidingWindowLimiters.PurgeDeque | finbar/infrastructure/services/rate_limiter.py:72-73 | the purging loop |
| SlidingWindowLimiters.BackoffIsCapped | finbar/infrastructure/services/rate_limiter.py:98 | the backoff is the base at attempt 0, doubles with every attempt up to the tenth, never shrinks, and is 1024 times the base from there on |
| SlidingWindowLimiters.YahooKeepsCap | finbar/infrastructure/services/rate_limiter.py:18-40 | every reachable limiter keeps an enforced limit in every closed minute since the last reset |
| SlidingWindowLimiters.YahooLifetimeBound | finbar/infrastructure/services/rate_limiter.py:18-111 | and over its whole life once more for each reset inside the minute |
| SlidingWindowLimiters.YahooFinanceRateLimiter.constructor | finbar/infrastructure/services/rate_limiter.py:21-40 | initial state |
| SlidingWindowLimiters.YahooFinanceRateLimiter.BackoffRemaining | finbar/infrastructure/services/rate_limiter.py:53-59 | time left until the deadline |
| SlidingWindowLimiters.YahooFinanceRateLimiter.Admit | finbar/infrastructure/services/rate_limiter.py:67-86 | the locked admission block in place, with its purging loop, equal to the specified step |
| SlidingWindowLimiters.YahooFinanceRateLimiter.Attempt | finbar/infrastructure/services/rate_limiter.py:66-86 | one attempt as a step of the run |
| SlidingWindowLimiters.YahooFinanceRateLimiter.OnRateLimitError | finbar/infrastructure/services/rate_limiter.py:93-104 | sets the deadline, and only that |
| SlidingWindowLimiters.YahooFinanceRateLimiter.Reset | finbar/infrastructure/services/rate_limiter.py:106-111 | returns to the initial state |
| SlidingWindowLimiters.CoinGlassRespectsLimits | finbar/infrastructure/services/coinglass_rate_limiter.py:19-100 | for every reachable limiter the minute ending at each admission respects the limit in force at it, when that is at most 1000 or enforced by spacing |
| SlidingWindowLimiters.CoinGlassRateLimiter.constructor | finbar/infrastructure/services/coinglass_rate_limiter.py:22-43 | initial state; a non-positive rate means no spacing |
| SlidingWindowLimiters.CoinGlassRateLimiter.UpdateFromHeaders | finbar/infrastructure/services/coinglass_rate_limiter.py:45-52 | the last parseable limit header wins, raised to at least 1; nothing else changes |
| SlidingWindowLimiters.CoinGlassRateLimiter.BackoffRemaining | finbar/infrastructure/services/coinglass_rate_limiter.py:65-73 | time left until the deadline |
| SlidingWindowLimiters.CoinGlassRateLimiter.Admit | finbar/infrastructure/services/coinglass_rate_limiter.py:81-100 | the locked admission block in place, equal to the specified step |
| SlidingWindowLimiters.CoinGlassRateLimiter.Attempt | finbar/infrastructure/services/coinglass_rate_limiter.py:80-100 | one attempt as a step of the run |
| SlidingWindowLimiters.CoinGlassRateLimiter.OnRateLimitError | finbar/infrastructure/services/coinglass_rate_limiter.py:107-117 | sets the deadline, and only that |
| SlidingWindowLimiters.CoinGlassRateLimiter.Reset | finbar/infrastructure/services/coinglass_rate_limiter.py:119-124 | clears the window, the spacing and the deadline but keeps the limit |
| Fetcher.ChunkWeightBound | finbar/infrastructure/services/hyperliquid_fetcher.py:284-291 | every chunk weighs between 20 and 103, below the default capacity of 960 |
| Fetcher.ChunkWeightExactly | finbar/infrastructure/services/hyperliquid_rate_limiter.py:43-53 | a chunk weighs 20 and one more for every 60 whole candles it spans, up to 83 times |
| Fetcher.ChunkSpans | finbar/infrastructure/services/hyperliquid_fetcher.py:46-70 | a chunk spans 5000 candles of a known interval, and 1000 hours of any other |
| Fetcher.ChunksTile | finbar/infrastructure/services/hyperliquid_fetcher.py:256-265 | the requested chunks tile [start, end): each starts where the one before it ends, none is empty or longer than the chunk length |
| Fetcher.EveryInstantOnce | finbar/infrastructure/services/hyperliquid_fetcher.py:256-265 | every millisecond of the range lies in exactly one chunk |
| Fetcher.DeduplicateBars | finbar/infrastructure/services/hyperliquid_fetcher.py:682-689 | the loop over the bars |
| Fetcher.DeduplicationKeepsFirsts | finbar/infrastructure/services/hyperliquid_fetcher.py:674-689 | the result is the subsequence of first occurrences: timestamps unique, in order, and as a set unchanged |
| Fetcher.FetchChunk | finbar/infrastructure/services/hyperliquid_fetcher.py:275-310 | one chunk: exactly one admission of the chunk weight, the bars or a failure, errors cleared by an answer and counted by a rate-limit reply, with a deadline between the base pause and a quarter more |
| Fetcher.FetchChunks | finbar/infrastructure/services/hyperliquid_fetcher.py:256-273 | the chunk loop: requests a prefix of the tiling, admits one weight per chunk, stops at the first failure or beyond 50000 bars |
| Fetcher.FetchDateRange | finbar/infrastructure/services/hyperliquid_fetcher.py:239-273 | an empty or reversed range is refused and asks for nothing; otherwise the answer is the deduplicated bars of the requested chunks |
| Fetcher.CompleteFetch | finbar/infrastructure/services/hyperliquid_fetcher.py:256-273 | unless the 50000-bar stop is reached, a successful fetch requested the whole tiling and lost no timestamp of any answer |
| Conditions.KeyIsInjective | packages/strategy-runtime/finbar_strategy_runtime/evaluation/condition_evaluator.py:33-39 | keys of crossovers differ whenever a label or the operator does, for labels without the separator |
| Conditions.SameKeySameCrossover | packages/strategy-runtime/finbar_strategy_runtime/evaluation/condition_evaluator.py:33-39 | in a well-labelled tree one key belongs to one crossover |
| ConditionEvaluator.CollectCrossover | packages/strategy-runtime/finbar_strategy_runtime/evaluation/condition_evaluator.py:123-142 | records a crossover exactly when both operands are numeric |
| ConditionEvaluator.CollectState | packages/strategy-runtime/finbar_strategy_runtime/evaluation/condition_evaluator.py:102-121 | pass 1 in place: records every crossover of the tree, negated or not |
| ConditionEvaluator.RecordedAbsorbs | packages/strategy-runtime/finbar_strategy_runtime/evaluation/condition_evaluator.py:102-142 | pass 1 leaves every numeric crossover with its own pair if and only if no two of them share a key and read different pairs on the bar |
| ConditionEvaluator.WellLabelledNeverClash | packages/strategy-runtime/finbar_strategy_runtime/evaluation/condition_evaluator.py:33-39 | labels that determine operands, free of the separator, satisfy that on every bar |
| ConditionEvaluator.EvaluateCondition | packages/strategy-runtime/finbar_strategy_runtime/evaluation/condition_evaluator.py:182-220 | one condition with its side effect on the pending values; what its answer means is said by the next six |
| ConditionEvaluator.ResolveYields | packages/strategy-runtime/finbar_strategy_runtime/evaluation/condition_evaluator.py:222-234 | an operand is its literal, or the first of its own column and its sources, in order, that is present and a number at all; nothing if none is |
| ConditionEvaluator.PresenceMeans | packages/strategy-runtime/finbar_strategy_runtime/evaluation/condition_evaluator.py:192-199 | exists, missing, is_true and is_false |
| ConditionEvaluator.ComparisonsMean | packages/strategy-runtime/finbar_strategy_runtime/evaluation/condition_evaluator.py:204-273 | a comparison is false unless both operands read as numbers, and otherwise that of the numbers: a < b, a > b, a <= b, a >= b, equal within a billionth, or not |
| ConditionEvaluator.BetweenMeans | packages/strategy-runtime/finbar_strategy_runtime/evaluation/condition_evaluator.py:206-257 | between holds exactly for a number within both bounds of a list of two numbers; not_between is its negation |
| ConditionEvaluator.RightIsNeeded | packages/strategy-runtime/finbar_strategy_runtime/evaluation/condition_evaluator.py:201-202 | any other operator without a right operand is false |
| ConditionEvaluator.PairMeans | packages/strategy-runtime/finbar_strategy_runtime/evaluation/condition_evaluator.py:123-142 | the pair of a crossover is that of the numbers its operands read, and exists when both do |
| ConditionEvaluator.EvaluateBool | packages/strategy-runtime/finbar_strategy_runtime/evaluation/condition_evaluator.py:148-176 | pass 2 in place, with the short-circuiting of all, any and not |
| ConditionEvaluator.EvaluateUntil | packages/strategy-runtime/finbar_strategy_runtime/evaluation/condition_evaluator.py:148-176 | the loop over children that stops at the first decisive one |
| ConditionEvaluator.ShortCircuitKeepsResult | packages/strategy-runtime/finbar_strategy_runtime/evaluation/condition_evaluator.py:148-176 | short-circuit evaluation gives the result of full evaluation, for every tree and state |
| ConditionEvaluator.EvaluationAddsNothing | packages/strategy-runtime/finbar_strategy_runtime/evaluation/condition_evaluator.py:148-176 | after pass 1, evaluation leaves the pending values as they are, however early it stops |
| ConditionEvaluator.EvaluationRecordsVisited | packages/strategy-runtime/finbar_strategy_runtime/evaluation/condition_evaluator.py:148-220 | pass 2 records exactly the crossovers it reaches |
| ConditionEvaluator.TwoPassesExactly | packages/strategy-runtime/finbar_strategy_runtime/evaluation/condition_evaluator.py:49-74 | for every tree, bar and state, pass 2 leaves the recording of pass 1 as it is if and only if, for every key it touches, the last pair it reaches is the one pass 1 had left |
| ConditionEvaluator.TwoPassesLoseNothing | packages/strategy-runtime/finbar_strategy_runtime/evaluation/condition_evaluator.py:49-74 | when no two crossovers clash on the bar, the result is that of full evaluation and the recorded state is that of pass 1 alone |
| ConditionEvaluator.Commit | packages/strategy-runtime/finbar_strategy_runtime/evaluation/condition_evaluator.py:76-82 | merges the pending values into the previous ones |
| ConditionEvaluator.Evaluate | packages/strategy-runtime/finbar_strategy_runtime/evaluation/condition_evaluator.py:49-74 | the entry point, with and without a caller-supplied pending dictionary |
| ConditionEvaluator.SharedKeyIsOverwritten | packages/strategy-runtime/finbar_strategy_runtime/evaluation/condition_evaluator.py:33-39 | two crossovers with empty labels and different operands share a key, and pass 2 then overwrites what pass 1 recorded |
| CrossoverRuns.RecordedExactly | packages/strategy-runtime/finbar_strategy_runtime/evaluation/condition_evaluator.py:123-142 | each crossover finds its own reading of the bar, or nothing, if and only if those that share a key read the same |
| CrossoverRuns.StateRemembersExactly | packages/strategy-runtime/finbar_strategy_runtime/evaluation/condition_evaluator.py:76-142 | over whole runs, however the bars were evaluated or collected, the carried state is the latest numeric pair of each crossover if and only if those that share a key have the same latest pair |
| CrossoverRuns.StateRemembersLatest | packages/strategy-runtime/finbar_strategy_runtime/evaluation/condition_evaluator.py:49-142 | a state that remembers holds, per crossover, the pair of the latest bar where both operands were numeric, and nothing else |
| CrossoverRuns.StateGivesMeaning | packages/strategy-runtime/finbar_strategy_runtime/evaluation/condition_evaluator.py:49-142 | against such a state a tree is true at bar i exactly when its declarative reading is: a crossover fires when both operands are numeric at i and at the latest earlier numeric bar they were on the other side or equal |
| CrossoverRuns.VerdictExactly | packages/strategy-runtime/finbar_strategy_runtime/evaluation/condition_evaluator.py:276-298 | for any labels and however the bars were evaluated or collected, a crossover is judged right on the next bar if and only if it has not crossed there, or the pair last written under its key and its own last pair lie on the same side |
| CrossoverRuns.MixedIsWritten | packages/strategy-runtime/finbar_strategy_runtime/evaluation/condition_evaluator.py:49-96 | evaluating a bar writes the crossovers of the tree and then those that pass 2 reaches, collecting only the former |
| CrossoverRuns.EvaluatedKeyMisleads | packages/strategy-runtime/finbar_strategy_runtime/evaluation/condition_evaluator.py:49-74 | two bars on which evaluating carries the other pair of a shared key than collecting, and a crossing is denied |
| CrossoverRuns.SharedKeyMisleads | packages/strategy-runtime/finbar_strategy_runtime/evaluation/condition_evaluator.py:33-39 | two bars on which an unlabelled crossover fires and the evaluator denies it |
| CrossoverRuns.WellLabelledIsConsistent | packages/strategy-runtime/finbar_strategy_runtime/evaluation/condition_evaluator.py:33-39 | labels that determine operands, free of the separator, satisfy the condition on memory in every run |
| CrossoverRuns.FiringsAlternate | packages/strategy-runtime/finbar_strategy_runtime/evaluation/condition_evaluator.py:276-298 | between two firings of one crossover lies a numeric bar on the other side or equal |
| CrossoverRuns.CollectingIsEnough | packages/strategy-runtime/finbar_strategy_runtime/evaluation/condition_evaluator.py:84-96 | evaluating or merely collecting on any choice of bars leaves the same state at every boundary if and only if on every evaluated bar pass 2 settles on what pass 1 recorded |
| CrossoverRuns.NoClashSettles | packages/strategy-runtime/finbar_strategy_runtime/evaluation/condition_evaluator.py:84-96 | which it does on every bar without clashes |
| CrossoverRuns.StrategyRemembersExactly | packages/strategy-runtime/finbar_strategy_runtime/evaluation/json_rule_based_strategy.py:47-77 | for every definition and run, positions and short-circuiting included, the state the strategy carries is the memory of each crossover if and only if crossovers that share a key have the same latest pair at that boundary |
| CrossoverRuns.StrategyVerdictExactly | packages/strategy-runtime/finbar_strategy_runtime/evaluation/json_rule_based_strategy.py:47-119 | for every definition and run, exactly when a crossover is judged right on the next bar |
| CrossoverRuns.CarriedIsWritten | packages/strategy-runtime/finbar_strategy_runtime/evaluation/json_rule_based_strategy.py:63-119 | what each bar of the strategy writes: every crossover, then the trees it tries, collected and visited |
| CrossoverRuns.SignalFollowsRules | packages/strategy-runtime/finbar_strategy_runtime/evaluation/json_rule_based_strategy.py:47-119 | when crossovers that share a key have the same latest pair, the signal is the one the rules call for on the bars alone |
| CrossoverRuns.JsonRuleBasedStrategy.constructor | packages/strategy-runtime/finbar_strategy_runtime/evaluation/json_rule_based_strategy.py:24-33 | starts with no crossover state |
| CrossoverRuns.JsonRuleBasedStrategy.OnReset | packages/strategy-runtime/finbar_strategy_runtime/evaluation/json_rule_based_strategy.py:79-81 | forgets all bars |
| CrossoverRuns.JsonRuleBasedStrategy.CollectSides | packages/strategy-runtime/finbar_strategy_runtime/evaluation/json_rule_based_strategy.py:67-70 | pass 1 over the entry and exit trees of every side |
| CrossoverRuns.CarriedIsCollected | packages/strategy-runtime/finbar_strategy_runtime/evaluation/json_rule_based_strategy.py:63-76 | without clashes the carried state does not depend on the positions held |
| CrossoverRuns.JsonRuleBasedStrategy.EntrySignal | packages/strategy-runtime/finbar_strategy_runtime/evaluation/json_rule_based_strategy.py:83-103 | long before short, each entering when its entry tree holds, with what their evaluation records |
| CrossoverRuns.JsonRuleBasedStrategy.ExitSignal | packages/strategy-runtime/finbar_strategy_runtime/evaluation/json_rule_based_strategy.py:105-119 | exits when the exit tree of the held side holds, with what its evaluation records |
| CrossoverRuns.JsonRuleBasedStrategy.OnBar | packages/strategy-runtime/finbar_strategy_runtime/evaluation/json_rule_based_strategy.py:47-77 | for any labels one step of the specified run; when crossovers that share a key have the same latest pair, the signal the rules call for on the bars since the last reset, whatever positions were held |
| CrossoverRuns.FindSide | packages/strategy-runtime/finbar_strategy_runtime/evaluation/json_rule_based_strategy.py:83-108 | the rules of a side are those under its name, and none exactly when there are none |
| RollingSharpe.DailyReturns | finbar/core/domain/services/rolling_metrics.py:312-325 | the bar returns, 0 after a value of exactly zero |
| RollingSharpe.SlideWindow | finbar/core/domain/services/rolling_metrics.py:63-67 | adding the incoming and subtracting the outgoing return gives the sums of the next window |
| RollingSharpe.ComputationalForm | finbar/core/domain/services/rolling_metrics.py:54-55 | the running-sum form of the squared deviations equals the two-pass form |
| RollingSharpe.VarianceSign | finbar/core/domain/services/rolling_metrics.py:55-60 | the variance is never negative and is zero only for equal returns |
| RollingSharpe.SlideOver | finbar/core/domain/services/rolling_metrics.py:50-76 | the loop over the windows: each cell equals the one recomputed from scratch |
| RollingSharpe.RollingSharpe | finbar/core/domain/services/rolling_metrics.py:29-76 | every cell of the running-sum form equals the mean and variance recomputed per window; windows of 0 and 1 fail when there are two values or more |
| RollingWinRate.FirstBarIsFirst | finbar/core/domain/services/rolling_metrics.py:97-103 | a date maps to its first bar |
| RollingWinRate.IndexDates | finbar/core/domain/services/rolling_metrics.py:99-103 | the date index |
| RollingWinRate.CountPerBar | finbar/core/domain/services/rolling_metrics.py:105-115 | wins and trades closing at each bar |
| RollingWinRate.PrefixSums | finbar/core/domain/services/rolling_metrics.py:122-126 | prefix counts |
| RollingWinRate.RateIsFraction | finbar/core/domain/services/rolling_metrics.py:132-133 | a rate lies between 0 and 1 |
| RollingWinRate.RollingWinRate | finbar/core/domain/services/rolling_metrics.py:91-135 | every cell equals the scan over the trades of its window |
| Lexical.LessAtFirstDifference | finbar/core/application/use_cases/run_portfolio_backtest.py:248-252 | dates compare as strings: where they first differ, or the shorter first |
| Portfolio.ScanValueAt | finbar/core/application/use_cases/run_portfolio_backtest.py:239-254 | the retained scan |
| Portfolio.CollectDates | finbar/core/application/use_cases/run_portfolio_backtest.py:218-224 | all nonempty dates |
| Portfolio.IndexCurve | finbar/core/application/use_cases/run_portfolio_backtest.py:156-162 | the date index of a curve |
| Portfolio.AddDate | finbar/core/application/use_cases/run_portfolio_backtest.py:171-178 | one date: every asset carried forward and summed |
| Portfolio.AggregateEquity | finbar/core/application/use_cases/run_portfolio_backtest.py:148-189 | the aggregation loop |
| Portfolio.ScanIsLastKnown | finbar/core/application/use_cases/run_portfolio_backtest.py:239-254 | on a chronological curve the scan finds the last value not later than the date, or the first one |
| Portfolio.CarriedIsLastKnown | finbar/core/application/use_cases/run_portfolio_backtest.py:164-178 | carrying forward over dates that cover the curve holds that same value |
| Portfolio.AggregationRefinesScan | finbar/core/application/use_cases/run_portfolio_backtest.py:164-178 | at every date the value is the sum of what the scan finds for each asset there, and the initial cash where that sum is zero |
| Portfolio.FinalValueIsConserved | finbar/core/application/use_cases/run_portfolio_backtest.py:191-192 | the last point is worth the sum of the final values of the assets, or the initial cash where that sum is zero |
| Portfolio.DrawdownsFollowTheValues | finbar/core/application/use_cases/run_portfolio_backtest.py:179-189 | the drawdown at a date is the loss from the highest of the initial cash and the values shown up to that date |
| Portfolio.OnePointPerDate | finbar/core/application/use_cases/run_portfolio_backtest.py:164-189 | one point for each nonempty date of any asset, in ascending order |
| Paging.FilterBars | finbar/infrastructure/repositories/sql_indicator_artifact_repository.py:313-328 | the filter loop |
| Paging.BoundsAreInclusive | finbar/infrastructure/repositories/sql_indicator_artifact_repository.py:320-326 | a bar matches exactly when its timestamp is at least the first bound and at most the second; missing and empty bounds do not restrict |
| Paging.FilterIsExact | finbar/infrastructure/repositories/sql_indicator_artifact_repository.py:313-328 | the filter keeps exactly the matching bars, in order |
| Paging.ColumnsFromBars | finbar/infrastructure/repositories/sql_indicator_artifact_repository.py:258-267 | the union of keys, each at its first appearance |
| Paging.ColumnsAreTheUnion | finbar/infrastructure/repositories/sql_indicator_artifact_repository.py:258-267 | the columns of all bars, none twice; later bars only add theirs at the end |
| Paging.PageBySlicing | finbar/infrastructure/repositories/sql_indicator_artifact_repository.py:284-310 | filter, clamp, slice |
| Paging.RowsShowTheirBars | finbar/infrastructure/repositories/sql_indicator_artifact_repository.py:305-332 | row k of a page shows the matching bar at that place: a cell for each column and no other, null where the bar has none |
| Paging.AnswersAreClamped | finbar/infrastructure/repositories/sql_indicator_artifact_repository.py:298-305 | both pagers answer for the nearest page size from 1 to 1000 and the nearest page there is, with as many pages as just hold the matches |
| Paging.PageInOnePass | finbar/infrastructure/services/in_memory_indicator_job_manager.py:504-547 | the single-pass pager |
| Paging.PagersAgreeExactly | finbar/infrastructure/services/in_memory_indicator_job_manager.py:504-547 | the two pagers give the same six results if and only if nothing matches, or the page exists and the columns are explicit or the first matching bar has them all |
| Paging.MissingPageDiffers | finbar/infrastructure/services/in_memory_indicator_job_manager.py:504-547 | for a page that does not exist the single pass returns no rows and the slicing form a clamped page |
| Paging.LateColumnIsLost | finbar/infrastructure/services/in_memory_indicator_job_manager.py:504-547 | a column that first appears on the second bar is missing from the single pass |
| Paging.PagesPartition | finbar/infrastructure/services/in_memory_indicator_job_manager.py:504-547 | the pages in order give the filtered, projected bars, each once |
| ParamSearch.Values | finbar/core/domain/entities/param_range.py:23-32 | the loop that lists a range |
| ParamSearch.GridIsTheLattice | finbar/core/domain/entities/param_range.py:23-32 | a lattice point is listed exactly when it exceeds the maximum by no more than a thousandth of the step |
| ParamSearch.CountIsTheLattice | finbar/infrastructure/services/grid_search_optimizer.py:359-365 | a lattice point is counted exactly when it does not exceed the maximum |
| ParamSearch.GridCountExactly | finbar/infrastructure/services/grid_search_optimizer.py:359-365 | list and count differ by at most one, and agree exactly when the fractional part of the span is below 0.999 |
| ParamSearch.OvershootExample | finbar/core/domain/entities/param_range.py:23-32 | a range whose list has a value above its maximum and one more than its count |
| ParamSearch.GenerateCombinations | finbar/infrastructure/services/grid_search_optimizer.py:289-306 | the grid in order |
| ParamSearch.ProductMembers | finbar/infrastructure/services/grid_search_optimizer.py:289-306 | the grid holds exactly the choices of one listed value per parameter |
| ParamSearch.ProductDistinct | finbar/infrastructure/services/grid_search_optimizer.py:289-306 | each once, as many as the product of the list lengths |
| ParamSearch.GridIsLargeEnough | finbar/infrastructure/services/grid_search_optimizer.py:309-356 | the exhaustive grid has at least the number of combinations the search counts on |
| ParamSearch.RandomValue | finbar/core/domain/entities/param_range.py:38-54 | a draw gives the lattice point of its number, always one within the range, and exists exactly when the range is not empty |
| ParamSearch.RandomCombination | finbar/infrastructure/services/grid_search_optimizer.py:330-342 | a random combination is on the grid |
| ParamSearch.Pigeonhole | finbar/infrastructure/services/grid_search_optimizer.py:347-355 | distinct grid points that are all already seen cannot outnumber the seen set |
| ParamSearch.GenerateRandomCombinations | finbar/infrastructure/services/grid_search_optimizer.py:309-356 | whatever the draws: distinct grid points, at most 100 and at most as many as asked for, and exactly the smaller of the two whenever at most 100 exist; otherwise what was drawn, each once, until the target or 20 draws for each one wanted (100 at least) |
| ParamSearch.FillFromGrid | finbar/infrastructure/services/grid_search_optimizer.py:347-355 | the exhaustive fill reaches the target |
| Folds.ComputeFoldIndices | finbar/infrastructure/services/walk_forward_fold_helpers.py:15-80 | the loop that lays out the folds |
| Folds.RollingPlanExactly | finbar/infrastructure/services/walk_forward_fold_helpers.py:45-78 | rolling fold k starts k half folds in, trains on the truncated share and tests on the fold after it; when the last one stops short, one more trains on the fold of bars before the same test start and tests a fold further |
| Folds.AnchoredFoldsAreSafe | finbar/infrastructure/services/walk_forward_fold_helpers.py:15-80 | for any training ratio every anchored fold has ordered bounds inside the data and counts equal to their differences |
| Folds.RollingFoldsSafeExactly | finbar/infrastructure/services/walk_forward_fold_helpers.py:15-80 | rolling folds are safe if and only if the training windows slide within the data |
| Folds.RollingFoldsOvershoot | finbar/infrastructure/services/walk_forward_fold_helpers.py:15-80 | ten bars, two folds and a ratio of 2.2: a training window of eleven bars |
| Folds.RollingFoldsAreSafe | finbar/infrastructure/services/walk_forward_fold_helpers.py:15-80 | which holds for every ratio between 0 and 1 |
| Folds.RollingTestsAreNonempty | finbar/infrastructure/services/walk_forward_fold_helpers.py:15-80 | all rolling test windows are nonempty if and only if there are no more folds than bars |
| Folds.AnchoredTestsTile | finbar/infrastructure/services/walk_forward_fold_helpers.py:15-80 | anchored test windows follow each other without gap or overlap |
| Folds.AnchoredBarTestedOnce | finbar/infrastructure/services/walk_forward_fold_helpers.py:15-80 | every bar they cover is tested in exactly one fold |
| Ranks.RankValues | finbar/infrastructure/services/walk_forward_fold_helpers.py:206-224 | the nested loops: ranks sum to n(n+1)/2, each is its group average, and all are fair exactly when no two different values are close |
| Ranks.FindGroupEnd | finbar/infrastructure/services/walk_forward_fold_helpers.py:215-219 | the inner loop: where the run of values close to its first one ends |
| Ranks.RankGroup | finbar/infrastructure/services/walk_forward_fold_helpers.py:220-223 | the loop that writes the average rank |
| Ranks.RanksAreFairExactly | finbar/infrastructure/services/walk_forward_fold_helpers.py:206-224 | every rank is (number greater) + (number equal + 1)/2 if and only if no two different values are close |
| Ranks.NearTieIsUnfair | finbar/infrastructure/services/walk_forward_fold_helpers.py:215-223 | two values half a trillionth apart share a rank |
| Ranks.SortedIsDescending | finbar/infrastructure/services/walk_forward_fold_helpers.py:210-211 | the values are ranked in descending order |
| Pearson.CauchySchwarz | finbar/core/domain/services/correlation.py:10-27 | the squared covariance is at most the product of the variances, with equality exactly for proportional deviations |
| Pearson.PearsonIsBounded | finbar/core/domain/services/correlation.py:10-27 | the square of the coefficient is at most 1, for any two inputs |
| Pearson.PerfectCorrelation | finbar/core/domain/services/correlation.py:10-27 | for series that are not constant, its square is 1 exactly when the deviations are proportional |
| Pearson.PearsonIsSymmetric | finbar/core/domain/services/correlation.py:10-27 | swapping the inputs changes nothing |
| Pearson.SelfCorrelation | finbar/core/domain/services/correlation.py:10-27 | a series correlates perfectly with itself if and only if it has two elements and is not constant; otherwise not at all |
| Pearson.PearsonSpelledOut | finbar/core/domain/services/correlation.py:10-27 | the coefficient in its computational form: zero exactly for fewer than two shared elements or a constant series, else (n sum xy - sum x sum y) over the root of the same of x and of y |
| Pearson.PearsonIsInvariant | finbar/core/domain/services/correlation.py:10-27 | shifting an input or scaling it by a positive factor changes nothing |
| Pearson.CorrelationMatrix | finbar/core/application/use_cases/run_portfolio_backtest.py:257-279 | symmetric, unit diagonal, bounded entries, each the date-aligned correlation of its two series |
| Pearson.DateAlignedExactly | finbar/core/application/use_cases/run_portfolio_backtest.py:282-289 | that is Pearson of their values over an ascending list of exactly the dates both have, and zero for fewer than two |
| Pearson.AgreeingSeries | finbar/core/application/use_cases/run_portfolio_backtest.py:282-289 | series that agree on their common dates and vary there are perfectly correlated |
| Pearson.DateAlignedIsSymmetric | finbar/core/application/use_cases/run_portfolio_backtest.py:282-289 | aligning on common dates does not depend on the order of the series |
| Drawdown.MaxDrawdown | finbar/core/domain/services/backtest_metrics.py:86-106 | the single pass finds the largest drop from a running peak |
| Drawdown.RollingDrawdown | finbar/core/domain/services/rolling_metrics.py:138-155 | each cell is minus the drop from the running peak |
| Drawdown.MaxDrawdownIsOverPairs | finbar/core/domain/services/backtest_metrics.py:86-106 | it is the largest drop over all pairs i <= j if and only if equity never falls below zero after having been positive, or its worst fall below zero starts at the only positive value seen by then; always the drop of some pair, and below 1 for positive values |
| Drawdown.AboveWaterExactly | finbar/core/domain/services/backtest_metrics.py:86-106 | it is at most 1 if and only if equity never falls below zero after having been positive |
| Drawdown.NegativeEquityExample | finbar/core/domain/services/backtest_metrics.py:86-106 | a curve whose largest pairwise drop is larger than what is reported |
| Drawdown.SinkingCurveReportedRight | finbar/core/domain/services/backtest_metrics.py:86-106 | a curve that falls below zero and is still reported right |
| Drawdown.MaxIsLowestRolling | finbar/core/domain/services/rolling_metrics.py:138-155 | it is minus the lowest rolling drawdown |
| CalendarReturns.CollectMonths | finbar/core/domain/services/rolling_metrics.py:196-203 | values grouped by month |
| CalendarReturns.MonthLoop | finbar/core/domain/services/rolling_metrics.py:205-219 | the loop that carries the previous close |
| CalendarReturns.ComputeMonthlyReturns | finbar/core/domain/services/rolling_metrics.py:182-219 | monthly returns; what they are is said by the next three |
| CalendarReturns.MonthlyReturnsExactly | finbar/core/domain/services/rolling_metrics.py:196-219 | under the first seven characters of a dated point there is a return exactly when its start is positive, and it leads from there, the last value of the month before or the first of its own, to the last value of the month |
| CalendarReturns.EveryMonthStarts | finbar/core/domain/services/rolling_metrics.py:207-217 | every month of a dated point has such a start and end |
| CalendarReturns.MonthlyKeys | finbar/core/domain/services/rolling_metrics.py:205-219 | the returns are listed by month, none twice, only for months of dated points |
| CalendarReturns.MonthsAreRecorded | finbar/core/domain/services/rolling_metrics.py:196-203 | each month is recorded with its first and its last value |
| CalendarReturns.GroupByYear | finbar/core/domain/services/rolling_metrics.py:229-235 | months grouped by year, in order |
| CalendarReturns.YearsCompoundMonths | finbar/core/domain/services/rolling_metrics.py:229-243 | a year's growth is that of its own months |
| CalendarReturns.ComputeYearlyReturns | finbar/core/domain/services/rolling_metrics.py:222-245 | yearly returns |
| CalendarReturns.YearlyReturnsExactly | finbar/core/domain/services/rolling_metrics.py:222-245 | one for each year that some month begins with, the product of just those months, in ascending order |
| CalendarReturns.YearsAndMonthsAgree | finbar/core/domain/services/rolling_metrics.py:222-245 | for every curve, yearly and monthly returns compound to the same growth |
| CalendarReturns.MonthEnds | finbar/core/domain/services/rolling_metrics.py:196-203 | the months begin with the first dated point and end with the last |
| CalendarReturns.MonthsTelescope | finbar/core/domain/services/rolling_metrics.py:207-217 | with positive values the months compound to last value over first value |
| CalendarReturns.BarsTelescope | finbar/core/domain/services/backtest_metrics.py:204-222 | and so do the bar-to-bar returns |
| CalendarReturns.BarReturnsExactly | finbar/core/domain/services/backtest_metrics.py:204-222 | one return per bar after the first, from the value before it, and 0 where that is not positive |
| CalendarReturns.ReturnsAreConserved | finbar/core/domain/services/rolling_metrics.py:182-245 | for positive values in chronological order, years, months and bars compound to final value / first value |
| Simulation.CloseReconciles | packages/strategy-runtime/finbar_strategy_runtime/simulation/position_closer.py:28-127 | closing a position at any price keeps the accounting identity, of cash and of the cost totals, leaves the account flat and appends one trade |
| Simulation.OpenReconciles | packages/strategy-runtime/finbar_strategy_runtime/simulation/position_opener.py:56-117 | opening one keeps it, in both margin modes and whatever the closeness test decides |
| Simulation.EnterReconciles | packages/strategy-runtime/finbar_strategy_runtime/simulation/position_executor.py:114-137 | filling or refusing a pending entry keeps it and adds no trade |
| Simulation.ChecksReconcile | packages/strategy-runtime/finbar_strategy_runtime/simulation/position_executor.py:103-181 | stops, targets, liquidation and margin calls keep it |
| Simulation.UpkeepReconciles | packages/strategy-runtime/finbar_strategy_runtime/simulation/position_executor.py:80-101 | funding keeps it; syncing changes nothing in a reconciled book |
| Simulation.TradesOnlyGrow | packages/strategy-runtime/finbar_strategy_runtime/simulation/position_executor.py:80-194 | no step of the executor touches a trade once it is recorded |
| Simulation.CloseHoldsMargin | packages/strategy-runtime/finbar_strategy_runtime/simulation/position_closer.py:78-95 | closing keeps the account of margin |
| Simulation.OpenHoldsMargin | packages/strategy-runtime/finbar_strategy_runtime/simulation/position_opener.py:75-100 | opening keeps it |
| Simulation.FlatMarginExactly | packages/strategy-runtime/finbar_strategy_runtime/simulation/position_closer.py:153-159 | a flat account holds no used margin if and only if it trades with leverage or has not traded |
| Simulation.ExitsAreGapAware | packages/strategy-runtime/finbar_strategy_runtime/simulation/intrabar_exit_resolver.py:16-76 | a stop or target fills inside the bar, at the open when the bar gaps through it and at its level otherwise, the stop first; no exit happens exactly when neither level is reached |
| Execution.ExitSpelledOut | packages/strategy-runtime/finbar_strategy_runtime/simulation/position_closer.py:28-127 | an exit in amounts: fill, gross and net result, commissions, borrow fee, cash and totals |
| Execution.ExitsPaySlippage | packages/strategy-runtime/finbar_strategy_runtime/simulation/position_closer.py:310-331 | leaving never fills better than the raw price, and misses it by exactly price times slippage when that is positive |
| Execution.ExitReleasesMargin | packages/strategy-runtime/finbar_strategy_runtime/simulation/position_closer.py:153-159 | with leverage an exit releases the margin of the position, as far as there is any, and the margin account is told the cash |
| Execution.EntrySpelledOut | packages/strategy-runtime/finbar_strategy_runtime/simulation/position_executor.py:114-137 | an entry is filled exactly when its stop fits the fill and the sizer gives a positive size, and then opens just that size, at that price, with those levels; otherwise nothing changes |
| Execution.EntriesPaySlippage | packages/strategy-runtime/finbar_strategy_runtime/simulation/position_closer.py:310-331 | entering never fills better than the raw price, and misses it by exactly price times slippage when that is positive |
| Execution.EntryIsMirrored | packages/strategy-runtime/finbar_strategy_runtime/simulation/margin_account_manager.py:39-78 | the margin account follows an entry: one that agrees with the new cash up to 1e-12 is moved like it, any other takes it over; a long locks its margin |
| Execution.RoundTripLosesItsCosts | packages/strategy-runtime/finbar_strategy_runtime/simulation/position_closer.py:64-83 | entering and leaving at one price loses the slippage twice and every fee, and never gains |
| Execution.RiskLevels | packages/strategy-runtime/finbar_strategy_runtime/simulation/position_executor.py:239-293 | rebased stops and targets keep their ratio to the price they were set against |
| Execution.LiquidationPrices | packages/strategy-runtime/finbar_strategy_runtime/simulation/leverage_config.py:22-45 | liquidation lies where the position has lost its initial margin except the maintenance margin |
| Execution.StopsFit | packages/strategy-runtime/finbar_strategy_runtime/simulation/position_opener.py:119-145 | a stop is accepted exactly when it is on the losing side of the fill and, with leverage, is reached before liquidation |
| Execution.BorrowCosts | packages/strategy-runtime/finbar_strategy_runtime/simulation/position_closer.py:161-196 | only a short borrows: its notional at the annual fee for the days held, nothing when undated |
| Execution.BarExits | packages/strategy-runtime/finbar_strategy_runtime/simulation/position_executor.py:161-181 | a bar closes the position exactly when it calls for it: liquidation, gaps at the open, then the stop, then the target, each at its price and with its reason, in one statement for both sides |
| Execution.MarginCalls | packages/strategy-runtime/finbar_strategy_runtime/simulation/margin_account_manager.py:134-151 | a margin account is called exactly when the close is at or beyond a positive liquidation price |
| Execution.FundingIsSigned | packages/strategy-runtime/finbar_strategy_runtime/simulation/margin_account_manager.py:112-132 | funding moves the signed notional times the rate: longs pay what shorts receive |
| Execution.ValueIsCashPlusPosition | packages/strategy-runtime/finbar_strategy_runtime/simulation/position_executor.py:231-237 | a book is worth its cash plus its signed position at the close |
| Execution.CloseAddsUp | packages/strategy-runtime/finbar_strategy_runtime/simulation/position_closer.py:64-127 | closing keeps all recorded trades adding up |
| Execution.EnterAddsUp | packages/strategy-runtime/finbar_strategy_runtime/simulation/position_executor.py:114-137 | and so does entering |
| BarLoop.EveryBoundary | finbar/infrastructure/services/backtest_runner.py:180-212 | at every bar boundary of every run: never two pending orders, a pending exit only with an open position, a pending entry only when flat, and the accounting identity; warmup bars change the strategy only |
| BarLoop.OpenSettlesOrders | finbar/infrastructure/services/backtest_runner.py:232-247 | the next open clears both orders: an exit closes the position there less the slippage, an entry is handed over there unchanged |
| BarLoop.SignalsQueueOrders | finbar/infrastructure/services/backtest_runner.py:250-308 | what each signal queues, field by field: exits of an open position, entries from none, nothing for a hold or a signal that does not fit |
| BarLoop.TradeBarParts | finbar/infrastructure/services/backtest_runner.py:198-212 | what a tradable bar does to each part of the state |
| BarLoop.EntriesFillAtNextOpen | finbar/infrastructure/services/backtest_runner.py:232-308 | the fills of a run are exactly the orders of the signals one bar earlier, each at the open of its own bar, none lost and none carried further |
| BarLoop.CurveCharts | finbar/infrastructure/services/backtest_runner.py:311-334 | one point for each tradable bar, dated and priced by it, with its drawdown from the running peak that starts at the initial cash |
| BarLoop.PointValuesTheBook | finbar/infrastructure/services/backtest_runner.py:318-334 | each point values the book at the close of its bar |
| BarLoop.SamePast | finbar/infrastructure/services/backtest_runner.py:180-212 | the state at a boundary depends on the bars before it only |
| BarLoop.HistoryGrows | finbar/infrastructure/services/backtest_runner.py:180-212 | later bars only add points, entries and trades |
| BarLoop.NoLookAhead | finbar/infrastructure/services/backtest_runner.py:180-216 | two data sets that agree on the first k bars report the same points, entries and trades for them, however the rest and the final liquidation turn out |
| BarLoop.EveryRunReconciles | finbar/infrastructure/services/backtest_result_builder.py:176-208 | every run ends flat, with one point per tradable bar, a last value equal to the cash, cash explained by net results and by gross results less the reported totals, and a reconciliation error of zero before rounding |
| BarLoop.EveryTradeAddsUp | packages/strategy-runtime/finbar_strategy_runtime/simulation/position_closer.py:28-127 | in every run each trade earns its price difference less a charge on either side and the borrow fee |
| BarLoop.ReportedErrorIsRounding | finbar/infrastructure/services/backtest_result_builder.py:184-207 | with every trade rounded to cents on its own, the reported error is what that rounding dropped, rounded, at most half a cent for each trade and one more |
| BarLoop.ReportedErrorExample | finbar/infrastructure/services/backtest_result_builder.py:184-207 | a run of two trades that earn 0.004 each and a reported error of one cent |
| BarLoop.UsedMarginAtTheEnd | packages/strategy-runtime/finbar_strategy_runtime/simulation/position_opener.py:98-100 | with positive opens, a run ends without used margin if and only if it traded with leverage or not at all; its margin account then holds nothing |
| BarLoop.EveryBoundaryHoldsMargin | packages/strategy-runtime/finbar_strategy_runtime/simulation/position_opener.py:75-100 | at every boundary used margin is that of the open position, plus all past entries without leverage; the margin account holds the margin of an open long |
| BarLoop.LastDrawdownExactly | packages/strategy-runtime/finbar_strategy_runtime/simulation/position_executor.py:183-212 | liquidation keeps the value it overwrites in the peak; the last drawdown is that of the reported curve if and only if nothing was open, or the overwritten value was no higher than the earlier peak or the cash that closing yields, or not positive, or closing yields nothing under a positive earlier peak |
| BarLoop.StalePeakExample | packages/strategy-runtime/finbar_strategy_runtime/simulation/position_executor.py:183-212 | a run of two bars whose last drawdown refers to a peak of 1090 on a curve that never exceeds 1070 |
| BacktestRunner.SimulationState.constructor | packages/strategy-runtime/finbar_strategy_runtime/simulation/simulation_state.py:31-46 | initial state, with the margin account in full-margin mode |
| BacktestRunner.SimulationState.ExitPosition | packages/strategy-runtime/finbar_strategy_runtime/simulation/position_closer.py:28-127 | closes the position in place |
| BacktestRunner.SimulationState.OpenPosition | packages/strategy-runtime/finbar_strategy_runtime/simulation/position_opener.py:56-117 | opens a position in place |
| BacktestRunner.SimulationState.EnterPosition | packages/strategy-runtime/finbar_strategy_runtime/simulation/position_executor.py:114-137 | slippage, rebasing, stop check and sizing, then the opening |
| BacktestRunner.SimulationState.CheckExitConditions | packages/strategy-runtime/finbar_strategy_runtime/simulation/position_executor.py:161-181 | liquidation first, then stop and target |
| BacktestRunner.SimulationState.ApplyMargin | packages/strategy-runtime/finbar_strategy_runtime/simulation/position_executor.py:88-112 | margin call, then funding |
| BacktestRunner.SimulationState.ExecutePendingOrders | finbar/infrastructure/services/backtest_runner.py:232-247 | pending orders at the open |
| BacktestRunner.SimulationState.HandleSignal | finbar/infrastructure/services/backtest_runner.py:250-308 | the strategy is asked and its signal queued |
| BacktestRunner.SimulationState.RecordEquity | finbar/infrastructure/services/backtest_runner.py:311-334 | one point |
| BacktestRunner.SimulationState.LiquidatePosition | packages/strategy-runtime/finbar_strategy_runtime/simulation/position_executor.py:183-212 | final liquidation |
| BacktestRunner.SimulationState.ProcessBar | finbar/infrastructure/services/backtest_runner.py:198-212 | one tradable bar |
| BacktestRunner.SimulationState.RunLoop | finbar/infrastructure/services/backtest_runner.py:144-216 | the whole loop: the final state is the specified one, hence flat and reconciled, with every entry filled at the next open and trades that add up |
| Eviction.EnforceMax | finbar/infrastructure/services/in_memory_backtest_result_store.py:89-96 | the eviction loop |
| Eviction.EvictionIsOldestFirst | finbar/infrastructure/services/in_memory_indicator_job_manager.py:297-308 | nothing that must stay is evicted, everything evicted is no younger than every removable entry kept, and the limit is met or nothing removable is left |
| Eviction.NewestSurvives | finbar/infrastructure/services/in_memory_backtest_result_store.py:89-96 | the entry just added survives |
| ResultStore.StoreRefinesMap | finbar/infrastructure/services/in_memory_backtest_result_store.py:35-106 | after any sequence of saves and deletes memory agrees with the history, never exceeds its limit, and keeps the newest results |
| ResultStore.PersistentGetIsExact | finbar/infrastructure/services/in_memory_backtest_result_store.py:45-51 | with persistence get returns exactly the last saved, undeleted result, whatever was evicted |
| ResultStore.GetAnswersFromHistory | finbar/infrastructure/services/in_memory_backtest_result_store.py:45-51 | what get answers in both modes |
| ResultStore.SaveRefines | finbar/infrastructure/services/in_memory_backtest_result_store.py:35-43 | a save keeps the agreement |
| ResultStore.DeleteRefines | finbar/infrastructure/services/in_memory_backtest_result_store.py:80-87 | a delete keeps it |
| ResultStore.SavedIsInMemory | finbar/infrastructure/services/in_memory_backtest_result_store.py:35-51 | a result saved under a fresh id can be read back at once, with and without persistence |
| StoreInterleavings.EventsMakeSteps | finbar/infrastructure/services/in_memory_backtest_result_store.py:35-43 | the two halves of a save, and of a delete, make up the atomic step |
| StoreInterleavings.DeleteIsFinalExactly | finbar/infrastructure/services/in_memory_backtest_result_store.py:80-101 | with calls interleaved in any way, a delete that starts once the result is in memory is final if and only if some delete reaches the table after the save has |
| StoreInterleavings.UndeletedIsAnswered | finbar/infrastructure/services/in_memory_backtest_result_store.py:35-51 | a completed save that no delete drops is answered, whatever else happens and is evicted |
| StoreInterleavings.DeletedResultReturns | finbar/infrastructure/services/in_memory_backtest_result_store.py:38-42 | a delete between the two halves of a save: the deleted result is back once the save ends |
| ResultStore.InMemoryBacktestResultStore.constructor | finbar/infrastructure/services/in_memory_backtest_result_store.py:24-33 | an empty store holding at least one result |
| ResultStore.InMemoryBacktestResultStore.Save | finbar/infrastructure/services/in_memory_backtest_result_store.py:35-43 | adds, evicts, persists |
| ResultStore.InMemoryBacktestResultStore.Get | finbar/infrastructure/services/in_memory_backtest_result_store.py:45-51 | memory first, then the persistent table |
| ResultStore.InMemoryBacktestResultStore.Delete | finbar/infrastructure/services/in_memory_backtest_result_store.py:80-87 | removes from both and says whether it existed |

## Left out

- TokenBucket.HyperliquidRateLimiter.Wait: is the uncontended call; under contention each attempt is a step of the run and TokenBucket.SleepIsEnough says what a sleep buys. Admission deadlines under contention are not claimed, nor that a caller already admitted past the backoff phase sees a newer deadline.
- TokenBucket.HyperliquidRateLimiter.Admit: does not model the progress line logged every 100 admissions, nor the division by the capacity in it.
- SlidingWindowLimiters.CoinGlassRateLimiter.UpdateFromHeaders: header names and values arrive already compared and parsed; the case folding and the integer parser are not modelled.
- SlidingWindow.EveryAdmissionRespected: is about limits of at most 1000, which the deque can see; SlidingWindowBound.EnforcedLimitsRespected adds those enforced by spacing, and SlidingWindowBound.LifetimeBound the runs with resets.
- SlidingWindowBound.AdmittedByThirdAttempt: assumes a wake-up strictly later than asked for, without which SlidingWindowBound.RetryAfterSleep shows the caller told to sleep 0 seconds again.
- Fetcher.FetchChunk: the exchange is a function of the chunk with three kinds of answer; candle parsing, the choice between the two API calls and the order of the bars from `_fetch_max_history` are not modelled.
- Conditions.SameKeySameCrossover: is about labels that determine operands, which `Operand.label` is there to provide but does not enforce; the theorems about memory and signals state the exact condition without it.
- CrossoverRuns.JsonRuleBasedStrategy.OnBar: signals carry the side only; prices and confidences are not modelled.
- CrossoverRuns.JsonRuleBasedStrategy.EntrySignal: as for OnBar, the stop and target prices and the confidence are not modelled.
- CrossoverRuns.JsonRuleBasedStrategy.ExitSignal: as for OnBar, the confidence is not modelled.
- CrossoverRuns.SignalFollowsRules: gives the condition under which all crossovers of a definition are judged right; CrossoverRuns.StrategyVerdictExactly says for one crossover and bar exactly when it is, and a wrong leaf may still leave the signal right.
- RollingSharpe.RollingSharpe: states means and variances; the square root, the annualization factor and rounding are left out, and windows are not negative.
- RollingWinRate.RollingWinRate: windows are not negative and rates are unrounded.
- Pearson.PearsonIsBounded: states the squared coefficient and its sign instead of a square root.
- Portfolio.AggregateEquity: total return and Sharpe ratio of the portfolio, and rounding, are not modelled.
- ParamSearch.Values: rounding of the listed values and their conversion to integers are not modelled; random draws are arbitrary choices.
- Ranks.RankValues: the other statistics of a walk-forward run (fold aggregation, stability, sensitivity) are not modelled.
- Drawdown.MaxDrawdown: the other ratios of the metrics module are single expressions and not modelled.
- Simulation.EnterReconciles: the position sizer and the date arithmetic of the borrow fee are arbitrary functions, so the results hold for whatever they return; orders are long or short, as the bar loop queues them; diagnostics are not modelled, and leverage multipliers are positive, as margin_required demands.
- BarLoop.EveryRunReconciles: the strategy is an arbitrary deterministic function with its own state; the conversion of the data frame and of its dates, the validation before the loop and the run summary are not modelled.
- BarLoop.ReportedErrorIsRounding: rounding to cents is any function that moves a number by half a cent at most.
- BarLoop.UsedMarginAtTheEnd: is about bars with positive opens and slippage below 1; other prices are rejected before the loop or have no meaning there.
- ResultStore.StoreRefinesMap: one operation is one step, and creation times do not go back; overlapping calls are the subject of StoreInterleavings. Identifiers drawn at random, copying, JSON and listing are not modelled.
- ResultStore.InMemoryBacktestResultStore.Save: is one atomic step with a given identifier; StoreInterleavings.DeleteIsFinalExactly splits it.
- ResultStore.InMemoryBacktestResultStore.Delete: is one atomic step; StoreInterleavings.DeleteIsFinalExactly splits it.
- Eviction.EvictionIsOldestFirst: also describes the eviction of indicator jobs, where finished jobs are the removable ones; the frames and other dictionaries kept beside the jobs are not modelled.
- The histogram, exposure, rolling profit and trade distribution would only add easy members.
- The other job managers evict in the same way as the ones modelled.
