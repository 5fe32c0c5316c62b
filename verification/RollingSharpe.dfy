/**
 * Rolling Sharpe ratio by running sums, against recomputing mean and variance for every window.
 * Square roots and rounding are left to the caller: a ratio is kept as its mean and variance.
 */
module RollingSharpe {
  import opened Prelude
  import opened Pearson

  datatype Cell = Blank | Flat | Ratio(mean: real, variance: real)

  /** Bar-to-bar returns; after a value of zero the return counts as zero. */
  function Returns(equity: seq<real>): (r: seq<real>)
    ensures |r| == if |equity| < 2 then 0 else |equity| - 1
  {
    if |equity| < 2 then []
    else seq(|equity| - 1, i requires 0 <= i < |equity| - 1 =>
               if equity[i] == 0.0 then 0.0 else (equity[i + 1] - equity[i]) / equity[i])
  }

  method DailyReturns(equity: seq<real>) returns (result: seq<real>)
    ensures result == Returns(equity)
  {
    result := [];
    if |equity| < 2 {
      return;
    }
    for i := 1 to |equity|
      invariant result == Returns(equity)[..i - 1]
    {
      if equity[i - 1] == 0.0 {
        result := result + [0.0];
      } else {
        result := result + [(equity[i] - equity[i - 1]) / equity[i - 1]];
      }
    }
  }

  /** Sum of squared deviations from the mean, the textbook way. */
  function SquaredDeviations(w: seq<real>): real
    requires w != []
  {
    Dot(Deviations(w), Deviations(w))
  }

  function SampleVariance(w: seq<real>): real
    requires 2 <= |w|
  {
    SquaredDeviations(w) / (|w| - 1) as real
  }

  /** The cell for a window, recomputed from scratch. */
  function CellOf(w: seq<real>): Cell
    requires 2 <= |w|
  {
    if SampleVariance(w) > 0.0 then Ratio(Mean(w), SampleVariance(w)) else Flat
  }

  /** Bar t looks at the `window` returns that end at it. */
  function CellAt(barReturns: seq<real>, window: nat, t: nat): Cell
    requires 2 <= window && t <= |barReturns|
  {
    if t < window then Blank else CellOf(barReturns[t - window..t])
  }

  // ---------------------------------------------------------------------------------------
  // Running sums
  // ---------------------------------------------------------------------------------------

  lemma {:induction false} DotFront(x: real, a: seq<real>)
    ensures Sum([x] + a) == x + Sum(a)
    ensures Dot([x] + a, [x] + a) == Times(x, x) + Dot(a, a)
  {
    if a == [] {
      assert [x] + a == [x];
      assert Dot([x][..0], [x][..0]) == 0.0 && Sum([x][..0]) == 0.0;
    } else {
      var n := |a| - 1;
      DotFront(x, a[..n]);
      assert ([x] + a)[..n + 1] == [x] + a[..n];
    }
  }

  lemma {:induction false} DotBack(a: seq<real>, x: real)
    ensures Sum(a + [x]) == Sum(a) + x
    ensures Dot(a + [x], a + [x]) == Dot(a, a) + Times(x, x)
  {
    assert (a + [x])[..|a|] == a;
  }

  /** Sliding the window by one return: the outgoing one leaves the sums, the incoming one enters. */
  lemma SlideWindow(r: seq<real>, window: nat, t: nat)
    requires 1 <= window <= t < |r|
    ensures var old_, new_ := r[t - window..t], r[t + 1 - window..t + 1];
      && Sum(new_) == Sum(old_) + (r[t] - r[t - window])
      && Dot(new_, new_) == Dot(old_, old_) + (Times(r[t], r[t]) - Times(r[t - window], r[t - window]))
  {
    var common := r[t - window + 1..t];
    assert r[t - window..t] == [r[t - window]] + common;
    assert r[t + 1 - window..t + 1] == common + [r[t]];
    DotFront(r[t - window], common);
    DotBack(common, r[t]);
  }

  lemma {:induction false} CentredSquares(m: real, w: seq<real>)
    ensures Dot(Affine(1.0, -m, w), Affine(1.0, -m, w))
         == Dot(w, w) - Times(2.0 * m, Sum(w)) + Times(|w| as real, Times(m, m))
  {
    if w == [] {
      TimesZero(Times(m, m));
      TimesZero(2.0 * m);
      assert Times(2.0 * m, 0.0) == 0.0;
    } else {
      var n := |w| - 1;
      CentredSquares(m, w[..n]);
      var c := Affine(1.0, -m, w);
      assert c[..n] == Affine(1.0, -m, w[..n]) && c[n] == Times(1.0, w[n]) + -m;
      CentredStep(m, Dot(w[..n], w[..n]), Sum(w[..n]), n as real, w[n]);
      hide Times;
    }
  }

  lemma CentredStep(m: real, squares: real, s: real, n: real, x: real)
    ensures var d := Times(1.0, x) + -m;
      squares - Times(2.0 * m, s) + Times(n, Times(m, m)) + Times(d, d)
        == squares + Times(x, x) - Times(2.0 * m, s + x) + Times(n + 1.0, Times(m, m))
  {
    assert (x - m) * (x - m) == x * x - 2.0 * m * x + m * m;
  }

  /** The computational form of the squared deviations equals the textbook form. */
  lemma {:induction false} ComputationalForm(w: seq<real>)
    requires w != []
    ensures SquaredDeviations(w) == Dot(w, w) - Times(Mean(w), Sum(w))
  {
    CentredSquares(Mean(w), w);
    MeanTimesCount(Sum(w), |w| as real, Mean(w));
    hide Dot, Sum, Times;
  }

  lemma MeanTimesCount(total: real, n: real, mean: real)
    requires 0.0 < n && mean == total / n
    ensures Times(n, Times(mean, mean)) == Times(mean, total)
    ensures Times(2.0 * mean, total) == 2.0 * Times(mean, total)
  {
    assert n * mean == total;
    assert n * (mean * mean) == mean * (n * mean);
  }

  /** A variance is never negative, and zero only for a window of equal returns. */
  lemma VarianceSign(w: seq<real>)
    requires 2 <= |w|
    ensures 0.0 <= SampleVariance(w)
    ensures SampleVariance(w) == 0.0 <==> forall i :: 0 <= i < |w| ==> w[i] == Mean(w)
  {
    SquaresAddUp(Deviations(w));
    QuotientSign(SquaredDeviations(w), (|w| - 1) as real);
    forall i | 0 <= i < |w|
      ensures Deviations(w)[i] == w[i] - Mean(w)
    {
      AffineAt(1.0, -Mean(w), w, i);
    }
    hide Dot, Deviations, Mean;
  }

  lemma {:induction false} AffineAt(scale: real, shift: real, xs: seq<real>, i: nat)
    requires i < |xs|
    ensures Affine(scale, shift, xs)[i] == scale * xs[i] + shift
  {
    if i < |xs| - 1 {
      AffineAt(scale, shift, xs[..|xs| - 1], i);
    }
  }

  lemma QuotientSign(x: real, n: real)
    requires 0.0 <= x && 0.0 < n
    ensures 0.0 <= x / n && (x / n == 0.0 <==> x == 0.0)
  {
  }

  // ---------------------------------------------------------------------------------------
  // The program
  // ---------------------------------------------------------------------------------------

  /** Mean and variance from the running sums. */
  function CellFromSums(sum: real, squares: real, window: nat): Cell
    requires 2 <= window
  {
    var mean := sum / window as real;
    var variance := (squares - Times(mean, sum)) / (window - 1) as real;
    if variance > 0.0 then Ratio(mean, variance) else Flat
  }

  lemma {:induction false} SumsGiveCell(w: seq<real>)
    requires 2 <= |w|
    ensures CellFromSums(Sum(w), Dot(w, w), |w|) == CellOf(w)
  {
    hide Dot, Sum, Times, SquaredDeviations;
    ComputationalForm(w);
  }

  /**
   * The rolling ratio by running sums.  It fails with a division by zero exactly for windows of
   * zero or one return, when there are enough returns; otherwise every cell is the recomputed one.
   */
  method RollingSharpe(equity: seq<real>, window: nat) returns (cells: Option<seq<Cell>>)
    ensures cells == None <==> 2 <= |equity| && window < 2
    ensures cells.Some? ==> |cells.value| == |equity|
    ensures cells.Some? && window < 2 ==> forall t :: 0 <= t < |equity| ==> cells.value[t] == Blank
    ensures cells.Some? && 2 <= window ==> forall t :: 0 <= t < |equity| ==>
              cells.value[t] == CellAt(Returns(equity), window, t)
  {
    var n := |equity|;
    if n < 2 {
      return Some(seq(n, _ => Blank));
    }
    var barReturns := DailyReturns(equity);
    if |barReturns| < window {
      return Some(seq(n, _ => Blank));
    }
    if window < 2 {
      return None;
    }
    var filled := SlideOver(barReturns, window);
    return Some(filled);
  }

  /** The seeding of the sums and the loop over the remaining returns. */
  method SlideOver(barReturns: seq<real>, window: nat) returns (result: seq<Cell>)
    requires 2 <= window <= |barReturns|
    ensures |result| == |barReturns| + 1
    ensures forall t :: 0 <= t < |result| ==> result[t] == CellAt(barReturns, window, t)
  {
    hide Dot, Sum, CellFromSums, CellOf;
    var table := new Cell[|barReturns| + 1](_ => Blank);
    var seed := barReturns[..window];
    var winSum, winSqSum := SumsOf(seed);
    SumsGiveCell(seed);
    assert barReturns[window - window..window] == seed;
    table[window] := CellFromSums(winSum, winSqSum, window);
    for i := window to |barReturns|
      invariant winSum == Sum(barReturns[i - window..i]) && winSqSum == Dot(barReturns[i - window..i], barReturns[i - window..i])
      invariant forall t :: 0 <= t <= i ==> table[t] == CellAt(barReturns, window, t)
    {
      var outgoing, incoming := barReturns[i - window], barReturns[i];
      SlideWindow(barReturns, window, i);
      winSum := winSum + (incoming - outgoing);
      winSqSum := winSqSum + (Times(incoming, incoming) - Times(outgoing, outgoing));
      SumsGiveCell(barReturns[i + 1 - window..i + 1]);
      table[i + 1] := CellFromSums(winSum, winSqSum, window);
    }
    result := table[..];
  }

  method SumsOf(w: seq<real>) returns (sum: real, squares: real)
    ensures sum == Sum(w) && squares == Dot(w, w)
  {
    sum, squares := 0.0, 0.0;
    for i := 0 to |w|
      invariant sum == Sum(w[..i]) && squares == Dot(w[..i], w[..i])
    {
      assert w[..i + 1] == w[..i] + [w[i]];
      DotBack(w[..i], w[i]);
      sum, squares := sum + w[i], squares + Times(w[i], w[i]);
    }
    assert w[..|w|] == w;
  }
}
