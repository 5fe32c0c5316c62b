/** Small definitions shared by the modules that model numeric code. */
module Prelude {
  datatype Option<+T> = None | Some(value: T)

  function Max(a: real, b: real): real {
    if a < b then b else a
  }

  function Min(a: real, b: real): real {
    if a < b then a else b
  }

  function Abs(x: real): real {
    if x < 0.0 then -x else x
  }

  const REL_TOL := 0.000000000001

  /** Agreement up to a relative tolerance, as Python's math.isclose(a, b, rel_tol=1e-12). */
  predicate IsClose(a: real, b: real) {
    a == b || Abs(a - b) <= REL_TOL * Max(Abs(a), Abs(b))
  }

  /** The loss from a peak as a fraction of it; a peak that is not positive has none. */
  function DrawdownFrom(peak: real, value: real): real {
    if peak > 0.0 then (peak - value) / peak else 0.0
  }

  function Pow2(n: nat): real {
    if n == 0 then 1.0 else 2.0 * Pow2(n - 1)
  }

  function MinInt(a: int, b: int): int {
    if a < b then a else b
  }

  function MaxInt(a: int, b: int): int {
    if a < b then b else a
  }

  /** Sum of a sequence, peeled from the back so that loops extend it one element at a time. */
  function Sum(s: seq<real>): real {
    if s == [] then 0.0 else Sum(s[..|s| - 1]) + s[|s| - 1]
  }

  lemma {:induction false} SumSnoc(s: seq<real>, x: real)
    ensures Sum(s + [x]) == Sum(s) + x
  {
    assert (s + [x])[..|s|] == s;
  }

  /** Multiplication by name, so that proofs can treat products as opaque. */
  function Times(x: real, y: real): real {
    x * y
  }

  lemma TimesZero(x: real)
    ensures Times(0.0, x) == 0.0
  {
  }

  lemma TimesNegates(x: real, y: real)
    ensures Times(-x, y) == -Times(x, y)
  {
  }

  lemma PositiveTimes(x: real, y: real)
    ensures 0.0 < x && 0.0 < y ==> 0.0 < Times(x, y)
    ensures Times(x, y) == Times(y, x)
  {
  }
}
