/** The rounding helpers of the risk and graph packages, over exact reals.
    Go's int() conversion drops the fraction, moving towards zero. */
module Rounding {

  function Truncate(x: real): int {
    if x >= 0.0 then x.Floor else -(-x).Floor
  }

  /** The fraction is dropped, towards zero on either side of it. */
  lemma TruncatesTowardsZero(x: real)
    ensures x >= 0.0 ==> 0.0 <= Truncate(x) as real <= x < Truncate(x) as real + 1.0
    ensures x < 0.0 ==> Truncate(x) as real - 1.0 < x <= Truncate(x) as real <= 0.0
  {
  }

  function Round1(f: real): real {
    Truncate(f * 10.0 + 0.5) as real / 10.0
  }

  function Round2(f: real): real {
    Truncate(f * 100.0 + 0.5) as real / 100.0
  }

  /** x is a whole number of tenths. */
  predicate Tenths(x: real) {
    (x * 10.0).Floor as real == x * 10.0
  }

  /** x is a whole number of hundredths. */
  predicate Hundredths(x: real) {
    (x * 100.0).Floor as real == x * 100.0
  }

  function Abs(x: real): real {
    if x < 0.0 then -x else x
  }

  lemma HalfUp(x: real)
    ensures var k := (x + 0.5).Floor as real; k - 0.5 <= x < k + 0.5
  {
  }

  lemma HalfUpOnGrid(n: int)
    ensures (n as real + 0.5).Floor == n
  {
  }

  lemma ScaleDown(x: real, k: int)
    requires k as real - 0.5 <= x < k as real + 0.5
    ensures Abs(k as real / 100.0 - x / 100.0) <= 0.005
  {
  }

  lemma OnGrid(k: int)
    ensures Hundredths(k as real / 100.0)
  {
    assert (k as real / 100.0) * 100.0 == k as real;
  }

  /** Non-negative values move by at most half a hundredth, values already on the
      grid do not move, and the result is on the grid. */
  lemma Round2Near(f: real)
    requires f >= 0.0
    ensures Abs(Round2(f) - f) <= 0.005
    ensures Hundredths(Round2(f))
    ensures Hundredths(f) ==> Round2(f) == f
  {
    var x := f * 100.0;
    var k := (x + 0.5).Floor;
    assert Round2(f) == k as real / 100.0 && f == x / 100.0;
    HalfUp(x);
    ScaleDown(x, k);
    OnGrid(k);
    if Hundredths(f) {
      HalfUpOnGrid(x.Floor);
    }
  }

  /** Halves round up: which hundredth a non-negative value rounds to, exactly. */
  lemma Round2HalfUp(f: real)
    requires f >= 0.0
    ensures Round2(f) - 0.005 <= f < Round2(f) + 0.005
  {
    var x := f * 100.0;
    HalfUp(x);
    assert Round2(f) == (x + 0.5).Floor as real / 100.0 && f == x / 100.0;
  }

  /** And which tenth. */
  lemma Round1HalfUp(f: real)
    requires f >= 0.0
    ensures Tenths(Round1(f)) && Round1(f) - 0.05 <= f < Round1(f) + 0.05
  {
    var x := f * 10.0;
    HalfUp(x);
    var k := (x + 0.5).Floor;
    assert Round1(f) == k as real / 10.0 && f == x / 10.0;
    assert Round1(f) * 10.0 == k as real;
  }

  lemma Round2Monotone(a: real, b: real)
    requires a <= b
    ensures Round2(a) <= Round2(b)
  {
    assert a * 100.0 + 0.5 <= b * 100.0 + 0.5;
    assert Truncate(a * 100.0 + 0.5) <= Truncate(b * 100.0 + 0.5);
  }

  lemma Round1Monotone(a: real, b: real)
    requires a <= b
    ensures Round1(a) <= Round1(b)
  {
    assert a * 10.0 + 0.5 <= b * 10.0 + 0.5;
    assert Truncate(a * 10.0 + 0.5) <= Truncate(b * 10.0 + 0.5);
  }

  lemma TenthsAreHundredths(x: real)
    requires Tenths(x)
    ensures Hundredths(x)
  {
    var k := (x * 10.0).Floor;
    assert x * 100.0 == (k * 10) as real;
  }
}
