/** One client's token bucket, over exact reals: which requests it admits. */
module TokenBucket {

  datatype Bucket = Bucket(tokens: real, last: real)

  function Min(a: real, b: real): real {
    if a < b then a else b
  }

  function Burst(rate: real): real {
    rate * 2.0
  }

  /** Tokens earned in a span of time. */
  function Earned(rate: real, span: real): real {
    span * rate
  }

  function Refill(rate: real, b: Bucket, t: real): Bucket {
    var elapsed := t - b.last;
    if elapsed > 0.0 then Bucket(Min(b.tokens + Earned(rate, elapsed), Burst(rate)), t) else b
  }

  function Take(b: Bucket): Bucket {
    if b.tokens < 1.0 then b else b.(tokens := b.tokens - 1.0)
  }

  /** The bucket the last of these requests finds, after its refill. */
  function Level(rate: real, times: seq<real>): Bucket
    requires times != []
  {
    var n := |times| - 1;
    if n == 0 then Bucket(Burst(rate), times[0]) else Refill(rate, Take(Level(rate, times[..n])), times[n])
  }

  predicate Admitted(rate: real, times: seq<real>)
    requires times != []
  {
    Level(rate, times).tokens >= 1.0
  }

  /** The latest time any of these requests carried. */
  function Clock(times: seq<real>): real
    requires times != []
  {
    var n := |times| - 1;
    if n == 0 then times[0] else if times[n] > Clock(times[..n]) then times[n] else Clock(times[..n])
  }

  /** Admitted requests among numbers i up to, not including, j. */
  function Count(rate: real, times: seq<real>, i: nat, j: nat): nat
    requires i <= j <= |times|
  {
    if i == j then 0 else Count(rate, times, i, j - 1) + if Admitted(rate, times[..j]) then 1 else 0
  }

  lemma EarnedSum(rate: real, a: real, b: real)
    ensures Earned(rate, a) + Earned(rate, b) == Earned(rate, a + b)
  {
  }

  lemma EarnedPositive(rate: real, a: real)
    requires rate > 0.0 && a >= 0.0
    ensures Earned(rate, a) >= 0.0
  {
  }

  lemma {:induction false} LevelBasics(rate: real, times: seq<real>)
    requires rate > 0.0 && times != []
    ensures 0.0 <= Level(rate, times).tokens <= Burst(rate)
    ensures Level(rate, times).last == Clock(times)
  {
    var n := |times| - 1;
    if n == 0 {
    } else {
      LevelBasics(rate, times[..n]);
      var span := times[n] - Clock(times[..n]);
      if span > 0.0 {
        EarnedPositive(rate, span);
      }
    }
  }

  /** One more request: earn, cap, after paying for the one before. */
  lemma LevelStep(rate: real, times: seq<real>)
    requires rate > 0.0 && |times| > 1
    ensures var before := times[..|times| - 1];
            && Clock(times) >= Clock(before)
            && Level(rate, times).tokens ==
                 Min(Level(rate, before).tokens - (if Admitted(rate, before) then 1.0 else 0.0)
                       + Earned(rate, Clock(times) - Clock(before)), Burst(rate))
  {
    LevelBasics(rate, times[..|times| - 1]);
    assert Earned(rate, 0.0) == 0.0;
  }

  lemma {:induction false} ClockMonotone(times: seq<real>, i: nat)
    requires i < |times|
    ensures times[i] <= Clock(times[..i + 1]) <= Clock(times)
  {
    if i == |times| - 1 {
      assert times[..i + 1] == times;
    } else {
      var before := times[..|times| - 1];
      ClockMonotone(before, i);
      assert before[..i + 1] == times[..i + 1];
    }
  }

  /** What is left at the last request of the allowance earned since request i. */
  function Allowance(rate: real, times: seq<real>, i: nat): real
    requires i < |times|
  {
    Burst(rate) + Earned(rate, Clock(times) - Clock(times[..i + 1])) - Count(rate, times, i, |times| - 1) as real
  }

  lemma {:induction false} CountPrefix(rate: real, times: seq<real>, i: nat, j: nat)
    requires i <= j < |times|
    ensures Count(rate, times[..|times| - 1], i, j) == Count(rate, times, i, j)
  {
    if i == j {
    } else {
      CountPrefix(rate, times, i, j - 1);
      assert times[..|times| - 1][..j] == times[..j];
    }
  }

  lemma AllowanceStep(rate: real, times: seq<real>, i: nat)
    requires i < |times| - 1
    ensures var before := times[..|times| - 1];
            Allowance(rate, times, i) ==
              Allowance(rate, before, i) - (if Admitted(rate, before) then 1.0 else 0.0)
                + Earned(rate, Clock(times) - Clock(before))
  {
    var before := times[..|times| - 1];
    assert before[..i + 1] == times[..i + 1];
    CountPrefix(rate, times, i, |times| - 2);
    EarnedSum(rate, Clock(before) - Clock(times[..i + 1]), Clock(times) - Clock(before));
  }

  /** The tokens found are the least allowance over all earlier starting points. */
  lemma {:induction false} LevelIsLeastAllowance(rate: real, times: seq<real>)
    requires rate > 0.0 && times != []
    ensures forall i :: 0 <= i < |times| ==> Level(rate, times).tokens <= Allowance(rate, times, i)
    ensures exists i :: 0 <= i < |times| && Level(rate, times).tokens == Allowance(rate, times, i)
  {
    var n := |times| - 1;
    assert times[..n + 1] == times;
    assert Allowance(rate, times, n) == Burst(rate) by { assert Earned(rate, 0.0) == 0.0; }
    LevelBasics(rate, times);
    if n == 0 {
    } else {
      LevelIsLeastAllowance(rate, times[..n]);
      LevelStep(rate, times);
      forall i | 0 <= i < n ensures Level(rate, times).tokens <= Allowance(rate, times, i) {
        AllowanceStep(rate, times, i);
      }
      var i :| 0 <= i < n && Level(rate, times[..n]).tokens == Allowance(rate, times[..n], i);
      AllowanceStep(rate, times, i);
      assert Level(rate, times).tokens == Allowance(rate, times, i)
          || Level(rate, times).tokens == Allowance(rate, times, n);
    }
  }

  /** Counting the last request too, the window from request i stays within the burst
      plus what its length earns. */
  predicate WindowFits(rate: real, times: seq<real>, i: nat)
    requires i < |times|
  {
    (Count(rate, times, i, |times| - 1) + 1) as real <= Burst(rate) + Earned(rate, Clock(times) - Clock(times[..i + 1]))
  }

  /** Which requests are admitted, exactly: those that fit every window ending at them. */
  lemma AdmittedIff(rate: real, times: seq<real>)
    requires rate > 0.0 && times != []
    ensures Admitted(rate, times) <==> forall i :: 0 <= i < |times| ==> WindowFits(rate, times, i)
  {
    LevelIsLeastAllowance(rate, times);
    forall i | 0 <= i < |times| ensures WindowFits(rate, times, i) <==> Allowance(rate, times, i) >= 1.0 {
    }
    var k :| 0 <= k < |times| && Level(rate, times).tokens == Allowance(rate, times, k);
    assert WindowFits(rate, times, k) ==> Admitted(rate, times);
  }

  /** No window ever admits more than the burst plus what it earns. */
  lemma WindowBound(rate: real, times: seq<real>, i: nat)
    requires rate > 0.0 && i < |times|
    ensures Count(rate, times, i, |times|) as real <= Burst(rate) + Earned(rate, Clock(times) - Clock(times[..i + 1]))
  {
    LevelIsLeastAllowance(rate, times);
    LevelBasics(rate, times);
    assert times[..|times|] == times;
    assert Level(rate, times).tokens <= Allowance(rate, times, i);
  }

  /** A rate below one request every two seconds admits nothing at all; any other rate
      admits a client's first request. */
  lemma DeniesEverythingIff(rate: real)
    requires rate > 0.0
    ensures (forall times :: times != [] ==> !Admitted(rate, times)) <==> rate < 0.5
  {
    assert Admitted(rate, [0.0]) <==> rate >= 0.5;
    forall times | times != [] && rate < 0.5 ensures !Admitted(rate, times) {
      LevelBasics(rate, times);
    }
  }
}
