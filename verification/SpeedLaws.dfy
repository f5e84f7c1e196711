/** What the speed and remaining-time estimates amount to: exact values, in integers. */
module SpeedLaws {
  import opened SpeedCalculator

  /** The nearest integer; halves go away from zero. */
  lemma RoundNearest(x: real)
    ensures x >= 0.0 ==> -0.5 <= x - Round(x) as real < 0.5
    ensures x < 0.0 ==> -0.5 < x - Round(x) as real <= 0.5
  {
  }

  // ----- the speed ---------------------------------------------------------------------

  /** Milliseconds between a sample and the newest one. */
  function Millis(points: seq<DataPoint>, i: nat): int
    requires i < |points|
  {
    (points[|points| - 1].time - points[i].time) / 1_000_000
  }

  function LongRamp(points: seq<DataPoint>): int
    requires points != []
  {
    if Millis(points, 0) < 2000 then 2000 else Millis(points, 0)
  }

  /** Twice the distance of the middle of a fragment from the beginning of the ramp. */
  function Height(points: seq<DataPoint>, i: nat): int
    requires i + 1 < |points|
  {
    2 * LongRamp(points) - Millis(points, i) - Millis(points, i + 1)
  }

  /** The bytes of the first n fragments that last, each times its height. */
  function Moved(points: seq<DataPoint>, n: nat): int
    requires n < |points|
  {
    if n == 0 then 0
    else
      var gain := points[n].bytes - points[n - 1].bytes;
      Moved(points, n - 1) +
      if Millis(points, n - 1) == Millis(points, n) then 0
      else (if gain < 0 then -gain else gain) * Height(points, n - 1)
  }

  /** The milliseconds of the first n fragments, each times its height. */
  function Passed(points: seq<DataPoint>, n: nat): int
    requires n < |points|
  {
    if n == 0 then 0
    else Passed(points, n - 1) + (Millis(points, n - 1) - Millis(points, n)) * Height(points, n - 1)
  }

  lemma AgeIsMillis(points: seq<DataPoint>, i: nat)
    requires InOrder(points) && i < |points|
    ensures Age(points, i) == Millis(points, i) && Ramp(points) == LongRamp(points)
  {
  }

  lemma ScaledWeight(sum: int, ramp: int, millis: int)
    requires ramp > 0
    ensures (1.0 - sum as real / 2.0 / ramp as real) * (millis as real / 100.0) * (200 * ramp) as real
         == (millis * (2 * ramp - sum)) as real
  {
    var r, s, m := ramp as real, sum as real, millis as real;
    var c := s / 2.0 / r;
    assert c * r == s / 2.0;
    calc {
      (1.0 - c) * (m / 100.0) * (200 * ramp) as real;
      (1.0 - c) * (m / 100.0) * (200.0 * r);
      (r - c * r) * m * 2.0;
      (2.0 * r - s) * m;
    }
    assert (2.0 * r - s) == (2 * ramp - sum) as real;
  }

  lemma ScaledSpeed(bytes: int, millis: int, weight: real, scale: real, height: int)
    requires millis > 0 && weight * scale == (millis * height) as real
    ensures bytes as real / millis as real * 1000.0 * weight * scale == (1000 * (bytes * height)) as real
  {
    var b, m, h := bytes as real, millis as real, height as real;
    var q := b / m;
    assert q * m == b;
    calc {
      q * 1000.0 * weight * scale;
      q * 1000.0 * (weight * scale);
      q * 1000.0 * (m * h);
      (q * m) * h * 1000.0;
      b * h * 1000.0;
    }
  }

  lemma FragmentScaled(points: seq<DataPoint>, i: nat)
    requires InOrder(points) && i + 1 < |points|
    ensures FragmentMillis(points, i) == Millis(points, i) - Millis(points, i + 1) >= 0
    ensures FragmentMillis(points, i) != 0 ==>
      && Weight(points, i) * (200 * LongRamp(points)) as real == (FragmentMillis(points, i) * Height(points, i)) as real
      && Speed(points, i) * Weight(points, i) * (200 * LongRamp(points)) as real
      == (1000 * (Abs(points[i + 1].bytes - points[i].bytes) * Height(points, i))) as real
  {
    hide Millis, LongRamp, Age, Ramp, InOrder;
    AgesFall(points, i);
    AgeIsMillis(points, i);
    AgeIsMillis(points, i + 1);
    var millis := FragmentMillis(points, i);
    RampPositive(points);
    ScaledWeight(Millis(points, i) + Millis(points, i + 1), LongRamp(points), millis);
    if millis != 0 {
      ScaledSpeed(Abs(points[i + 1].bytes - points[i].bytes), millis, Weight(points, i), (200 * LongRamp(points)) as real, Height(points, i));
    }
  }

  lemma RampPositive(points: seq<DataPoint>)
    requires points != []
    ensures LongRamp(points) > 0
  {
  }

  lemma Distributed(a: real, b: real, c: real, x: int, y: int)
    requires a * c == x as real && b * c == y as real
    ensures (a + b) * c == (x + y) as real
  {
  }

  lemma {:induction false} WeightsScaled(points: seq<DataPoint>, n: nat)
    requires InOrder(points) && n < |points|
    ensures TotalWeight(points, n) * (200 * LongRamp(points)) as real == Passed(points, n) as real
  {
    hide Millis, LongRamp, Height, Weight, FragmentMillis, InOrder;
    if n > 0 {
      WeightsScaled(points, n - 1);
      FragmentScaled(points, n - 1);
      var millis := FragmentMillis(points, n - 1);
      if millis != 0 {
        Distributed(TotalWeight(points, n - 1), Weight(points, n - 1), (200 * LongRamp(points)) as real,
          Passed(points, n - 1), millis * Height(points, n - 1));
      }
    }
  }

  lemma {:induction false} SpeedsScaled(points: seq<DataPoint>, n: nat)
    requires InOrder(points) && n < |points|
    ensures WeightedSpeed(points, n) * (200 * LongRamp(points)) as real == (1000 * Moved(points, n)) as real
  {
    hide Millis, LongRamp, Height, Weight, Speed, FragmentMillis, InOrder;
    if n > 0 {
      SpeedsScaled(points, n - 1);
      FragmentScaled(points, n - 1);
      if FragmentMillis(points, n - 1) != 0 {
        var moved := Abs(points[n].bytes - points[n - 1].bytes) * Height(points, n - 1);
        assert Moved(points, n) == Moved(points, n - 1) + moved;
        Distributed(WeightedSpeed(points, n - 1), Speed(points, n - 1) * Weight(points, n - 1),
          (200 * LongRamp(points)) as real, 1000 * Moved(points, n - 1), 1000 * moved);
      }
    }
  }

  lemma ScaledQuotient(a: real, b: real, scale: real, x: real, y: real)
    requires b != 0.0 && scale != 0.0 && a * scale == x && b * scale == y
    ensures y != 0.0 && a / b == x / y
  {
    var q := a / b;
    assert q * b == a;
    assert q * y == x;
  }

  /** The reported speed, in integers: 1000 times the moved bytes over the passed milliseconds,
      both times the height, rounded; 0 if no millisecond passed. */
  lemma SpeedInIntegers(points: seq<DataPoint>)
    requires points != [] && InOrder(points)
    ensures
      var n := |points| - 1;
      ReportedSpeed(points) ==
      if Passed(points, n) == 0 then 0 else Round((1000 * Moved(points, n)) as real / Passed(points, n) as real)
  {
    hide Round, Moved, Passed, LongRamp, TotalWeight, WeightedSpeed;
    var n := |points| - 1;
    WeightsScaled(points, n);
    SpeedsScaled(points, n);
    RampPositive(points);
    var scale := (200 * LongRamp(points)) as real;
    if TotalWeight(points, n) == 0.0 {
      assert 0.0 * scale == 0.0;
    } else {
      ScaledQuotient(WeightedSpeed(points, n), TotalWeight(points, n), scale,
        (1000 * Moved(points, n)) as real, Passed(points, n) as real);
    }
  }

  /** Two seconds: the second one counts three times as much as the first. */
  lemma TwoSeconds(start: int, time: int, a: nat, b: nat)
    ensures ReportedSpeed([DataPoint(start, time), DataPoint(start + a, time + 1_000_000_000),
                           DataPoint(start + a + b, time + 2_000_000_000)]) == Round((a + 3 * b) as real / 4.0)
  {
    hide Round;
    var points := [DataPoint(start, time), DataPoint(start + a, time + 1_000_000_000),
                   DataPoint(start + a + b, time + 2_000_000_000)];
    SpeedInIntegers(points);
    assert Millis(points, 0) == 2000 && Millis(points, 1) == 1000 && Millis(points, 2) == 0;
    assert Moved(points, 1) == a * 1000;
    assert Moved(points, 2) == a * 1000 + b * 3000;
    assert Passed(points, 1) == 1000 * 1000;
    assert Passed(points, 2) == 4_000_000;
    ScaledQuotient((a + 3 * b) as real, 4.0, 1_000_000.0, (1000 * Moved(points, 2)) as real, Passed(points, 2) as real);
  }

  ghost predicate Steady(points: seq<DataPoint>, rate: int) {
    && (forall i :: 0 <= i < |points| ==> points[i].time % 1_000_000 == 0)
    && (forall i {:trigger points[i + 1]} :: 0 <= i && i + 1 < |points| ==>
          (points[i + 1].bytes - points[i].bytes) * 1_000_000_000 == rate * (points[i + 1].time - points[i].time))
  }

  lemma WholeMillis(a: int, b: int, c: int)
    requires a % 1_000_000 == b % 1_000_000 == c % 1_000_000 == 0
    ensures ((a - b) / 1_000_000 - (a - c) / 1_000_000) * 1_000_000 == c - b
  {
  }

  lemma SteadyFragment(points: seq<DataPoint>, rate: int, i: nat)
    requires InOrder(points) && Steady(points, rate) && rate >= 0
    requires i + 1 < |points| && FragmentMillis(points, i) != 0
    ensures Speed(points, i) == rate as real
  {
    hide Weight, FragmentMillis, Ramp;
    FragmentScaled(points, i);
    var millis, gain := FragmentMillis(points, i), points[i + 1].bytes - points[i].bytes;
    WholeMillis(points[|points| - 1].time, points[i].time, points[i + 1].time);
    assert gain * 1_000_000_000 == rate * (millis * 1_000_000);
    assert gain * 1000 == rate * millis;
    assert gain >= 0;
    SteadyQuotient(gain, millis, rate);
  }

  lemma SteadyQuotient(gain: int, millis: int, rate: int)
    requires millis > 0 && gain * 1000 == rate * millis
    ensures gain as real / millis as real * 1000.0 == rate as real
  {
    var q := gain as real / millis as real;
    assert q * millis as real == gain as real;
    assert (q * 1000.0 - rate as real) * millis as real == 0.0;
  }

  lemma {:induction false} NothingPassed(points: seq<DataPoint>, n: nat)
    requires InOrder(points) && n < |points|
    requires forall i :: 0 <= i < n ==> FragmentMillis(points, i) == 0
    ensures Millis(points, 0) == Millis(points, n)
  {
    hide FragmentMillis, Millis, InOrder;
    if n > 0 {
      NothingPassed(points, n - 1);
      FragmentScaled(points, n - 1);
    }
  }

  /** A transfer that moves `rate` bytes in every second is reported with that rate. */
  lemma SteadySpeed(points: seq<DataPoint>, rate: int)
    requires InOrder(points) && Steady(points, rate) && rate >= 0
    requires points != [] && points[0].time < points[|points| - 1].time
    ensures ReportedSpeed(points) == rate && TotalWeight(points, |points| - 1) > 0.0
  {
    hide Speed, FragmentMillis, Round, TotalWeight, ReportedSpeed;
    var n := |points| - 1;
    forall i | 0 <= i && i + 1 < |points| && FragmentMillis(points, i) != 0
      ensures rate as real <= Speed(points, i) <= rate as real
    {
      SteadyFragment(points, rate, i);
    }
    if forall i :: 0 <= i < n ==> FragmentMillis(points, i) == 0 {
      NothingPassed(points, n);
      assert false;
    }
    TotalNotNegative(points, n);
    SpeedIsConvex(points, rate as real, rate as real);
    RoundInt(rate);
  }

  /** With fewer than four samples no remaining time is reported, and no estimate is kept if time
      has passed. */
  lemma FewSamples(points: seq<DataPoint>, total: int, before: seq<DataPoint>, after: seq<DataPoint>,
                   now: int, speed: int, seconds: int)
    requires 0 < |points| < 4 && Recalculated(points, total, before, after, now, speed, seconds)
    ensures seconds == -1 && (TotalWeight(points, |points| - 1) != 0.0 ==> after == [])
  {
  }

  // ----- the window --------------------------------------------------------------------

  /** A sample goes exactly if at least four newer ones remain and it is older than two seconds. */
  lemma {:induction false} TrimmedExactly(points: seq<DataPoint>, now: int, i: nat)
    requires InOrder(points) && i < |points|
    ensures
      var rest := Trimmed(points, WindowStart(now));
      i < |points| - |rest| <==> i + 4 < |points| && now - points[i].time > 2_000_000_000
  {
    if |points| > 4 && now - points[0].time > 2_000_000_000 && i > 0 {
      TrimmedExactly(points[1..], now, i - 1);
    }
  }

  // ----- the remaining time ------------------------------------------------------------

  lemma FourAreKept(points: seq<DataPoint>)
    ensures
      var last := LastFour(points);
      |last| == (if |points| < 4 then |points| else 4) && last == points[|points| - |last|..]
  {
  }

  /** An estimate of s seconds is worth s - k after k seconds. */
  lemma AgedBySeconds(seconds: int, time: int, k: nat)
    ensures Aged(DataPoint(seconds, time), time + k * 1_000_000_000) == if seconds < k then 0 else seconds - k
  {
  }

  function PowerOfTwo(n: nat): int {
    if n == 0 then 1 else 2 * PowerOfTwo(n - 1)
  }

  /** The aged estimates, each with twice the weight of the one before. */
  function Doubling(points: seq<DataPoint>, now: int, n: nat): int
    requires n <= |points|
  {
    if n == 0 then 0 else Doubling(points, now, n - 1) + PowerOfTwo(n - 1) * Aged(points[n - 1], now)
  }

  lemma {:induction false} HalvingIsDoubling(points: seq<DataPoint>, now: int, n: nat)
    requires n <= |points|
    ensures HalvingSum(points, now, n) * PowerOfTwo(n) as real == Doubling(points, now, n) as real
    ensures HalvingWeight(n) * PowerOfTwo(n) as real == (PowerOfTwo(n) - 1) as real
    ensures PowerOfTwo(n) > n
  {
    hide Aged;
    if n > 0 {
      HalvingIsDoubling(points, now, n - 1);
      HalvingStep(HalvingSum(points, now, n - 1), PowerOfTwo(n - 1), Doubling(points, now, n - 1), Aged(points[n - 1], now));
      HalvingStep(HalvingWeight(n - 1), PowerOfTwo(n - 1), PowerOfTwo(n - 1) - 1, 1);
    }
  }

  lemma HalvingStep(sum: real, power: int, scaled: int, value: int)
    requires sum * power as real == scaled as real
    ensures (sum + value as real) * 0.5 * (2 * power) as real == (scaled + power * value) as real
  {
    calc {
      (sum + value as real) * 0.5 * (2 * power) as real;
      (sum + value as real) * power as real;
      scaled as real + value as real * power as real;
    }
  }

  /** The remaining time, in integers. */
  lemma TimeInIntegers(points: seq<DataPoint>, now: int)
    requires points != []
    ensures ReportedTime(points, now) ==
      Round(Doubling(points, now, |points|) as real / (PowerOfTwo(|points|) - 1) as real)
  {
    hide Round, Aged, HalvingSum, HalvingWeight, Doubling, PowerOfTwo, Largest;
    var n := |points|;
    HalvingIsDoubling(points, now, n);
    HalvingBounds(points, now, n, 0, Largest(points, now));
    ScaledQuotient(HalvingSum(points, now, n), HalvingWeight(n), PowerOfTwo(n) as real,
      Doubling(points, now, n) as real, (PowerOfTwo(n) - 1) as real);
  }

  /** Of two estimates the later one counts twice. */
  lemma TwoEstimates(x: nat, y: nat, now: int)
    ensures ReportedTime([DataPoint(x, now), DataPoint(y, now)], now) == Round((x + 2 * y) as real / 3.0)
  {
    hide Round;
    var points := [DataPoint(x, now), DataPoint(y, now)];
    TimeInIntegers(points, now);
    assert Doubling(points, now, 1) == x;
    assert Doubling(points, now, 2) == x + 2 * y;
  }

  /** While a transfer moves at a steady rate the remaining time counts down exactly. */
  lemma SteadyTime(points: seq<DataPoint>, rate: int, total: int, before: seq<DataPoint>, after: seq<DataPoint>,
                   now: int, speed: int, seconds: int, left: nat)
    requires |points| >= 4 && InOrder(points) && Steady(points, rate) && rate > 0
    requires points[0].time < points[|points| - 1].time
    requires Recalculated(points, total, before, after, now, speed, seconds)
    requires total - points[|points| - 1].bytes == rate * left
    requires forall i :: |before| - 4 <= i < |before| && 0 <= i ==> Aged(before[i], now) == left
    ensures speed == rate && seconds == left
  {
    hide Round, Aged, ReportedSpeed, ReportedTime, TotalWeight, Steady, InOrder;
    SteadySpeed(points, rate);
    var last := after[|after| - 1];
    assert (rate * left) as real / rate as real == left as real;
    RoundInt(left);
    AgedNow(last);
    forall i | 0 <= i < |after| ensures left <= Aged(after[i], now) <= left {
      if i < |after| - 1 {
        assert after[i] == after[..|after| - 1][i] == LastFour(before)[i];
      }
    }
    TimeIsConvex(after, now, left, left);
  }

  lemma AgedNow(point: DataPoint)
    ensures Aged(point, point.time) == if point.bytes < 0 then 0 else point.bytes
  {
  }
}
