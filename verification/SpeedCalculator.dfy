/** The speed and remaining-time estimate of a transfer (`TransferSpeedCalculator`). Doubles are
    reals, the steady clock counts nanoseconds. */
module SpeedCalculator {

  const WEIGHT_RAMP_MILLIS := 2000
  const MIN_DATA_POINTS := 4
  const NANOS_PER_MILLI := 1_000_000
  const NANOS_PER_SECOND := 1_000_000_000

  /** A sample; in the list of time estimates `bytes` holds seconds. */
  datatype DataPoint = DataPoint(bytes: int, time: int)

  function Abs(x: int): int {
    if x < 0 then -x else x
  }

  function Max(a: int, b: int): int {
    if a < b then b else a
  }

  /** `duration_cast` truncates towards zero. */
  function Truncated(duration: int, unit: nat): int
    requires unit > 0
  {
    if duration >= 0 then duration / unit else -(-duration / unit)
  }

  /** `round`: halves go away from zero. */
  function Round(x: real): int {
    if x >= 0.0 then (x + 0.5).Floor else -((0.5 - x).Floor)
  }

  lemma RoundMonotone(x: real, y: real)
    requires x <= y
    ensures Round(x) <= Round(y)
  {
  }

  // ----- the window --------------------------------------------------------------------

  /** What is left of the window when samples older than `notAfter` may go. */
  function Trimmed(points: seq<DataPoint>, notAfter: int): (rest: seq<DataPoint>)
    ensures |rest| <= |points| && rest == points[|points| - |rest|..]
    ensures rest != points ==> |rest| >= MIN_DATA_POINTS
  {
    if |points| > MIN_DATA_POINTS && points[0].time < notAfter then Trimmed(points[1..], notAfter) else points
  }

  /** Samples before this moment may go. */
  function WindowStart(time: int): int {
    time - WEIGHT_RAMP_MILLIS * NANOS_PER_MILLI
  }

  ghost predicate InOrder(points: seq<DataPoint>) {
    forall i, j :: 0 <= i < j < |points| ==> points[i].time <= points[j].time
  }

  /** `window` is the end of `samples`, and all of it while there are fewer than four. */
  ghost predicate IsWindow(window: seq<DataPoint>, samples: seq<DataPoint>) {
    && |window| <= |samples| && window == samples[|samples| - |window|..]
    && (window != samples ==> |window| >= MIN_DATA_POINTS)
  }

  // ----- fragments between neighbouring samples ----------------------------------------

  function Age(points: seq<DataPoint>, i: nat): int
    requires i < |points|
  {
    Truncated(points[|points| - 1].time - points[i].time, NANOS_PER_MILLI)
  }

  function FragmentMillis(points: seq<DataPoint>, i: nat): int
    requires i + 1 < |points|
  {
    Abs(Age(points, i) - Age(points, i + 1))
  }

  function Ramp(points: seq<DataPoint>): int
    requires points != []
  {
    Max(Age(points, 0), WEIGHT_RAMP_MILLIS)
  }

  lemma RampIsPositive(points: seq<DataPoint>)
    requires points != []
    ensures Ramp(points) > 0
  {
  }

  function Speed(points: seq<DataPoint>, i: nat): real
    requires i + 1 < |points| && FragmentMillis(points, i) != 0
  {
    Abs(points[i + 1].bytes - points[i].bytes) as real / FragmentMillis(points, i) as real * 1000.0
  }

  /** Newer and longer fragments weigh more. */
  function Weight(points: seq<DataPoint>, i: nat): real
    requires i + 1 < |points|
  {
    var center := (Age(points, i) + Age(points, i + 1)) as real / 2.0;
    (1.0 - center / Ramp(points) as real) * (FragmentMillis(points, i) as real / 100.0)
  }

  function TotalWeight(points: seq<DataPoint>, n: nat): real
    requires n < |points| || n == 0
  {
    if n == 0 then 0.0
    else TotalWeight(points, n - 1) + if FragmentMillis(points, n - 1) == 0 then 0.0 else Weight(points, n - 1)
  }

  function WeightedSpeed(points: seq<DataPoint>, n: nat): real
    requires n < |points| || n == 0
  {
    if n == 0 then 0.0
    else WeightedSpeed(points, n - 1) +
         (if FragmentMillis(points, n - 1) == 0 then 0.0 else Speed(points, n - 1) * Weight(points, n - 1))
  }

  lemma PositiveProduct(a: real, b: real)
    requires a > 0.0 && b > 0.0
    ensures a * b > 0.0
  {
  }

  lemma BelowRamp(center: real, ramp: real)
    requires 0.0 < ramp && center < ramp
    ensures center / ramp < 1.0
  {
    if center / ramp >= 1.0 {
      assert center / ramp * ramp == center;
    }
  }

  lemma AgesFall(points: seq<DataPoint>, i: nat)
    requires InOrder(points) && i + 1 < |points|
    ensures 0 <= Age(points, i + 1) <= Age(points, i) <= Ramp(points)
  {
    var last := points[|points| - 1].time;
    assert last - points[i].time <= last - points[0].time;
  }

  /** With non-decreasing times, a fragment of positive length has positive weight. */
  lemma WeightsArePositive(points: seq<DataPoint>, i: nat)
    requires InOrder(points) && i + 1 < |points| && FragmentMillis(points, i) != 0
    ensures Weight(points, i) > 0.0
  {
    AgesFall(points, i);
    var sum, ramp := Age(points, i) + Age(points, i + 1), Ramp(points);
    assert sum < 2 * ramp;
    var center := sum as real / 2.0;
    BelowRamp(center, ramp as real);
    var weightTime, weightLength := 1.0 - center / ramp as real, FragmentMillis(points, i) as real / 100.0;
    assert Weight(points, i) == weightTime * weightLength;
    assert weightTime > 0.0;
    assert weightLength > 0.0;
    PositiveProduct(weightTime, weightLength);
  }

  /** A sum of weighted values between low and high, for that total weight. */
  ghost predicate Averaging(total: real, sum: real, low: real, high: real) {
    low * total <= sum <= high * total
  }

  lemma WeightedStep(total: real, sum: real, weight: real, value: real, low: real, high: real)
    requires weight >= 0.0 && low <= value <= high
    requires Averaging(total, sum, low, high)
    ensures Averaging(total + weight, sum + value * weight, low, high)
  {
    assert (value - low) * weight >= 0.0;
    assert (high - value) * weight >= 0.0;
  }

  lemma ProductOrder(a: real, b: real, factor: real)
    requires a < b && factor > 0.0
    ensures a * factor < b * factor
  {
    PositiveProduct(b - a, factor);
  }

  lemma QuotientBetween(total: real, sum: real, low: real, high: real)
    requires total > 0.0 && Averaging(total, sum, low, high)
    ensures low <= sum / total <= high
  {
    var q := sum / total;
    assert q * total == sum;
    if q < low {
      ProductOrder(q, low, total);
    }
    if high < q {
      ProductOrder(high, q, total);
    }
  }

  ghost predicate SpeedsBetween(points: seq<DataPoint>, low: real, high: real) {
    forall i :: 0 <= i && i + 1 < |points| && FragmentMillis(points, i) != 0 ==> low <= Speed(points, i) <= high
  }

  lemma {:induction false} TotalNotNegative(points: seq<DataPoint>, n: nat)
    requires InOrder(points) && (n < |points| || n == 0)
    ensures TotalWeight(points, n) >= 0.0
    ensures TotalWeight(points, n) == 0.0 <==> forall i :: 0 <= i < n ==> FragmentMillis(points, i) == 0
  {
    hide Weight, FragmentMillis, InOrder;
    if n > 0 {
      TotalNotNegative(points, n - 1);
      if FragmentMillis(points, n - 1) != 0 {
        WeightsArePositive(points, n - 1);
      }
    }
  }

  lemma SpeedBetween(points: seq<DataPoint>, i: nat, low: real, high: real)
    requires SpeedsBetween(points, low, high) && i + 1 < |points| && FragmentMillis(points, i) != 0
    ensures low <= Speed(points, i) <= high
  {
    hide FragmentMillis, Speed;
  }

  lemma NoAverage(low: real, high: real)
    ensures Averaging(0.0, 0.0, low, high)
  {
  }

  lemma {:induction false} WeightedBounds(points: seq<DataPoint>, n: nat, low: real, high: real)
    requires InOrder(points) && (n < |points| || n == 0) && SpeedsBetween(points, low, high)
    ensures Averaging(TotalWeight(points, n), WeightedSpeed(points, n), low, high)
  {
    hide Weight, Speed, FragmentMillis, InOrder, Averaging, SpeedsBetween;
    if n == 0 {
      NoAverage(low, high);
    } else {
      WeightedBounds(points, n - 1, low, high);
      if FragmentMillis(points, n - 1) != 0 {
        WeightsArePositive(points, n - 1);
        SpeedBetween(points, n - 1, low, high);
        var weight, speed := Weight(points, n - 1), Speed(points, n - 1);
        WeightedStep(TotalWeight(points, n - 1), WeightedSpeed(points, n - 1), weight, speed, low, high);
        assert TotalWeight(points, n) == TotalWeight(points, n - 1) + weight;
        assert WeightedSpeed(points, n) == WeightedSpeed(points, n - 1) + speed * weight;
      }
    }
  }

  /** The speed that is reported for a window: 0 when no time has passed. */
  function ReportedSpeed(points: seq<DataPoint>): int
    requires points != []
  {
    var total := TotalWeight(points, |points| - 1);
    if total == 0.0 then 0 else Round(WeightedSpeed(points, |points| - 1) / total)
  }

  /** The reported speed lies between the rounded speeds of the slowest and the fastest
      fragment of the window; it is 0 if every fragment is shorter than a millisecond. */
  lemma SpeedIsConvex(points: seq<DataPoint>, low: real, high: real)
    requires points != [] && InOrder(points) && SpeedsBetween(points, low, high)
    ensures (exists i :: 0 <= i && i + 1 < |points| && FragmentMillis(points, i) != 0) ==>
      Round(low) <= ReportedSpeed(points) <= Round(high)
    ensures (forall i :: 0 <= i && i + 1 < |points| ==> FragmentMillis(points, i) == 0) ==> ReportedSpeed(points) == 0
  {
    hide Weight, Speed, FragmentMillis, Round;
    var n := |points| - 1;
    TotalNotNegative(points, n);
    WeightedBounds(points, n, low, high);
    var total := TotalWeight(points, n);
    if total > 0.0 {
      var q := WeightedSpeed(points, n) / total;
      QuotientBetween(total, WeightedSpeed(points, n), low, high);
      RoundMonotone(low, q);
      RoundMonotone(q, high);
    }
  }

  // ----- the remaining time ------------------------------------------------------------

  /** An earlier estimate, less the seconds that have passed since, but never negative. */
  function Aged(point: DataPoint, now: int): int {
    Max(0, point.bytes - Truncated(now - point.time, NANOS_PER_SECOND))
  }

  /** Every later estimate halves the weight of all earlier ones. */
  function HalvingWeight(n: nat): real {
    if n == 0 then 0.0 else (HalvingWeight(n - 1) + 1.0) * 0.5
  }

  function HalvingSum(points: seq<DataPoint>, now: int, n: nat): real
    requires n <= |points|
  {
    if n == 0 then 0.0 else (HalvingSum(points, now, n - 1) + Aged(points[n - 1], now) as real) * 0.5
  }

  function ReportedTime(points: seq<DataPoint>, now: int): int {
    if HalvingWeight(|points|) > 0.0 then Round(HalvingSum(points, now, |points|) / HalvingWeight(|points|)) else -1
  }

  ghost predicate EstimatesBetween(points: seq<DataPoint>, now: int, low: int, high: int) {
    forall i :: 0 <= i < |points| ==> low <= Aged(points[i], now) <= high
  }

  lemma {:induction false} HalvingBounds(points: seq<DataPoint>, now: int, n: nat, low: int, high: int)
    requires n <= |points| && EstimatesBetween(points, now, low, high)
    ensures n > 0 ==> HalvingWeight(n) > 0.0
    ensures HalvingWeight(n) >= 0.0
    ensures Averaging(HalvingWeight(n), HalvingSum(points, now, n), low as real, high as real)
  {
    hide Aged, Averaging, EstimatesBetween;
    if n == 0 {
      NoAverage(low as real, high as real);
    } else {
      HalvingBounds(points, now, n - 1, low, high);
      EstimateBetween(points, now, n - 1, low, high);
      var value := Aged(points[n - 1], now) as real;
      WeightedStep(HalvingWeight(n - 1), HalvingSum(points, now, n - 1), 1.0, value, low as real, high as real);
      HalfAverage(HalvingWeight(n - 1) + 1.0, HalvingSum(points, now, n - 1) + value, low as real, high as real);
    }
  }

  lemma EstimateBetween(points: seq<DataPoint>, now: int, i: nat, low: int, high: int)
    requires EstimatesBetween(points, now, low, high) && i < |points|
    ensures low <= Aged(points[i], now) <= high
  {
    hide Aged;
  }

  lemma HalfAverage(total: real, sum: real, low: real, high: real)
    requires Averaging(total, sum, low, high)
    ensures Averaging(total * 0.5, sum * 0.5, low, high)
  {
  }

  lemma RoundInt(x: int)
    ensures Round(x as real) == x
  {
  }

  /** The remaining time lies between the smallest and the largest aged estimate; in
      particular it is not negative. */
  lemma TimeIsConvex(points: seq<DataPoint>, now: int, low: int, high: int)
    requires points != [] && EstimatesBetween(points, now, low, high)
    ensures low <= ReportedTime(points, now) <= high
    ensures ReportedTime(points, now) >= 0
  {
    hide Round, Aged;
    HalvingBounds(points, now, |points|, low, high);
    var q := HalvingSum(points, now, |points|) / HalvingWeight(|points|);
    QuotientBetween(HalvingWeight(|points|), HalvingSum(points, now, |points|), low as real, high as real);
    RoundInt(low);
    RoundInt(high);
    RoundMonotone(low as real, q);
    RoundMonotone(q, high as real);
    NotNegative(points, now, |points|);
    QuotientNotNegative(HalvingSum(points, now, |points|), HalvingWeight(|points|));
    RoundInt(0);
    RoundMonotone(0.0, q);
  }

  lemma QuotientNotNegative(a: real, b: real)
    requires a >= 0.0 && b > 0.0
    ensures a / b >= 0.0
  {
  }

  lemma {:induction false} NotNegative(points: seq<DataPoint>, now: int, n: nat)
    requires n <= |points|
    ensures HalvingSum(points, now, n) >= 0.0
  {
    if n > 0 {
      NotNegative(points, now, n - 1);
    }
  }

  function LastFour(points: seq<DataPoint>): seq<DataPoint> {
    if |points| <= 4 then points else points[|points| - 4..]
  }

  /** An upper bound of the aged estimates. */
  function Largest(points: seq<DataPoint>, now: int): (high: int)
    ensures EstimatesBetween(points, now, 0, high)
  {
    if points == [] then 0 else
      var rest := Largest(points[1..], now);
      Max(rest, Aged(points[0], now))
  }

  /** A new estimate joins the last four, and the remaining time is computed from them. The
      value of remaining / 0.0 is left open. */
  ghost predicate Estimated(before: seq<DataPoint>, after: seq<DataPoint>, remaining: int, speed: int, now: int, seconds: int) {
    && after != [] && after[..|after| - 1] == LastFour(before)
    && after[|after| - 1].time == now
    && (speed != 0 ==> after[|after| - 1].bytes == Round(remaining as real / speed as real))
    && seconds == ReportedTime(after, now) && seconds >= 0
  }

  /** All that an update computes from the window: the speed, and the remaining time if time
      has passed and there are at least four samples. */
  ghost predicate Recalculated(points: seq<DataPoint>, total: int, before: seq<DataPoint>, after: seq<DataPoint>,
                               now: int, speed: int, seconds: int)
    requires points != []
  {
    && speed == ReportedSpeed(points)
    && if TotalWeight(points, |points| - 1) == 0.0 then seconds == -1 && after == before
       else if |points| < MIN_DATA_POINTS then seconds == -1 && after == []
       else Estimated(before, after, total - points[|points| - 1].bytes, speed, now, seconds)
  }

  lemma TrimmedWindow(window: seq<DataPoint>, samples: seq<DataPoint>, notAfter: int, point: DataPoint)
    requires IsWindow(window, samples)
    ensures IsWindow(Trimmed(window, notAfter) + [point], samples + [point])
  {
    hide Trimmed;
    var rest := Trimmed(window, notAfter);
    assert rest == samples[|samples| - |rest|..];
    assert (samples + [point])[|samples| - |rest|..] == rest + [point];
  }

  lemma NextInOrder(samples: seq<DataPoint>, point: DataPoint)
    requires InOrder(samples) && forall i :: 0 <= i < |samples| ==> samples[i].time <= point.time
    ensures InOrder(samples + [point])
  {
  }

  lemma NoWeightAlone(points: seq<DataPoint>)
    requires |points| == 1
    ensures TotalWeight(points, 0) == 0.0 && ReportedSpeed(points) == 0
  {
  }

  // ----- the class ---------------------------------------------------------------------

  class TransferSpeedCalculator {
    var points: seq<DataPoint>
    var timePoints: seq<DataPoint>
    var totalBytes: int
    var bytesPerSec: int
    var remainingSeconds: int

    /** All samples since the last reset. */
    ghost var samples: seq<DataPoint>

    ghost predicate Valid()
      reads this
    {
      && IsWindow(points, samples) && InOrder(samples)
    }

    constructor ()
      ensures Valid() && samples == [] && bytesPerSec == 0 && remainingSeconds == -1
    {
      points, timePoints, samples := [], [], [];
      totalBytes, bytesPerSec, remainingSeconds := 1000000, 0, -1;
    }

    /** `time` and `later` are the two clock readings of an update; `undefined` is what the
        conversion of remaining / 0.0 to an integer yields. */
    method Reset(currentBytes: int, totalBytes: int, time: int, later: int, undefined: int)
      requires Valid()
      modifies this
      ensures Valid() && this.totalBytes == totalBytes
      ensures samples == points == [DataPoint(currentBytes, time)] && timePoints == []
      ensures bytesPerSec == 0 && remainingSeconds == -1
    {
      points, timePoints, samples := [], [], [];
      this.totalBytes := totalBytes;
      Update(currentBytes, time, later, undefined);
      NoWeightAlone(points);
    }

    method Update(currentBytes: int, time: int, later: int, undefined: int)
      requires Valid()
      requires forall i :: 0 <= i < |samples| ==> samples[i].time <= time
      modifies this
      ensures Valid() && totalBytes == old(totalBytes)
      ensures samples == old(samples) + [DataPoint(currentBytes, time)]
      ensures points == Trimmed(old(points), WindowStart(time)) + [DataPoint(currentBytes, time)]
      ensures Recalculated(points, totalBytes, old(timePoints), timePoints, later, bytesPerSec, remainingSeconds)
    {
      hide *;
      ValidIs();
      NextInOrder(samples, DataPoint(currentBytes, time));
      RemoveOldestPoints(time);
      TrimmedWindow(old(points), samples, WindowStart(time), DataPoint(currentBytes, time));
      points := points + [DataPoint(currentBytes, time)];
      samples := samples + [DataPoint(currentBytes, time)];
      RecalculateSpeedAndTime(later, undefined);
      ValidIs();
    }

    lemma ValidIs()
      ensures Valid() <==> IsWindow(points, samples) && InOrder(samples)
    {
    }

    method RemoveOldestPoints(time: int)
      modifies this`points
      ensures points == Trimmed(old(points), WindowStart(time))
    {
      var notAfter := WindowStart(time);
      while |points| > MIN_DATA_POINTS
        invariant Trimmed(points, notAfter) == Trimmed(old(points), notAfter)
      {
        if points[0].time >= notAfter {
          break;
        } else {
          points := points[1..];
        }
      }
    }

    /** One fragment: its length, and if that is not 0 its weight and its speed. */
    method Fragment(i: nat, currentTime: int, rampMillis: int) returns (fragMillis: int, weight: real, speed: real)
      requires i + 1 < |points| && currentTime == points[|points| - 1].time && rampMillis == Ramp(points)
      ensures fragMillis == FragmentMillis(points, i)
      ensures fragMillis != 0 ==> weight == Weight(points, i) && speed == Speed(points, i)
    {
      hide Truncated, Abs, Ramp;
      RampIsPositive(points);
      weight, speed := 0.0, 0.0;
      var fragEndTime := Truncated(currentTime - points[i + 1].time, NANOS_PER_MILLI);
      var fragStartTime := Truncated(currentTime - points[i].time, NANOS_PER_MILLI);
      fragMillis := Abs(fragStartTime - fragEndTime);
      if fragMillis == 0 {
        return;
      }
      var fragBytes := Abs(points[i + 1].bytes - points[i].bytes);
      var fragCenterMillis := (fragStartTime + fragEndTime) as real / 2.0;
      var weightTime := 1.0 - fragCenterMillis / rampMillis as real;
      var weightLength := fragMillis as real / 100.0;
      weight := weightTime * weightLength;
      speed := fragBytes as real / fragMillis as real * 1000.0;
    }

    method RecalculateSpeedAndTime(later: int, undefined: int)
      requires points != []
      modifies this`bytesPerSec, this`remainingSeconds, this`timePoints
      ensures Recalculated(points, totalBytes, old(timePoints), timePoints, later, bytesPerSec, remainingSeconds)
    {
      hide Estimated, Round, Weight, Speed, FragmentMillis;
      bytesPerSec := 0;
      remainingSeconds := -1;
      var currentTime := points[|points| - 1].time;
      var rampMillis := Truncated(currentTime - points[0].time, NANOS_PER_MILLI);
      if rampMillis < WEIGHT_RAMP_MILLIS {
        rampMillis := WEIGHT_RAMP_MILLIS;
      }
      var totalWeight, totalWeightedBytes := 0.0, 0.0;
      var next := 1;
      while next < |points|
        invariant 1 <= next <= |points|
        invariant bytesPerSec == 0 && remainingSeconds == -1 && timePoints == old(timePoints)
        invariant totalWeight == TotalWeight(points, next - 1)
        invariant totalWeightedBytes == WeightedSpeed(points, next - 1)
      {
        var fragMillis, weight, speed := Fragment(next - 1, currentTime, rampMillis);
        if fragMillis == 0 {
          next := next + 1;
          continue;
        }
        totalWeight := totalWeight + weight;
        totalWeightedBytes := totalWeightedBytes + speed * weight;
        next := next + 1;
      }
      if totalWeight == 0.0 {
        return;
      }
      bytesPerSec := Round(totalWeightedBytes / totalWeight);
      CalculateTime(points[|points| - 1].bytes, later, undefined);
    }

    method CalculateTime(current: int, later: int, undefined: int)
      modifies this`remainingSeconds, this`timePoints
      ensures |points| < MIN_DATA_POINTS ==> timePoints == [] && remainingSeconds == old(remainingSeconds)
      ensures |points| >= MIN_DATA_POINTS ==>
        Estimated(old(timePoints), timePoints, totalBytes - current, bytesPerSec, later, remainingSeconds)
    {
      if |points| < MIN_DATA_POINTS {
        timePoints := [];
        return;
      }
      hide Round, ReportedTime;
      var remaining := totalBytes - current;
      var targetSeconds := if bytesPerSec == 0 then undefined else Round(remaining as real / bytesPerSec as real);
      timePoints := timePoints + [DataPoint(targetSeconds, later)];
      while |timePoints| > 5
        invariant timePoints != [] && timePoints[|timePoints| - 1] == DataPoint(targetSeconds, later)
        invariant LastFour(timePoints[..|timePoints| - 1]) == LastFour(old(timePoints))
        decreases |timePoints|
      {
        ghost var earlier := timePoints[..|timePoints| - 1];
        timePoints := timePoints[1..];
        assert timePoints[..|timePoints| - 1] == earlier[1..];
      }
      AverageTime(later);
    }

    method AverageTime(later: int)
      requires timePoints != []
      modifies this`remainingSeconds
      ensures remainingSeconds == ReportedTime(timePoints, later) && remainingSeconds >= 0
    {
      hide Round;
      var totalWeight, totalSeconds := 0.0, 0.0;
      for i := 0 to |timePoints|
        invariant totalWeight == HalvingWeight(i) && totalSeconds == HalvingSum(timePoints, later, i)
      {
        var secondsSincePoint := Truncated(later - timePoints[i].time, NANOS_PER_SECOND);
        totalWeight := totalWeight + 1.0;
        totalSeconds := totalSeconds + Max(0, timePoints[i].bytes - secondsSincePoint) as real;
        totalWeight := totalWeight * 0.5;
        totalSeconds := totalSeconds * 0.5;
      }
      if totalWeight > 0.0 {
        remainingSeconds := Round(totalSeconds / totalWeight);
      } else {
        remainingSeconds := -1;
      }
      TimeIsConvex(timePoints, later, 0, Largest(timePoints, later));
    }
  }
}
