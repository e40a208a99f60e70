/** The least-squares memory trend of load-test/analyzer.go and what the anomaly
    detection makes of it.  Floating point numbers are modelled as reals. */
module Trend {

  // ---------- the sums ----------

  function SumX(n: nat): real { if n == 0 then 0.0 else SumX(n - 1) + (n - 1) as real }

  function SumXX(n: nat): real {
    if n == 0 then 0.0 else SumXX(n - 1) + (n - 1) as real * (n - 1) as real
  }

  function SumY(ys: seq<real>): real {
    if ys == [] then 0.0 else SumY(ys[..|ys| - 1]) + ys[|ys| - 1]
  }

  /** The sum of each value times its index. */
  function SumXY(ys: seq<real>): real {
    if ys == [] then 0.0 else SumXY(ys[..|ys| - 1]) + (|ys| - 1) as real * ys[|ys| - 1]
  }

  /** n Σxy - Σx Σy, and with y = x the denominator of the slope. */
  function Cross(n: real, sx: real, sy: real, sxy: real): real { n * sxy - sx * sy }

  function Abs(x: real): real { if x < 0.0 then -x else x }

  /** The quotient as the source computes it from the five sums, guard included. */
  function Quotient(n: real, sx: real, sy: real, sxy: real, sxx: real): real {
    var d := Cross(n, sx, sx, sxx);
    if Abs(d) < 0.000000001 then 0.0 else
      assert d != 0.0;
      Cross(n, sx, sy, sxy) / d
  }

  function Slope(ys: seq<real>): real {
    if |ys| < 2 then 0.0
    else Quotient(|ys| as real, SumX(|ys|), SumY(ys), SumXY(ys), SumXX(|ys|))
  }

  function Numerator(ys: seq<real>): real {
    Cross(|ys| as real, SumX(|ys|), SumY(ys), SumXY(ys))
  }

  function Denominator(n: nat): real { Cross(n as real, SumX(n), SumX(n), SumXX(n)) }

  lemma SumsNext(ys: seq<real>, i: nat)
    requires i < |ys|
    ensures SumY(ys[..i + 1]) == SumY(ys[..i]) + ys[i]
    ensures SumXY(ys[..i + 1]) == SumXY(ys[..i]) + i as real * ys[i]
  {
    var init := ys[..i + 1];
    assert init[..i] == ys[..i] && init[|init| - 1] == ys[i];
  }

  /** The accumulation loop of calcTrend. */
  method Accumulate(ys: seq<real>) returns (sumX: real, sumY: real, sumXY: real, sumX2: real)
    ensures sumX == SumX(|ys|) && sumX2 == SumXX(|ys|) && sumY == SumY(ys) && sumXY == SumXY(ys)
  {
    sumX, sumY, sumXY, sumX2 := 0.0, 0.0, 0.0, 0.0;
    for i := 0 to |ys|
      invariant sumX == SumX(i) && sumX2 == SumXX(i)
      invariant sumY == SumY(ys[..i]) && sumXY == SumXY(ys[..i])
    {
      SumsNext(ys, i);
      var x, y := i as real, ys[i];
      sumX, sumY := sumX + x, sumY + y;
      sumXY, sumX2 := sumXY + x * y, sumX2 + x * x;
    }
    assert ys[..|ys|] == ys;
  }

  /** The closing lines of calcTrend. */
  method Divide(n: real, sumX: real, sumY: real, sumXY: real, sumX2: real) returns (slope: real)
    ensures slope == Quotient(n, sumX, sumY, sumXY, sumX2)
  {
    var denom := n * sumX2 - sumX * sumX;
    assert denom == Cross(n, sumX, sumX, sumX2);
    if Abs(denom) < 0.000000001 { return 0.0; }
    var numer := n * sumXY - sumX * sumY;
    assert numer == Cross(n, sumX, sumY, sumXY);
    slope := numer / denom;
  }

  method CalcTrend(ys: seq<real>) returns (slope: real)
    ensures slope == Slope(ys)
  {
    var n := |ys| as real;
    if n < 2.0 { return 0.0; }
    var sumX, sumY, sumXY, sumX2 := Accumulate(ys);
    slope := Divide(n, sumX, sumY, sumXY, sumX2);
  }

  // ---------- the denominator ----------

  lemma {:induction false} SumXClosed(n: nat)
    ensures SumX(n) == n as real * (n as real - 1.0) / 2.0
  {
    if n > 0 { SumXClosed(n - 1); }
  }

  lemma {:induction false} SumXXClosed(n: nat)
    ensures SumXX(n) == (n as real - 1.0) * n as real * (2.0 * n as real - 1.0) / 6.0
  {
    if n > 0 {
      SumXXClosed(n - 1);
      var r := n as real;
      assert (n - 1) as real == r - 1.0;
      assert (r - 2.0) * (r - 1.0) * (2.0 * r - 3.0) / 6.0 + (r - 1.0) * (r - 1.0)
          == (r - 1.0) * r * (2.0 * r - 1.0) / 6.0;
    }
  }

  /** n^2 (n^2 - 1) / 12, for every sample count. */
  lemma DenominatorClosed(n: nat)
    ensures Denominator(n) == n as real * n as real * (n as real * n as real - 1.0) / 12.0
  {
    SumXClosed(n);
    SumXXClosed(n);
    var r := n as real;
    assert r * ((r - 1.0) * r * (2.0 * r - 1.0) / 6.0) - (r * (r - 1.0) / 2.0) * (r * (r - 1.0) / 2.0)
        == r * r * (r * r - 1.0) / 12.0;
  }

  /** From two samples on, the guard against a small denominator never fires. */
  lemma GuardNeverFires(n: nat)
    requires n >= 2
    ensures Denominator(n) >= 1.0 && !(Abs(Denominator(n)) < 0.000000001)
  {
    DenominatorClosed(n);
    var r := n as real;
    assert r * r >= 4.0 by { assert r * r >= 2.0 * r; }
    assert r * r * (r * r - 1.0) >= 4.0 * (r * r - 1.0) >= 12.0;
  }

  // ---------- affine data ----------

  ghost predicate Affine(ys: seq<real>, a: real, b: real) {
    forall i :: 0 <= i < |ys| ==> ys[i] == a * i as real + b
  }

  function Line(a: real, b: real, u: real, v: real): real { a * u + b * v }

  lemma LineStepY(a: real, b: real, x: real, sx: real, sy: real, y: real, x': real, sx': real)
    requires sy == Line(a, b, sx, x) && y == a * x + b && x' == x + 1.0 && sx' == sx + x
    ensures sy + y == Line(a, b, sx', x')
  {
    assert a * sx' == a * sx + a * x && b * x' == b * x + b;
  }

  lemma LineStepXY(a: real, b: real, x: real, sx: real, sxx: real, sxy: real, y: real, sx': real, sxx': real)
    requires sxy == Line(a, b, sxx, sx) && y == a * x + b && sx' == sx + x && sxx' == sxx + x * x
    ensures sxy + x * y == Line(a, b, sxx', sx')
  {
    var q := x * x;
    assert x * y == a * q + b * x;
    assert a * sxx' == a * sxx + a * q && b * sx' == b * sx + b * x;
  }

  lemma {:induction false} AffineSumY(ys: seq<real>, a: real, b: real)
    requires Affine(ys, a, b)
    ensures SumY(ys) == Line(a, b, SumX(|ys|), |ys| as real)
  {
    if ys == [] {
      TimesZero(a, SumX(|ys|));
      TimesZero(b, |ys| as real);
    } else {
      var k := |ys| - 1;
      AffineSumY(ys[..k], a, b);
      LineStepY(a, b, k as real, SumX(k), SumY(ys[..k]), ys[k], |ys| as real, SumX(|ys|));
    }
  }

  lemma {:induction false} AffineSumXY(ys: seq<real>, a: real, b: real)
    requires Affine(ys, a, b)
    ensures SumXY(ys) == Line(a, b, SumXX(|ys|), SumX(|ys|))
  {
    if ys == [] {
      TimesZero(a, SumXX(|ys|));
      TimesZero(b, SumX(|ys|));
    } else {
      var k := |ys| - 1;
      AffineSumXY(ys[..k], a, b);
      LineStepXY(a, b, k as real, SumX(k), SumXX(k), SumXY(ys[..k]), ys[k], SumX(|ys|), SumXX(|ys|));
    }
  }

  lemma AffineCross(a: real, b: real, n: real, sx: real, sy: real, sxy: real, sxx: real)
    requires sy == Line(a, b, sx, n) && sxy == Line(a, b, sxx, sx)
    ensures Cross(n, sx, sy, sxy) == a * Cross(n, sx, sx, sxx)
  {
    calc {
      n * sxy - sx * sy;
      n * (a * sxx + b * sx) - sx * (a * sx + b * n);
      a * (n * sxx - sx * sx);
    }
  }

  lemma QuotientOfProduct(m: real, a: real, d: real)
    requires d >= 1.0 && m == a * d
    ensures m / d == a
  {
  }

  lemma AffineQuotient(a: real, b: real, n: real, sx: real, sy: real, sxy: real, sxx: real)
    requires sy == Line(a, b, sx, n) && sxy == Line(a, b, sxx, sx)
    requires Cross(n, sx, sx, sxx) >= 1.0
    ensures Quotient(n, sx, sy, sxy, sxx) == a
  {
    AffineCross(a, b, n, sx, sy, sxy, sxx);
    QuotientOfProduct(Cross(n, sx, sy, sxy), a, Cross(n, sx, sx, sxx));
  }

  /** A straight line has exactly its own slope. */
  lemma AffineSlope(ys: seq<real>, a: real, b: real)
    requires Affine(ys, a, b) && |ys| >= 2
    ensures Slope(ys) == a
  {
    AffineSumY(ys, a, b);
    AffineSumXY(ys, a, b);
    GuardNeverFires(|ys|);
    AffineQuotient(a, b, |ys| as real, SumX(|ys|), SumY(ys), SumXY(ys), SumXX(|ys|));
  }

  // ---------- monotone data ----------

  /** The sum of (n - i)(y - ys[i]) over the samples ys. */
  ghost function Spread(ys: seq<real>, n: real, y: real): real {
    if ys == [] then 0.0
    else
      var i := |ys| - 1;
      Spread(ys[..i], n, y) + (n - i as real) * (y - ys[i])
  }

  /** The sum of n - i over the first m indices. */
  ghost function Weights(m: nat, n: real): real {
    if m == 0 then 0.0 else Weights(m - 1, n) + (n - (m - 1) as real)
  }

  /** The sum of (n - i) ys[i]. */
  ghost function Weighted(ys: seq<real>, n: real): real {
    if ys == [] then 0.0
    else
      var i := |ys| - 1;
      Weighted(ys[..i], n) + (n - i as real) * ys[i]
  }

  lemma SpreadStep(y: real, d: real, last: real, s: real, w: real, v: real, s': real, w': real, v': real)
    requires s == y * w - v
    requires s' == s + d * (y - last) && w' == w + d && v' == v + d * last
    ensures s' == y * w' - v'
  {
    assert d * (y - last) == y * d - d * last;
    assert y * w' == y * w + y * d;
  }

  lemma {:induction false} SpreadIs(ys: seq<real>, n: real, y: real)
    ensures Spread(ys, n, y) == y * Weights(|ys|, n) - Weighted(ys, n)
  {
    if ys == [] {
      TimesZero(y, Weights(|ys|, n));
    } else {
      var k := |ys| - 1;
      var init := ys[..k];
      SpreadIs(init, n, y);
      SpreadStep(y, n - k as real, ys[k], Spread(init, n, y), Weights(k, n), Weighted(init, n),
                 Spread(ys, n, y), Weights(|ys|, n), Weighted(ys, n));
    }
  }

  lemma {:induction false} WeightsAre(m: nat, n: real)
    ensures Weights(m, n) == n * m as real - SumX(m)
  {
    if m == 0 {
      TimesZero(n, m as real);
    } else {
      WeightsAre(m - 1, n);
      OneMore(n, (m - 1) as real, m as real);
    }
  }

  lemma TimesZero(n: real, x: real)
    requires x == 0.0
    ensures n * x == 0.0
  {
  }

  lemma OneMore(n: real, x: real, x': real)
    requires x' == x + 1.0
    ensures n * x' == n * x + n
  {
  }

  lemma WeightedStep(n: real, x: real, last: real, v: real, sy: real, sxy: real, v': real, sy': real, sxy': real)
    requires v == n * sy - sxy
    requires v' == v + (n - x) * last && sy' == sy + last && sxy' == sxy + x * last
    ensures v' == n * sy' - sxy'
  {
    assert (n - x) * last == n * last - x * last;
    assert n * sy' == n * sy + n * last;
  }

  lemma {:induction false} WeightedIs(ys: seq<real>, n: real)
    ensures Weighted(ys, n) == n * SumY(ys) - SumXY(ys)
  {
    if ys == [] {
      TimesZero(n, SumY(ys));
    } else {
      var k := |ys| - 1;
      var init := ys[..k];
      WeightedIs(init, n);
      WeightedStep(n, k as real, ys[k], Weighted(init, n), SumY(init), SumXY(init),
                   Weighted(ys, n), SumY(ys), SumXY(ys));
    }
  }

  lemma {:induction false} SpreadNonNegative(ys: seq<real>, n: real, y: real)
    requires |ys| as real <= n && forall i :: 0 <= i < |ys| ==> ys[i] <= y
    ensures Spread(ys, n, y) >= 0.0
  {
    if ys != [] {
      var k := |ys| - 1;
      SpreadNonNegative(ys[..k], n, y);
      ProductNonNegative(n - k as real, y - ys[k]);
    }
  }

  lemma ProductNonNegative(a: real, b: real)
    requires a >= 0.0 && b >= 0.0
    ensures a * b >= 0.0
  {
  }

  ghost predicate NonDecreasing(ys: seq<real>) {
    forall i, j :: 0 <= i <= j < |ys| ==> ys[i] <= ys[j]
  }

  /** One more sample y at index n adds exactly its spread to the numerator. */
  lemma CrossGrows(n: real, sx: real, sy: real, sxy: real, y: real, s: real, w: real, v: real,
                   n': real, sx': real, sy': real, sxy': real)
    requires n' == n + 1.0 && sx' == sx + n && sy' == sy + y && sxy' == sxy + n * y
    requires s == y * w - v && w == n * n - sx && v == n * sy - sxy
    ensures Cross(n', sx', sy', sxy') == Cross(n, sx, sy, sxy) + s
  {
    var p := n * y;
    assert n' * sxy' == n * sxy + sxy + n * p + p;
    assert sx' * sy' == sx * sy + sx * y + n * sy + p;
    assert y * w == n * p - sx * y;
  }

  lemma {:induction false} NumeratorGrows(ys: seq<real>)
    requires ys != []
    ensures Numerator(ys)
         == Numerator(ys[..|ys| - 1]) + Spread(ys[..|ys| - 1], (|ys| - 1) as real, ys[|ys| - 1])
  {
    var k := |ys| - 1;
    var init, n, y := ys[..k], k as real, ys[k];
    SpreadIs(init, n, y);
    WeightsAre(k, n);
    WeightedIs(init, n);
    CrossGrows(n, SumX(k), SumY(init), SumXY(init), y, Spread(init, n, y), Weights(k, n), Weighted(init, n),
               |ys| as real, SumX(|ys|), SumY(ys), SumXY(ys));
  }

  /** Chebyshev's sum inequality, one sample at a time. */
  lemma {:induction false} NumeratorNonNegative(ys: seq<real>)
    requires NonDecreasing(ys)
    ensures Numerator(ys) >= 0.0
  {
    if ys != [] {
      var k := |ys| - 1;
      NumeratorNonNegative(ys[..k]);
      SpreadNonNegative(ys[..k], k as real, ys[k]);
      NumeratorGrows(ys);
    }
  }

  /** A phase whose memory never decreases has a slope of at least zero. */
  lemma GrowingSlope(ys: seq<real>)
    requires NonDecreasing(ys)
    ensures Slope(ys) >= 0.0
  {
    if |ys| >= 2 {
      NumeratorNonNegative(ys);
      GuardNeverFires(|ys|);
    }
  }

  // ---------- phases and anomalies ----------

  /** The fields of MetricsSnapshot that bear on memory. */
  datatype Snapshot = Snapshot(memoryAlloc: nat, numGC: nat)

  const U32: nat := 0x1_0000_0000

  datatype PhaseStats = PhaseStats(
    samples: nat, minMemory: nat, maxMemory: nat, avgMemory: real, gcCount: nat, memoryTrend: real)

  function Memory(snaps: seq<Snapshot>): seq<real> {
    seq(|snaps|, i requires 0 <= i < |snaps| => snaps[i].memoryAlloc as real)
  }

  /** The memory loop of calculatePhaseStats. */
  method MemoryBounds(snaps: seq<Snapshot>) returns (min: nat, max: nat, sum: real)
    requires snaps != []
    ensures forall i :: 0 <= i < |snaps| ==> min <= snaps[i].memoryAlloc <= max
    ensures exists i :: 0 <= i < |snaps| && snaps[i].memoryAlloc == min
    ensures exists i :: 0 <= i < |snaps| && snaps[i].memoryAlloc == max
    ensures sum == SumY(Memory(snaps))
  {
    min, max, sum := snaps[0].memoryAlloc, 0, 0.0;
    ghost var ys := Memory(snaps);
    for i := 0 to |snaps|
      invariant sum == SumY(ys[..i])
      invariant forall j :: 0 <= j < i ==> min <= snaps[j].memoryAlloc <= max
      invariant exists j :: 0 <= j < |snaps| && snaps[j].memoryAlloc == min
      invariant i == 0 ==> max == 0
      invariant i > 0 ==> exists j :: 0 <= j < i && snaps[j].memoryAlloc == max
    {
      SumsNext(ys, i);
      var m := snaps[i].memoryAlloc;
      sum := sum + m as real;
      if m > max { max := m; }
      if m < min { min := m; }
    }
    assert ys[..|ys|] == ys;
  }

  lemma MeanTimesCount(sum: real, n: real)
    requires n > 0.0
    ensures sum / n * n == sum
  {
  }

  method CalculatePhaseStats(snaps: seq<Snapshot>) returns (stats: PhaseStats)
    ensures stats.samples == |snaps|
    ensures snaps == [] ==> stats == PhaseStats(0, 0, 0, 0.0, 0, 0.0)
    ensures forall i :: 0 <= i < |snaps| ==> stats.minMemory <= snaps[i].memoryAlloc <= stats.maxMemory
    ensures snaps != [] ==> exists i :: 0 <= i < |snaps| && snaps[i].memoryAlloc == stats.minMemory
    ensures snaps != [] ==> exists i :: 0 <= i < |snaps| && snaps[i].memoryAlloc == stats.maxMemory
    ensures snaps != [] ==> stats.avgMemory * |snaps| as real == SumY(Memory(snaps))
    ensures snaps != [] ==> stats.gcCount == (snaps[|snaps| - 1].numGC - snaps[0].numGC) % U32
    ensures stats.memoryTrend == Slope(Memory(snaps))
  {
    if |snaps| == 0 { return PhaseStats(0, 0, 0, 0.0, 0, 0.0); }
    var min, max, sum := MemoryBounds(snaps);
    var n := |snaps| as real;
    MeanTimesCount(sum, n);
    var mean := sum / n;
    var trend := CalcTrend(Memory(snaps));
    var gc := (snaps[|snaps| - 1].numGC - snaps[0].numGC) % U32;
    stats := PhaseStats(|snaps|, min, max, mean, if |snaps| > 1 then gc else 0, trend);
  }

  datatype MemoryVerdict = Nothing | GcReleasing | GcPending | RetainedMedium | RetainedHigh

  /** The memory switch of detectAnomalies. */
  function Classify(baseline: PhaseStats, recovery: PhaseStats): MemoryVerdict {
    if baseline.samples == 0 || recovery.samples == 0 || baseline.maxMemory == 0 then Nothing
    else
      var ratio := recovery.minMemory as real / baseline.maxMemory as real;
      if recovery.memoryTrend < -100000.0 then GcReleasing
      else if ratio <= 1.5 then Nothing
      else if recovery.gcCount == 0 then GcPending
      else if ratio > 3.0 then RetainedHigh
      else RetainedMedium
  }

  lemma QuotientAbove(m: real, b: real)
    requires b > 0.0 && m > 3.0 * b
    ensures m / b > 3.0
  {
  }

  /** A recovery phase whose memory never decreases is never taken for the
      collector releasing memory; and one that stays above three times the
      baseline with the collector running is always reported as retained. */
  lemma GrowingRecoveryVerdict(baseline: PhaseStats, recovery: PhaseStats, snaps: seq<Snapshot>)
    requires recovery.memoryTrend == Slope(Memory(snaps))
    requires forall i, j :: 0 <= i <= j < |snaps| ==> snaps[i].memoryAlloc <= snaps[j].memoryAlloc
    ensures Classify(baseline, recovery) != GcReleasing
    ensures (baseline.samples > 0 && recovery.samples > 0 && recovery.gcCount > 0
             && recovery.minMemory > 3 * baseline.maxMemory > 0)
            ==> Classify(baseline, recovery) == RetainedHigh
  {
    GrowingSlope(Memory(snaps));
    if recovery.minMemory > 3 * baseline.maxMemory && baseline.maxMemory > 0 {
      QuotientAbove(recovery.minMemory as real, baseline.maxMemory as real);
    }
  }
}
