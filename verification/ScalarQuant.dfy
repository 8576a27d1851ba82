/** SQ8: per-dimension calibration, quantization to one byte, and the asymmetric dot product. */
module ScalarQuant {
  import opened Ranking

  /** The machine epsilon of an IEEE single, 2^-23. */
  const EPS: real := 1.0 / 8388608.0
  const MAX_SAMPLE := 10_000

  datatype Params = Params(mins: seq<real>, maxs: seq<real>, scales: seq<real>)

  function Abs(x: real): real {
    if x < 0.0 then -x else x
  }

  function Ceil(x: real): int {
    -((-x).Floor)
  }

  function Clamp(n: int, lo: int, hi: int): int {
    if n < lo then lo else if n > hi then hi else n
  }

  /** Rounds half away from zero. */
  function Round(x: real): int {
    if x >= 0.0 then (x + 0.5).Floor else -((-x + 0.5).Floor)
  }

  // ---- Calibration ----

  ghost predicate SameLength(vectors: seq<seq<real>>, dim: nat) {
    forall i :: 0 <= i < |vectors| ==> |vectors[i]| == dim
  }

  /** Sampled vector i is number i * step. */
  ghost predicate EverySoMany(vectors: seq<seq<real>>, step: nat, s: seq<seq<real>>) {
    forall i :: 0 <= i < |s| ==> 0 <= i * step < |vectors| && s[i] == vectors[i * step]
  }

  /** Every `step`-th vector, at most ten thousand of them. */
  function Sample(vectors: seq<seq<real>>): (s: seq<seq<real>>)
    ensures |vectors| <= MAX_SAMPLE ==> s == vectors
    ensures |vectors| > MAX_SAMPLE ==> |s| == MAX_SAMPLE && EverySoMany(vectors, |vectors| / MAX_SAMPLE, s)
    ensures forall i :: 0 <= i < |s| ==> s[i] in vectors
  {
    if |vectors| <= MAX_SAMPLE then vectors
    else
      var step := |vectors| / MAX_SAMPLE;
      assert forall i :: 0 <= i < MAX_SAMPLE ==> i * step < |vectors| by {
        forall i | 0 <= i < MAX_SAMPLE
          ensures i * step < |vectors|
        {
          SampleInBounds(i, step, |vectors|);
        }
      }
      seq(MAX_SAMPLE, i requires 0 <= i < MAX_SAMPLE => vectors[i * step])
  }

  lemma {:induction false} SampleInBounds(i: nat, step: nat, n: nat)
    requires i < MAX_SAMPLE && step == n / MAX_SAMPLE && n > MAX_SAMPLE
    ensures i * step < n
  {
    var rest := 9999 - i;
    assert rest * step >= 0;
    assert i * step + rest * step == 9999 * step;
  }

  function Column(sample: seq<seq<real>>, d: nat): (c: seq<real>)
    requires forall i :: 0 <= i < |sample| ==> d < |sample[i]|
    ensures |c| == |sample|
  {
    seq(|sample|, i requires 0 <= i < |sample| => sample[i][d])
  }

  function LowerIndex(n: nat, quantile: real): int
    requires n > 0
  {
    Clamp((n as real * ((100.0 - quantile) / 100.0)).Floor, 0, n - 1)
  }

  function UpperIndex(n: nat, quantile: real): int
    requires n > 0
  {
    Clamp(Ceil(n as real * (quantile / 100.0)), 0, n - 1)
  }

  /** lo and hi are the percentiles of the column. */
  ghost predicate Percentiles(column: seq<real>, quantile: real, lo: real, hi: real)
    requires |column| > 0
  {
    exists sorted: seq<real> ::
      && SortedBy(sorted, (x: real) => x) && multiset(sorted) == multiset(column) && |sorted| == |column|
      && sorted[LowerIndex(|column|, quantile)] == lo && sorted[UpperIndex(|column|, quantile)] == hi
  }

  function ScaleOf(lo: real, hi: real): real {
    if Abs(hi - lo) < EPS then 0.0 else 255.0 / (hi - lo)
  }

  ghost predicate ColumnCalibrated(column: seq<real>, quantile: real, lo: real, hi: real, scale: real)
    requires |column| > 0
  {
    Percentiles(column, quantile, lo, hi) && scale == ScaleOf(lo, hi)
  }

  /** The first n columns of the sample are calibrated. */
  ghost predicate Calibrates(sample: seq<seq<real>>, dim: nat, quantile: real, p: Params, n: nat)
    requires |sample| > 0 && SameLength(sample, dim) && n <= dim
  {
    && |p.mins| == |p.maxs| == |p.scales| == n
    && forall d :: 0 <= d < n ==> ColumnCalibrated(Column(sample, d), quantile, p.mins[d], p.maxs[d], p.scales[d])
  }

  ghost predicate Calibrated(p: Params, vectors: seq<seq<real>>, dim: nat, quantile: real)
    requires |vectors| > 0 && SameLength(vectors, dim)
  {
    Calibrates(Sample(vectors), dim, quantile, p, dim)
  }

  lemma {:induction false} OneMoreColumn(
      sample: seq<seq<real>>, dim: nat, quantile: real, p: Params, n: nat, lo: real, hi: real)
    requires |sample| > 0 && SameLength(sample, dim) && n < dim
    requires Calibrates(sample, dim, quantile, p, n) && Percentiles(Column(sample, n), quantile, lo, hi)
    ensures Calibrates(
      sample, dim, quantile, Params(p.mins + [lo], p.maxs + [hi], p.scales + [ScaleOf(lo, hi)]), n + 1)
  {
  }

  method ColumnPercentiles(column: seq<real>, quantile: real) returns (lo: real, hi: real)
    requires |column| > 0
    ensures Percentiles(column, quantile, lo, hi)
    ensures 0.0 <= quantile <= 100.0 ==> Cuts(column, quantile, lo, hi)
  {
    var sorted := SortBy(column, (x: real) => x);
    lo, hi := sorted[LowerIndex(|column|, quantile)], sorted[UpperIndex(|column|, quantile)];
    if 0.0 <= quantile <= 100.0 {
      PercentilesCut(column, quantile, lo, hi);
    }
  }

  method Calibrate(vectors: seq<seq<real>>, quantile: real) returns (p: Params)
    requires |vectors| > 0 && |vectors[0]| > 0 && SameLength(vectors, |vectors[0]|)
    ensures Calibrated(p, vectors, |vectors[0]|, quantile)
    ensures 0.0 <= quantile <= 100.0 ==>
              forall d :: 0 <= d < |vectors[0]| ==>
                            Cuts(Column(Sample(vectors), d), quantile, p.mins[d], p.maxs[d])
  {
    var dim := |vectors[0]|;
    var sample := Sample(vectors);
    p := Params([], [], []);
    for d := 0 to dim
      invariant Calibrates(sample, dim, quantile, p, d)
      invariant 0.0 <= quantile <= 100.0 ==>
                  forall e :: 0 <= e < d ==> Cuts(Column(sample, e), quantile, p.mins[e], p.maxs[e])
    {
      var lo, hi := ColumnPercentiles(Column(sample, d), quantile);
      OneMoreColumn(sample, dim, quantile, p, d, lo, hi);
      p := Params(p.mins + [lo], p.maxs + [hi], p.scales + [ScaleOf(lo, hi)]);
    }
  }

  // ---- How many values the percentiles cut off ----

  function Count(s: seq<real>, p: real -> bool): (n: nat)
    ensures n <= |s|
  {
    if s == [] then 0 else Count(s[..|s| - 1], p) + if p(s[|s| - 1]) then 1 else 0
  }

  function Above(column: seq<real>, x: real): nat {
    Count(column, y => y > x)
  }

  function Below(column: seq<real>, x: real): nat {
    Count(column, y => y < x)
  }

  /** That many percent of n. */
  function Share(n: nat, percent: real): real {
    n as real * (percent / 100.0)
  }

  /**
   * Beyond either percentile lies at most its share of the values, (100 - quantile) percent, and no later
   * value would do: counting the values equal to the percentile, the share is exceeded.
   */
  ghost predicate Cuts(column: seq<real>, quantile: real, lo: real, hi: real) {
    && Above(column, hi) as real <= Share(|column|, 100.0 - quantile)
    && Below(column, hi) as real < Share(|column|, quantile) + 1.0
    && Below(column, lo) as real <= Share(|column|, 100.0 - quantile)
    && (Above(column, lo) == 0 || Above(column, lo) as real < Share(|column|, quantile))
  }

  lemma {:induction false} CountConcat(s: seq<real>, t: seq<real>, p: real -> bool)
    ensures Count(s + t, p) == Count(s, p) + Count(t, p)
  {
    if t == [] {
      assert s + t == s;
    } else {
      assert (s + t)[..|s + t| - 1] == s + t[..|t| - 1];
      CountConcat(s, t[..|t| - 1], p);
    }
  }

  lemma {:induction false} CountOne(x: real, p: real -> bool)
    ensures Count([x], p) == if p(x) then 1 else 0
  {
    assert [x][..0] == [];
  }

  lemma {:induction false} CountWithout(s: seq<real>, k: nat, p: real -> bool)
    requires k < |s|
    ensures Count(s, p) == Count(s[..k] + s[k + 1..], p) + if p(s[k]) then 1 else 0
    ensures multiset(s) == multiset(s[..k] + s[k + 1..]) + multiset{s[k]}
  {
    assert s == s[..k] + [s[k]] + s[k + 1..];
    CountConcat(s[..k] + [s[k]], s[k + 1..], p);
    CountConcat(s[..k], [s[k]], p);
    CountOne(s[k], p);
    CountConcat(s[..k], s[k + 1..], p);
  }

  lemma {:induction false} CountPermuted(s: seq<real>, t: seq<real>, p: real -> bool)
    requires multiset(s) == multiset(t)
    ensures Count(s, p) == Count(t, p)
  {
    if s == [] {
      assert |multiset(t)| == |multiset(s)|;
      assert t == [];
    } else {
      var n := |s| - 1;
      assert s[n] in multiset(t);
      var k :| 0 <= k < |t| && t[k] == s[n];
      CountWithout(s, n, p);
      CountWithout(t, k, p);
      assert s[..n] + s[n + 1..] == s[..n];
      assert multiset(s[..n]) == multiset(s) - multiset{s[n]} == multiset(t[..k] + t[k + 1..]);
      CountPermuted(s[..n], t[..k] + t[k + 1..], p);
    }
  }

  lemma {:induction false} NoneCounted(s: seq<real>, p: real -> bool)
    requires forall i :: 0 <= i < |s| ==> !p(s[i])
    ensures Count(s, p) == 0
  {
    if s != [] {
      NoneCounted(s[..|s| - 1], p);
    }
  }

  /** Where the first i values fail, or all from the i-th on do, the others are at most all counted. */
  lemma {:induction false} CountAtMost(s: seq<real>, i: nat, p: real -> bool)
    requires i <= |s|
    ensures (forall j :: i <= j < |s| ==> !p(s[j])) ==> Count(s, p) <= i
    ensures (forall j :: 0 <= j < i ==> !p(s[j])) ==> Count(s, p) <= |s| - i
  {
    assert s == s[..i] + s[i..];
    CountConcat(s[..i], s[i..], p);
    if forall j :: i <= j < |s| ==> !p(s[j]) {
      NoneCounted(s[i..], p);
    }
    if forall j :: 0 <= j < i ==> !p(s[j]) {
      NoneCounted(s[..i], p);
    }
  }

  /** In a sorted list at most i values are below, and at most n - 1 - i above, the one in place i. */
  lemma {:induction false} SortedCounts(s: seq<real>, i: nat)
    requires i < |s| && SortedBy(s, (x: real) => x)
    ensures Below(s, s[i]) <= i && Above(s, s[i]) <= |s| - 1 - i
  {
    var key, x := (x: real) => x, s[i];
    forall j | 0 <= j < |s|
      ensures j < i ==> s[j] <= x
      ensures i < j ==> x <= s[j]
    {
      assert j < i ==> key(s[j]) <= key(s[i]);
      assert i < j ==> key(s[i]) <= key(s[j]);
    }
    CountAtMost(s, i, y => y < x);
    CountAtMost(s, i + 1, y => y > x);
  }

  lemma {:induction false} PermutedCounts(s: seq<real>, t: seq<real>, x: real)
    requires multiset(s) == multiset(t)
    ensures Below(s, x) == Below(t, x) && Above(s, x) == Above(t, x)
  {
    CountPermuted(s, t, y => y < x);
    CountPermuted(s, t, y => y > x);
  }

  lemma {:induction false} SharesAddUp(n: nat, quantile: real)
    ensures Share(n, 100.0 - quantile) + Share(n, quantile) == n as real
  {
    var low, high := (100.0 - quantile) / 100.0, quantile / 100.0;
    assert low + high == 1.0;
    assert n as real * low + n as real * high == n as real * (low + high);
  }

  lemma {:induction false} SharesWithin(n: nat, quantile: real)
    requires 0.0 <= quantile <= 100.0
    ensures 0.0 <= Share(n, 100.0 - quantile) && 0.0 <= Share(n, quantile)
  {
    TimesMonotone(n as real, 0.0, (100.0 - quantile) / 100.0);
    TimesMonotone(n as real, 0.0, quantile / 100.0);
  }

  /** The lower index is its share rounded down, the upper one rounded up, and both are places of the list. */
  lemma {:induction false} IndexesNearShares(n: nat, quantile: real)
    requires n > 0 && 0.0 <= quantile <= 100.0
    ensures 0 <= LowerIndex(n, quantile) < n && 0 <= UpperIndex(n, quantile) < n
    ensures LowerIndex(n, quantile) as real <= Share(n, 100.0 - quantile)
    ensures LowerIndex(n, quantile) == n - 1 || Share(n, 100.0 - quantile) < LowerIndex(n, quantile) as real + 1.0
    ensures UpperIndex(n, quantile) as real < Share(n, quantile) + 1.0
    ensures UpperIndex(n, quantile) == n - 1 || Share(n, quantile) <= UpperIndex(n, quantile) as real
  {
    SharesWithin(n, quantile);
    var low, high := Share(n, 100.0 - quantile), Share(n, quantile);
    assert low.Floor as real <= low < low.Floor as real + 1.0 && low.Floor >= 0;
    assert high <= Ceil(high) as real < high + 1.0 && Ceil(high) >= 0;
  }

  lemma {:induction false} PercentilesCut(column: seq<real>, quantile: real, lo: real, hi: real)
    requires |column| > 0 && 0.0 <= quantile <= 100.0 && Percentiles(column, quantile, lo, hi)
    ensures Cuts(column, quantile, lo, hi)
  {
    var n := |column|;
    IndexesNearShares(n, quantile);
    SharesAddUp(n, quantile);
    SharesWithin(n, quantile);
    var i, j := LowerIndex(n, quantile), UpperIndex(n, quantile);
    var sorted: seq<real> :|
      && SortedBy(sorted, (x: real) => x) && multiset(sorted) == multiset(column) && |sorted| == n
      && sorted[i] == lo && sorted[j] == hi;
    SortedCounts(sorted, i);
    SortedCounts(sorted, j);
    PermutedCounts(sorted, column, lo);
    PermutedCounts(sorted, column, hi);
  }

  lemma {:induction false} TimesMonotone(n: real, x: real, y: real)
    requires n >= 0.0 && x <= y
    ensures n * x <= n * y
  {
    assert n * (y - x) >= 0.0;
  }

  lemma {:induction false} FloorBelowCeil(a: real, b: real)
    requires a <= b
    ensures a.Floor <= Ceil(b)
  {
    assert a.Floor as real <= a && b <= Ceil(b) as real;
  }

  lemma {:induction false} IndexesOrdered(n: nat, quantile: real)
    requires n > 0 && 50.0 <= quantile <= 100.0
    ensures LowerIndex(n, quantile) <= UpperIndex(n, quantile)
  {
    var low, high := (100.0 - quantile) / 100.0, quantile / 100.0;
    assert low <= high;
    TimesMonotone(n as real, low, high);
    FloorBelowCeil(n as real * low, n as real * high);
  }

  /** From the median up, the lower percentile is not above the upper one. */
  lemma {:induction false} PercentilesOrdered(column: seq<real>, quantile: real, lo: real, hi: real)
    requires |column| > 0 && 50.0 <= quantile <= 100.0 && Percentiles(column, quantile, lo, hi)
    ensures lo <= hi
  {
    IndexesOrdered(|column|, quantile);
    var i, j := LowerIndex(|column|, quantile), UpperIndex(|column|, quantile);
    var sorted: seq<real> :|
      && SortedBy(sorted, (x: real) => x) && multiset(sorted) == multiset(column) && |sorted| == |column|
      && sorted[i] == lo && sorted[j] == hi;
    assert i < j ==> ((x: real) => x)(sorted[i]) <= ((x: real) => x)(sorted[j]);
  }

  /** At quantile 100 the percentiles are the extremes: they enclose every value of the column. */
  lemma {:induction false} ExtremesEnclose(column: seq<real>, lo: real, hi: real, i: nat)
    requires i < |column| && Percentiles(column, 100.0, lo, hi)
    ensures lo <= column[i] <= hi
  {
    var n := |column|;
    assert n as real * ((100.0 - 100.0) / 100.0) == 0.0 && n as real * (100.0 / 100.0) == n as real;
    assert LowerIndex(n, 100.0) == 0 && UpperIndex(n, 100.0) == n - 1;
    var sorted: seq<real> :|
      && SortedBy(sorted, (x: real) => x) && multiset(sorted) == multiset(column) && |sorted| == |column|
      && sorted[LowerIndex(n, 100.0)] == lo && sorted[UpperIndex(n, 100.0)] == hi;
    assert column[i] in multiset(column);
    assert column[i] in sorted;
    var k :| 0 <= k < n && sorted[k] == column[i];
    var key := (x: real) => x;
    assert k > 0 ==> key(sorted[0]) <= key(sorted[k]);
    assert k < n - 1 ==> key(sorted[k]) <= key(sorted[n - 1]);
  }

  // ---- Quantization of one component ----

  function Quantize1(v: real, lo: real, scale: real): (q: int)
    ensures 0 <= q <= 255
  {
    Clamp(Round((v - lo) * scale), 0, 255)
  }

  function Dequantize1(q: int, lo: real, scale: real): real {
    if Abs(scale) < EPS then lo else lo + q as real / scale
  }

  /** What a component may lose: half a step, or its whole range where the code gives up on scaling. */
  function ErrorBound(lo: real, hi: real): real {
    if Abs(ScaleOf(lo, hi)) < EPS then hi - lo else (hi - lo) / 510.0
  }

  lemma {:induction false} ScaleCancels(a: real, range: real)
    requires range > 0.0
    ensures a * (255.0 / range) * (range / 255.0) == a
  {
    var s, t := 255.0 / range, range / 255.0;
    assert s * t == 1.0;
    assert a * s * t == a * (s * t);
  }

  lemma {:induction false} DivideByScale(q: real, range: real)
    requires range > 0.0
    ensures q / (255.0 / range) == q * (range / 255.0)
  {
    var s, t := 255.0 / range, range / 255.0;
    assert s * t == 1.0;
    assert q * t * s == q * (t * s) == q;
  }

  lemma {:induction false} ScaleMonotone(a: real, b: real, s: real)
    requires a <= b && s >= 0.0
    ensures a * s <= b * s
  {
  }

  /** Rounding to a byte moves a scaled component by at most half a step of size t. */
  lemma {:induction false} HalfStep(x: real, t: real)
    requires 0.0 <= x <= 255.0 && t >= 0.0
    ensures 0 <= Round(x) <= 255
    ensures Abs(Round(x) as real * t - x * t) <= 0.5 * t
  {
    var e := Round(x) as real - x;
    assert -0.5 <= e <= 0.5;
    ScaleMonotone(-0.5, e, t);
    ScaleMonotone(e, 0.5, t);
    assert Round(x) as real * t - x * t == e * t;
  }

  lemma {:induction false} ScaledInRange(a: real, range: real)
    requires 0.0 <= a <= range && range > 0.0
    ensures 0.0 <= a * (255.0 / range) <= 255.0
  {
    var s := 255.0 / range;
    ScaleMonotone(0.0, a, s);
    ScaleMonotone(a, range, s);
    assert range * s == 255.0;
  }

  /** What one component loses. */
  function ErrorOf(v: real, lo: real, scale: real): real {
    Abs(Dequantize1(Quantize1(v, lo, scale), lo, scale) - v)
  }

  lemma {:induction false} ScaledError(v: real, lo: real, hi: real, scale: real)
    requires lo <= v <= hi && Abs(scale) >= EPS && hi - lo > 0.0 && scale == 255.0 / (hi - lo)
    ensures ErrorOf(v, lo, scale) <= (hi - lo) / 510.0
  {
    var x := (v - lo) * scale;
    var d := ScaledThereAndBack(v - lo, hi - lo, scale, x);
    ByteError(v, lo, scale, x, d, (hi - lo) / 510.0);
  }

  /** A component inside its calibrated range is recovered within half a quantization step. */
  lemma {:induction false} QuantizationError(v: real, lo: real, hi: real)
    requires lo <= v <= hi
    ensures ErrorOf(v, lo, ScaleOf(lo, hi)) <= ErrorBound(lo, hi)
  {
    var scale := ScaleOf(lo, hi);
    if Abs(scale) >= EPS {
      ScaleIsQuotient(lo, hi);
      ScaledError(v, lo, hi, scale);
    } else {
      GivenUp(v, lo, scale);
    }
  }

  lemma {:induction false} ScaleIsQuotient(lo: real, hi: real)
    requires lo <= hi && Abs(ScaleOf(lo, hi)) >= EPS
    ensures hi - lo > 0.0 && ScaleOf(lo, hi) == 255.0 / (hi - lo)
  {
  }

  lemma {:induction false} ByteError(v: real, lo: real, scale: real, x: real, d: real, bound: real)
    requires Abs(scale) >= EPS && x == (v - lo) * scale && 0 <= Round(x) <= 255
    requires d == Round(x) as real / scale && Abs(d - (v - lo)) <= bound
    ensures ErrorOf(v, lo, scale) <= bound
  {
    assert Quantize1(v, lo, scale) == Round(x);
    assert Dequantize1(Round(x), lo, scale) == lo + d;
  }

  lemma {:induction false} GivenUp(v: real, lo: real, scale: real)
    requires Abs(scale) < EPS
    ensures Dequantize1(Quantize1(v, lo, scale), lo, scale) == lo
  {
  }

  /** Scaling up, rounding and scaling down again. */
  lemma {:induction false} ScaledThereAndBack(a: real, range: real, scale: real, x: real) returns (d: real)
    requires 0.0 <= a <= range && range > 0.0 && scale == 255.0 / range && x == a * scale
    ensures 0 <= Round(x) <= 255 && scale != 0.0
    ensures d == Round(x) as real / scale && Abs(d - a) <= range / 510.0
  {
    var t := range / 255.0;
    ScaledInRange(a, range);
    ScaleCancels(a, range);
    HalfStep(x, t);
    DivideByScale(Round(x) as real, range);
    d := Round(x) as real / scale;
    assert 0.5 * t == range / 510.0;
  }

  lemma {:induction false} DivideThenMultiply(q: real, s: real)
    requires s != 0.0
    ensures q / s * s == q
  {
  }

  /** Quantizing a dequantized byte gives the byte back. */
  lemma {:induction false} QuantizeInvertsDequantize(q: int, lo: real, hi: real)
    requires 0 <= q <= 255 && Abs(ScaleOf(lo, hi)) >= EPS
    ensures Quantize1(Dequantize1(q, lo, ScaleOf(lo, hi)), lo, ScaleOf(lo, hi)) == q
  {
    var s := ScaleOf(lo, hi);
    var x := q as real / s;
    DivideThenMultiply(q as real, s);
    assert lo + x - lo == x;
    assert (q as real + 0.5).Floor == q;
  }

  // ---- Vectors ----

  function Quantize(p: Params, v: seq<real>): (q: seq<int>)
    requires |p.mins| == |p.maxs| == |p.scales| == |v|
    ensures |q| == |v|
  {
    seq(|v|, d requires 0 <= d < |v| => Quantize1(v[d], p.mins[d], p.scales[d]))
  }

  function Dequantize(p: Params, q: seq<int>): (v: seq<real>)
    requires |p.mins| == |p.maxs| == |p.scales| == |q|
    ensures |v| == |q|
  {
    seq(|q|, d requires 0 <= d < |q| => Dequantize1(q[d], p.mins[d], p.scales[d]))
  }

  function Products(a: seq<real>, b: seq<real>): (p: seq<real>)
    requires |a| == |b|
    ensures |p| == |a|
  {
    seq(|a|, d requires 0 <= d < |a| => a[d] * b[d])
  }

  function Total(xs: seq<real>): real {
    if xs == [] then 0.0 else Total(xs[..|xs| - 1]) + xs[|xs| - 1]
  }

  function Dot(a: seq<real>, b: seq<real>): real
    requires |a| == |b|
  {
    Total(Products(a, b))
  }

  lemma {:induction false} TotalMoves(xs: seq<real>, d: nat, x: real)
    requires d < |xs|
    ensures Total(xs[d := x]) == Total(xs) + x - xs[d]
  {
    var n := |xs| - 1;
    if d == n {
      assert xs[d := x][..n] == xs[..n];
    } else {
      TotalMoves(xs[..n], d, x);
      assert xs[d := x][..n] == xs[..n][d := x];
    }
  }

  lemma {:induction false} MovedProducts(a: seq<real>, b: seq<real>, d: nat, x: real, y: real)
    requires |a| == |b| && d < |a| && y == x * b[d]
    ensures Products(a[d := x], b) == Products(a, b)[d := y]
  {
    var moved := Products(a[d := x], b);
    forall e | 0 <= e < |a|
      ensures moved[e] == Products(a, b)[d := y][e]
    {
    }
  }

  /** Changing one component of a changes the product by that change times its partner. */
  lemma {:induction false} DotMoves(a: seq<real>, b: seq<real>, d: nat, x: real)
    requires |a| == |b| && d < |a|
    ensures Dot(a[d := x], b) == Dot(a, b) + (x - a[d]) * b[d]
  {
    var y, before := x * b[d], a[d] * b[d];
    MovedProducts(a, b, d, x, y);
    TotalMoves(Products(a, b), d, y);
    assert Products(a, b)[d] == before;
  }

  lemma {:induction false} DotOfZeros(a: seq<real>, b: seq<real>)
    requires |a| == |b| && forall d :: 0 <= d < |a| ==> a[d] == 0.0
    ensures Dot(a, b) == 0.0
  {
    TotalOfZeros(Products(a, b));
  }

  lemma {:induction false} TotalOfZeros(xs: seq<real>)
    requires forall d :: 0 <= d < |xs| ==> xs[d] == 0.0
    ensures Total(xs) == 0.0
  {
    if xs != [] {
      TotalOfZeros(xs[..|xs| - 1]);
    }
  }

  /** The scalar form of the asymmetric distance for the dot product: the query stays exact. */
  method AsymmetricDotDistance(p: Params, query: seq<real>, q: seq<int>) returns (r: real)
    requires |p.mins| == |p.maxs| == |p.scales| == |query| == |q|
    ensures r == 1.0 - Dot(query, Dequantize(p, q))
  {
    var dot := 0.0;
    ghost var products := Products(query, Dequantize(p, q));
    for d := 0 to |query|
      invariant dot == Total(products[..d])
    {
      assert products[..d + 1][..d] == products[..d];
      dot := dot + query[d] * Dequantize1(q[d], p.mins[d], p.scales[d]);
    }
    assert products[..|query|] == products;
    r := 1.0 - dot;
  }

  ghost predicate InRange(p: Params, v: seq<real>)
    requires |p.mins| == |p.maxs| == |p.scales| == |v|
  {
    forall d :: 0 <= d < |v| ==> p.mins[d] <= v[d] <= p.maxs[d] && p.scales[d] == ScaleOf(p.mins[d], p.maxs[d])
  }

  /** The error each component may contribute: |q_d| times half a step. */
  ghost function DotBounds(p: Params, query: seq<real>): (b: seq<real>)
    requires |p.mins| == |p.maxs| == |query|
    ensures |b| == |query|
  {
    seq(|query|, d requires 0 <= d < |query| => Abs(query[d]) * ErrorBound(p.mins[d], p.maxs[d]))
  }

  lemma {:induction false} ProductError(q: real, x: real, y: real, bound: real)
    requires Abs(x - y) <= bound
    ensures Abs(q * x - q * y) <= Abs(q) * bound
  {
    assert q * x - q * y == q * (x - y);
    if q >= 0.0 {
      ScaleMonotone(x - y, bound, q);
      ScaleMonotone(-bound, x - y, q);
    } else {
      ScaleMonotone(x - y, bound, -q);
      ScaleMonotone(-bound, x - y, -q);
    }
  }

  lemma {:induction false} TotalError(xs: seq<real>, ys: seq<real>, bounds: seq<real>)
    requires |xs| == |ys| == |bounds|
    requires forall d :: 0 <= d < |xs| ==> Abs(xs[d] - ys[d]) <= bounds[d]
    ensures Abs(Total(xs) - Total(ys)) <= Total(bounds)
  {
    if xs != [] {
      TotalError(xs[..|xs| - 1], ys[..|xs| - 1], bounds[..|xs| - 1]);
    }
  }

  /**
   * The asymmetric dot product is off by at most the sum of |q_d| times range_d / 510 for any
   * vector inside the calibrated ranges.
   */
  lemma {:induction false} AsymmetricDotError(p: Params, query: seq<real>, v: seq<real>)
    requires |p.mins| == |p.maxs| == |p.scales| == |v| == |query| && InRange(p, v)
    ensures Abs(Dot(query, Dequantize(p, Quantize(p, v))) - Dot(query, v)) <= Total(DotBounds(p, query))
  {
    var w := Dequantize(p, Quantize(p, v));
    forall d | 0 <= d < |v|
      ensures Abs(Products(query, w)[d] - Products(query, v)[d]) <= DotBounds(p, query)[d]
    {
      ErrorAt(p, query, v, d);
    }
    TotalError(Products(query, w), Products(query, v), DotBounds(p, query));
  }

  lemma {:induction false} ErrorAt(p: Params, query: seq<real>, v: seq<real>, d: nat)
    requires |p.mins| == |p.maxs| == |p.scales| == |v| == |query| && InRange(p, v) && d < |v|
    ensures Abs(Products(query, Dequantize(p, Quantize(p, v)))[d] - Products(query, v)[d]) <= DotBounds(p, query)[d]
  {
    ComponentError(query[d], Dequantize(p, Quantize(p, v))[d], v[d], p.mins[d], p.maxs[d]);
  }

  lemma {:induction false} ComponentError(q: real, w: real, v: real, lo: real, hi: real)
    requires lo <= v <= hi
    requires w == Dequantize1(Quantize1(v, lo, ScaleOf(lo, hi)), lo, ScaleOf(lo, hi))
    ensures Abs(q * w - q * v) <= Abs(q) * ErrorBound(lo, hi)
  {
    QuantizationError(v, lo, hi);
    ProductError(q, w, v, ErrorBound(lo, hi));
  }

  /** At quantile 100, and up to ten thousand vectors, every calibrated vector is inside its ranges. */
  lemma {:induction false} CalibratedVectorsAreInRange(p: Params, vectors: seq<seq<real>>, dim: nat, k: nat)
    requires 0 < |vectors| <= MAX_SAMPLE && SameLength(vectors, dim) && Calibrated(p, vectors, dim, 100.0)
    requires k < |vectors|
    ensures InRange(p, vectors[k])
  {
    forall d | 0 <= d < dim
      ensures p.mins[d] <= vectors[k][d] <= p.maxs[d]
    {
      ExtremesEnclose(Column(vectors, d), p.mins[d], p.maxs[d], k);
    }
  }

  /** The inverse law over whole vectors, in every dimension the code scales. */
  lemma {:induction false} DequantizedVectorsAreFixed(p: Params, q: seq<int>)
    requires |p.mins| == |p.maxs| == |p.scales| == |q|
    requires forall d :: 0 <= d < |q| ==> 0 <= q[d] <= 255
    requires forall d :: 0 <= d < |q| ==> p.scales[d] == ScaleOf(p.mins[d], p.maxs[d]) && Abs(p.scales[d]) >= EPS
    ensures Quantize(p, Dequantize(p, q)) == q
  {
    forall d | 0 <= d < |q|
      ensures Quantize(p, Dequantize(p, q))[d] == q[d]
    {
      QuantizeInvertsDequantize(q[d], p.mins[d], p.maxs[d]);
    }
  }
}
