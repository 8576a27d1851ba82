/** How far decoding is from the vector that was encoded (`quantization.rs`). */
module PolarError {
  import opened PolarQuant

  // ---- Sums of squares ----

  function Minus(a: seq<real>, b: seq<real>): (d: seq<real>)
    requires |a| == |b|
    ensures |d| == |a|
  {
    seq(|a|, i requires 0 <= i < |a| => a[i] - b[i])
  }

  function Plus(a: seq<real>, b: seq<real>): (s: seq<real>)
    requires |a| == |b|
    ensures |s| == |a|
  {
    seq(|a|, i requires 0 <= i < |a| => a[i] + b[i])
  }

  function Times(f: real, a: seq<real>): (s: seq<real>)
    ensures |s| == |a|
  {
    seq(|a|, i requires 0 <= i < |a| => f * a[i])
  }

  lemma {:induction false} SumNotNegative(a: seq<real>, n: nat)
    requires n <= |a|
    ensures SumTo(a, Sq, n) >= 0.0
  {
    if n > 0 {
      SumNotNegative(a, n - 1);
    }
  }

  lemma {:induction false} SumMonotone(a: seq<real>, n: nat, m: nat)
    requires n <= m <= |a|
    ensures SumTo(a, Sq, n) <= SumTo(a, Sq, m)
    decreases m - n
  {
    if n < m {
      SumMonotone(a, n, m - 1);
    }
  }

  lemma {:induction false} SquareOfProduct(f: real, x: real)
    ensures Sq(f * x) == Sq(f) * Sq(x)
  {
    assert f * x * (f * x) == f * f * (x * x);
  }

  lemma {:induction false} TimesSum(f: real, a: seq<real>, n: nat)
    requires n <= |a|
    ensures SumTo(Times(f, a), Sq, n) == Sq(f) * SumTo(a, Sq, n)
  {
    if n > 0 {
      TimesSum(f, a, n - 1);
      SquareOfProduct(f, a[n - 1]);
      Distributes(Sq(f), SumTo(a, Sq, n - 1), Sq(a[n - 1]));
    }
  }

  lemma {:induction false} Distributes(f: real, x: real, y: real)
    ensures f * (x + y) == f * x + f * y
  {
  }

  // ---- The triangle inequality ----

  /** (x + y)^2 <= (1 + t) x^2 + (1 + 1/t) y^2 */
  lemma {:induction false} SplitSquare(x: real, y: real, t: real)
    requires t > 0.0
    ensures Sq(x + y) <= (1.0 + t) * Sq(x) + (1.0 + 1.0 / t) * Sq(y)
  {
    var u := 1.0 / t;
    assert t * u == 1.0 && u > 0.0;
    var z := t * x - y;
    assert u * Sq(z) >= 0.0;
    assert Sq(z) == t * t * Sq(x) - 2.0 * t * (x * y) + Sq(y);
    TimesThree(u, t, x, y);
    assert Sq(x + y) == Sq(x) + 2.0 * (x * y) + Sq(y);
  }

  lemma {:induction false} TimesThree(u: real, t: real, x: real, y: real)
    requires t * u == 1.0
    ensures u * (t * t * Sq(x) - 2.0 * t * (x * y) + Sq(y)) == t * Sq(x) - 2.0 * (x * y) + u * Sq(y)
  {
    var a, b := Sq(x), x * y;
    assert u * (t * t * a) == t * u * (t * a);
    assert u * (2.0 * t * b) == t * u * (2.0 * b);
  }

  ghost predicate SplitsAt(a: seq<real>, b: seq<real>, f: real, g: real, i: nat)
    requires i < |a| && i < |b|
  {
    Sq(a[i] + b[i]) <= f * Sq(a[i]) + g * Sq(b[i])
  }

  lemma {:induction false} SplitSum(a: seq<real>, b: seq<real>, f: real, g: real, n: nat)
    requires |a| == |b| && n <= |a| && forall i :: 0 <= i < n ==> SplitsAt(a, b, f, g, i)
    ensures SumTo(Plus(a, b), Sq, n) <= f * SumTo(a, Sq, n) + g * SumTo(b, Sq, n)
  {
    if n > 0 {
      SplitSum(a, b, f, g, n - 1);
      assert SplitsAt(a, b, f, g, n - 1);
      Distributes(f, SumTo(a, Sq, n - 1), Sq(a[n - 1]));
      Distributes(g, SumTo(b, Sq, n - 1), Sq(b[n - 1]));
    }
  }

  lemma {:induction false} ZeroSum(a: seq<real>, n: nat)
    requires n <= |a| && SumTo(a, Sq, n) <= 0.0
    ensures forall i :: 0 <= i < n ==> a[i] == 0.0
  {
    if n > 0 {
      SumNotNegative(a, n - 1);
      if a[n - 1] != 0.0 {
        NotZeroSquare(a[n - 1]);
      }
      ZeroSum(a, n - 1);
    }
  }

  lemma {:induction false} NotZeroSquare(x: real)
    requires x != 0.0
    ensures Sq(x) > 0.0
  {
    var u := 1.0 / x;
    assert u * x == 1.0;
    SquareOfProduct(u, x);
    var a, b := Sq(u), Sq(x);
    assert Sq(1.0) == 1.0;
    assert a * b == 1.0;
  }

  lemma {:induction false} AddingZero(a: seq<real>, b: seq<real>)
    requires |a| == |b| && forall i :: 0 <= i < |a| ==> a[i] == 0.0
    ensures Sum(Plus(a, b), Sq) == Sum(b, Sq) && Sum(Plus(b, a), Sq) == Sum(b, Sq)
  {
    SamePrefix(Plus(a, b), b, Sq, |a|);
    SamePrefix(Plus(b, a), b, Sq, |a|);
  }

  /** (1 + q/p) p^2 + (1 + p/q) q^2 == (p + q)^2 */
  lemma {:induction false} SplitBound(p: real, q: real, t: real, f: real, g: real, x: real, y: real)
    requires p > 0.0 && q > 0.0 && x <= Sq(p) && y <= Sq(q)
    requires t == q / p > 0.0 && f == 1.0 + t && g == 1.0 + 1.0 / t
    ensures f * x + g * y <= Sq(p + q)
  {
    var u := 1.0 / t;
    assert t * p == q;
    assert t * u == 1.0 && u > 0.0;
    assert u * q == p by {
      assert u * q == u * (t * p) == t * u * p;
    }
    AtMostTimes(1.0 + t, x, Sq(p));
    AtMostTimes(1.0 + u, y, Sq(q));
    assert (1.0 + t) * Sq(p) == Sq(p) + q * p by {
      assert t * Sq(p) == t * p * p;
    }
    assert (1.0 + u) * Sq(q) == Sq(q) + p * q by {
      assert u * Sq(q) == u * q * q;
    }
    assert Sq(p + q) == Sq(p) + 2.0 * (p * q) + Sq(q);
  }

  lemma {:induction false} AtMostTimes(f: real, x: real, y: real)
    requires f >= 0.0 && x <= y
    ensures f * x <= f * y
  {
  }

  lemma {:induction false} PositiveQuotient(p: real, q: real)
    requires p > 0.0 && q > 0.0
    ensures q / p > 0.0
  {
    assert q / p * p == q;
  }

  lemma {:induction false} AllSplit(a: seq<real>, b: seq<real>, t: real, f: real, g: real)
    requires |a| == |b| && t > 0.0 && f == 1.0 + t && g == 1.0 + 1.0 / t
    ensures forall i :: 0 <= i < |a| ==> SplitsAt(a, b, f, g, i)
  {
    forall i | 0 <= i < |a|
      ensures SplitsAt(a, b, f, g, i)
    {
      SplitSquare(a[i], b[i], t);
    }
  }

  lemma {:induction false} SplitWithin(a: seq<real>, b: seq<real>, f: real, g: real, bound: real)
    requires |a| == |b| && (forall i :: 0 <= i < |a| ==> SplitsAt(a, b, f, g, i))
    requires f * SumSq(a) + g * SumSq(b) <= bound
    ensures SumSq(Plus(a, b)) <= bound
  {
    SplitSum(a, b, f, g, |a|);
  }

  lemma {:induction false} MinkowskiPositive(a: seq<real>, b: seq<real>, p: real, q: real)
    requires |a| == |b| && p > 0.0 && q > 0.0 && SumSq(a) <= Sq(p) && SumSq(b) <= Sq(q)
    ensures SumSq(Plus(a, b)) <= Sq(p + q)
  {
    PositiveQuotient(p, q);
    var t := q / p;
    var f, g := 1.0 + t, 1.0 + 1.0 / t;
    AllSplit(a, b, t, f, g);
    SplitBound(p, q, t, f, g, SumSq(a), SumSq(b));
    SplitWithin(a, b, f, g, Sq(p + q));
  }

  /** Norms add up at most: no square root is taken, p and q are bounds of the two norms. */
  lemma {:induction false} Minkowski(a: seq<real>, b: seq<real>, p: real, q: real)
    requires |a| == |b| && p >= 0.0 && q >= 0.0 && SumSq(a) <= Sq(p) && SumSq(b) <= Sq(q)
    ensures SumSq(Plus(a, b)) <= Sq(p + q)
  {
    if p == 0.0 {
      ZeroSum(a, |a|);
      AddingZero(a, b);
    } else if q == 0.0 {
      ZeroSum(b, |b|);
      AddingZero(b, a);
    } else {
      MinkowskiPositive(a, b, p, q);
    }
  }

  // ---- One level ----

  /** r cos and r sin: proportional to the radius. */
  ghost predicate Linear(m: Pairing) {
    forall r: real, c: nat :: LinearAt(m, r, c)
  }

  ghost predicate LinearAt(m: Pairing, r: real, c: nat) {
    m.x(r, c) == r * m.x(1.0, c) && m.y(r, c) == r * m.y(1.0, c)
  }

  /** A pair decoded from its own radius and code is off by at most delta times the radius. */
  ghost predicate Close(m: Pairing, delta: real) {
    forall x: real, y: real :: CloseAt(m, delta, x, y)
  }

  ghost predicate CloseAt(m: Pairing, delta: real, x: real, y: real) {
    var r, c := m.radius(x, y), m.code(x, y);
    Sq(m.x(r, c) - x) + Sq(m.y(r, c) - y) <= Sq(delta * r)
  }

  /** All that is assumed of the pair transform. */
  ghost predicate Precise(m: Pairing, delta: real) {
    delta >= 0.0 && Close(m, delta) && Linear(m) && KeepsLength(m)
  }

  /** Another radius moves the pair by the difference. */
  lemma {:induction false} MovedPair(m: Pairing, r: real, s: real, c: nat)
    requires Linear(m) && KeepsLength(m)
    ensures Sq(m.x(r, c) - m.x(s, c)) + Sq(m.y(r, c) - m.y(s, c)) == Sq(r - s)
  {
    assert LinearAt(m, r, c) && LinearAt(m, s, c);
    UnitPair(m, c);
    var x, y := m.x(1.0, c), m.y(1.0, c);
    ProductOfDifference(r, s, x);
    ProductOfDifference(r, s, y);
    Distributes(Sq(r - s), Sq(x), Sq(y));
  }

  lemma {:induction false} UnitPair(m: Pairing, c: nat)
    requires KeepsLength(m)
    ensures Sq(m.x(1.0, c)) + Sq(m.y(1.0, c)) == 1.0
  {
  }

  lemma {:induction false} ProductOfDifference(r: real, s: real, x: real)
    ensures Sq(r * x - s * x) == Sq(r - s) * Sq(x)
  {
    assert r * x - s * x == (r - s) * x;
    SquareOfProduct(r - s, x);
  }

  /** Errors of the radii are neither enlarged nor reduced by expanding them. */
  lemma {:induction false} ExpandMoves(d: seq<real>, radii: seq<real>, codes: seq<nat>, m: Pairing)
    requires |d| == |radii| == |codes| && Linear(m) && KeepsLength(m)
    ensures SumSq(Minus(Expand(d, codes, m), Expand(radii, codes, m))) == SumSq(Minus(d, radii))
  {
    var e, r := Minus(Expand(d, codes, m), Expand(radii, codes, m)), Minus(d, radii);
    forall j | 0 <= j < |d|
      ensures PairAddsUp(e, r, Sq, j)
    {
      ExpandAt(d, codes, m, j);
      ExpandAt(radii, codes, m, j);
      MovedPair(m, d[j], radii[j], codes[j]);
    }
    PairsAddUp(e, r, Sq, |d|);
  }

  ghost predicate PairAtMost(e: seq<real>, radii: seq<real>, j: nat) {
    2 * j + 1 < |e| && j < |radii| && Sq(e[2 * j]) + Sq(e[2 * j + 1]) <= Sq(radii[j])
  }

  lemma {:induction false} PairsAtMost(e: seq<real>, radii: seq<real>, n: nat)
    requires n <= |radii| && 2 * n <= |e| && forall j :: 0 <= j < n ==> PairAtMost(e, radii, j)
    ensures SumTo(e, Sq, 2 * n) <= SumTo(radii, Sq, n)
  {
    if n > 0 {
      PairsAtMost(e, radii, n - 1);
      assert PairAtMost(e, radii, n - 1);
      assert SumTo(e, Sq, 2 * n - 1) == SumTo(e, Sq, 2 * n - 2) + Sq(e[2 * n - 2]);
    }
  }

  lemma {:induction false} ClosePair(p: seq<real>, m: Pairing, delta: real, j: nat)
    requires |p| % 2 == 0 && Close(m, delta) && j < |p| / 2
    ensures PairAtMost(Minus(Expand(Radii(p, m), Codes(p, m), m), p), Times(delta, Radii(p, m)), j)
  {
    var radii, codes, x, y := Radii(p, m), Codes(p, m), p[2 * j], p[2 * j + 1];
    ExpandAt(radii, codes, m, j);
    var r, c := m.radius(x, y), m.code(x, y);
    assert CloseAt(m, delta, x, y) && radii[j] == r && codes[j] == c;
    PairOf(Expand(radii, codes, m), p, Times(delta, radii), j, m.x(r, c), m.y(r, c), x, y, delta * r);
  }

  lemma {:induction false} PairOf(
      e: seq<real>, p: seq<real>, r: seq<real>, j: nat, ex: real, ey: real, x: real, y: real, bound: real)
    requires |e| == |p| && 2 * j + 1 < |e| && j < |r| && r[j] == bound
    requires e[2 * j] == ex && e[2 * j + 1] == ey && p[2 * j] == x && p[2 * j + 1] == y
    requires Sq(ex - x) + Sq(ey - y) <= Sq(bound)
    ensures PairAtMost(Minus(e, p), r, j)
  {
  }

  /** With the exact radii, one level is off by at most delta times their norm. */
  lemma {:induction false} ExpandIsClose(p: seq<real>, m: Pairing, delta: real)
    requires |p| % 2 == 0 && Close(m, delta)
    ensures SumSq(Minus(Expand(Radii(p, m), Codes(p, m), m), p)) <= Sq(delta) * SumSq(Radii(p, m))
  {
    var radii, codes := Radii(p, m), Codes(p, m);
    var e, r := Minus(Expand(radii, codes, m), p), Times(delta, radii);
    forall j | 0 <= j < |radii|
      ensures PairAtMost(e, r, j)
    {
      ClosePair(p, m, delta, j);
    }
    PairsAtMost(e, r, |radii|);
    TimesSum(delta, radii, |radii|);
  }

  lemma {:induction false} MinusSplits(e: seq<real>, t: seq<real>, p: seq<real>)
    requires |e| == |t| == |p|
    ensures Minus(e, p) == Plus(Minus(e, t), Minus(t, p))
  {
  }

  /** A level adds its own error to that of the levels below. */
  lemma {:induction false} LevelError(p: seq<real>, d: seq<real>, m: Pairing, delta: real, below: real, norm: real)
    requires |p| % 2 == 0 && |d| == |p| / 2 && Close(m, delta) && Linear(m) && KeepsLength(m)
    requires delta >= 0.0 && below >= 0.0 && norm >= 0.0 && SumSq(Radii(p, m)) == Sq(norm)
    requires SumSq(Minus(d, Radii(p, m))) <= Sq(below)
    ensures SumSq(Minus(Expand(d, Codes(p, m), m), p)) <= Sq(below + delta * norm)
  {
    var radii, codes := Radii(p, m), Codes(p, m);
    var e, t := Expand(d, codes, m), Expand(radii, codes, m);
    ExpandMoves(d, radii, codes, m);
    ExpandIsClose(p, m, delta);
    SquareOfProduct(delta, norm);
    MinusSplits(e, t, p);
    NotNegative(delta, norm);
    Minkowski(Minus(e, t), Minus(t, p), below, delta * norm);
  }

  lemma {:induction false} NotNegative(x: real, y: real)
    requires x >= 0.0 && y >= 0.0
    ensures x * y >= 0.0
  {
  }

  // ---- All levels ----

  lemma {:induction false} TrimmedError(e: seq<real>, p: seq<real>, n: nat)
    requires |e| == |p| && n <= |e|
    ensures SumSq(Minus(e[..n], p[..n])) <= SumSq(Minus(e, p))
  {
    SamePrefix(Minus(e[..n], p[..n]), Minus(e, p), Sq, n);
    SumMonotone(Minus(e, p), n, |e|);
  }

  /** What decoding makes of the codes of a vector. */
  function Decoded(v: seq<real>, m: Pairing): (d: seq<real>)
    ensures |d| == |v|
  {
    Decode(Angles(v, m), FinalRadius(v, m), |v|, m)
  }

  lemma {:induction false} DecodedUnfolds(v: seq<real>, m: Pairing)
    requires |v| > 1
    ensures Decoded(v, m) == Expand(Decoded(Radii(Padded(v), m), m), Codes(Padded(v), m), m)[..|v|]
    ensures Padded(v)[..|v|] == v
  {
    var codes, rest := Codes(Padded(v), m), Angles(Radii(Padded(v), m), m);
    FirstAngles(v, m);
    assert (codes + rest)[..|codes|] == codes && (codes + rest)[|codes|..] == rest;
  }

  lemma {:induction false} NormsAgree(v: seq<real>, m: Pairing)
    requires |v| > 1 && KeepsLength(m)
    ensures SumSq(Radii(Padded(v), m)) == SumSq(v)
  {
    SquaresAreKept(m);
    RadiiKeepLength(Padded(v), m, Sq);
    PaddedKeeps(v, Sq);
  }

  lemma {:induction false} NoError(v: seq<real>, m: Pairing)
    requires |v| <= 1
    ensures SumSq(Minus(Decoded(v, m), v)) <= 0.0
  {
    if |v| == 1 {
      assert SumTo(Minus(Decoded(v, m), v), Sq, 0) == 0.0;
    }
  }

  /** The decoded vector is off by no more than the bound. */
  ghost predicate Within(v: seq<real>, m: Pairing, bound: real) {
    SumSq(Minus(Decoded(v, m), v)) <= Sq(bound)
  }

  /** The norm of the vector, and what a level may lose of it. */
  ghost predicate HasNorm(v: seq<real>, norm: real, delta: real, step: real) {
    norm >= 0.0 && Sq(norm) == SumSq(v) && step == delta * norm >= 0.0
  }

  lemma {:induction false} ErrorStep(
      v: seq<real>, m: Pairing, delta: real, norm: real, step: real, below: real, total: real)
    requires Precise(m, delta) && |v| > 1
    requires HasNorm(v, norm, delta, step) && below >= 0.0 && total == below + step
    requires Within(Radii(Padded(v), m), m, below)
    ensures Within(v, m, total)
  {
    var p, radii := Padded(v), Radii(Padded(v), m);
    NormsAgree(v, m);
    LevelError(p, Decoded(radii, m), m, delta, below, norm);
    DecodedUnfolds(v, m);
    TrimmedError(Expand(Decoded(radii, m), Codes(p, m), m), p, |v|);
  }

  /** The same error on every level. */
  function AddedUp(levels: nat, step: real): real {
    if levels == 0 then 0.0 else AddedUp(levels - 1, step) + step
  }

  lemma {:induction false} AddedUpIs(levels: nat, step: real)
    ensures AddedUp(levels, step) == levels as real * step
  {
    if levels > 0 {
      AddedUpIs(levels - 1, step);
    }
  }

  lemma {:induction false} AddedUpNotNegative(levels: nat, step: real)
    requires step >= 0.0
    ensures AddedUp(levels, step) >= 0.0
  {
    if levels > 0 {
      AddedUpNotNegative(levels - 1, step);
    }
  }

  lemma {:induction false} AddedUpScales(levels: nat, step: real, norm: real, scaled: real)
    requires scaled == step * norm
    ensures AddedUp(levels, scaled) == AddedUp(levels, step) * norm
  {
    if levels > 0 {
      AddedUpScales(levels - 1, step, norm, scaled);
      DistributesLeft(AddedUp(levels - 1, step), step, norm);
    }
  }

  lemma {:induction false} DistributesLeft(x: real, y: real, f: real)
    ensures (x + y) * f == x * f + y * f
  {
  }

  lemma {:induction false} ErrorWithin(v: seq<real>, m: Pairing, delta: real, norm: real, step: real, bound: real)
    requires Precise(m, delta)
    requires HasNorm(v, norm, delta, step) && bound == AddedUp(|Levels(|v|)|, step)
    ensures Within(v, m, bound)
    decreases |v|
  {
    if |v| <= 1 {
      NoError(v, m);
    } else {
      var radii, below := RadiiHaveNorm(v, m, norm, delta, step);
      ErrorWithin(radii, m, delta, norm, step, below);
      ErrorStep(v, m, delta, norm, step, below, bound);
    }
  }

  lemma {:induction false} RadiiHaveNorm(v: seq<real>, m: Pairing, norm: real, delta: real, step: real)
    returns (radii: seq<real>, below: real)
    requires |v| > 1 && KeepsLength(m) && HasNorm(v, norm, delta, step)
    ensures radii == Radii(Padded(v), m) && |radii| < |v| && HasNorm(radii, norm, delta, step)
    ensures below == AddedUp(|Levels(|radii|)|, step) >= 0.0 && AddedUp(|Levels(|v|)|, step) == below + step
  {
    radii := Radii(Padded(v), m);
    below := AddedUp(|Levels(|radii|)|, step);
    NormsAgree(v, m);
    AddedUpNotNegative(|Levels(|radii|)|, step);
  }

  /** A non-negative norm. */
  lemma {:induction false} NormOf(r: real) returns (norm: real)
    ensures norm >= 0.0 && Sq(norm) == Sq(r)
  {
    norm := if r >= 0.0 then r else 0.0 - r;
    SquareOfProduct(0.0 - 1.0, r);
    assert Sq(0.0 - 1.0) == 1.0 && (0.0 - 1.0) * r == 0.0 - r;
  }

  lemma {:induction false} SquaredBound(e: real, bound: real, f: real, norm: real, square: real)
    requires e <= Sq(bound) && bound == f * norm && Sq(norm) == square
    ensures e <= Sq(f) * square
  {
    SquareOfProduct(f, norm);
  }

  lemma {:induction false} DecodedError(
      v: seq<real>, m: Pairing, delta: real, norm: real, step: real, bound: real, worst: real)
    requires Precise(m, delta)
    requires HasNorm(v, norm, delta, step) && bound == AddedUp(|Levels(|v|)|, step) && bound == worst * norm
    ensures SumSq(Minus(Decoded(v, m), v)) <= Sq(worst) * SumSq(v)
  {
    ErrorWithin(v, m, delta, norm, step, bound);
    SquaredBound(SumSq(Minus(Decoded(v, m), v)), bound, worst, norm, SumSq(v));
  }

  /** The bound, as a product. */
  lemma {:induction false} BoundIs(levels: nat, delta: real, norm: real, step: real, worst: real)
    requires step == delta * norm && worst == levels as real * delta
    ensures AddedUp(levels, step) == worst * norm
  {
    AddedUpScales(levels, delta, norm, step);
    AddedUpIs(levels, delta);
  }

  /**
   * At every dimension, odd ones included, the decoded vector is off by at most levels * delta times the
   * norm of the vector, where delta is what a single pair may lose relative to its radius. Both sides are
   * squared.
   */
  lemma {:induction false} DecodeError(
      v: seq<real>, m: Pairing, delta: real, q: PolarQuantized, decoded: seq<real>, levels: nat, worst: real)
    requires Precise(m, delta)
    requires q == Encode(v, m) && decoded == Decode(q.angles, q.finalRadius, q.dim, m)
    requires levels == |Levels(|v|)| && worst == levels as real * delta
    ensures |decoded| == |v| && SumSq(Minus(decoded, v)) <= Sq(worst) * SumSq(v)
  {
    FinalRadiusKeepsLength(v, m);
    var norm := NormOf(FinalRadius(v, m));
    var step := delta * norm;
    NotNegative(delta, norm);
    BoundIs(levels, delta, norm, step, worst);
    DecodedError(v, m, delta, norm, step, AddedUp(levels, step), worst);
  }
}
