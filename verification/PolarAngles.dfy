/** The pair transform of PolarQuant: what quantizing an angle to a few bits loses (`quantization.rs`). */
module PolarAngles {
  import opened PolarQuant
  import opened PolarError
  import ScalarQuant

  /** The elementary functions, and pi. */
  datatype Trig = Trig(
    pi: real,
    hypot: (real, real) -> real,
    atan2: (real, real) -> real,
    cos: real -> real,
    sin: real -> real)

  /** What is assumed of them: polar coordinates, the unit circle, and a chord no longer than its arc. */
  ghost predicate Lawful(t: Trig) {
    && t.pi > 0.0
    && (forall x: real, y: real :: PolarCoordinates(t, x, y))
    && (forall a: real :: OnCircle(t, a))
    && (forall a: real, b: real :: ChordWithinArc(t, a, b))
  }

  ghost predicate PolarCoordinates(t: Trig, x: real, y: real) {
    && Sq(t.hypot(x, y)) == Sq(x) + Sq(y)
    && -t.pi <= t.atan2(y, x) <= t.pi
    && PointAt(t.hypot(x, y), t.cos(t.atan2(y, x)), t.sin(t.atan2(y, x)), x, y)
  }

  /** The point at distance r in a direction given by its cosine and sine. */
  ghost predicate PointAt(r: real, c: real, s: real, x: real, y: real) {
    x == r * c && y == r * s
  }

  ghost predicate OnCircle(t: Trig, a: real) {
    Sq(t.cos(a)) + Sq(t.sin(a)) == 1.0
  }

  ghost predicate ChordWithinArc(t: Trig, a: real, b: real) {
    ChordAtMost(t.cos(a), t.sin(a), t.cos(b), t.sin(b), a - b)
  }

  /** Two points of the plane at most d apart. */
  ghost predicate ChordAtMost(c: real, s: real, c0: real, s0: real, d: real) {
    Sq(c - c0) + Sq(s - s0) <= Sq(d)
  }

  // ---- The quantized angle ----

  /** From [-pi, pi] to the codes 0 to n, to the nearest. */
  function AngleCode(pi: real, n: nat, angle: real): (c: nat)
    requires pi > 0.0
    ensures c <= n
  {
    ScalarQuant.Clamp(ScalarQuant.Round((angle + pi) / (2.0 * pi) * n as real), 0, n)
  }

  function AngleOf(pi: real, n: nat, code: nat): real
    requires n > 0
  {
    code as real / n as real * (2.0 * pi) - pi
  }

  /** The transform of the code, with n + 1 angle codes: n is 255 for eight bits. */
  ghost function PairingOf(t: Trig, n: nat): Pairing
    requires t.pi > 0.0 && n > 0
  {
    Pairing(
      t.hypot,
      (x: real, y: real) => AngleCode(t.pi, n, t.atan2(y, x)),
      (r: real, c: nat) => r * t.cos(AngleOf(t.pi, n, c)),
      (r: real, c: nat) => r * t.sin(AngleOf(t.pi, n, c)))
  }

  lemma {:induction false} NearestCode(s: real, n: nat)
    requires 0.0 <= s <= n as real
    ensures 0 <= ScalarQuant.Round(s) <= n
    ensures -0.5 <= ScalarQuant.Round(s) as real - s <= 0.5
  {
  }

  /** The position of an angle among the n steps of the circle, and back. */
  lemma {:induction false} StepOfAngle(pi: real, n: real, angle: real, s: real)
    requires pi > 0.0 && n > 0.0 && -pi <= angle <= pi && s == (angle + pi) / (2.0 * pi) * n
    ensures 0.0 <= s <= n
    ensures s / n * (2.0 * pi) - pi == angle
  {
    var part := (angle + pi) / (2.0 * pi);
    assert part * (2.0 * pi) == angle + pi;
    PartOfWhole(angle + pi, 2.0 * pi);
    ScalarQuant.ScaleMonotone(0.0, part, n);
    ScalarQuant.ScaleMonotone(part, 1.0, n);
    assert s / n == part by {
      assert part * n / n == part;
    }
  }

  lemma {:induction false} PartOfWhole(a: real, whole: real)
    requires whole > 0.0 && 0.0 <= a <= whole
    ensures 0.0 <= a / whole <= 1.0
  {
    var u := 1.0 / whole;
    ScalarQuant.ScaleMonotone(0.0, a, u);
    ScalarQuant.ScaleMonotone(a, whole, u);
    assert a / whole == a * u && whole * u == 1.0;
  }

  /** d steps of the circle. */
  lemma {:induction false} StepsApart(pi: real, n: real, a: real, b: real, d: real)
    requires pi > 0.0 && n > 0.0 && d == a - b && -0.5 <= d <= 0.5
    ensures -(pi / n) <= (a / n * (2.0 * pi) - pi) - (b / n * (2.0 * pi) - pi) <= pi / n
  {
    var step := 2.0 * pi / n;
    assert step > 0.0;
    InSteps(a, n, pi, step);
    InSteps(b, n, pi, step);
    assert a * step - b * step == d * step;
    ScalarQuant.ScaleMonotone(-0.5, d, step);
    ScalarQuant.ScaleMonotone(d, 0.5, step);
    assert 0.5 * step == pi / n;
  }

  lemma {:induction false} InSteps(a: real, n: real, pi: real, step: real)
    requires n > 0.0 && step == 2.0 * pi / n
    ensures a / n * (2.0 * pi) == a * step
  {
    var u := 1.0 / n;
    assert a / n == a * u && step == 2.0 * pi * u;
  }

  /** An angle and the angle of its code are at most half a step, pi / n, apart. */
  lemma {:induction false} AngleError(pi: real, n: nat, angle: real)
    requires pi > 0.0 && n > 0 && -pi <= angle <= pi
    ensures -(pi / n as real) <= AngleOf(pi, n, AngleCode(pi, n, angle)) - angle <= pi / n as real
  {
    var s := (angle + pi) / (2.0 * pi) * n as real;
    StepOfAngle(pi, n as real, angle, s);
    NearestCode(s, n);
    var c := AngleCode(pi, n, angle);
    assert c == ScalarQuant.Round(s);
    StepsApart(pi, n as real, c as real, s, c as real - s);
  }

  // ---- The pair ----

  lemma {:induction false} SquareWithin(e: real, bound: real)
    requires -bound <= e <= bound
    ensures Sq(e) <= Sq(bound)
  {
    NotNegative(bound - e, bound + e);
    assert (bound - e) * (bound + e) == Sq(bound) - Sq(e);
  }

  lemma {:induction false} ScaledSquare(r: real, c: real, c0: real, square: real)
    requires square == Sq(c - c0)
    ensures Sq(r * c - r * c0) == Sq(r) * square
  {
    assert r * c - r * c0 == r * (c - c0);
    SquareOfProduct(r, c - c0);
  }

  lemma {:induction false} Assembled(left: real, right: real, total: real, f: real, a: real, b: real, bound: real)
    requires left == f * a && right == f * b && total == bound * f
    requires f >= 0.0 && a + b <= bound
    ensures left + right <= total
  {
    Distributes(f, a, b);
    ScalarQuant.ScaleMonotone(a + b, bound, f);
  }

  /** Two points of the same circle. */
  lemma {:induction false} ScaledChord(
      r: real, c: real, s: real, c0: real, s0: real, bound: real, left: real, right: real, x: real, y: real)
    requires Sq(c - c0) + Sq(s - s0) <= Sq(bound)
    requires left == r * c && right == r * s && x == r * c0 && y == r * s0
    ensures Sq(left - x) + Sq(right - y) <= Sq(bound * r)
  {
    ScaledSquare(r, c, c0, Sq(c - c0));
    ScaledSquare(r, s, s0, Sq(s - s0));
    SquareOfProduct(bound, r);
    Assembled(
      Sq(left - x), Sq(right - y), Sq(bound * r), Sq(r), Sq(c - c0), Sq(s - s0), Sq(bound));
  }

  lemma {:induction false} CloseFromPoints(
      m: Pairing, delta: real, x: real, y: real, r: real, code: nat, left: real, right: real)
    requires r == m.radius(x, y) && code == m.code(x, y) && left == m.x(r, code) && right == m.y(r, code)
    requires Sq(left - x) + Sq(right - y) <= Sq(delta * r)
    ensures CloseAt(m, delta, x, y)
  {
  }

  /** The transform m takes (x, y) to radius r and this code, and those to a point of the circle of radius r. */
  ghost predicate PairVia(m: Pairing, x: real, y: real, r: real, code: nat, c: real, s: real) {
    r == m.radius(x, y) && code == m.code(x, y) && m.x(r, code) == r * c && m.y(r, code) == r * s
  }

  lemma {:induction false} CloseFromChord(
      m: Pairing, delta: real, x: real, y: real, r: real, code: nat, c: real, s: real, c0: real, s0: real)
    requires PairVia(m, x, y, r, code, c, s)
    requires PointAt(r, c0, s0, x, y) && ChordAtMost(c, s, c0, s0, delta)
    ensures CloseAt(m, delta, x, y)
  {
    var left, right := r * c, r * s;
    ScaledChord(r, c, s, c0, s0, delta, left, right, x, y);
    CloseFromPoints(m, delta, x, y, r, code, left, right);
  }

  lemma {:induction false} PairOfAngles(t: Trig, n: nat, x: real, y: real, decoded: real)
    requires t.pi > 0.0 && n > 0 && decoded == AngleOf(t.pi, n, AngleCode(t.pi, n, t.atan2(y, x)))
    ensures PairVia(
      PairingOf(t, n), x, y, t.hypot(x, y), AngleCode(t.pi, n, t.atan2(y, x)), t.cos(decoded), t.sin(decoded))
  {
  }

  lemma {:induction false} ChordOfCode(t: Trig, n: nat, delta: real, angle: real, decoded: real)
    requires t.pi > 0.0 && n > 0 && delta == t.pi / n as real && -t.pi <= angle <= t.pi
    requires decoded == AngleOf(t.pi, n, AngleCode(t.pi, n, angle)) && ChordWithinArc(t, decoded, angle)
    ensures ChordAtMost(t.cos(decoded), t.sin(decoded), t.cos(angle), t.sin(angle), delta)
  {
    AngleError(t.pi, n, angle);
    SquareWithin(decoded - angle, delta);
  }

  lemma {:induction false} PairIsClose(t: Trig, n: nat, delta: real, x: real, y: real)
    requires Lawful(t) && n > 0 && delta == t.pi / n as real
    ensures CloseAt(PairingOf(t, n), delta, x, y)
  {
    assert PolarCoordinates(t, x, y);
    var angle := t.atan2(y, x);
    assert ChordWithinArc(t, AngleOf(t.pi, n, AngleCode(t.pi, n, angle)), angle);
    PairIsCloseAt(t, n, delta, x, y);
  }

  lemma {:induction false} PairIsCloseAt(t: Trig, n: nat, delta: real, x: real, y: real)
    requires t.pi > 0.0 && n > 0 && delta == t.pi / n as real && PolarCoordinates(t, x, y)
    requires ChordWithinArc(t, AngleOf(t.pi, n, AngleCode(t.pi, n, t.atan2(y, x))), t.atan2(y, x))
    ensures CloseAt(PairingOf(t, n), delta, x, y)
  {
    var r, angle := t.hypot(x, y), t.atan2(y, x);
    var code := AngleCode(t.pi, n, angle);
    var decoded := AngleOf(t.pi, n, code);
    ChordOfCode(t, n, delta, angle, decoded);
    PairOfAngles(t, n, x, y, decoded);
    CloseFromChord(
      PairingOf(t, n), delta, x, y, r, code, t.cos(decoded), t.sin(decoded), t.cos(angle), t.sin(angle));
  }

  lemma {:induction false} PairKeepsLength(t: Trig, n: nat, r: real, c: nat)
    requires Lawful(t) && n > 0
    ensures Sq(PairingOf(t, n).x(r, c)) + Sq(PairingOf(t, n).y(r, c)) == Sq(r)
  {
    var a := AngleOf(t.pi, n, c);
    assert OnCircle(t, a);
    SquareOfProduct(r, t.cos(a));
    SquareOfProduct(r, t.sin(a));
    Distributes(Sq(r), Sq(t.cos(a)), Sq(t.sin(a)));
  }

  /** The transform of the code meets everything that is asked of one, with an error of half an angle step. */
  lemma {:induction false} AnglesArePrecise(t: Trig, n: nat, delta: real)
    requires Lawful(t) && n > 0 && delta == t.pi / n as real
    ensures Precise(PairingOf(t, n), delta)
  {
    var m := PairingOf(t, n);
    forall x: real, y: real
      ensures CloseAt(m, delta, x, y)
    {
      PairIsClose(t, n, delta, x, y);
    }
    forall x: real, y: real
      ensures Sq(m.radius(x, y)) == Sq(x) + Sq(y)
    {
      assert PolarCoordinates(t, x, y);
    }
    forall r: real, c: nat
      ensures Sq(m.x(r, c)) + Sq(m.y(r, c)) == Sq(r) && LinearAt(m, r, c)
    {
      PairKeepsLength(t, n, r, c);
    }
  }

  /**
   * Encoding with n + 1 angle codes and decoding again: the error, in Euclidean norm, is at most
   * pi / n of the norm of the vector for each level, whatever the dimension.
   */
  lemma {:induction false} AngleDecodeError(
      v: seq<real>, t: Trig, n: nat, q: PolarQuantized, decoded: seq<real>, levels: nat, worst: real)
    requires Lawful(t) && n > 0 && levels == |Levels(|v|)| && worst == levels as real * (t.pi / n as real)
    requires q == Encode(v, PairingOf(t, n)) && decoded == Decode(q.angles, q.finalRadius, q.dim, PairingOf(t, n))
    ensures |decoded| == |v| && SumSq(Minus(decoded, v)) <= Sq(worst) * SumSq(v)
  {
    AnglesArePrecise(t, n, t.pi / n as real);
    DecodeError(v, PairingOf(t, n), t.pi / n as real, q, decoded, levels, worst);
  }
}
