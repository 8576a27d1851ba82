/** PolarQuant: recursive polar coordinates, level by level (`quantization.rs`). */
module PolarQuant {

  /**
   * The pair transform: hypot and the quantized angle one way, r cos and r sin of the
   * dequantized angle the other. Only the laws stated in each lemma are assumed of it.
   */
  datatype Pairing = Pairing(
    radius: (real, real) -> real,
    code: (real, real) -> nat,
    x: (real, nat) -> real,
    y: (real, nat) -> real)

  datatype PolarQuantized = PolarQuantized(finalRadius: real, angles: seq<nat>, dim: nat)

  /** The pair is recovered exactly from its radius and its angle code. */
  ghost predicate Recovers(m: Pairing, x: real, y: real) {
    m.x(m.radius(x, y), m.code(x, y)) == x && m.y(m.radius(x, y), m.code(x, y)) == y
  }

  /** Every pair is. */
  ghost predicate Invertible(m: Pairing) {
    forall x: real, y: real :: Recovers(m, x, y)
  }

  /** hypot, and cos^2 + sin^2 = 1. */
  ghost predicate KeepsLength(m: Pairing) {
    && (forall x: real, y: real :: Sq(m.radius(x, y)) == Sq(x) + Sq(y))
    && (forall r: real, c: nat :: Sq(m.x(r, c)) + Sq(m.y(r, c)) == Sq(r))
  }

  /** The same laws for any weight of a component in the place of its square. */
  ghost predicate Keeps(m: Pairing, w: real -> real) {
    && w(0.0) == 0.0 && (forall x: real :: w(x) >= 0.0)
    && (forall x: real, y: real :: RadiusKeeps(m, w, x, y))
    && (forall r: real, c: nat :: PairKeeps(m, w, r, c))
  }

  ghost predicate RadiusKeeps(m: Pairing, w: real -> real, x: real, y: real) {
    w(m.radius(x, y)) == w(x) + w(y)
  }

  ghost predicate PairKeeps(m: Pairing, w: real -> real, r: real, c: nat) {
    w(m.x(r, c)) + w(m.y(r, c)) == w(r)
  }

  function Sq(x: real): (s: real)
    ensures s >= 0.0
  {
    x * x
  }

  /** Rounded up. */
  function Half(n: nat): (h: nat)
    ensures n > 1 ==> 0 < h < n
  {
    (n + 1) / 2
  }

  // ---- The encoder ----

  function Padded(v: seq<real>): (p: seq<real>)
    ensures |p| == 2 * Half(|v|) && |p| % 2 == 0 && |p| / 2 == Half(|v|)
  {
    if |v| % 2 == 1 then v + [0.0] else v
  }

  function Radii(v: seq<real>, m: Pairing): (r: seq<real>)
    requires |v| % 2 == 0
    ensures |r| == |v| / 2
  {
    seq(|v| / 2, i requires 0 <= i < |v| / 2 => m.radius(v[2 * i], v[2 * i + 1]))
  }

  function Codes(v: seq<real>, m: Pairing): (c: seq<nat>)
    requires |v| % 2 == 0
    ensures |c| == |v| / 2
  {
    seq(|v| / 2, i requires 0 <= i < |v| / 2 => m.code(v[2 * i], v[2 * i + 1]))
  }

  /** All angle codes, the first level first. */
  function Angles(v: seq<real>, m: Pairing): (c: seq<nat>)
    ensures |c| == AngleCount(|v|)
    decreases |v|
  {
    if |v| <= 1 then [] else Codes(Padded(v), m) + Angles(Radii(Padded(v), m), m)
  }

  function FinalRadius(v: seq<real>, m: Pairing): real
    decreases |v|
  {
    if v == [] then 0.0 else if |v| == 1 then v[0] else FinalRadius(Radii(Padded(v), m), m)
  }

  function Encode(v: seq<real>, m: Pairing): PolarQuantized {
    PolarQuantized(FinalRadius(v, m), Angles(v, m), |v|)
  }

  function AngleCount(dim: nat): nat {
    if dim <= 1 then 0 else Half(dim) + AngleCount(Half(dim))
  }

  /** One level of the encoder: a radius and a code per pair. */
  method EncodeLevel(current: seq<real>, m: Pairing) returns (radii: seq<real>, codes: seq<nat>)
    requires |current| % 2 == 0
    ensures radii == Radii(current, m) && codes == Codes(current, m)
  {
    radii, codes := [], [];
    for i := 0 to |current| / 2
      invariant |radii| == i && |codes| == i
      invariant forall j :: 0 <= j < i ==> radii[j] == Radii(current, m)[j] && codes[j] == Codes(current, m)[j]
    {
      var x, y := current[2 * i], current[2 * i + 1];
      codes := codes + [m.code(x, y)];
      radii := radii + [m.radius(x, y)];
    }
  }

  method PolarEncode(v: seq<real>, m: Pairing) returns (q: PolarQuantized)
    ensures q == Encode(v, m)
  {
    if v == [] {
      return PolarQuantized(0.0, [], 0);
    }
    var angles: seq<nat> := [];
    var current := v;
    assert [] + Angles(v, m) == Angles(v, m);
    while |current| > 1
      invariant |current| >= 1
      invariant angles + Angles(current, m) == Angles(v, m)
      invariant FinalRadius(current, m) == FinalRadius(v, m)
      decreases |current|
    {
      AnglesSplit(angles, current, m);
      if |current| % 2 == 1 {
        current := current + [0.0];
      }
      var radii, codes := EncodeLevel(current, m);
      angles := angles + codes;
      current := radii;
    }
    assert angles + [] == angles;
    q := PolarQuantized(current[0], angles, |v|);
  }

  lemma {:induction false} AnglesSplit(done: seq<nat>, current: seq<real>, m: Pairing)
    requires |current| > 1
    ensures done + Angles(current, m) == (done + Codes(Padded(current), m)) + Angles(Radii(Padded(current), m), m)
    ensures FinalRadius(current, m) == FinalRadius(Radii(Padded(current), m), m)
  {
  }

  // ---- The decoder ----

  /** Each radius and code becomes two components. */
  function Expand(radii: seq<real>, codes: seq<nat>, m: Pairing): (v: seq<real>)
    requires |radii| == |codes|
    ensures |v| == 2 * |radii|
  {
    seq(2 * |radii|, i requires 0 <= i < 2 * |radii| =>
      if i % 2 == 0 then m.x(radii[i / 2], codes[i / 2]) else m.y(radii[i / 2], codes[i / 2]))
  }

  /** The deepest level first; each level drops the component that padded it. */
  function Decode(angles: seq<nat>, r: real, dim: nat, m: Pairing): (v: seq<real>)
    requires |angles| >= AngleCount(dim)
    ensures |v| == dim
    decreases dim
  {
    if dim == 0 then []
    else if dim == 1 then [r]
    else
      var n := Half(dim);
      Expand(Decode(angles[n..], r, n, m), angles[..n], m)[..dim]
  }

  /** The number of pairs of each level. */
  function Levels(dim: nat): seq<nat> {
    if dim <= 1 then [] else [Half(dim)] + Levels(Half(dim))
  }

  /** The number of elements fed into level k. */
  function Size(dim: nat, k: nat): nat {
    if k == 0 then dim else Size(Half(dim), k - 1)
  }

  lemma {:induction false} LevelAt(dim: nat, k: nat)
    requires dim >= 1 && k <= |Levels(dim)|
    ensures k < |Levels(dim)| ==>
              Size(dim, k) > 1 && Levels(dim)[k] == Size(dim, k + 1) == Half(Size(dim, k))
    ensures k == |Levels(dim)| ==> Size(dim, k) == 1
    ensures k > 0 ==> Levels(dim)[k - 1] == Size(dim, k)
  {
    if k > 0 {
      LevelAt(Half(dim), k - 1);
    }
  }

  /** Offsets of the levels in the angle array, as the decoder sums them up. */
  ghost predicate AreOffsets(offsets: seq<nat>, levels: seq<nat>) {
    && |offsets| == |levels|
    && (levels != [] ==> offsets[0] == 0)
    && forall i :: 1 <= i < |offsets| ==> offsets[i] == offsets[i - 1] + levels[i - 1]
  }

  method LevelSizes(dim: nat) returns (levels: seq<nat>)
    requires dim >= 1
    ensures levels == Levels(dim)
  {
    levels := [];
    var sz := dim;
    while sz > 1
      invariant sz >= 1
      invariant levels + Levels(sz) == Levels(dim)
      decreases sz
    {
      assert levels + ([Half(sz)] + Levels(Half(sz))) == (levels + [Half(sz)]) + Levels(Half(sz));
      sz := (sz + 1) / 2;
      levels := levels + [sz];
    }
  }

  method AngleOffsets(levels: seq<nat>) returns (offsets: seq<nat>)
    ensures AreOffsets(offsets, levels)
  {
    offsets := seq(|levels|, _ => 0);
    var i := 1;
    while i < |levels|
      invariant |offsets| == |levels| && i >= 1
      invariant levels != [] ==> offsets[0] == 0
      invariant forall j :: 1 <= j < i && j < |levels| ==> offsets[j] == offsets[j - 1] + levels[j - 1]
    {
      offsets := offsets[i := offsets[i - 1] + levels[i - 1]];
      i := i + 1;
    }
  }

  /** One level of the decoder: expand, then trim the padding. */
  method ExpandLevel(radii: seq<real>, angles: seq<nat>, offset: nat, inputSize: nat, m: Pairing)
    returns (expanded: seq<real>)
    requires |radii| == Half(inputSize) && offset + |radii| <= |angles|
    ensures expanded == Expand(radii, angles[offset..offset + |radii|], m)[..inputSize]
  {
    expanded := [];
    ghost var all := Expand(radii, angles[offset..offset + |radii|], m);
    for i := 0 to |radii|
      invariant |expanded| == 2 * i
      invariant forall j :: 0 <= j < 2 * i ==> expanded[j] == all[j]
    {
      var q := angles[offset + i];
      assert all[2 * i] == m.x(radii[i], q) && all[2 * i + 1] == m.y(radii[i], q);
      expanded := expanded + [m.x(radii[i], q), m.y(radii[i], q)];
    }
    expanded := expanded[..inputSize];
  }

  /** Where the angles of level k start. */
  function LevelStart(dim: nat, k: nat): int {
    AngleCount(dim) - AngleCount(Size(dim, k))
  }

  /** What the decoder holds after expanding every level of which the angles start at o or later. */
  ghost predicate DecodedFrom(v: seq<real>, q: PolarQuantized, o: nat, size: nat, m: Pairing) {
    o + AngleCount(size) <= |q.angles| && v == Decode(q.angles[o..], q.finalRadius, size, m)
  }

  lemma {:induction false} DecodeUnfolds(angles: seq<nat>, r: real, o: nat, size: nat, m: Pairing)
    requires size > 1 && o + AngleCount(size) <= |angles|
    ensures o + Half(size) + AngleCount(Half(size)) <= |angles|
    ensures Decode(angles[o..], r, size, m) ==
            Expand(Decode(angles[o + Half(size)..], r, Half(size), m), angles[o..o + Half(size)], m)[..size]
  {
    var rest, n := angles[o..], Half(size);
    assert rest[..n] == angles[o..o + n] && rest[n..] == angles[o + n..];
  }

  lemma {:induction false} NextLevel(dim: nat, k: nat)
    requires dim >= 1 && k < |Levels(dim)|
    ensures Size(dim, k) > 1 && Size(dim, k + 1) == Half(Size(dim, k))
    ensures LevelStart(dim, k + 1) == LevelStart(dim, k) + Half(Size(dim, k))
  {
    LevelAt(dim, k);
  }

  /** The offset table has the starts of the levels. */
  lemma {:induction false} OffsetIsStart(dim: nat, offsets: seq<nat>, k: nat)
    requires dim >= 1 && AreOffsets(offsets, Levels(dim)) && k < |offsets|
    ensures offsets[k] == LevelStart(dim, k)
  {
    if k > 0 {
      OffsetIsStart(dim, offsets, k - 1);
      LevelAt(dim, k - 1);
    }
  }

  /** What the decoder reads off its tables for level k. */
  lemma {:induction false} TablesAt(dim: nat, levels: seq<nat>, offsets: seq<nat>, k: nat)
    requires dim > 1 && levels == Levels(dim) && AreOffsets(offsets, levels) && k < |levels|
    ensures offsets[k] == LevelStart(dim, k) && ([dim] + levels[..|levels| - 1])[k] == Size(dim, k) > 1
    ensures LevelStart(dim, k + 1) == offsets[k] + Half(Size(dim, k)) && Size(dim, k + 1) == Half(Size(dim, k))
  {
    LevelAt(dim, k);
    NextLevel(dim, k);
    OffsetIsStart(dim, offsets, k);
  }

  /** The invariant of the expansion loop: every level from k on is expanded. */
  ghost predicate ExpandedTo(v: seq<real>, q: PolarQuantized, k: nat, m: Pairing) {
    0 <= LevelStart(q.dim, k) && DecodedFrom(v, q, LevelStart(q.dim, k), Size(q.dim, k), m)
  }

  lemma {:induction false} NothingExpanded(q: PolarQuantized, m: Pairing)
    requires q.dim > 1 && |q.angles| >= AngleCount(q.dim)
    ensures Levels(q.dim) != [] && ExpandedTo([q.finalRadius], q, |Levels(q.dim)|, m)
  {
    LevelAt(q.dim, |Levels(q.dim)|);
  }

  /** One level: the radii of the next deeper one are expanded and trimmed. */
  method ExpandNext(q: PolarQuantized, offset: nat, inputSize: nat, v: seq<real>, m: Pairing)
    returns (next: seq<real>)
    requires inputSize > 1 && offset + AngleCount(inputSize) <= |q.angles|
    requires DecodedFrom(v, q, offset + Half(inputSize), Half(inputSize), m)
    ensures DecodedFrom(next, q, offset, inputSize, m)
  {
    next := ExpandLevel(v, q.angles, offset, inputSize, m);
    DecodeUnfolds(q.angles, q.finalRadius, offset, inputSize, m);
  }

  /** The body of the expansion loop. */
  method ExpandOne(q: PolarQuantized, levels: seq<nat>, offsets: seq<nat>, k: nat, v: seq<real>, m: Pairing)
    returns (next: seq<real>)
    requires q.dim > 1 && |q.angles| >= AngleCount(q.dim)
    requires levels == Levels(q.dim) && AreOffsets(offsets, levels) && k < |levels| && ExpandedTo(v, q, k + 1, m)
    ensures ExpandedTo(next, q, k, m)
  {
    TablesAt(q.dim, levels, offsets, k);
    var inputSizes := [q.dim] + levels[..|levels| - 1];
    next := ExpandNext(q, offsets[k], inputSizes[k], v, m);
  }

  /** The expansion loop, deepest level first. */
  method DecodeLevels(q: PolarQuantized, levels: seq<nat>, offsets: seq<nat>, m: Pairing) returns (v: seq<real>)
    requires q.dim > 1 && |q.angles| >= AngleCount(q.dim)
    requires levels == Levels(q.dim) && AreOffsets(offsets, levels)
    ensures ExpandedTo(v, q, 0, m)
  {
    NothingExpanded(q, m);
    v := [q.finalRadius];
    for level := |levels| downto 0
      invariant ExpandedTo(v, q, level, m)
    {
      v := ExpandOne(q, levels, offsets, level, v, m);
    }
  }

  method PolarDecode(q: PolarQuantized, m: Pairing) returns (v: seq<real>)
    requires |q.angles| >= AngleCount(q.dim)
    ensures v == Decode(q.angles, q.finalRadius, q.dim, m)
  {
    if q.dim == 0 {
      return [];
    }
    if q.dim == 1 {
      return [q.finalRadius];
    }
    var levels := LevelSizes(q.dim);
    var offsets := AngleOffsets(levels);
    v := DecodeLevels(q, levels, offsets, m);
    assert q.angles[0..] == q.angles;
  }

  // ---- Round trip ----

  /** Every pair that encoding v meets, on any level, is recovered. */
  ghost predicate RecoversAll(v: seq<real>, m: Pairing)
    decreases |v|
  {
    |v| > 1 ==> RecoversPairs(Padded(v), m) && RecoversAll(Radii(Padded(v), m), m)
  }

  ghost predicate RecoversPairs(p: seq<real>, m: Pairing)
    requires |p| % 2 == 0
  {
    forall j :: 0 <= j < |p| / 2 ==> Recovers(m, p[2 * j], p[2 * j + 1])
  }

  lemma {:induction false} ExpandInverts(p: seq<real>, m: Pairing)
    requires |p| % 2 == 0 && RecoversPairs(p, m)
    ensures Expand(Radii(p, m), Codes(p, m), m) == p
  {
    var e := Expand(Radii(p, m), Codes(p, m), m);
    forall i | 0 <= i < |p|
      ensures e[i] == p[i]
    {
      var j := i / 2;
      assert Recovers(m, p[2 * j], p[2 * j + 1]);
    }
  }

  lemma {:induction false} LevelUndone(
      v: seq<real>, p: seq<real>, radii: seq<real>, codes: seq<nat>, rest: seq<nat>, angles: seq<nat>, r: real,
      m: Pairing)
    requires |v| > 1 && |radii| == |codes| == Half(|v|) && |rest| == AngleCount(Half(|v|)) && angles == codes + rest
    requires Expand(radii, codes, m) == p && |p| >= |v| && p[..|v|] == v
    requires Decode(rest, r, Half(|v|), m) == radii
    ensures Decode(angles, r, |v|, m) == v
  {
    assert angles[..|codes|] == codes && angles[|codes|..] == rest;
  }

  lemma {:induction false} FirstAngles(v: seq<real>, m: Pairing)
    requires |v| > 1
    ensures Angles(v, m) == Codes(Padded(v), m) + Angles(Radii(Padded(v), m), m)
    ensures |Angles(Radii(Padded(v), m), m)| == AngleCount(Half(|v|))
    ensures Padded(v)[..|v|] == v
  {
  }

  /** The first level of the encoder is undone by the last level of the decoder. */
  lemma {:induction false} FirstLevelInverts(v: seq<real>, p: seq<real>, rest: seq<nat>, m: Pairing, r: real)
    requires |v| > 1 && p == Padded(v) && RecoversPairs(p, m) && |rest| == AngleCount(Half(|v|))
    requires Decode(rest, r, Half(|v|), m) == Radii(p, m) && p[..|v|] == v
    ensures Decode(Codes(p, m) + rest, r, |v|, m) == v
  {
    ExpandInverts(p, m);
    LevelUndone(v, p, Radii(p, m), Codes(p, m), rest, Codes(p, m) + rest, r, m);
  }

  lemma {:induction false} DecodesBack(v: seq<real>, m: Pairing)
    requires RecoversAll(v, m)
    ensures Decode(Angles(v, m), FinalRadius(v, m), |v|, m) == v
    decreases |v|
  {
    if |v| > 1 {
      var radii := Radii(Padded(v), m);
      DecodesBack(radii, m);
      FirstAngles(v, m);
      FirstLevelInverts(v, Padded(v), Angles(radii, m), m, FinalRadius(radii, m));
    }
  }

  /** At every dimension, odd ones included, decoding inverts encoding when the pairs met are recovered. */
  lemma {:induction false} DecodeInvertsEncode(v: seq<real>, m: Pairing)
    requires RecoversAll(v, m)
    ensures Decode(Encode(v, m).angles, Encode(v, m).finalRadius, Encode(v, m).dim, m) == v
  {
    DecodesBack(v, m);
  }

  lemma {:induction false} InvertiblePairs(p: seq<real>, m: Pairing)
    requires Invertible(m) && |p| % 2 == 0
    ensures RecoversPairs(p, m)
  {
  }

  /** In particular when the pair transform is invertible everywhere. */
  lemma {:induction false} InvertibleRecoversAll(v: seq<real>, m: Pairing)
    requires Invertible(m)
    ensures RecoversAll(v, m)
    decreases |v|
  {
    if |v| > 1 {
      InvertiblePairs(Padded(v), m);
      InvertibleRecoversAll(Radii(Padded(v), m), m);
    }
  }

  // ---- Conservation of length ----

  /** The weights of the first n components. */
  function SumTo(v: seq<real>, w: real -> real, n: nat): real
    requires n <= |v|
  {
    if n == 0 then 0.0 else SumTo(v, w, n - 1) + w(v[n - 1])
  }

  function Sum(v: seq<real>, w: real -> real): real {
    SumTo(v, w, |v|)
  }

  function SumSq(v: seq<real>): real {
    Sum(v, Sq)
  }

  lemma {:induction false} SquaresAreKept(m: Pairing)
    requires KeepsLength(m)
    ensures Keeps(m, Sq)
  {
  }

  lemma {:induction false} SamePrefix(a: seq<real>, b: seq<real>, w: real -> real, n: nat)
    requires n <= |a| && n <= |b| && forall i :: 0 <= i < n ==> a[i] == b[i]
    ensures SumTo(a, w, n) == SumTo(b, w, n)
  {
    if n > 0 {
      SamePrefix(a, b, w, n - 1);
    }
  }

  ghost predicate PairAddsUp(e: seq<real>, radii: seq<real>, w: real -> real, j: nat) {
    2 * j + 1 < |e| && j < |radii| && w(e[2 * j]) + w(e[2 * j + 1]) == w(radii[j])
  }

  /** Pairs whose two weights add up to those of their radii. */
  lemma {:induction false} PairsAddUp(e: seq<real>, radii: seq<real>, w: real -> real, n: nat)
    requires n <= |radii| && 2 * n <= |e| && forall j :: 0 <= j < n ==> PairAddsUp(e, radii, w, j)
    ensures SumTo(e, w, 2 * n) == SumTo(radii, w, n)
  {
    if n > 0 {
      PairsAddUp(e, radii, w, n - 1);
      assert PairAddsUp(e, radii, w, n - 1);
      assert SumTo(e, w, 2 * n - 1) == SumTo(e, w, 2 * n - 2) + w(e[2 * n - 2]);
    }
  }

  lemma {:induction false} RadiiKeepLength(p: seq<real>, m: Pairing, w: real -> real)
    requires |p| % 2 == 0 && Keeps(m, w)
    ensures Sum(Radii(p, m), w) == Sum(p, w)
  {
    forall j | 0 <= j < |p| / 2
      ensures PairAddsUp(p, Radii(p, m), w, j)
    {
      assert RadiusKeeps(m, w, p[2 * j], p[2 * j + 1]);
    }
    PairsAddUp(p, Radii(p, m), w, |p| / 2);
  }

  lemma {:induction false} PaddedKeeps(v: seq<real>, w: real -> real)
    requires w(0.0) == 0.0
    ensures Sum(Padded(v), w) == Sum(v, w)
  {
    SamePrefix(Padded(v), v, w, |v|);
  }

  lemma {:induction false} FinalRadiusKeeps(v: seq<real>, m: Pairing, w: real -> real)
    requires Keeps(m, w)
    ensures w(FinalRadius(v, m)) == Sum(v, w)
    decreases |v|
  {
    if |v| == 1 {
      assert SumTo(v, w, 0) == 0.0;
    } else if |v| > 1 {
      var radii := Radii(Padded(v), m);
      FinalRadiusKeeps(radii, m, w);
      RadiiKeepLength(Padded(v), m, w);
      PaddedKeeps(v, w);
      assert FinalRadius(v, m) == FinalRadius(radii, m);
    }
  }

  /** The square of the final radius is the sum of squares of the vector. */
  lemma {:induction false} FinalRadiusKeepsLength(v: seq<real>, m: Pairing)
    requires KeepsLength(m)
    ensures Sq(FinalRadius(v, m)) == SumSq(v)
  {
    SquaresAreKept(m);
    FinalRadiusKeeps(v, m, Sq);
  }

  lemma {:induction false} ExpandAt(radii: seq<real>, codes: seq<nat>, m: Pairing, j: nat)
    requires |radii| == |codes| && j < |radii|
    ensures Expand(radii, codes, m)[2 * j] == m.x(radii[j], codes[j])
    ensures Expand(radii, codes, m)[2 * j + 1] == m.y(radii[j], codes[j])
  {
  }

  lemma {:induction false} KeptPair(m: Pairing, w: real -> real, r: real, c: nat)
    requires Keeps(m, w)
    ensures w(m.x(r, c)) + w(m.y(r, c)) == w(r)
  {
    assert PairKeeps(m, w, r, c);
  }

  lemma {:induction false} ExpandKeeps(radii: seq<real>, codes: seq<nat>, m: Pairing, w: real -> real)
    requires |radii| == |codes| && Keeps(m, w)
    ensures Sum(Expand(radii, codes, m), w) == Sum(radii, w)
  {
    forall j | 0 <= j < |radii|
      ensures PairAddsUp(Expand(radii, codes, m), radii, w, j)
    {
      ExpandAt(radii, codes, m, j);
      KeptPair(m, w, radii[j], codes[j]);
    }
    PairsAddUp(Expand(radii, codes, m), radii, w, |radii|);
  }

  /** One level of decoding keeps the length, but for the component trimmed when its size is odd. */
  lemma {:induction false} LevelKeeps(inner: seq<real>, codes: seq<nat>, size: nat, m: Pairing, w: real -> real)
    requires size > 1 && |inner| == |codes| == Half(size) && Keeps(m, w)
    ensures Sum(Expand(inner, codes, m)[..size], w) ==
            Sum(inner, w) - if size % 2 == 1 then w(m.y(inner[|inner| - 1], codes[|inner| - 1])) else 0.0
    ensures Sum(Expand(inner, codes, m)[..size], w) <= Sum(inner, w)
  {
    var e := Expand(inner, codes, m);
    ExpandKeeps(inner, codes, m, w);
    SamePrefix(e[..size], e, w, size);
    if size % 2 == 1 {
      ExpandAt(inner, codes, m, |inner| - 1);
    }
  }

  predicate PowerOfTwo(n: nat) {
    if n <= 1 then n == 1 else n % 2 == 0 && PowerOfTwo(n / 2)
  }

  lemma {:induction false} PowerOfTwoHalves(n: nat)
    requires n > 1 && PowerOfTwo(n)
    ensures n % 2 == 0 && PowerOfTwo(Half(n))
  {
    assert n / 2 == Half(n);
  }

  /** The outermost level of the decoder. */
  lemma {:induction false} DecodeKeepsLevel(angles: seq<nat>, r: real, dim: nat, m: Pairing, w: real -> real)
    requires dim > 1 && |angles| >= AngleCount(dim) && Keeps(m, w)
    ensures |angles[Half(dim)..]| >= AngleCount(Half(dim))
    ensures var before, after := Sum(Decode(angles[Half(dim)..], r, Half(dim), m), w), Sum(Decode(angles, r, dim, m), w);
            after <= before && (dim % 2 == 0 ==> after == before)
  {
    var n := Half(dim);
    var inner := Decode(angles[n..], r, n, m);
    LevelKeeps(inner, angles[..n], dim, m, w);
  }

  lemma {:induction false} DecodeKeeps(angles: seq<nat>, r: real, dim: nat, m: Pairing, w: real -> real)
    requires |angles| >= AngleCount(dim) && Keeps(m, w)
    ensures Sum(Decode(angles, r, dim, m), w) <= w(r)
    ensures PowerOfTwo(dim) ==> Sum(Decode(angles, r, dim, m), w) == w(r)
    decreases dim
  {
    if dim == 0 {
      assert w(r) >= 0.0;
    } else if dim == 1 {
      assert SumTo([r], w, 0) == 0.0;
    } else {
      DecodeKeepsLevel(angles, r, dim, m, w);
      DecodeKeeps(angles[Half(dim)..], r, Half(dim), m, w);
      if PowerOfTwo(dim) {
        PowerOfTwoHalves(dim);
      }
    }
  }

  /**
   * Whatever the angle bytes, the decoded vector is no longer than the final radius, and exactly
   * as long when the dimension is a power of two: only trimmed padding can lose length.
   */
  lemma {:induction false} DecodedLength(angles: seq<nat>, r: real, dim: nat, m: Pairing)
    requires |angles| >= AngleCount(dim) && KeepsLength(m)
    ensures SumSq(Decode(angles, r, dim, m)) <= Sq(r)
    ensures PowerOfTwo(dim) ==> SumSq(Decode(angles, r, dim, m)) == Sq(r)
  {
    SquaresAreKept(m);
    DecodeKeeps(angles, r, dim, m, Sq);
  }
}
