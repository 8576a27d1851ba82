/** QJL: the signs of a random projection of the residual, packed 64 to a word (`quantization.rs`). */
module Qjl {
  import opened Base

  /** m rows of plus and minus ones. The random generator that fills them is a parameter. */
  datatype QjlParams = QjlParams(m: nat, dim: nat, matrix: seq<seq<int>>)
  {
    ghost predicate Valid() {
      && |matrix| == m
      && forall i :: 0 <= i < m ==> |matrix[i]| == dim && forall d :: 0 <= d < dim ==> matrix[i][d] in {-1, 1}
    }
  }

  function Words(m: nat): nat {
    (m + 63) / 64
  }

  function Project(row: seq<int>, v: seq<real>): real
    requires |row| == |v|
  {
    if row == [] then 0.0
    else Project(row[..|row| - 1], v[..|v| - 1]) + row[|row| - 1] as real * v[|v| - 1]
  }

  function PlainSum(v: seq<real>): real {
    if v == [] then 0.0 else v[0] + PlainSum(v[1..])
  }

  lemma {:induction false} PlainSumLast(v: seq<real>)
    requires v != []
    ensures PlainSum(v) == PlainSum(v[..|v| - 1]) + v[|v| - 1]
  {
    if |v| > 1 {
      PlainSumLast(v[1..]);
      assert v[1..][..|v| - 2] == v[..|v| - 1][1..];
    }
  }

  /** A row of plus ones adds the components up; with NegatedEntry, this is what every row of signs does. */
  lemma {:induction false} PlusRowAdds(row: seq<int>, v: seq<real>)
    requires |row| == |v| && forall d :: 0 <= d < |row| ==> row[d] == 1
    ensures Project(row, v) == PlainSum(v)
  {
    if row != [] {
      PlusRowAdds(row[..|row| - 1], v[..|v| - 1]);
      PlainSumLast(v);
    }
  }

  /** Turning one sign over moves the projection by twice that component. */
  lemma {:induction false} NegatedEntry(row: seq<int>, v: seq<real>, d: nat)
    requires d < |row| == |v|
    ensures Project(row[d := -row[d]], v) == Project(row, v) - 2.0 * (row[d] as real * v[d])
  {
    var n := |row| - 1;
    var turned := row[d := -row[d]];
    if d == n {
      assert turned[..n] == row[..n];
      assert turned[n] as real * v[n] == -(row[n] as real * v[n]);
    } else {
      NegatedEntry(row[..n], v[..n], d);
      assert turned[..n] == row[..n][d := -row[d]];
    }
  }

  // ---- Bits of a 64-bit word, kept as a number ----

  type Word = w: nat | w < 0x1_0000_0000_0000_0000
    witness 0

  lemma {:induction false} HalfWord(n: nat)
    ensures Pow2(n + 32) == 0x1_0000_0000 * Pow2(n)
  {
    EightMoreBits(n);
    EightMoreBits(n + 8);
    EightMoreBits(n + 16);
    EightMoreBits(n + 24);
  }

  lemma {:induction false} Pow2OfWord(n: nat)
    requires n == 64
    ensures Pow2(n) == 0x1_0000_0000_0000_0000
  {
    HalfWord(n - 32);
    HalfWord(n - 64);
  }

  /** `word & (1 << p) != 0` */
  predicate IsSet(word: nat, p: nat) {
    if p == 0 then word % 2 == 1 else IsSet(word / 2, p - 1)
  }

  /** `word | (1 << p)` */
  function WithBit(word: nat, p: nat): nat {
    if p == 0 then word / 2 * 2 + 1 else WithBit(word / 2, p - 1) * 2 + word % 2
  }

  lemma {:induction false} WithBitSets(word: nat, p: nat, q: nat)
    ensures IsSet(WithBit(word, p), q) <==> p == q || IsSet(word, q)
  {
    if p > 0 && q > 0 {
      WithBitSets(word / 2, p - 1, q - 1);
    }
  }

  lemma {:induction false} HalfFits(word: nat, half: nat)
    requires word < 2 * half
    ensures word / 2 < half
  {
  }

  lemma {:induction false} WithBitFits(word: nat, p: nat, n: nat)
    requires word < Pow2(n) && p < n
    ensures WithBit(word, p) < Pow2(n)
  {
    var half := Pow2(n - 1);
    assert Pow2(n) == 2 * half;
    HalfFits(word, half);
    if p > 0 {
      WithBitFits(word / 2, p - 1, n - 1);
      assert WithBit(word, p) == WithBit(word / 2, p - 1) * 2 + word % 2;
    }
  }

  lemma {:induction false} NoBits(p: nat)
    ensures !IsSet(0, p)
  {
    if p > 0 {
      NoBits(p - 1);
    }
  }

  ghost predicate BitAt(bits: seq<Word>, i: nat)
    requires i / 64 < |bits|
  {
    IsSet(bits[i / 64], i % 64)
  }

  lemma {:induction false} OneMoreBit(bits: seq<Word>, i: nat, j: nat)
    requires i / 64 < |bits| && j / 64 < |bits|
    ensures WithBit(bits[i / 64], i % 64) < 0x1_0000_0000_0000_0000
    ensures BitAt(bits[i / 64 := WithBit(bits[i / 64], i % 64)], j) <==> i == j || BitAt(bits, j)
  {
    Pow2OfWord(64);
    WithBitFits(bits[i / 64], i % 64, 64);
    WithBitSets(bits[i / 64], i % 64, j % 64);
    assert i == i / 64 * 64 + i % 64 && j == j / 64 * 64 + j % 64;
  }

  // ---- Encoding ----

  /** The sign test of row i. */
  predicate Positive(q: QjlParams, v: seq<real>, i: nat)
    requires i < |q.matrix| && |q.matrix[i]| == |v|
  {
    Project(q.matrix[i], v) > 0.0
  }

  /** ceil(m / 64) words; bit i is set exactly when the projection on row i is positive. */
  method EncodeResidual(q: QjlParams, residual: seq<real>) returns (bits: seq<Word>)
    requires q.Valid() && |residual| == q.dim
    ensures |bits| == Words(q.m)
    ensures forall i :: 0 <= i < q.m ==> (BitAt(bits, i) <==> Positive(q, residual, i))
  {
    bits := seq(Words(q.m), _ => 0);
    forall i | 0 <= i < q.m
      ensures !BitAt(bits, i)
    {
      NoBits(i % 64);
    }
    for i := 0 to q.m
      invariant |bits| == Words(q.m)
      invariant forall j :: 0 <= j < q.m ==> (BitAt(bits, j) <==> j < i && Positive(q, residual, j))
    {
      ghost var before := bits;
      if Project(q.matrix[i], residual) > 0.0 {
        OneMoreBit(before, i, i);
        bits := bits[i / 64 := WithBit(bits[i / 64], i % 64)];
        forall j | 0 <= j < q.m
          ensures BitAt(bits, j) <==> i == j || BitAt(before, j)
        {
          OneMoreBit(before, i, j);
        }
      }
    }
  }

  // ---- Scoring ----

  function ProjectQuery(q: QjlParams, query: seq<real>): (projected: seq<real>)
    requires q.Valid() && |query| == q.dim
    ensures |projected| == q.m
  {
    seq(q.m, i requires 0 <= i < q.m => Project(q.matrix[i], query))
  }

  /** The plain sum over the first n rows, each counted once with the sign of its bit. */
  ghost function SignedSum(projected: seq<real>, signs: nat -> bool, n: nat): real
    requires n <= |projected|
  {
    if n == 0 then 0.0
    else SignedSum(projected, signs, n - 1) + if signs(n - 1) then projected[n - 1] else -projected[n - 1]
  }

  ghost function Signs(bits: seq<Word>): nat -> bool {
    (i: nat) => i / 64 < |bits| && BitAt(bits, i)
  }

  lemma {:induction false} BitPosition(w: nat, p: nat)
    requires p < 64
    ensures (w * 64 + p) / 64 == w && (w * 64 + p) % 64 == p
  {
  }

  lemma {:induction false} SignAt(bits: seq<Word>, w: nat, p: nat)
    requires w < |bits| && p < 64
    ensures Signs(bits)(w * 64 + p) <==> IsSet(bits[w], p)
  {
    BitPosition(w, p);
  }

  /** The bits of one word that belong to a row. */
  method SumWord(projected: seq<real>, bits: seq<Word>, w: nat, inWord: nat, start: real) returns (sum: real)
    requires w < |bits| && inWord <= 64 && w * 64 + inWord <= |projected|
    requires start == SignedSum(projected, Signs(bits), w * 64)
    ensures sum == SignedSum(projected, Signs(bits), w * 64 + inWord)
  {
    ghost var signs := Signs(bits);
    var base := w * 64;
    sum := start;
    for p := 0 to inWord
      invariant sum == SignedSum(projected, signs, base + p)
    {
      SignAt(bits, w, p);
      var bit := IsSet(bits[w], p);
      sum := sum + if bit then projected[base + p] else -projected[base + p];
      assert base + (p + 1) - 1 == base + p;
    }
  }

  /** Walks the words. */
  method SumWords(projected: seq<real>, bits: seq<Word>) returns (sum: real)
    requires |bits| == Words(|projected|)
    ensures sum == SignedSum(projected, Signs(bits), |projected|)
  {
    var m := |projected|;
    sum := 0.0;
    for w := 0 to |bits|
      invariant sum == SignedSum(projected, Signs(bits), if w * 64 <= m then w * 64 else m)
    {
      var base := w * 64;
      var inWord := if m <= base then 0 else if m - base < 64 then m - base else 64;
      sum := SumWord(projected, bits, w, inWord, sum);
    }
  }

  function Scaled(m: nat, sum: real): real
    requires m > 0
  {
    2.0 / m as real * sum
  }

  /** The scaling is twice the mean over the m rows. */
  lemma {:induction false} ScaledIsTwiceMean(m: nat, sum: real)
    requires m > 0
    ensures Scaled(m, sum) * m as real == 2.0 * sum
  {
    var part := 2.0 / m as real;
    assert part * m as real == 2.0;
    assert part * sum * m as real == part * m as real * sum;
  }

  method CorrectionScore(q: QjlParams, query: seq<real>, bits: seq<Word>) returns (score: real)
    requires q.Valid() && |query| == q.dim && |bits| == Words(q.m) && q.m > 0
    ensures score == Scaled(q.m, SignedSum(ProjectQuery(q, query), Signs(bits), q.m))
  {
    var sum := SumWords(ProjectQuery(q, query), bits);
    score := Scaled(q.m, sum);
  }

  /** The estimator as its documentation writes it: (2/m) times the sum of the projections by their residual's signs. */
  ghost function PlainScore(q: QjlParams, query: seq<real>, residual: seq<real>, n: nat): real
    requires q.Valid() && |query| == q.dim && |residual| == q.dim && n <= q.m
  {
    if n == 0 then 0.0
    else
      PlainScore(q, query, residual, n - 1)
      + if Positive(q, residual, n - 1) then Project(q.matrix[n - 1], query) else -Project(q.matrix[n - 1], query)
  }

  /** The magnitudes of the first n projections, added up. */
  ghost function TotalMagnitude(q: QjlParams, v: seq<real>, n: nat): real
    requires q.Valid() && |v| == q.dim && n <= q.m
  {
    if n == 0 then 0.0
    else
      var p := Project(q.matrix[n - 1], v);
      TotalMagnitude(q, v, n - 1) + if p < 0.0 then -p else p
  }

  /** No query of the same magnitudes scores a residual higher than the residual itself does. */
  lemma {:induction false} SelfScoreIsHighest(q: QjlParams, query: seq<real>, residual: seq<real>, n: nat)
    requires q.Valid() && |query| == q.dim && |residual| == q.dim && n <= q.m
    ensures PlainScore(q, residual, residual, n) == TotalMagnitude(q, residual, n)
    ensures -TotalMagnitude(q, query, n) <= PlainScore(q, query, residual, n) <= TotalMagnitude(q, query, n)
  {
    if n > 0 {
      SelfScoreIsHighest(q, query, residual, n - 1);
    }
  }

  lemma {:induction false} PackedEqualsPlain(
      q: QjlParams, query: seq<real>, residual: seq<real>, bits: seq<Word>, n: nat)
    requires q.Valid() && |query| == q.dim && |residual| == q.dim && n <= q.m
    requires |bits| == Words(q.m) && forall i :: 0 <= i < q.m ==> (BitAt(bits, i) <==> Positive(q, residual, i))
    ensures SignedSum(ProjectQuery(q, query), Signs(bits), n) == PlainScore(q, query, residual, n)
  {
    if n > 0 {
      PackedEqualsPlain(q, query, residual, bits, n - 1);
      assert Signs(bits)(n - 1) == BitAt(bits, n - 1);
    }
  }

  /** Packing, then scoring: exactly the plain sum, whatever m is. */
  method ScoreResidual(q: QjlParams, query: seq<real>, residual: seq<real>) returns (score: real)
    requires q.Valid() && |query| == q.dim && |residual| == q.dim && q.m > 0
    ensures score == Scaled(q.m, PlainScore(q, query, residual, q.m))
  {
    var bits := EncodeResidual(q, residual);
    score := CorrectionScore(q, query, bits);
    PackedEqualsPlain(q, query, residual, bits, q.m);
  }
}
