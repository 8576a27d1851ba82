/** Types shared by the whole model. */
module Base {

  datatype Option<+T> = None | Some(value: T)

  datatype Result<+T, +E> = Ok(value: T) | Err(error: E)

  type Byte = b: int | 0 <= b < 0x100

  /** A storage id: the key of a point in every map of the collection. */
  datatype Id = Id(text: string)

  /** An IEEE single, kept as its 32-bit pattern: this model never adds two of them. */
  type F32 = w: int | 0 <= w < 0x1_0000_0000

  /** A stored point. Named vectors and the namespace are left out; `id` is the storage id. */
  datatype Point = Point(
    id: Id,
    vector: seq<F32>,
    metadata: string,
    createdAt: nat,
    expiresAt: Option<nat>,
    relations: Option<seq<Id>>)

  /** Every point sits under its own storage id. */
  ghost predicate WellKeyed(points: map<Id, Point>) {
    forall id :: id in points ==> points[id].id == id
  }

  datatype Error =
    | PointNotFound(id: Id)
    | InvalidPointId
    | InvalidVector
    | DimensionMismatch
    | UnknownVectorField
    | Storage(reason: string)

  function Min(a: int, b: int): int {
    if a <= b then a else b
  }

  function Max(a: int, b: int): int {
    if a >= b then a else b
  }

  function Pow2(n: nat): (p: nat)
    ensures p >= 1
  {
    if n == 0 then 1 else 2 * Pow2(n - 1)
  }

  lemma {:induction false} EightMoreBits(n: nat)
    ensures Pow2(n + 8) == 0x100 * Pow2(n)
  {
    assert Pow2(n + 2) == 4 * Pow2(n);
    assert Pow2(n + 4) == 4 * Pow2(n + 2);
    assert Pow2(n + 6) == 4 * Pow2(n + 4);
  }

  // ---- Little-endian numbers ----

  function Pow256(k: nat): (p: nat)
    ensures p >= 1
  {
    if k == 0 then 1 else 0x100 * Pow256(k - 1)
  }

  /** The k low bytes of n, lowest first. */
  function Le(n: nat, k: nat): (bytes: seq<Byte>)
    ensures |bytes| == k
  {
    if k == 0 then [] else [n % 0x100] + Le(n / 0x100, k - 1)
  }

  function FromLe(bytes: seq<Byte>): (n: nat)
    ensures n < Pow256(|bytes|)
  {
    if bytes == [] then 0 else FromLe(bytes[1..]) * 0x100 + bytes[0]
  }

  lemma {:induction false} LeRoundTrip(n: nat, k: nat)
    requires n < Pow256(k)
    ensures FromLe(Le(n, k)) == n
  {
    if k > 0 {
      LeRoundTrip(n / 0x100, k - 1);
      assert Le(n, k)[1..] == Le(n / 0x100, k - 1);
    }
  }

  /** The first n bytes, each at its place: byte i counts 256^i. */
  function PlaceValues(bytes: seq<Byte>, n: nat): nat
    requires n <= |bytes|
  {
    if n == 0 then 0 else PlaceValues(bytes, n - 1) + bytes[n - 1] * Pow256(n - 1)
  }

  lemma {:induction false} PlacesShift(bytes: seq<Byte>, n: nat)
    requires n < |bytes|
    ensures PlaceValues(bytes, n + 1) == bytes[0] + 0x100 * PlaceValues(bytes[1..], n)
  {
    if n == 0 {
      assert Pow256(0) == 1;
    } else {
      PlacesShift(bytes, n - 1);
      PlaceMoves(bytes[n], Pow256(n - 1));
    }
  }

  lemma {:induction false} PlaceMoves(byte: nat, place: nat)
    ensures byte * (0x100 * place) == 0x100 * (byte * place)
  {
  }

  /** The lowest byte comes first. */
  lemma {:induction false} FromLeIsPlaceValue(bytes: seq<Byte>)
    ensures FromLe(bytes) == PlaceValues(bytes, |bytes|)
  {
    if bytes != [] {
      FromLeIsPlaceValue(bytes[1..]);
      PlacesShift(bytes, |bytes| - 1);
    }
  }

  lemma {:induction false} Pow256Of4()
    ensures Pow256(4) == 0x1_0000_0000
  {
    assert Pow256(1) == 0x100 * Pow256(0);
    assert Pow256(2) == 0x1_0000;
    assert Pow256(3) == 0x100_0000;
  }
}
