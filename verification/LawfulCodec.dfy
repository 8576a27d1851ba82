/** The laws assumed of printing, parsing and compression can be met: a codec that meets all of them. */
module LawfulCodec {
  import opened Base
  import opened WalReplay
  import opened WalFormat
  import opened Snapshot
  import opened ProtocolGuards

  /** What an encoding of a part of an entry has to be: self-delimiting, and without newlines. */
  ghost predicate SelfDelimiting<T(!new)>(enc: T -> seq<Byte>) {
    forall x, y, r: seq<Byte>, s: seq<Byte> :: enc(x) + r == enc(y) + s ==> x == y && r == s
  }

  ghost predicate Plain(b: seq<Byte>) {
    forall i :: 0 <= i < |b| ==> b[i] >= 65
  }

  ghost predicate Good<T(!new)>(enc: T -> seq<Byte>) {
    SelfDelimiting(enc) && forall x :: Plain(enc(x))
  }

  // ---- Numbers, lists, options ----

  function Unary(n: nat): (b: seq<Byte>)
    ensures |b| == n + 1
  {
    if n == 0 then [66] else [65] + Unary(n - 1)
  }

  /** The first byte of equal concatenations, and what follows it. */
  lemma {:induction false} Uncons(a: seq<Byte>, b: seq<Byte>, r: seq<Byte>, s: seq<Byte>)
    requires a != [] && b != [] && a + r == b + s
    ensures a[0] == b[0] && a[1..] + r == b[1..] + s
  {
    assert a[0] == (a + r)[0] && b[0] == (b + s)[0];
    assert a[1..] + r == (a + r)[1..] && b[1..] + s == (b + s)[1..];
  }

  lemma {:induction false} UnarySplit(n: nat, m: nat, r: seq<Byte>, s: seq<Byte>)
    requires Unary(n) + r == Unary(m) + s
    ensures n == m && r == s
  {
    Uncons(Unary(n), Unary(m), r, s);
    if n > 0 {
      UnarySplit(n - 1, m - 1, r, s);
    } else {
      assert [] + r == r && [] + s == s;
    }
  }

  lemma {:induction false} UnaryPlain(n: nat)
    ensures Plain(Unary(n))
  {
    if n > 0 {
      UnaryPlain(n - 1);
    }
  }

  lemma {:induction false} UnaryGood()
    ensures Good(Unary)
  {
    forall x, y, r: seq<Byte>, s: seq<Byte> | Unary(x) + r == Unary(y) + s
      ensures x == y && r == s
    {
      UnarySplit(x, y, r, s);
    }
    forall n
      ensures Plain(Unary(n))
    {
      UnaryPlain(n);
    }
  }

  function ListBytes<T>(xs: seq<T>, enc: T -> seq<Byte>): seq<Byte> {
    if xs == [] then [68] else [67] + (enc(xs[0]) + ListBytes(xs[1..], enc))
  }

  lemma {:induction false} ListSplit<T(!new)>(
      xs: seq<T>, ys: seq<T>, enc: T -> seq<Byte>, r: seq<Byte>, s: seq<Byte>)
    requires Good(enc) && ListBytes(xs, enc) + r == ListBytes(ys, enc) + s
    ensures xs == ys && r == s
  {
    Uncons(ListBytes(xs, enc), ListBytes(ys, enc), r, s);
    if xs != [] {
      Peel(xs[0], ys[0], enc, ListBytes(xs[1..], enc), ListBytes(ys[1..], enc), r, s);
      ListSplit(xs[1..], ys[1..], enc, r, s);
      assert xs == [xs[0]] + xs[1..] && ys == [ys[0]] + ys[1..];
    } else {
      assert [] + r == r && [] + s == s;
    }
  }

  /** The first part of two equal concatenations is the same, and so is what follows it. */
  lemma {:induction false} Peel<T(!new)>(
      x: T, y: T, enc: T -> seq<Byte>, a: seq<Byte>, b: seq<Byte>, r: seq<Byte>, s: seq<Byte>)
    requires Good(enc) && (enc(x) + a) + r == (enc(y) + b) + s
    ensures x == y && a + r == b + s
  {
    assert (enc(x) + a) + r == enc(x) + (a + r) && (enc(y) + b) + s == enc(y) + (b + s);
  }

  lemma {:induction false} ListPlain<T(!new)>(xs: seq<T>, enc: T -> seq<Byte>)
    requires Good(enc)
    ensures Plain(ListBytes(xs, enc))
  {
    if xs != [] {
      ListPlain(xs[1..], enc);
      assert Plain(enc(xs[0]));
    }
  }

  function ListOf<T>(enc: T -> seq<Byte>): seq<T> -> seq<Byte> {
    (xs: seq<T>) => ListBytes(xs, enc)
  }

  lemma {:induction false} ListGood<T(!new)>(enc: T -> seq<Byte>)
    requires Good(enc)
    ensures Good(ListOf(enc))
  {
    forall xs, ys, r: seq<Byte>, s: seq<Byte> | ListOf(enc)(xs) + r == ListOf(enc)(ys) + s
      ensures xs == ys && r == s
    {
      ListSplit(xs, ys, enc, r, s);
    }
    forall xs
      ensures Plain(ListOf(enc)(xs))
    {
      ListPlain(xs, enc);
    }
  }

  // ---- Pairs, and anything that maps injectively into what is encoded already ----

  function PairOf<A, B>(left: A -> seq<Byte>, right: B -> seq<Byte>): ((A, B)) -> seq<Byte> {
    (p: (A, B)) => left(p.0) + right(p.1)
  }

  lemma {:induction false} PairGood<A(!new), B(!new)>(left: A -> seq<Byte>, right: B -> seq<Byte>)
    requires Good(left) && Good(right)
    ensures Good(PairOf(left, right))
  {
    var enc := PairOf(left, right);
    forall x: (A, B), y: (A, B), r: seq<Byte>, s: seq<Byte> | enc(x) + r == enc(y) + s
      ensures x == y && r == s
    {
      Peel(x.0, y.0, left, right(x.1), right(y.1), r, s);
    }
    forall x: (A, B)
      ensures Plain(enc(x))
    {
      assert Plain(left(x.0)) && Plain(right(x.1));
    }
  }

  function Mapped<A, B>(f: A -> B, enc: B -> seq<Byte>): A -> seq<Byte> {
    (x: A) => enc(f(x))
  }

  ghost predicate Injective<A(!new), B(!new)>(f: A -> B) {
    forall x, y :: f(x) == f(y) ==> x == y
  }

  lemma {:induction false} MappedGood<A(!new), B(!new)>(f: A -> B, enc: B -> seq<Byte>)
    requires Injective(f) && Good(enc)
    ensures Good(Mapped(f, enc))
  {
    var g := Mapped(f, enc);
    forall x, y, r: seq<Byte>, s: seq<Byte> | g(x) + r == g(y) + s
      ensures x == y && r == s
    {
      assert enc(f(x)) + r == enc(f(y)) + s;
    }
    forall x
      ensures Plain(g(x))
    {
      assert Plain(enc(f(x)));
    }
  }

  // ---- An entry ----

  function Listed<T>(o: Option<T>): seq<T> {
    match o
    case None => []
    case Some(x) => [x]
  }

  function TextOf(): string -> seq<Byte> {
    ListOf(Mapped((c: char) => c as int as nat, Unary))
  }

  function IdOf(): Id -> seq<Byte> {
    Mapped((id: Id) => id.text, TextOf())
  }

  type PointParts = (Id, (seq<F32>, (string, (nat, (seq<nat>, seq<seq<Id>>)))))

  function Parts(p: Point): PointParts {
    (p.id, (p.vector, (p.metadata, (p.createdAt, (Listed(p.expiresAt), Listed(p.relations))))))
  }

  function PartsOf(): PointParts -> seq<Byte> {
    PairOf(IdOf(), PairOf(ListOf(Mapped((w: F32) => w as nat, Unary)), PairOf(TextOf(), PairOf(Unary,
      PairOf(ListOf(Unary), ListOf(ListOf(IdOf())))))))
  }

  type EntryParts = (nat, (seq<Point>, (seq<Id>, seq<Id>)))

  function Split(e: Entry): EntryParts {
    match e.operation
    case Upsert(p) => (e.timestamp, ([p], ([], [])))
    case Delete(id) => (e.timestamp, ([], ([id], [])))
    case Link(from, to) => (e.timestamp, ([], ([], [from, to])))
  }

  function EntryOf(): Entry -> seq<Byte> {
    Mapped(Split, PairOf(Unary, PairOf(ListOf(Mapped(Parts, PartsOf())), PairOf(ListOf(IdOf()), ListOf(IdOf())))))
  }

  lemma {:induction false} IdGood()
    ensures Good(TextOf()) && Good(IdOf())
  {
    UnaryGood();
    var number := (c: char) => c as int as nat;
    assert Injective(number);
    MappedGood(number, Unary);
    ListGood(Mapped(number, Unary));
    var text := (id: Id) => id.text;
    assert Injective(text);
    MappedGood(text, TextOf());
  }

  lemma {:induction false} PartsGood()
    ensures Good(PartsOf())
  {
    UnaryGood();
    IdGood();
    var number := (w: F32) => w as nat;
    assert Injective(number);
    MappedGood(number, Unary);
    ListGood(Mapped(number, Unary));
    ListGood(Unary);
    ListGood(IdOf());
    ListGood(ListOf(IdOf()));
    var last := PairOf(ListOf(Unary), ListOf(ListOf(IdOf())));
    PairGood(ListOf(Unary), ListOf(ListOf(IdOf())));
    PairGood(Unary, last);
    PairGood(TextOf(), PairOf(Unary, last));
    PairGood(ListOf(Mapped(number, Unary)), PairOf(TextOf(), PairOf(Unary, last)));
    PairGood(IdOf(), PairOf(ListOf(Mapped(number, Unary)), PairOf(TextOf(), PairOf(Unary, last))));
  }

  lemma {:induction false} PartsInjective()
    ensures Injective(Parts)
  {
    forall p, q | Parts(p) == Parts(q)
      ensures p == q
    {
      assert Listed(p.expiresAt) == Listed(q.expiresAt) && Listed(p.relations) == Listed(q.relations);
      ListedInjective(p.expiresAt, q.expiresAt);
      ListedInjective(p.relations, q.relations);
    }
  }

  lemma {:induction false} ListedInjective<T>(a: Option<T>, b: Option<T>)
    requires Listed(a) == Listed(b)
    ensures a == b
  {
    if a.Some? {
      assert Listed(a)[0] == Listed(b)[0];
    }
  }

  lemma {:induction false} SplitInjective()
    ensures Injective(Split)
  {
    forall e, f | Split(e) == Split(f)
      ensures e == f
    {
      var a, b := Split(e), Split(f);
      assert |a.1.0| == |b.1.0| && |a.1.1.0| == |b.1.1.0|;
      match e.operation
      case Upsert(_) => assert a.1.0[0] == b.1.0[0];
      case Delete(_) => assert a.1.1.0[0] == b.1.1.0[0];
      case Link(_, _) => assert a.1.1.1[0] == b.1.1.1[0] && a.1.1.1[1] == b.1.1.1[1];
    }
  }

  lemma {:induction false} EntryGood()
    ensures Good(EntryOf())
  {
    UnaryGood();
    IdGood();
    PartsGood();
    PartsInjective();
    MappedGood(Parts, PartsOf());
    var points := ListOf(Mapped(Parts, PartsOf()));
    ListGood(Mapped(Parts, PartsOf()));
    ListGood(IdOf());
    PairGood(ListOf(IdOf()), ListOf(IdOf()));
    PairGood(points, PairOf(ListOf(IdOf()), ListOf(IdOf())));
    PairGood(Unary, PairOf(points, PairOf(ListOf(IdOf()), ListOf(IdOf()))));
    SplitInjective();
    MappedGood(Split, PairOf(Unary, PairOf(points, PairOf(ListOf(IdOf()), ListOf(IdOf())))));
  }

  // ---- The codec ----

  function Format(e: Entry): seq<Byte> {
    JSON_OPENING + EntryOf()(e)
  }

  ghost function Parse(b: seq<Byte>): Option<Entry> {
    if e :| Format(e) == b then Some(e) else None
  }

  const FRAME_NUMBER: seq<Byte> := [1, 1, 1]

  ghost function Lawful(): Codec {
    Codec(
      Format, (b: seq<Byte>) => Parse(b), (b: seq<Byte>) => true, (b: seq<Byte>) => b == [],
      (x: seq<Byte>) => FRAME_NUMBER + x,
      (b: seq<Byte>) => if FRAME_NUMBER <= b then Some(b[3..]) else None)
  }

  lemma {:induction false} PrefixIsWhole(e: Entry, f: Entry, rest: seq<Byte>)
    requires Format(e) + rest == Format(f)
    ensures e == f && rest == []
  {
    EntryGood();
    var x, y := EntryOf()(e), EntryOf()(f);
    assert x + rest == (JSON_OPENING + x + rest)[4..];
    assert y + [] == (JSON_OPENING + y)[4..];
  }

  lemma {:induction false} PrintsBack(e: Entry)
    ensures Parse(Format(e)) == Some(e)
    ensures forall n :: 0 <= n < |Format(e)| ==> Parse(Format(e)[..n]) == None
  {
    var json := Format(e);
    var found: Entry :| Format(found) == json && Parse(json) == Some(found);
    assert json + [] == json;
    PrefixIsWhole(e, found, []);
    forall n | 0 <= n < |json|
      ensures Parse(json[..n]) == None
    {
      if Parse(json[..n]).Some? {
        var f: Entry :| Format(f) == json[..n];
        assert json[..n] + json[n..] == json;
        PrefixIsWhole(f, e, json[n..]);
      }
    }
  }

  /** Where two values differ, a self-delimiting encoding has no empty one. */
  lemma {:induction false} NotEmpty<T(!new)>(x: T, y: T, enc: T -> seq<Byte>)
    requires Good(enc) && x != y
    ensures enc(x) != []
  {
    assert enc(x) + enc(y) != enc(y) + [];
    assert [] + enc(y) == enc(y) + [];
  }

  lemma {:induction false} OneLine(e: Entry)
    ensures NEWLINE !in Format(e) && |Format(e)| > 4 && Format(e)[..4] == JSON_OPENING
  {
    EntryGood();
    NotEmpty(e, e.(timestamp := e.timestamp + 1), EntryOf());
    assert Plain(EntryOf()(e));
  }

  /** No entry starts like the magic. */
  lemma {:induction false} ObjectsOnly(b: seq<Byte>)
    requires b != [] && b[0] == MAGIC[0]
    ensures Parse(b) == None
  {
    assert forall e :: Format(e)[0] == JSON_OPENING[0];
  }

  /** The laws that the theorems about the log assume are met by this codec: they do not contradict each other. */
  lemma {:induction false} LawsCanBeMet()
    ensures Laws(Lawful()) && Utf8Laws(Lawful()) && ObjectLaw(Lawful()) && FrameNumberLaw(Lawful())
  {
    var c := Lawful();
    forall e
      ensures PrintLaws(c, e)
    {
      OneLine(e);
      PrintsBack(e);
    }
    forall n | 0 < n <= 4
      ensures Parse(MAGIC[..n]) == None
    {
      ObjectsOnly(MAGIC[..n]);
    }
    forall b: seq<Byte> | b != [] && b[0] == MAGIC[0]
      ensures Parse(b) == None
    {
      ObjectsOnly(b);
    }
    forall x: seq<Byte>
      ensures c.deflate(x) != [] && c.inflate(c.deflate(x)) == Some(x)
    {
      assert (FRAME_NUMBER + x)[3..] == x;
    }
  }

  // ---- Entries with frames of a chosen length ----

  function SmallPoint(createdAt: nat): Point {
    Point(Id(""), [], "", createdAt, None, None)
  }

  function SmallEntry(timestamp: nat, createdAt: nat): Entry {
    Entry(timestamp, Upsert(SmallPoint(createdAt)))
  }

  lemma {:induction false} SmallPointLength(createdAt: nat)
    ensures |PartsOf()(Parts(SmallPoint(createdAt)))| == createdAt + 6
  {
    assert TextOf()("") == [68] && IdOf()(Id("")) == [68];
    assert ListOf(Unary)([]) == [68] && ListOf(ListOf(IdOf()))([]) == [68];
  }

  lemma {:induction false} SmallEntryLength(timestamp: nat, createdAt: nat)
    ensures |Format(SmallEntry(timestamp, createdAt))| == timestamp + createdAt + 15
  {
    SmallPointLength(createdAt);
    var p, enc := SmallPoint(createdAt), Mapped(Parts, PartsOf());
    assert ListBytes([], enc) == [68] && [p][1..] == [];
    assert ListBytes([p], enc) == [67] + (enc(p) + [68]);
    assert |ListOf(enc)([p])| == createdAt + 8;
    assert ListOf(IdOf())([]) == [68];
    assert Split(SmallEntry(timestamp, createdAt)) == (timestamp, ([p], ([], [])));
    assert EntryOf()(SmallEntry(timestamp, createdAt)) == Unary(timestamp) + (ListOf(enc)([p]) + ([68] + [68]));
  }

  /** With any store, one of two small entries changes it, and its frame has the length 0x010101. */
  lemma {:induction false} SmallFrame(createdAt: nat) returns (e: Entry)
    requires createdAt <= 1
    ensures e.operation == Upsert(SmallPoint(createdAt))
    ensures LongFrame(Lawful(), e) && OneLineFrame(Lawful(), e)
  {
    var c := Lawful();
    e := SmallEntry(0x01_0101 - 18 - createdAt, createdAt);
    SmallEntryLength(0x01_0101 - 18 - createdAt, createdAt);
    assert |Payload(c, e)| == 0x01_0101;
    LeBytes(0x01_0101);
    OneLine(e);
  }

  lemma {:induction false} VariedCanBeMet()
    ensures Varied(Env(Lawful(), p => true))
  {
    var env := Env(Lawful(), p => true);
    forall s: Store
      ensures CanTell(env, s)
    {
      var e0 := SmallFrame(0);
      var e1 := SmallFrame(1);
      var e := if s[Id("") := SmallPoint(0)] != s then e0 else e1;
      assert s[Id("") := SmallPoint(1)][Id("")] != SmallPoint(0);
      assert Tells(s, e, env.accepts);
    }
  }
}
