/**
 * The bytes of `wal.log`: JSON lines, or a magic followed by length-prefixed compressed frames.
 * Printing, parsing, UTF-8 checking and compression are parameters constrained by laws.
 */
module WalFormat {
  import opened Base
  import opened WalReplay

  datatype Codec = Codec(
    format: Entry -> seq<Byte>,
    parse: seq<Byte> -> Option<Entry>,
    utf8: seq<Byte> -> bool,
    blank: seq<Byte> -> bool,
    deflate: seq<Byte> -> seq<Byte>,
    inflate: seq<Byte> -> Option<seq<Byte>>)

  const NEWLINE: Byte := 10
  /** "WALz" */
  const MAGIC: seq<Byte> := [0x57, 0x41, 0x4C, 0x7A]
  /** `{"ti`, the start of every printed entry. */
  const JSON_OPENING: seq<Byte> := [0x7B, 0x22, 0x74, 0x69]
  const MAX_FRAME := 10 * 1024 * 1024
  /** Operations in the log before a call ends with a snapshot, and before none is logged any more. */
  const SNAPSHOT_THRESHOLD := 1000
  const MAX_OPS_BEFORE_BACKPRESSURE := 10_000

  /** A printed entry is one non-blank line that parses back, and no proper prefix of it parses. */
  ghost predicate PrintLaws(c: Codec, e: Entry) {
    var json := c.format(e);
    && |json| > 4 && json[..4] == JSON_OPENING
    && NEWLINE !in json
    && c.utf8(json)
    && c.parse(json) == Some(e)
    && (forall n :: 0 < n <= |json| ==> !c.blank(json[..n]))
    && (forall n :: 0 <= n < |json| ==> c.parse(json[..n]) == None)
  }

  ghost predicate JsonLaws(c: Codec) {
    forall e :: PrintLaws(c, e)
  }

  ghost predicate MagicLaws(c: Codec) {
    forall n :: 0 < n <= 4 ==> c.utf8(MAGIC[..n]) && !c.blank(MAGIC[..n]) && c.parse(MAGIC[..n]) == None
  }

  ghost predicate ZstdLaws(c: Codec) {
    forall x :: c.deflate(x) != [] && c.inflate(c.deflate(x)) == Some(x)
  }

  /** An ASCII byte cannot complete a multi-byte character. */
  ghost predicate Utf8Laws(c: Codec) {
    forall a: seq<Byte>, b: seq<Byte> :: !c.utf8(a) && b != [] && b[0] < 0x80 ==> !c.utf8(a + b)
  }

  ghost predicate Laws(c: Codec) {
    JsonLaws(c) && MagicLaws(c) && ZstdLaws(c)
  }

  // ---- Writing ----

  lemma {:induction false} Le32RoundTrip(n: nat)
    requires n < 0x1_0000_0000
    ensures FromLe(Le(n, 4)) == n
  {
    Pow256Of4();
    LeRoundTrip(n, 4);
  }

  function Payload(c: Codec, e: Entry): seq<Byte> {
    c.deflate(c.format(e))
  }

  /** What one append writes. The length is cast to 32 bits: only its four low bytes are kept. */
  function Record(c: Codec, compress: bool, e: Entry): (bytes: seq<Byte>) {
    if compress then Le(|Payload(c, e)|, 4) + Payload(c, e)
    else c.format(e) + [NEWLINE]
  }

  function Records(c: Codec, compress: bool, es: seq<Entry>): seq<Byte> {
    if es == [] then [] else Record(c, compress, es[0]) + Records(c, compress, es[1..])
  }

  function Header(compress: bool): seq<Byte> {
    if compress then MAGIC else []
  }

  /** The bytes of a log that holds `es`. */
  function LogBytes(c: Codec, compress: bool, es: seq<Entry>): seq<Byte> {
    Header(compress) + Records(c, compress, es)
  }

  lemma {:induction false} RecordsConcat(c: Codec, compress: bool, a: seq<Entry>, b: seq<Entry>)
    ensures Records(c, compress, a + b) == Records(c, compress, a) + Records(c, compress, b)
  {
    if a == [] {
      assert a + b == b;
    } else {
      assert (a + b)[1..] == a[1..] + b && (a + b)[0] == a[0];
      RecordsConcat(c, compress, a[1..], b);
    }
  }

  lemma {:induction false} AppendAssoc(a: seq<Byte>, b: seq<Byte>, c: seq<Byte>)
    ensures a + b + c == a + (b + c)
  {
  }

  lemma {:induction false} RecordsCons(c: Codec, compress: bool, es: seq<Entry>, rest: seq<Byte>)
    requires es != []
    ensures Records(c, compress, es) + rest ==
            Record(c, compress, es[0]) + (Records(c, compress, es[1..]) + rest)
  {
  }

  lemma {:induction false} RecordsOne(c: Codec, compress: bool, e: Entry)
    ensures Records(c, compress, [e]) == Record(c, compress, e)
  {
    assert [e][1..] == [];
    assert Record(c, compress, e) + [] == Record(c, compress, e);
  }

  // ---- Reading JSON lines ----

  function LineEnd(b: seq<Byte>): (n: nat)
    ensures n <= |b|
    ensures forall i :: 0 <= i < n ==> b[i] != NEWLINE
    ensures n < |b| ==> b[n] == NEWLINE
  {
    if b == [] || b[0] == NEWLINE then 0 else 1 + LineEnd(b[1..])
  }

  function AfterLine(b: seq<Byte>): (rest: seq<Byte>)
    ensures b != [] ==> |rest| < |b|
  {
    var n := LineEnd(b);
    if n < |b| then b[n + 1..] else []
  }

  /** A line that is not UTF-8 stops the reader; a malformed one is skipped. */
  function ReadLines(c: Codec, b: seq<Byte>): (es: seq<Entry>)
    decreases |b|
  {
    if b == [] then []
    else
      var line := b[..LineEnd(b)];
      if !c.utf8(line) then []
      else if c.blank(line) then ReadLines(c, AfterLine(b))
      else
        match c.parse(line)
        case Some(e) => [e] + ReadLines(c, AfterLine(b))
        case None => ReadLines(c, AfterLine(b))
  }

  lemma {:induction false} LineEndAt(line: seq<Byte>, rest: seq<Byte>)
    requires NEWLINE !in line
    requires rest == [] || rest[0] == NEWLINE
    ensures LineEnd(line + rest) == |line|
    ensures (line + rest)[..|line|] == line
    ensures AfterLine(line + rest) == if rest == [] then [] else rest[1..]
  {
    var n := LineEnd(line + rest);
    assert forall i :: 0 <= i < |line| ==> (line + rest)[i] == line[i] && line[i] in line;
    assert rest != [] ==> (line + rest)[|line|] == NEWLINE;
    assert rest != [] ==> (line + rest)[|line| + 1..] == rest[1..];
  }

  lemma {:induction false} ReadOneLine(c: Codec, e: Entry, rest: seq<Byte>)
    requires JsonLaws(c)
    ensures ReadLines(c, Record(c, false, e) + rest) == [e] + ReadLines(c, rest)
  {
    var json := c.format(e);
    assert PrintLaws(c, e);
    assert Record(c, false, e) + rest == json + ([NEWLINE] + rest);
    LineEndAt(json, [NEWLINE] + rest);
    assert ([NEWLINE] + rest)[1..] == rest;
    assert json[..|json|] == json;
  }

  /** What is read of `es` followed by the first n bytes of e's line: e counts once its JSON is whole. */
  ghost function TornLines(c: Codec, es: seq<Entry>, e: Entry, n: nat): seq<Entry> {
    if n >= |c.format(e)| then es + [e] else es
  }

  lemma {:induction false} ReadTornLine(c: Codec, e: Entry, n: nat)
    requires JsonLaws(c) && n <= |c.format(e)| + 1
    ensures ReadLines(c, Record(c, false, e)[..n]) == TornLines(c, [], e, n)
  {
    assert [e] + [] == [e] == [] + [e];
    if n > |c.format(e)| {
      assert Record(c, false, e)[..n] == Record(c, false, e) + [];
      ReadOneLine(c, e, []);
    } else {
      assert PrintLaws(c, e);
      var b := c.format(e)[..n];
      assert Record(c, false, e)[..n] == b;
      LineEndAt(b, []);
      assert b + [] == b && b[..|b|] == b;
      assert n == |c.format(e)| ==> b == c.format(e);
      assert AfterLine(b) == [] && ReadLines(c, []) == [];
    }
  }

  /** A log of JSON lines with one append in flight. */
  lemma {:induction false} ReadTornLines(c: Codec, es: seq<Entry>, e: Entry, n: nat)
    requires JsonLaws(c) && n <= |Record(c, false, e)|
    ensures ReadLines(c, Records(c, false, es) + Record(c, false, e)[..n]) == TornLines(c, es, e, n)
  {
    var torn := Record(c, false, e)[..n];
    if es == [] {
      assert Records(c, false, es) + torn == torn;
      ReadTornLine(c, e, n);
    } else {
      ReadTornLines(c, es[1..], e, n);
      RecordsCons(c, false, es, torn);
      ReadOneLine(c, es[0], Records(c, false, es[1..]) + torn);
      TornLinesCons(c, es, e, n);
    }
  }

  lemma {:induction false} TornLinesCons(c: Codec, es: seq<Entry>, e: Entry, n: nat)
    requires es != []
    ensures [es[0]] + TornLines(c, es[1..], e, n) == TornLines(c, es, e, n)
  {
    assert [es[0]] + (es[1..] + [e]) == es + [e] && [es[0]] + es[1..] == es;
  }

  // ---- Reading compressed frames ----

  function Prepend(e: Entry, r: Result<seq<Entry>, Error>): Result<seq<Entry>, Error> {
    match r
    case Ok(es) => Ok([e] + es)
    case Err(x) => Err(x)
  }

  /** A torn length or a bad frame stops the reader; a torn payload is an error. */
  function ReadFrames(c: Codec, b: seq<Byte>): (r: Result<seq<Entry>, Error>)
    decreases |b|
  {
    if |b| < 4 then Ok([])
    else
      var len := FromLe(b[..4]);
      if len == 0 || len > MAX_FRAME then Ok([])
      else if |b| - 4 < len then Err(Storage("failed to read WAL compressed frame"))
      else
        match c.inflate(b[4..4 + len])
        case None => Ok([])
        case Some(json) =>
          if !c.utf8(json) then Err(Storage("WAL decompressed frame is not UTF-8"))
          else
            match c.parse(json)
            case Some(e) => Prepend(e, ReadFrames(c, b[4 + len..]))
            case None => ReadFrames(c, b[4 + len..])
  }

  ghost predicate Fits(c: Codec, e: Entry) {
    |Payload(c, e)| <= MAX_FRAME
  }

  ghost predicate AllFit(c: Codec, es: seq<Entry>) {
    forall i :: 0 <= i < |es| ==> Fits(c, es[i])
  }

  lemma {:induction false} ReadOneFrame(c: Codec, e: Entry, rest: seq<Byte>)
    requires JsonLaws(c) && ZstdLaws(c) && Fits(c, e)
    ensures ReadFrames(c, Record(c, true, e) + rest) == Prepend(e, ReadFrames(c, rest))
  {
    var z := Payload(c, e);
    var b := Record(c, true, e) + rest;
    assert PrintLaws(c, e);
    Le32RoundTrip(|z|);
    assert b[..4] == Le(|z|, 4) && b[4..4 + |z|] == z && b[4 + |z|..] == rest;
  }

  /** A frame cut in its length is dropped; one cut in its payload is an error. */
  lemma {:induction false} ReadTornFrame(c: Codec, e: Entry, n: nat)
    requires JsonLaws(c) && ZstdLaws(c) && Fits(c, e) && n <= |Record(c, true, e)|
    ensures ReadFrames(c, Record(c, true, e)[..n]) == TornFrames(c, [], e, n)
  {
    if n == |Record(c, true, e)| {
      assert Record(c, true, e)[..n] == Record(c, true, e) + [];
      ReadOneFrame(c, e, []);
      assert ReadFrames(c, []) == Ok([]) && [e] + [] == [e] == [] + [e];
    } else if n >= 4 {
      Le32RoundTrip(|Payload(c, e)|);
      assert Record(c, true, e)[..n][..4] == Le(|Payload(c, e)|, 4);
    }
  }

  /** What is read of `es` followed by the first n bytes of e's frame. */
  ghost function TornFrames(c: Codec, es: seq<Entry>, e: Entry, n: nat): Result<seq<Entry>, Error> {
    if n == |Record(c, true, e)| then Ok(es + [e])
    else if n < 4 then Ok(es)
    else Err(Storage("failed to read WAL compressed frame"))
  }

  lemma {:induction false} TornFramesCons(c: Codec, es: seq<Entry>, e: Entry, n: nat)
    requires es != []
    ensures Prepend(es[0], TornFrames(c, es[1..], e, n)) == TornFrames(c, es, e, n)
  {
    assert [es[0]] + (es[1..] + [e]) == es + [e] && [es[0]] + es[1..] == es;
  }

  /** A log of frames with one append in flight. */
  lemma {:induction false} ReadTornFrames(c: Codec, es: seq<Entry>, e: Entry, n: nat)
    requires JsonLaws(c) && ZstdLaws(c) && AllFit(c, es) && Fits(c, e) && n <= |Record(c, true, e)|
    ensures ReadFrames(c, Records(c, true, es) + Record(c, true, e)[..n]) == TornFrames(c, es, e, n)
  {
    var torn := Record(c, true, e)[..n];
    if es == [] {
      assert Records(c, true, es) + torn == torn;
      ReadTornFrame(c, e, n);
    } else {
      ReadTornFrames(c, es[1..], e, n);
      RecordsCons(c, true, es, torn);
      ReadOneFrame(c, es[0], Records(c, true, es[1..]) + torn);
      TornFramesCons(c, es, e, n);
    }
  }

  /** A whole log of frames reads back exactly when every frame is within the reader's limit. */
  lemma {:induction false} FramesReadBackIff(c: Codec, es: seq<Entry>)
    requires JsonLaws(c) && ZstdLaws(c)
    requires forall i :: 0 <= i < |es| ==> |Payload(c, es[i])| < 0x1_0000_0000
    ensures ReadFrames(c, Records(c, true, es)) == Ok(es) <==> AllFit(c, es)
    ensures ReadFrames(c, Records(c, true, es)).Ok?
  {
    if es != [] {
      FramesReadBackIff(c, es[1..]);
      assert AllFit(c, es) <==> Fits(c, es[0]) && AllFit(c, es[1..]);
      if Fits(c, es[0]) {
        ReadOneFrame(c, es[0], Records(c, true, es[1..]));
        var tail := ReadFrames(c, Records(c, true, es[1..])).value;
        assert ([es[0]] + tail)[1..] == tail;
        assert [es[0]] + es[1..] == es;
      } else {
        OversizeFrameHidesRest(c, es[0], Records(c, true, es[1..]));
      }
    }
  }

  /** The writer accepts a frame above the limit; the reader then sees nothing from there on. */
  lemma {:induction false} OversizeFrameHidesRest(c: Codec, e: Entry, rest: seq<Byte>)
    requires MAX_FRAME < |Payload(c, e)| < 0x1_0000_0000
    ensures ReadFrames(c, Record(c, true, e) + rest) == Ok([])
  {
    var b := Record(c, true, e) + rest;
    Le32RoundTrip(|Payload(c, e)|);
    assert b[..4] == Le(|Payload(c, e)|, 4);
  }

  // ---- Either format, told apart by the magic ----

  predicate IsCompressed(b: seq<Byte>) {
    |b| >= 4 && b[..4] == MAGIC
  }

  function ReadEntries(c: Codec, b: seq<Byte>): Result<seq<Entry>, Error> {
    if IsCompressed(b) then ReadFrames(c, b[4..]) else Ok(ReadLines(c, b))
  }

  /** `count_entries`: lines are counted without being parsed, up to the first that is not UTF-8. */
  function CountLines(c: Codec, b: seq<Byte>): nat
    decreases |b|
  {
    if b == [] || !c.utf8(b[..LineEnd(b)]) then 0
    else (if c.blank(b[..LineEnd(b)]) then 0 else 1) + CountLines(c, AfterLine(b))
  }

  function CountEntries(c: Codec, b: seq<Byte>): Result<nat, Error> {
    if IsCompressed(b) then
      match ReadFrames(c, b[4..])
      case Ok(es) => Ok(|es|)
      case Err(x) => Err(x)
    else Ok(CountLines(c, b))
  }

  lemma {:induction false} JsonLogIsNotCompressed(c: Codec, es: seq<Entry>, e: Entry, n: nat)
    requires JsonLaws(c) && n <= |Record(c, false, e)|
    ensures !IsCompressed(Records(c, false, es) + Record(c, false, e)[..n])
  {
    var first := if es == [] then e else es[0];
    assert PrintLaws(c, first);
    assert JSON_OPENING[0] != MAGIC[0];
    var b := Records(c, false, es) + Record(c, false, e)[..n];
    assert b != [] ==> b[0] == c.format(first)[..4][0];
    assert |b| >= 4 ==> b[..4][0] == b[0];
  }

  // ---- Every cut of a log ----

  /** Where record i starts. */
  ghost function Start(c: Codec, compress: bool, es: seq<Entry>, i: nat): nat
    requires i <= |es|
  {
    |Records(c, compress, es[..i])|
  }

  lemma {:induction false} StartNext(c: Codec, compress: bool, es: seq<Entry>, i: nat)
    requires i < |es|
    ensures Start(c, compress, es, i + 1) == Start(c, compress, es, i) + |Record(c, compress, es[i])|
  {
    assert es[..i + 1] == es[..i] + [es[i]];
    RecordsConcat(c, compress, es[..i], [es[i]]);
    RecordsOne(c, compress, es[i]);
  }

  /** The record that byte n falls into, or the number of records. */
  lemma {:induction false} LocateFrom(c: Codec, compress: bool, es: seq<Entry>, n: nat, i: nat) returns (j: nat)
    requires i <= |es| && Start(c, compress, es, i) <= n <= Start(c, compress, es, |es|)
    ensures j <= |es| && Start(c, compress, es, j) <= n
    ensures j < |es| ==> n < Start(c, compress, es, j + 1)
    decreases |es| - i
  {
    if i == |es| || n < Start(c, compress, es, i + 1) {
      j := i;
    } else {
      j := LocateFrom(c, compress, es, n, i + 1);
    }
  }

  lemma {:induction false} CutInside(a: seq<Byte>, r: seq<Byte>, b: seq<Byte>, n: nat)
    requires |a| <= n <= |a + r|
    ensures (a + (r + b))[..n] == a + r[..n - |a|]
  {
  }

  lemma {:induction false} SplitAt(c: Codec, compress: bool, es: seq<Entry>, j: nat)
    requires j < |es|
    ensures Records(c, compress, es)
         == Records(c, compress, es[..j]) + (Record(c, compress, es[j]) + Records(c, compress, es[j + 1..]))
  {
    RecordsConcat(c, compress, es[..j], es[j..]);
    assert es == es[..j] + es[j..];
    assert es[j..][1..] == es[j + 1..];
  }

  /** A cut falls inside, or just before, one record: what precedes it is whole. */
  lemma {:induction false} Locate(c: Codec, compress: bool, es: seq<Entry>, n: nat) returns (j: nat)
    requires n <= |Records(c, compress, es)|
    ensures j <= |es| && Start(c, compress, es, j) <= n
    ensures j < |es| ==> n - Start(c, compress, es, j) < |Record(c, compress, es[j])|
    ensures j == |es| ==> n == |Records(c, compress, es)|
    ensures Records(c, compress, es)[..n] == Records(c, compress, es[..j]) +
              (if j < |es| then Record(c, compress, es[j])[..n - Start(c, compress, es, j)] else [])
  {
    assert es[..0] == [] && es[..|es|] == es;
    j := LocateFrom(c, compress, es, n, 0);
    if j < |es| {
      StartNext(c, compress, es, j);
      SplitAt(c, compress, es, j);
      CutInside(Records(c, compress, es[..j]), Record(c, compress, es[j]), Records(c, compress, es[j + 1..]), n);
    }
  }

  lemma {:induction false} ReadWholeLines(c: Codec, es: seq<Entry>)
    requires JsonLaws(c)
    ensures ReadLines(c, Records(c, false, es)) == es
  {
    var e := Entry(0, Delete(Id("")));
    ReadTornLines(c, es, e, 0);
    assert PrintLaws(c, e);
    assert Records(c, false, es) + Record(c, false, e)[..0] == Records(c, false, es);
  }

  /**
   * For every cut of a log of JSON lines, the reader returns exactly the entries whose JSON
   * lies wholly before the cut: j of them, the last one possibly without its newline.
   */
  lemma {:induction false} LinesCut(c: Codec, es: seq<Entry>, n: nat) returns (j: nat)
    requires JsonLaws(c) && n <= |Records(c, false, es)|
    ensures j <= |es| && ReadLines(c, Records(c, false, es)[..n]) == es[..j]
    ensures j > 0 ==> Start(c, false, es, j) - 1 <= n
    ensures j < |es| ==> n < Start(c, false, es, j + 1) - 1
  {
    var k := Locate(c, false, es, n);
    if k == |es| {
      j := k;
      ReadWholeLines(c, es);
      assert es[..k] == es && Records(c, false, es)[..n] == Records(c, false, es);
    } else {
      var m := n - Start(c, false, es, k);
      j := if m >= |c.format(es[k])| then k + 1 else k;
      ReadTornLines(c, es[..k], es[k], m);
      TornLinesOfPrefix(c, es, k, m);
      StartNext(c, false, es, k);
      if k + 1 < |es| {
        StartNext(c, false, es, k + 1);
        assert PrintLaws(c, es[k + 1]);
      }
    }
  }

  lemma {:induction false} TornLinesOfPrefix(c: Codec, es: seq<Entry>, k: nat, m: nat)
    requires k < |es|
    ensures TornLines(c, es[..k], es[k], m) == es[..if m >= |c.format(es[k])| then k + 1 else k]
  {
    assert es[..k] + [es[k]] == es[..k + 1];
  }

  /**
   * For every cut of a log of frames that fit, the reader returns exactly the complete
   * frames, or an error precisely when the cut falls inside a payload.
   */
  lemma {:induction false} FramesCut(c: Codec, es: seq<Entry>, n: nat) returns (j: nat)
    requires JsonLaws(c) && ZstdLaws(c) && AllFit(c, es) && n <= |Records(c, true, es)|
    ensures j <= |es| && Start(c, true, es, j) <= n
    ensures j < |es| ==> n < Start(c, true, es, j + 1)
    ensures ReadFrames(c, Records(c, true, es)[..n]) ==
            if j < |es| && n >= Start(c, true, es, j) + 4
            then Err(Storage("failed to read WAL compressed frame")) else Ok(es[..j])
  {
    j := Locate(c, true, es, n);
    if j < |es| {
      StartNext(c, true, es, j);
      ReadTornFrames(c, es[..j], es[j], n - Start(c, true, es, j));
    } else {
      assert es[..j] == es && Records(c, true, es)[..n] == Records(c, true, es);
      ReadWholeFrames(c, es);
    }
  }

  lemma {:induction false} ReadWholeFrames(c: Codec, es: seq<Entry>)
    requires JsonLaws(c) && ZstdLaws(c) && AllFit(c, es)
    ensures ReadFrames(c, Records(c, true, es)) == Ok(es)
  {
    if es != [] {
      ReadTornFrames(c, es[..|es| - 1], es[|es| - 1], |Record(c, true, es[|es| - 1])|);
      assert es[..|es| - 1] + [es[|es| - 1]] == es;
      AppendedBytes(c, true, es[..|es| - 1], es[|es| - 1]);
      assert Record(c, true, es[|es| - 1])[..|Record(c, true, es[|es| - 1])|] == Record(c, true, es[|es| - 1]);
    }
  }

  lemma {:induction false} AppendedBytes(c: Codec, compress: bool, es: seq<Entry>, e: Entry)
    ensures Records(c, compress, es + [e]) == Records(c, compress, es) + Record(c, compress, e)
  {
    RecordsConcat(c, compress, es, [e]);
    RecordsOne(c, compress, e);
  }

  /** What is read of a log that holds `es` and the first n bytes of one more record. */
  ghost predicate TornRead(c: Codec, compress: bool, es: seq<Entry>, e: Entry, n: nat,
                           r: Result<seq<Entry>, Error>)
  {
    && (r == Ok(es) || r == Ok(es + [e]) || (compress && 4 <= n < |Record(c, compress, e)| && r.Err?))
    && (n == 0 ==> r == Ok(es))
    && (n == |Record(c, compress, e)| ==> r == Ok(es + [e]))
  }

  /** A log with one append in flight reads as the entries before it, with or without the new one. */
  lemma {:induction false} TornAppend(c: Codec, compress: bool, es: seq<Entry>, e: Entry, n: nat)
    requires JsonLaws(c) && ZstdLaws(c) && (compress ==> AllFit(c, es) && Fits(c, e))
    requires n <= |Record(c, compress, e)|
    ensures TornRead(c, compress, es, e, n,
                     ReadEntries(c, LogBytes(c, compress, es) + Record(c, compress, e)[..n]))
  {
    var body := Records(c, compress, es) + Record(c, compress, e)[..n];
    assert LogBytes(c, compress, es) + Record(c, compress, e)[..n] == Header(compress) + body;
    if compress {
      ReadTornFrames(c, es, e, n);
      CompressedBody(c, body);
    } else {
      ReadTornLines(c, es, e, n);
      JsonLogIsNotCompressed(c, es, e, n);
      assert PrintLaws(c, e);
      assert [] + body == body;
    }
  }

  lemma {:induction false} CompressedBody(c: Codec, body: seq<Byte>)
    ensures ReadEntries(c, MAGIC + body) == ReadFrames(c, body)
    ensures CountEntries(c, MAGIC + body) ==
            match ReadFrames(c, body) { case Ok(es) => Ok(|es|) case Err(x) => Err(x) }
  {
    assert (MAGIC + body)[..4] == MAGIC && (MAGIC + body)[4..] == body;
  }

  lemma {:induction false} LogReadsBack(c: Codec, compress: bool, es: seq<Entry>)
    requires JsonLaws(c) && ZstdLaws(c) && (compress ==> AllFit(c, es))
    ensures ReadEntries(c, LogBytes(c, compress, es)) == Ok(es)
  {
    if compress {
      CompressedBody(c, Records(c, true, es));
      ReadWholeFrames(c, es);
    } else {
      var e := Entry(0, Delete(Id("")));
      TornAppend(c, false, es, e, 0);
      assert LogBytes(c, false, es) + Record(c, false, e)[..0] == LogBytes(c, false, es);
    }
  }

  /** A header cut anywhere holds no entries; a torn one still counts as a line. */
  lemma {:induction false} TornHeader(c: Codec, n: nat)
    requires MagicLaws(c) && n <= 4
    ensures ReadEntries(c, MAGIC[..n]) == Ok([])
    ensures 0 < n < 4 ==> CountEntries(c, MAGIC[..n]) == Ok(1)
  {
    var b := MAGIC[..n];
    if n == 4 {
      assert b == MAGIC && b[4..] == [];
    } else if n > 0 {
      LineEndAt(b, []);
      assert b + [] == b && b[..|b|] == b;
      assert AfterLine(b) == [];
      assert ReadLines(c, []) == [] && CountLines(c, []) == 0;
    }
  }

  lemma {:induction false} JsonPrefixIsNotCompressed(c: Codec, es: seq<Entry>, n: nat)
    requires JsonLaws(c) && n <= |Records(c, false, es)|
    ensures !IsCompressed(Records(c, false, es)[..n])
  {
    if n > 0 && es != [] {
      assert PrintLaws(c, es[0]);
      assert Records(c, false, es)[..n][0] == c.format(es[0])[..4][0];
      NotCompressed(Records(c, false, es)[..n]);
    }
  }

  lemma {:induction false} StartMonotone(c: Codec, compress: bool, es: seq<Entry>, i: nat, k: nat)
    requires i <= k <= |es|
    ensures Start(c, compress, es, i) <= Start(c, compress, es, k)
  {
    assert es[..k] == es[..i] + es[i..k];
    RecordsConcat(c, compress, es[..i], es[i..k]);
  }

  /** Where the first m records of a log end. */
  ghost function LogEnd(c: Codec, compress: bool, es: seq<Entry>, m: nat): nat
    requires m <= |es|
  {
    |LogBytes(c, compress, es[..m])|
  }

  /** Which entries are read of a log cut at byte n. */
  ghost predicate ReadsPrefix(c: Codec, compress: bool, es: seq<Entry>, n: nat, j: nat)
    requires n <= |LogBytes(c, compress, es)|
  {
    var r := ReadEntries(c, LogBytes(c, compress, es)[..n]);
    && j <= |es| && (j > 0 ==> LogEnd(c, compress, es, j) <= n + 1)
    && (j < |es| ==> n < LogEnd(c, compress, es, j + 1))
    && (r.Err? <==> compress && j < |es| && n >= LogEnd(c, compress, es, j) + 4)
    && (r.Ok? ==> r == Ok(es[..j]))
  }

  lemma {:induction false} LineLogEnds(c: Codec, es: seq<Entry>, j: nat)
    requires j <= |es|
    ensures LogEnd(c, false, es, j) == Start(c, false, es, j)
    ensures j < |es| ==> LogEnd(c, false, es, j + 1) == Start(c, false, es, j + 1)
  {
    assert forall b: seq<Byte> :: [] + b == b;
  }

  lemma {:induction false} LineLogCut(c: Codec, es: seq<Entry>, n: nat) returns (j: nat)
    requires Laws(c) && n <= |LogBytes(c, false, es)|
    ensures ReadsPrefix(c, false, es, n, j)
  {
    assert LogBytes(c, false, es) == Records(c, false, es);
    j := LinesCut(c, es, n);
    JsonPrefixIsNotCompressed(c, es, n);
    LineLogEnds(c, es, j);
  }

  lemma {:induction false} FrameLogCut(c: Codec, es: seq<Entry>, n: nat) returns (j: nat)
    requires Laws(c) && AllFit(c, es) && 4 <= n <= |LogBytes(c, true, es)|
    ensures ReadsPrefix(c, true, es, n, j)
  {
    var body := Records(c, true, es)[..n - 4];
    assert LogBytes(c, true, es)[..n] == MAGIC + body;
    CompressedBody(c, body);
    j := FramesCut(c, es, n - 4);
  }

  /**
   * For every cut of a log in either format, the header included, the reader returns exactly the
   * entries before the cut, or an error precisely when the cut falls inside a payload.
   */
  lemma {:induction false} LogCut(c: Codec, compress: bool, es: seq<Entry>, n: nat) returns (j: nat)
    requires Laws(c) && (compress ==> AllFit(c, es)) && n <= |LogBytes(c, compress, es)|
    ensures ReadsPrefix(c, compress, es, n, j)
  {
    if !compress {
      j := LineLogCut(c, es, n);
    } else if n < 4 {
      assert LogBytes(c, true, es)[..n] == MAGIC[..n];
      TornHeader(c, n);
      j := 0;
      assert es[..0] == [];
    } else {
      j := FrameLogCut(c, es, n);
    }
  }

  /** A record wholly before the cut is read. */
  lemma {:induction false} WholeRecordsRead(c: Codec, compress: bool, es: seq<Entry>, n: nat, j: nat, m: nat)
    requires n <= |LogBytes(c, compress, es)| && ReadsPrefix(c, compress, es, n, j) && m <= |es|
    ensures LogEnd(c, compress, es, m) <= n ==> m <= j
  {
    if j < m {
      StartMonotone(c, compress, es, j + 1, m);
    }
  }

  // ---- Residues that reopening does not clean, and what they cost ----

  /** An entry is a JSON object, and none starts with the first letter of the magic. */
  ghost predicate ObjectLaw(c: Codec) {
    forall b: seq<Byte> :: b != [] && b[0] == MAGIC[0] ==> c.parse(b) == None
  }

  /** What decompresses starts with the number of a zstd or of a skippable frame: no zero byte in it. */
  ghost predicate FrameNumberLaw(c: Codec) {
    forall b: seq<Byte> :: b != [] && c.inflate(b).Some? ==> |b| >= 3 && b[0] != 0 && b[1] != 0 && b[2] != 0
  }

  lemma {:induction false} NotCompressed(b: seq<Byte>)
    requires b != [] && b[0] != MAGIC[0]
    ensures !IsCompressed(b)
  {
    assert |b| >= 4 ==> b[..4][0] == b[0];
  }

  lemma {:induction false} JsonStarts(c: Codec, e: Entry)
    requires JsonLaws(c)
    ensures |Record(c, false, e)| > 4 && Record(c, false, e)[..4] == JSON_OPENING
  {
    assert PrintLaws(c, e);
    assert Record(c, false, e)[..4] == c.format(e)[..4];
  }

  /** Bytes before the first newline that are not UTF-8 stop the reader, unless a character goes on after them. */
  lemma {:induction false} TornCharacterStops(c: Codec, residue: seq<Byte>, rest: seq<Byte>)
    requires Utf8Laws(c) && residue != [] && residue[0] != MAGIC[0] && NEWLINE !in residue && !c.utf8(residue)
    requires rest == [] || rest[0] < 0x80
    ensures ReadEntries(c, residue + rest) == Ok([]) && CountEntries(c, residue + rest) == Ok(0)
  {
    var m := LineEnd(rest);
    var line := residue + rest[..m];
    assert residue + rest == line + rest[m..];
    LineEndAt(line, rest[m..]);
    NotCompressed(residue + rest);
    assert !c.utf8(line) by {
      if rest[..m] == [] {
        assert line == residue;
      }
    }
  }

  /**
   * A first line torn inside a multi-byte character is not counted, so reopening leaves it in
   * place; no line appended after it is read.
   */
  lemma {:induction false} TornCharacterSwallowsLog(c: Codec, torn: Entry, n: nat, es: seq<Entry>)
    requires JsonLaws(c) && Utf8Laws(c)
    requires 0 < n < |c.format(torn)| && !c.utf8(c.format(torn)[..n])
    ensures var residue := c.format(torn)[..n];
            && CountEntries(c, residue) == Ok(0)
            && ReadEntries(c, residue + Records(c, false, es)) == Ok([])
  {
    TornCharacterResidue(c, torn, n);
    var residue := c.format(torn)[..n];
    assert residue + [] == residue;
    TornCharacterStops(c, residue, []);
    if es != [] {
      JsonStarts(c, es[0]);
      assert Records(c, false, es)[0] == Record(c, false, es[0])[..4][0];
    }
    TornCharacterStops(c, residue, Records(c, false, es));
  }

  lemma {:induction false} TornCharacterResidue(c: Codec, torn: Entry, n: nat)
    requires JsonLaws(c) && 0 < n < |c.format(torn)|
    ensures var residue := c.format(torn)[..n]; residue[0] != MAGIC[0] && NEWLINE !in residue
  {
    assert PrintLaws(c, torn);
    assert c.format(torn)[..n][0] == c.format(torn)[..4][0];
  }

  /** What follows a whole magic and k bytes of a length. */
  lemma {:induction false} AfterTornLength(c: Codec, torn: Entry, k: nat, rest: seq<Byte>)
    requires k <= 3
    ensures |Record(c, true, torn)[..k]| == k
    ensures ReadEntries(c, MAGIC + Record(c, true, torn)[..k] + rest) == ReadFrames(c, Record(c, true, torn)[..k] + rest)
    ensures CountEntries(c, MAGIC + Record(c, true, torn)[..k]) == Ok(0)
  {
    var header := Record(c, true, torn)[..k];
    assert MAGIC + header + rest == MAGIC + (header + rest);
    CompressedBody(c, header + rest);
    CompressedBody(c, header);
  }

  /**
   * JSON lines appended to a compressed log without entries, as after turning compression off, are
   * never read, whether the magic is bare or followed by a torn length.
   */
  lemma {:induction false} FormatSwitchSwallowsLog(c: Codec, torn: Entry, k: nat, es: seq<Entry>)
    requires JsonLaws(c) && k <= 3
    ensures var residue := MAGIC + Record(c, true, torn)[..k];
            && CountEntries(c, residue) == Ok(0)
            && ReadEntries(c, residue + Records(c, false, es)) == Ok([])
  {
    AfterTornLength(c, torn, k, Records(c, false, es));
    if es != [] {
      JsonStarts(c, es[0]);
      var frames := Record(c, true, torn)[..k] + Records(c, false, es);
      assert frames[3] == Record(c, false, es[0])[..4][3 - k] == JSON_OPENING[3 - k];
      HighByteHides(c, frames);
    }
  }

  /** The four bytes of a length. */
  lemma {:induction false} LeBytes(n: nat)
    ensures Le(n, 4) == [n % 0x100, n / 0x100 % 0x100, n / 0x1_0000 % 0x100, n / 0x100_0000 % 0x100]
  {
    assert Le(n, 4) == [n % 0x100] + Le(n / 0x100, 3);
    assert Le(n / 0x100, 3) == [n / 0x100 % 0x100] + Le(n / 0x100 / 0x100, 2);
    assert Le(n / 0x1_0000, 2) == [n / 0x1_0000 % 0x100] + Le(n / 0x1_0000 / 0x100, 1);
    assert Le(n / 0x100_0000, 1) == [n / 0x100_0000 % 0x100] + Le(n / 0x100_0000 / 0x100, 0);
  }

  lemma {:induction false} FirstLength(c: Codec, es: seq<Entry>)
    requires es != [] && Fits(c, es[0])
    ensures var rest := Records(c, true, es);
            && |rest| >= 4 && rest[..4] == Le(|Payload(c, es[0])|, 4) && rest[3] == 0
            && forall i :: 0 <= i < 4 ==> rest[i] == rest[..4][i]
  {
    LeBytes(|Payload(c, es[0])|);
    var rest := Records(c, true, es);
    assert rest[..4] == Le(|Payload(c, es[0])|, 4);
    assert rest[3] == rest[..4][3];
  }

  /**
   * No frame appended after one to three bytes of a torn length is ever read: the bytes of the two
   * lengths run together, and what follows the sum does not start a compressed frame.
   */
  lemma {:induction false} TornLengthSwallowsLog(c: Codec, torn: Entry, k: nat, es: seq<Entry>)
    requires FrameNumberLaw(c) && 1 <= k <= 3 && AllFit(c, es)
    ensures var residue := MAGIC + Record(c, true, torn)[..k];
            var r := ReadEntries(c, residue + Records(c, true, es));
            && CountEntries(c, residue) == Ok(0)
            && (r.Err? || r == Ok([]))
            && (es != [] && Le(|Payload(c, es[0])|, 4)[3 - k] != 0 ==> r == Ok([]))
  {
    AfterTornLength(c, torn, k, Records(c, true, es));
    if es != [] {
      FirstLength(c, es);
      SplicedLengths(c, Record(c, true, torn)[..k], Records(c, true, es));
    }
  }

  /** A frame that does not decompress ends the reading, or its length does. */
  lemma {:induction false} ReadsNothing(c: Codec, b: seq<Byte>)
    requires |b| >= 4
    requires var len := FromLe(b[..4]); 0 < len <= |b| - 4 ==> c.inflate(b[4..4 + len]) == None
    ensures var r := ReadFrames(c, b); r.Err? || r == Ok([])
  {
  }

  /** Byte 3 of what follows lies inside the frame that the two lengths make up. */
  lemma {:induction false} SplicedByte(header: seq<Byte>, rest: seq<Byte>, len: nat)
    requires 1 <= |header| <= 3 && |rest| >= 4 && len <= |header + rest| - 4
    ensures |header| <= len ==> (header + rest)[4..4 + len][|header| - 1] == rest[3]
    ensures (header + rest)[3] == rest[3 - |header|]
  {
  }

  lemma {:induction false} SplicedLengths(c: Codec, header: seq<Byte>, rest: seq<Byte>)
    requires FrameNumberLaw(c) && 1 <= |header| <= 3 && |rest| >= 4 && rest[3] == 0
    ensures var r := ReadFrames(c, header + rest); r.Err? || r == Ok([])
    ensures rest[3 - |header|] != 0 ==> ReadFrames(c, header + rest) == Ok([])
  {
    var b := header + rest;
    SplicedByte(header, rest, 0);
    if b[3] != 0 {
      HighByteHides(c, b);
    } else {
      var len := FromLe(b[..4]);
      if 0 < len <= |b| - 4 {
        SplicedByte(header, rest, len);
        ZeroInside(c, b[4..4 + len], |header| - 1);
      }
      ReadsNothing(c, b);
    }
  }

  lemma {:induction false} ZeroInside(c: Codec, body: seq<Byte>, i: nat)
    requires FrameNumberLaw(c) && body != [] && i < 3 && (i < |body| ==> body[i] == 0)
    ensures c.inflate(body) == None
  {
  }

  lemma {:induction false} HighByteHides(c: Codec, b: seq<Byte>)
    requires |b| >= 4 && b[3] > 0
    ensures ReadFrames(c, b) == Ok([])
  {
    HighByte(b[..4]);
  }

  lemma {:induction false} HighByte(b: seq<Byte>)
    requires |b| == 4
    ensures b[3] > 0 ==> FromLe(b) >= 0x100_0000
  {
    var b1, b2, b3 := b[1..], b[1..][1..], b[1..][1..][1..];
    assert b3 == [b[3]] && b3[1..] == [];
    assert FromLe(b3) == b[3];
    assert b[3] > 0 ==> FromLe(b2) >= 0x100;
    assert b[3] > 0 ==> FromLe(b1) >= 0x1_0000;
  }

  /** A line that starts with the magic's letter is no entry. */
  lemma {:induction false} LineWithoutEntry(c: Codec, line: seq<Byte>, rest: seq<Byte>)
    requires ObjectLaw(c) && line != [] && line[0] == MAGIC[0] && NEWLINE !in line
    requires rest == [] || rest[0] == NEWLINE
    ensures ReadLines(c, line + rest) in {[], ReadLines(c, if rest == [] then [] else rest[1..])}
  {
    LineEndAt(line, rest);
  }

  lemma {:induction false} JoinedLine(torn: seq<Byte>, json: seq<Byte>, rest: seq<Byte>)
    ensures torn + (json + [NEWLINE] + rest) == torn + json + ([NEWLINE] + rest)
    ensures ([NEWLINE] + rest)[1..] == rest
  {
  }

  /** The first line after a torn magic is lost with it, and all the others too when the two are not UTF-8 together. */
  lemma {:induction false} TornMagicSwallowsLine(c: Codec, k: nat, es: seq<Entry>)
    requires JsonLaws(c) && ObjectLaw(c) && 1 <= k <= 3 && es != []
    ensures ReadEntries(c, MAGIC[..k] + Records(c, false, es)) in {Ok([]), Ok(es[1..])}
  {
    var rest := Records(c, false, es[1..]);
    var line := MAGIC[..k] + c.format(es[0]);
    var b := MAGIC[..k] + Records(c, false, es);
    JoinedLine(MAGIC[..k], c.format(es[0]), rest);
    assert PrintLaws(c, es[0]);
    LineWithoutEntry(c, line, [NEWLINE] + rest);
    JsonStarts(c, es[0]);
    NotTheMagic(b, k, Record(c, false, es[0])[..4][0]);
    ReadWholeLines(c, es[1..]);
  }

  lemma {:induction false} NotTheMagic(b: seq<Byte>, k: nat, next: Byte)
    requires k <= 3 && k < |b| && b[k] == next != MAGIC[k]
    ensures !IsCompressed(b)
  {
    assert |b| >= 4 ==> b[..4][k] == b[k];
  }

  /** A frame after a torn magic is read as a line, unless it happens to complete the magic. */
  lemma {:induction false} TornMagicSwallowsFrame(c: Codec, k: nat, e: Entry)
    requires ObjectLaw(c) && 1 <= k <= 3
    requires NEWLINE !in Record(c, true, e) && Record(c, true, e)[0] != MAGIC[k]
    ensures ReadEntries(c, MAGIC[..k] + Record(c, true, e)) == Ok([])
  {
    var b := MAGIC[..k] + Record(c, true, e);
    NotTheMagic(b, k, Record(c, true, e)[0]);
    LineWithoutEntry(c, b, []);
    assert b + [] == b && ReadLines(c, []) == [];
  }
}
