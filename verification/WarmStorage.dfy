/** The warm tier: an append-only file of vectors, an index of offsets, and crash repair (`tiered.rs`). */
module WarmTier {
  import opened Base

  // ---- Vectors as bytes ----

  function VectorBytes(v: seq<F32>): (bytes: seq<Byte>)
    ensures |bytes| == 4 * |v|
  {
    if v == [] then [] else Le(v[0], 4) + VectorBytes(v[1..])
  }

  function BytesVector(bytes: seq<Byte>): (v: seq<F32>)
    requires |bytes| % 4 == 0
  {
    if bytes == [] then []
    else
      Pow256Of4();
      [FromLe(bytes[..4])] + BytesVector(bytes[4..])
  }

  lemma {:induction false} VectorRoundTrip(v: seq<F32>)
    ensures BytesVector(VectorBytes(v)) == v
  {
    if v != [] {
      Pow256Of4();
      LeRoundTrip(v[0], 4);
      VectorRoundTrip(v[1..]);
      assert VectorBytes(v)[..4] == Le(v[0], 4) && VectorBytes(v)[4..] == VectorBytes(v[1..]);
    }
  }

  lemma {:induction false} VectorBytesSnoc(v: seq<F32>, i: nat)
    requires i < |v|
    ensures VectorBytes(v[..i + 1]) == VectorBytes(v[..i]) + Le(v[i], 4)
  {
    if i == 0 {
      assert v[..1][1..] == [] && v[..0] == [];
      assert Le(v[0], 4) + [] == [] + Le(v[0], 4);
    } else {
      assert v[..i + 1][1..] == v[1..][..i] && v[..i][1..] == v[1..][..i - 1];
      VectorBytesSnoc(v[1..], i - 1);
    }
  }

  // ---- The two files as values ----

  /** The vector file and the offsets of the index; `rec` is the size of a record throughout. */
  datatype Warm = Warm(file: seq<Byte>, offsets: map<Id, nat>)

  /** i * rec, written as a sum. */
  function Slot(i: nat, rec: nat): nat {
    if i == 0 then 0 else Slot(i - 1, rec) + rec
  }

  lemma {:induction false} SlotIsProduct(i: nat, rec: nat)
    ensures Slot(i, rec) == i * rec
  {
    if i > 0 {
      SlotIsProduct(i - 1, rec);
      assert i * rec == (i - 1) * rec + rec;
    }
  }

  function Slice(w: Warm, id: Id, rec: nat): Option<seq<Byte>> {
    if id in w.offsets && w.offsets[id] + rec <= |w.file|
    then Some(w.file[w.offsets[id]..w.offsets[id] + rec]) else None
  }

  /** The file is the records of `order`, one after another: peeling off the last leaves such a file. */
  ghost predicate LaidOut(w: Warm, order: seq<Id>, rec: nat)
    decreases |order|
  {
    if order == [] then w == Warm([], map[])
    else
      var id := order[|order| - 1];
      && rec <= |w.file| && id in w.offsets && w.offsets[id] == |w.file| - rec
      && LaidOut(Warm(w.file[..|w.file| - rec], w.offsets - {id}), order[..|order| - 1], rec)
  }

  /** The only state `add_vector` is right in: no gap, no tail, no missing record. */
  ghost predicate Dense(w: Warm, rec: nat) {
    exists order :: LaidOut(w, order, rec)
  }

  // ---- Repair on opening ----

  ghost function Ends(offsets: map<Id, nat>, rec: nat): set<nat> {
    set id | id in offsets :: offsets[id] + rec
  }

  ghost function MaxOf(s: set<nat>): (m: nat)
    ensures s == {} ==> m == 0
    ensures s != {} ==> m in s
    ensures forall x :: x in s ==> x <= m
  {
    if s == {} then 0
    else
      var x :| x in s;
      var m := MaxOf(s - {x});
      assert forall y :: y in s ==> y == x || y in s - {x};
      if x >= m then x else m
  }

  ghost function WithinFile(offsets: map<Id, nat>, length: nat, rec: nat): map<Id, nat> {
    map id | id in offsets && offsets[id] + rec <= length :: offsets[id]
  }

  /** Drops entries beyond the file, then cuts the file after the last entry, if there is one. */
  ghost function Repair(w: Warm, rec: nat): Warm {
    var kept := WithinFile(w.offsets, |w.file|, rec);
    var end := MaxOf(Ends(kept, rec));
    Warm(if |w.file| > end && end > 0 then w.file[..end] else w.file, kept)
  }

  // ---- Adding a vector ----

  function Appended(w: Warm, id: Id, bytes: seq<Byte>, rec: nat): Warm {
    Warm(w.file + bytes, w.offsets[id := Slot(|w.offsets|, rec)])
  }

  lemma {:induction false} LaidOutBounds(w: Warm, order: seq<Id>, rec: nat)
    requires LaidOut(w, order, rec)
    ensures |w.offsets| == |order| && |w.file| == Slot(|order|, rec)
    ensures forall id :: id in w.offsets ==> w.offsets[id] + rec <= |w.file|
    decreases |order|
  {
    if order != [] {
      var id := order[|order| - 1];
      var init := Warm(w.file[..|w.file| - rec], w.offsets - {id});
      LaidOutBounds(init, order[..|order| - 1], rec);
      assert w.offsets.Keys == init.offsets.Keys + {id};
      assert |w.offsets.Keys| == |init.offsets.Keys| + 1;
      assert forall k :: k in w.offsets ==> k == id || (k in init.offsets && init.offsets[k] == w.offsets[k]);
    }
  }

  /** What the index says of a dense file, and of one with more bytes behind it. */
  lemma {:induction false} DenseBounds(w: Warm, rec: nat)
    requires Dense(w, rec)
    ensures |w.file| == Slot(|w.offsets|, rec)
    ensures forall id :: id in w.offsets ==> w.offsets[id] + rec <= |w.file|
    ensures MaxOf(Ends(w.offsets, rec)) == |w.file|
    ensures w.offsets == map[] <==> w == Warm([], map[])
  {
    var order :| LaidOut(w, order, rec);
    LaidOutBounds(w, order, rec);
    var ends := Ends(w.offsets, rec);
    if order != [] {
      assert order[|order| - 1] in w.offsets;
      assert |w.file| in ends;
    } else {
      assert ends == {};
    }
  }

  /** A torn tail is cut off whenever the index is non-empty: repair gives back the dense store. */
  lemma {:induction false} RepairCutsTail(w: Warm, tail: seq<Byte>, rec: nat)
    requires rec > 0 && Dense(w, rec)
    ensures w.offsets != map[] || tail == [] ==> Repair(Warm(w.file + tail, w.offsets), rec) == w
    ensures w.offsets == map[] ==> Repair(Warm(w.file + tail, w.offsets), rec).file == tail
  {
    DenseBounds(w, rec);
    assert WithinFile(w.offsets, |w.file + tail|, rec) == w.offsets;
    assert (w.file + tail)[..|w.file|] == w.file;
    assert tail == [] ==> w.file + tail == w.file;
    if w.offsets != map[] {
      var id :| id in w.offsets;
    } else {
      assert [] + tail == tail;
    }
  }

  lemma {:induction false} LayoutExtends(w: Warm, order: seq<Id>, id: Id, bytes: seq<Byte>, rec: nat)
    requires LaidOut(w, order, rec) && id !in w.offsets && |bytes| == rec
    requires |w.file| == Slot(|w.offsets|, rec)
    ensures LaidOut(Appended(w, id, bytes, rec), order + [id], rec)
  {
    var t := Appended(w, id, bytes, rec);
    assert t.file[..|t.file| - rec] == w.file;
    assert t.offsets - {id} == w.offsets;
    assert (order + [id])[..|order|] == order;
  }

  lemma {:induction false} AppendedReads(w: Warm, id: Id, bytes: seq<Byte>, rec: nat)
    requires |w.file| == Slot(|w.offsets|, rec) && |bytes| == rec
    ensures Slice(Appended(w, id, bytes, rec), id, rec) == Some(bytes)
  {
    assert (w.file + bytes)[|w.file|..|w.file| + rec] == bytes;
  }

  /** In a dense store a fresh vector lands on its offset, and the store stays dense. */
  lemma {:induction false} AppendedIsDense(w: Warm, id: Id, bytes: seq<Byte>, rec: nat)
    requires rec > 0 && Dense(w, rec) && id !in w.offsets && |bytes| == rec
    ensures Dense(Appended(w, id, bytes, rec), rec)
    ensures Slice(Appended(w, id, bytes, rec), id, rec) == Some(bytes)
  {
    DenseBounds(w, rec);
    AppendedReads(w, id, bytes, rec);
    assert Dense(Appended(w, id, bytes, rec), rec) by {
      var order :| LaidOut(w, order, rec);
      LayoutExtends(w, order, id, bytes, rec);
    }
  }

  lemma {:induction false} AppendKeepsOthers(w: Warm, id: Id, bytes: seq<Byte>, rec: nat)
    requires Dense(w, rec) && id !in w.offsets
    ensures forall other :: other in w.offsets ==>
              Slice(w, other, rec).Some? && Slice(Appended(w, id, bytes, rec), other, rec) == Slice(w, other, rec)
  {
    DenseBounds(w, rec);
    forall other | other in w.offsets
      ensures Slice(w, other, rec).Some? && Slice(Appended(w, id, bytes, rec), other, rec) == Slice(w, other, rec)
    {
      SliceBefore(w.file, bytes, w.offsets[other], rec);
    }
  }

  lemma {:induction false} SliceBefore(file: seq<Byte>, bytes: seq<Byte>, o: nat, rec: nat)
    requires o + rec <= |file|
    ensures (file + bytes)[o..o + rec] == file[o..o + rec]
  {
  }

  lemma {:induction false} SliceAtEnd(file: seq<Byte>, bytes: seq<Byte>)
    ensures (file + bytes)[|file|..|file| + |bytes|] == bytes
  {
  }

  /** Repair after a complete append changes nothing. */
  lemma {:induction false} AppendedNeedsNoRepair(w: Warm, id: Id, bytes: seq<Byte>, rec: nat)
    requires rec > 0 && Dense(w, rec) && id !in w.offsets && |bytes| == rec
    ensures Repair(Appended(w, id, bytes, rec), rec) == Appended(w, id, bytes, rec)
  {
    AppendedIsDense(w, id, bytes, rec);
    var t := Appended(w, id, bytes, rec);
    RepairCutsTail(t, [], rec);
    assert t.file + [] == t.file;
  }

  /**
   * A crash at any byte of `add_vector`, before or after the index rename, leaves a dense store
   * once reopened: the old one, or the old one with the new vector; and this holds exactly
   * when the index was non-empty or no byte of a first vector had been written.
   */
  lemma {:induction false} CrashDuringAdd(w: Warm, id: Id, bytes: seq<Byte>, rec: nat, written: nat, indexRenamed: bool)
    requires rec > 0 && Dense(w, rec) && id !in w.offsets && |bytes| == rec
    requires written <= rec && (indexRenamed ==> written == rec)
    ensures var crashed := if indexRenamed then Appended(w, id, bytes, rec)
                           else Warm(w.file + bytes[..written], w.offsets);
            var reopened := Repair(crashed, rec);
            && (Dense(reopened, rec) <==> indexRenamed || w.offsets != map[] || written == 0)
            && (Dense(reopened, rec) ==> reopened == if indexRenamed then Appended(w, id, bytes, rec) else w)
  {
    if indexRenamed {
      AppendedNeedsNoRepair(w, id, bytes, rec);
      AppendedIsDense(w, id, bytes, rec);
    } else {
      RepairCutsTail(w, bytes[..written], rec);
      if w.offsets == map[] && written > 0 {
        var reopened := Repair(Warm(w.file + bytes[..written], w.offsets), rec);
        assert reopened.offsets == map[];
        if Dense(reopened, rec) {
          DenseBounds(reopened, rec);
        }
      }
    }
  }

  /** What `read_vector` finds right after an `add_vector`, in any state of the store. */
  ghost function ReadAfterAdd(w: Warm, id: Id, bytes: seq<Byte>, rec: nat): Option<seq<Byte>> {
    Slice(Repair(Appended(w, id, bytes, rec), rec), id, rec)
  }

  /**
   * The offset of a new vector is computed from the number of entries. In any state, whatever
   * is added reads back exactly when the file is as long as that many records.
   */
  lemma {:induction false} AddReadsBackIff(w: Warm, id: Id, rec: nat)
    requires rec > 0 && id !in w.offsets
    ensures (forall bytes: seq<Byte> | |bytes| == rec :: ReadAfterAdd(w, id, bytes, rec) == Some(bytes))
       <==> |w.file| == |w.offsets| * rec
  {
    SlotIsProduct(|w.offsets|, rec);
    if |w.file| == |w.offsets| * rec {
      forall bytes: seq<Byte> | |bytes| == rec
        ensures ReadAfterAdd(w, id, bytes, rec) == Some(bytes)
      {
        AddedAtEnd(w, id, bytes, rec);
      }
    } else {
      var bytes := MisreadBytes(w, id, rec);
    }
  }

  lemma {:induction false} AddedAtEnd(w: Warm, id: Id, bytes: seq<Byte>, rec: nat)
    requires rec > 0 && |bytes| == rec && |w.file| == Slot(|w.offsets|, rec)
    ensures ReadAfterAdd(w, id, bytes, rec) == Some(bytes)
  {
    AddedSlice(w, id, bytes, rec);
    SliceAtEnd(w.file, bytes);
  }

  /** Off by any amount, some vector reads back as old bytes, or not at all. */
  lemma {:induction false} MisreadBytes(w: Warm, id: Id, rec: nat) returns (bytes: seq<Byte>)
    requires rec > 0 && id !in w.offsets && |w.file| != Slot(|w.offsets|, rec)
    ensures |bytes| == rec && ReadAfterAdd(w, id, bytes, rec) != Some(bytes)
  {
    var o := Slot(|w.offsets|, rec);
    var first: Byte := if o < |w.file| && w.file[o] == 0 then 1 else 0;
    bytes := seq(rec, _ => first);
    AddedSlice(w, id, bytes, rec);
    if o < |w.file| {
      assert (w.file + bytes)[o..o + rec][0] == w.file[o] != bytes[0];
    }
  }

  lemma {:induction false} AddedSlice(w: Warm, id: Id, bytes: seq<Byte>, rec: nat)
    requires rec > 0 && |bytes| == rec
    ensures ReadAfterAdd(w, id, bytes, rec) ==
            var o := Slot(|w.offsets|, rec);
            if o <= |w.file| then Some((w.file + bytes)[o..o + rec]) else None
  {
    RepairSlice(Appended(w, id, bytes, rec), id, rec);
  }

  /** Repair never touches the bytes of a record that lies within the file, and drops the others. */
  lemma {:induction false} RepairSlice(w: Warm, id: Id, rec: nat)
    requires rec > 0
    ensures Slice(Repair(w, rec), id, rec) == Slice(w, id, rec)
  {
    var r := Repair(w, rec);
    if id in r.offsets {
      var o := r.offsets[id];
      assert o + rec in Ends(r.offsets, rec);
      assert r.file[o..o + rec] == w.file[o..o + rec];
    }
  }

  /** Removing an entry leaves its bytes: from then on no vector can be added safely. */
  lemma {:induction false} RemovalBreaksAdding(w: Warm, gone: Id, id: Id, rec: nat)
    requires rec > 0 && Dense(w, rec) && gone in w.offsets && id !in w.offsets
    ensures exists bytes: seq<Byte> :: |bytes| == rec
              && ReadAfterAdd(w.(offsets := w.offsets - {gone}), id, bytes, rec) != Some(bytes)
  {
    var after := w.(offsets := w.offsets - {gone});
    DenseBounds(w, rec);
    assert w.offsets.Keys == after.offsets.Keys + {gone};
    assert |w.offsets.Keys| == |after.offsets.Keys| + 1;
    var bytes := MisreadBytes(after, id, rec);
  }

  /** The store after two records. */
  lemma {:induction false} TwoRecords(a: Id, b: Id, x: seq<Byte>, y: seq<Byte>, rec: nat)
    requires a != b && |x| == |y| == rec > 0
    ensures var two := Warm(x + y, map[a := 0, b := rec]);
            Dense(two, rec) && Slice(two, a, rec) == Some(x)
  {
    var empty := Warm([], map[]);
    assert LaidOut(empty, [], rec);
    AppendedIsDense(empty, a, x, rec);
    var one := Appended(empty, a, x, rec);
    AppendedIsDense(one, b, y, rec);
    AppendKeepsOthers(one, b, y, rec);
    assert Slot(1, rec) == rec;
    assert Appended(one, b, y, rec) == Warm(x + y, map[a := 0, b := rec]);
  }

  /** A file of the right length under the offsets of a dense store is left as it is. */
  lemma {:induction false} SameLengthIsKept(before: Warm, file: seq<Byte>, rec: nat)
    requires rec > 0 && Dense(before, rec) && |file| == |before.file|
    ensures Repair(Warm(file, before.offsets), rec) == Warm(file, before.offsets)
  {
    DenseBounds(before, rec);
    assert WithinFile(before.offsets, |file|, rec) == before.offsets;
  }

  /** Between its two renames, compaction has the new file under the old offsets. */
  lemma {:induction false} CompactionWindowMixesVectors(a: Id, b: Id, x: seq<Byte>, y: seq<Byte>)
    requires a != b && x != y && |x| == |y| > 0
    ensures var rec := |x|;
            var before := Warm(x + y, map[a := 0, b := rec]);
            var window := Warm(y + x, before.offsets);
            && Dense(before, rec) && Slice(before, a, rec) == Some(x)
            && Repair(window, rec) == window && Slice(window, a, rec) == Some(y)
  {
    var rec := |x|;
    TwoRecords(a, b, x, y, rec);
    SameLengthIsKept(Warm(x + y, map[a := 0, b := rec]), y + x, rec);
    assert (y + x)[0..rec] == y;
  }

  /** The bytes of every indexed record of a dense store decide its file. */
  lemma {:induction false} SlicesDecideFile(w: Warm, order: seq<Id>, file: seq<Byte>, rec: nat)
    requires LaidOut(w, order, rec)
    requires forall id :: id in w.offsets ==> Slice(Warm(file, w.offsets), id, rec) == Slice(w, id, rec)
    ensures w.file <= file
    decreases |order|
  {
    LaidOutBounds(w, order, rec);
    if order != [] {
      var id, n := order[|order| - 1], |w.file| - rec;
      var init := Warm(w.file[..n], w.offsets - {id});
      LaidOutBounds(init, order[..|order| - 1], rec);
      forall other | other in init.offsets
        ensures Slice(Warm(file, init.offsets), other, rec) == Slice(init, other, rec)
      {
        ShorterSlice(w, file, id, n, other, rec);
      }
      SlicesDecideFile(init, order[..|order| - 1], file, rec);
      LastSlice(w, file, id, n, rec);
    }
  }

  lemma {:induction false} ShorterSlice(w: Warm, file: seq<Byte>, id: Id, n: nat, other: Id, rec: nat)
    requires n <= |w.file| && other in w.offsets && other != id && w.offsets[other] + rec <= n
    requires Slice(Warm(file, w.offsets), other, rec) == Slice(w, other, rec)
    ensures Slice(Warm(file, w.offsets - {id}), other, rec) == Slice(Warm(w.file[..n], w.offsets - {id}), other, rec)
  {
    var o := w.offsets[other];
    assert w.file[..n][o..o + rec] == w.file[o..o + rec];
  }

  lemma {:induction false} LastSlice(w: Warm, file: seq<Byte>, id: Id, n: nat, rec: nat)
    requires id in w.offsets && w.offsets[id] == n == |w.file| - rec && w.file[..n] <= file
    requires Slice(Warm(file, w.offsets), id, rec) == Slice(w, id, rec)
    ensures w.file <= file
  {
    assert w.file == w.file[..n] + w.file[n..n + rec];
    assert file[..n + rec] == file[..n] + file[n..n + rec];
  }

  /**
   * A crash between the two renames of compaction leaves a new file under the old offsets.
   * Reopened, every vector is the one it was exactly when the old file is a prefix of the new one.
   */
  lemma {:induction false} CompactionWindowHarmlessIff(w: Warm, file: seq<Byte>, rec: nat)
    requires rec > 0 && Dense(w, rec)
    ensures (forall id :: id in w.offsets ==>
                            Slice(Repair(Warm(file, w.offsets), rec), id, rec) == Slice(w, id, rec))
       <==> w.file <= file
  {
    forall id | id in w.offsets
      ensures Slice(Repair(Warm(file, w.offsets), rec), id, rec) == Slice(Warm(file, w.offsets), id, rec)
    {
      RepairSlice(Warm(file, w.offsets), id, rec);
    }
    if w.file <= file {
      LongerFileKeepsSlices(w, file, rec);
    } else if forall id :: id in w.offsets ==>
                             Slice(Repair(Warm(file, w.offsets), rec), id, rec) == Slice(w, id, rec) {
      var order :| LaidOut(w, order, rec);
      SlicesDecideFile(w, order, file, rec);
    }
  }

  lemma {:induction false} LongerFileKeepsSlices(w: Warm, file: seq<Byte>, rec: nat)
    requires Dense(w, rec) && w.file <= file
    ensures forall id :: id in w.offsets ==> Slice(Warm(file, w.offsets), id, rec) == Slice(w, id, rec)
  {
    DenseBounds(w, rec);
    forall id | id in w.offsets
      ensures Slice(Warm(file, w.offsets), id, rec) == Slice(w, id, rec)
    {
      var o := w.offsets[id];
      assert w.file[o..o + rec] == file[o..o + rec];
    }
  }

  // ---- The storage object ----

  /** Every indexed id reads back as its vector. */
  ghost predicate Holds(w: Warm, vectors: map<Id, seq<F32>>, rec: nat) {
    forall id :: id in w.offsets ==> id in vectors && Slice(w, id, rec) == Some(VectorBytes(vectors[id]))
  }

  class WarmStorage {
    const dimension: nat
    /** `warm_vectors.bin` and `warm_index.json`, if they exist. */
    var vectorsFile: Option<seq<Byte>>
    var indexFile: Option<map<Id, nat>>
    var mmap: Option<seq<Byte>>
    var offsets: map<Id, nat>

    ghost predicate Valid()
      reads this
    {
      && dimension > 0
      && mmap == if Bytes() == [] then None else Some(Bytes())
    }

    function Bytes(): seq<Byte>
      reads this
    {
      match vectorsFile
      case Some(b) => b
      case None => []
    }

    function Record(): nat {
      dimension * 4
    }

    function View(): Warm
      reads this
    {
      Warm(Bytes(), offsets)
    }

    /** Opens the two files as a crash or a clean shutdown left them. */
    constructor (dimension: nat, vectorsFile: Option<seq<Byte>>, indexFile: Option<map<Id, nat>>)
      requires dimension > 0
      ensures Valid() && this.dimension == dimension
      ensures var index := if indexFile.Some? then indexFile.value else map[];
              View() == if vectorsFile.Some? then Repair(Warm(vectorsFile.value, index), Record()) else Warm([], index)
    {
      this.dimension := dimension;
      this.vectorsFile := vectorsFile;
      this.indexFile := indexFile;
      mmap := None;
      offsets := if indexFile.Some? then indexFile.value else map[];
      new;
      ReloadMmap();
    }

    method SaveIndex()
      modifies this`indexFile
      ensures indexFile == Some(offsets)
    {
      indexFile := Some(offsets);
    }

    /** The end of the last indexed record. */
    method LastEnd() returns (end: nat)
      ensures end == MaxOf(Ends(offsets, Record()))
    {
      var rec := Record();
      end := 0;
      var rest := offsets.Keys;
      while rest != {}
        invariant rest <= offsets.Keys
        invariant end == 0 || exists id :: id in offsets && end == offsets[id] + rec
        invariant forall id :: id in offsets && id !in rest ==> offsets[id] + rec <= end
        decreases |rest|
      {
        var id :| id in rest;
        if offsets[id] + rec > end {
          end := offsets[id] + rec;
        }
        rest := rest - {id};
      }
      LargestEnd(offsets, rec, end);
    }

    /** Maps the file, after repairing index and file against each other. */
    method ReloadMmap()
      requires dimension > 0
      modifies this
      ensures Valid()
      ensures old(vectorsFile).None? ==> View() == old(View()) && vectorsFile.None? && indexFile == old(indexFile)
      ensures old(vectorsFile).Some? ==> View() == Repair(old(View()), Record()) && vectorsFile.Some?
      ensures old(vectorsFile).Some? && View() == old(View()) ==> indexFile == old(indexFile)
      ensures old(vectorsFile).Some? && View() != old(View()) ==> indexFile == Some(offsets)
    {
      if vectorsFile.None? {
        mmap := None;
        return;
      }
      var length := |vectorsFile.value|;
      var before := |offsets|;
      ghost var all := offsets;
      offsets := map id | id in offsets && offsets[id] + Record() <= length :: offsets[id];
      KeptCount(all, length, Record());
      var end := LastEnd();
      var needsTruncate := length > end && end > 0;
      if needsTruncate {
        vectorsFile := Some(vectorsFile.value[..end]);
      }
      if |offsets| < before || needsTruncate {
        SaveIndex();
      }
      mmap := if vectorsFile.value == [] then None else vectorsFile;
    }

    /** The append loop: four bytes a component, at the end of the file. */
    method WriteVector(vector: seq<F32>)
      modifies this`vectorsFile
      ensures vectorsFile == Some(old(Bytes()) + VectorBytes(vector))
    {
      if vectorsFile.None? {
        vectorsFile := Some([]);
      }
      ghost var before := vectorsFile.value;
      assert vector[..0] == [] && before + [] == before;
      for i := 0 to |vector|
        invariant vectorsFile == Some(before + VectorBytes(vector[..i]))
      {
        VectorBytesSnoc(vector, i);
        assert before + VectorBytes(vector[..i]) + Le(vector[i], 4) == before + VectorBytes(vector[..i + 1]);
        vectorsFile := Some(vectorsFile.value + Le(vector[i], 4));
      }
      assert vector[..|vector|] == vector;
    }

    /** Appends a vector, records its offset, saves the index, and maps the file again. */
    method AddVector(id: Id, vector: seq<F32>)
      requires Valid()
      modifies this
      ensures Valid() && vectorsFile.Some?
      ensures View() == Repair(Appended(old(View()), id, VectorBytes(vector), Record()), Record())
      ensures indexFile == Some(offsets)
    {
      var offset := |offsets| * Record();
      SlotIsProduct(|offsets|, Record());
      WriteVector(vector);
      offsets := offsets[id := offset];
      SaveIndex();
      ReloadMmap();
    }

    method ReadVector(id: Id) returns (r: Result<seq<F32>, Error>)
      requires Valid()
      ensures r.Ok? <==> Slice(View(), id, Record()).Some?
      ensures r.Ok? ==> |r.value| == dimension && VectorBytes(r.value) == Slice(View(), id, Record()).value
    {
      if id !in offsets {
        return Err(Storage("not found in warm storage"));
      }
      if mmap.None? {
        return Err(Storage("warm storage mmap not initialized"));
      }
      var start := offsets[id];
      if start + Record() > |mmap.value| {
        return Err(Storage("warm vector offset out of bounds"));
      }
      var bytes := mmap.value[start..start + Record()];
      BytesRoundTrip(bytes);
      return Ok(BytesVector(bytes));
    }

    /** Forgets the entry, in memory only: neither file is touched. */
    method RemoveVector(id: Id)
      requires Valid()
      modifies this`offsets
      ensures Valid() && View() == old(View()).(offsets := old(offsets) - {id})
    {
      offsets := offsets - {id};
    }

    /** The rewriting loop of compaction, in whatever order the map is walked. */
    method WriteCompacted(vectors: map<Id, seq<F32>>) returns (file: seq<Byte>, newOffsets: map<Id, nat>)
      requires dimension > 0
      ensures exists order :: Packed(file, newOffsets, vectors, order) && newOffsets.Keys == vectors.Keys
      ensures SameDimension(vectors, dimension) ==>
                Dense(Warm(file, newOffsets), Record()) && Holds(Warm(file, newOffsets), vectors, Record())
    {
      var rec := Record();
      file, newOffsets := [], map[];
      var rest := vectors.Keys;
      ghost var order: seq<Id> := [];
      assert LaidOut(Warm(file, newOffsets), [], rec);
      while rest != {}
        invariant rest <= vectors.Keys && newOffsets.Keys == vectors.Keys - rest
        invariant Packed(file, newOffsets, vectors, order)
        invariant SameDimension(vectors, dimension) ==>
          Dense(Warm(file, newOffsets), rec) && Holds(Warm(file, newOffsets), vectors, rec)
        decreases |rest|
      {
        var id :| id in rest;
        if SameDimension(vectors, dimension) {
          CompactStep(Warm(file, newOffsets), vectors, id, rec);
        }
        PackedStep(file, newOffsets, vectors, order, id);
        newOffsets := newOffsets[id := |file|];
        file := file + VectorBytes(vectors[id]);
        order := order + [id];
        rest := rest - {id};
      }
    }

    /** Replaces the file by one with exactly the given vectors; dense when they have the store's dimension. */
    method Compact(vectors: map<Id, seq<F32>>)
      requires Valid()
      modifies this
      ensures Valid() && indexFile == Some(offsets)
      ensures exists file, packed, order ::
                Packed(file, packed, vectors, order) && packed.Keys == vectors.Keys
                && View() == Repair(Warm(file, packed), Record())
      ensures SameDimension(vectors, dimension) ==>
                && Dense(View(), Record()) && offsets.Keys == vectors.Keys && Holds(View(), vectors, Record())
    {
      var file, newOffsets := WriteCompacted(vectors);
      if SameDimension(vectors, dimension) {
        RepairCutsTail(Warm(file, newOffsets), [], Record());
        assert file + [] == file;
      }
      vectorsFile := Some(file);
      offsets := newOffsets;
      SaveIndex();
      ReloadMmap();
    }
  }

  ghost predicate SameDimension(vectors: map<Id, seq<F32>>, dimension: nat) {
    forall id :: id in vectors ==> |vectors[id]| == dimension
  }

  /** The file is the bytes of the vectors of `order`, one after another, and the offsets say where each starts. */
  ghost predicate Packed(file: seq<Byte>, offsets: map<Id, nat>, vectors: map<Id, seq<F32>>, order: seq<Id>)
    decreases |order|
  {
    if order == [] then file == [] && offsets == map[]
    else
      var id := order[|order| - 1];
      && id in vectors && id in offsets
      && var bytes := VectorBytes(vectors[id]);
         && |bytes| <= |file| && offsets[id] == |file| - |bytes| && file[offsets[id]..] == bytes
         && Packed(file[..offsets[id]], offsets - {id}, vectors, order[..|order| - 1])
  }

  lemma {:induction false} PackedStep(
      file: seq<Byte>, offsets: map<Id, nat>, vectors: map<Id, seq<F32>>, order: seq<Id>, id: Id)
    requires Packed(file, offsets, vectors, order) && id in vectors && id !in offsets
    ensures Packed(file + VectorBytes(vectors[id]), offsets[id := |file|], vectors, order + [id])
  {
    var bytes := VectorBytes(vectors[id]);
    assert (file + bytes)[|file|..] == bytes && (file + bytes)[..|file|] == file;
    assert offsets[id := |file|] - {id} == offsets;
    assert (order + [id])[..|order|] == order;
  }

  lemma {:induction false} CompactStep(w: Warm, vectors: map<Id, seq<F32>>, id: Id, rec: nat)
    requires rec > 0 && Dense(w, rec) && Holds(w, vectors, rec)
    requires id in vectors && id !in w.offsets && |VectorBytes(vectors[id])| == rec
    ensures var t := Warm(w.file + VectorBytes(vectors[id]), w.offsets[id := |w.file|]);
            Dense(t, rec) && Holds(t, vectors, rec)
  {
    DenseBounds(w, rec);
    AppendedIsDense(w, id, VectorBytes(vectors[id]), rec);
    AppendKeepsOthers(w, id, VectorBytes(vectors[id]), rec);
  }

  lemma {:induction false} LargestEnd(offsets: map<Id, nat>, rec: nat, end: nat)
    requires end == 0 || exists id :: id in offsets && end == offsets[id] + rec
    requires forall id :: id in offsets ==> offsets[id] + rec <= end
    ensures end == MaxOf(Ends(offsets, rec))
  {
    var ends := Ends(offsets, rec);
    assert forall e :: e in ends ==> e <= end;
    assert end == 0 || end in ends;
  }

  lemma {:induction false} KeptCount(offsets: map<Id, nat>, length: nat, rec: nat)
    ensures var kept := WithinFile(offsets, length, rec);
            |kept| <= |offsets| && (|kept| == |offsets| <==> kept == offsets)
  {
    var kept := WithinFile(offsets, length, rec);
    assert offsets.Keys == kept.Keys + (offsets.Keys - kept.Keys);
    assert |offsets.Keys| == |kept.Keys| + |offsets.Keys - kept.Keys|;
    if |kept| == |offsets| {
      assert offsets.Keys - kept.Keys == {};
    }
  }

  lemma {:induction false} BytesRoundTrip(bytes: seq<Byte>)
    requires |bytes| % 4 == 0
    ensures |BytesVector(bytes)| * 4 == |bytes|
    ensures VectorBytes(BytesVector(bytes)) == bytes
  {
    if bytes != [] {
      Pow256Of4();
      FromLeInverse(bytes[..4]);
      BytesRoundTrip(bytes[4..]);
      var v := BytesVector(bytes);
      assert v[1..] == BytesVector(bytes[4..]);
      assert bytes[..4] + bytes[4..] == bytes;
    }
  }

  lemma {:induction false} FromLeInverse(bytes: seq<Byte>)
    ensures Le(FromLe(bytes), |bytes|) == bytes
  {
    if bytes != [] {
      FromLeInverse(bytes[1..]);
      var n := FromLe(bytes[1..]);
      assert (n * 0x100 + bytes[0]) / 0x100 == n && (n * 0x100 + bytes[0]) % 0x100 == bytes[0];
      assert [bytes[0]] + bytes[1..] == bytes;
    }
  }
}
