/** The background rebuild: a new index from a snapshot, the changes made meanwhile, and the swap (`reindex.rs`). */
module Reindexing {
  import opened Base
  import opened Ranking
  import opened IndexRows
  import opened Hnsw
  import opened Collections

  // ---- Building from the snapshot ----

  method BuildNewIndex(backend: Backend, efSearch: nat, points: seq<Point>)
    returns (index: HnswIndex, error: Option<Error>)
    ensures fresh(index) && index.Valid() && index.backend == backend && index.efSearch == efSearch
    ensures index.Contents() == AfterBuild(backend, points)
    ensures error == if AllPrepared(backend, points) then None else Some(InvalidVector)
  {
    index := new HnswIndex(backend, efSearch);
    error := index.Build(points);
  }

  lemma {:induction false} BuiltWhole(b: Backend, list: seq<Point>)
    requires AllPrepared(b, list)
    ensures AfterBuild(b, list) == Built(b, list)
  {
    FirstRefusedIs(b, list, |list|);
  }

  /** A new index holds exactly the snapshot. */
  lemma {:induction false} SnapshotIsHeld(b: Backend, list: seq<Point>, points: map<Id, Point>, rows: Rows)
    requires ListsPoints(list, points) && AllPrepared(b, list) && rows == AfterBuild(b, list)
    ensures Holds(b, rows, Vectors(points)) && rows.tombstones == {}
  {
    BuiltWhole(b, list);
    ListedMap(list, points);
    BuiltHolds(b, list);
  }

  // ---- Applying the changes made while it was built ----

  /** The snapshot's vectors, and those of the current points in `done` that the snapshot lacks. */
  ghost predicate Merges(
      contents: map<Id, Vector>, snapshot: map<Id, Vector>, current: map<Id, Point>, done: set<Id>)
    requires done <= current.Keys
  {
    && contents.Keys == snapshot.Keys + done
    && (forall id :: id in snapshot ==> contents[id] == snapshot[id])
    && forall id :: id in done && id !in snapshot ==> contents[id] == current[id].vector
  }

  lemma {:induction false} MergeOne(
      contents: map<Id, Vector>, snapshot: map<Id, Vector>, current: map<Id, Point>, done: set<Id>, id: Id)
    requires done <= current.Keys && Merges(contents, snapshot, current, done) && id in current && id !in done
    ensures id in snapshot ==> Merges(contents, snapshot, current, done + {id})
    ensures id !in snapshot ==>
              id !in contents && Merges(contents[id := current[id].vector], snapshot, current, done + {id})
  {
  }

  ghost predicate NewOnesPrepared(b: Backend, current: map<Id, Point>, done: set<Id>, snapshotIds: set<Id>)
    requires done <= current.Keys
  {
    forall id :: id in done && id !in snapshotIds ==> b.prepare(current[id].vector).Some?
  }

  lemma {:induction false} OneMoreNew(done: set<Id>, snapshotIds: set<Id>, id: Id)
    requires id !in done
    ensures |done + {id} - snapshotIds| == |done - snapshotIds| + if id in snapshotIds then 0 else 1
  {
    if id in snapshotIds {
      assert done + {id} - snapshotIds == done - snapshotIds;
    } else {
      assert done + {id} - snapshotIds == (done - snapshotIds) + {id};
    }
  }

  /** The first loop after the points in `done`. */
  ghost predicate Adding(
      b: Backend, rows: Rows, contents: map<Id, Vector>, snapshot: map<Id, Vector>, current: map<Id, Point>,
      done: set<Id>, added: nat)
  {
    && done <= current.Keys && rows.tombstones == {}
    && Holds(b, rows, contents) && Merges(contents, snapshot, current, done)
    && NewOnesPrepared(b, current, done, snapshot.Keys) && added == |done - snapshot.Keys|
  }

  lemma {:induction false} PreparedNew(
      b: Backend, current: map<Id, Point>, done: set<Id>, snapshotIds: set<Id>, id: Id)
    requires done <= current.Keys && NewOnesPrepared(b, current, done, snapshotIds)
    requires id in current && b.prepare(current[id].vector).Some?
    ensures NewOnesPrepared(b, current, done + {id}, snapshotIds)
  {
  }

  lemma {:induction false} AddUnseen(b: Backend, rows: Rows, contents: map<Id, Vector>, id: Id, vector: Vector)
    requires Holds(b, rows, contents) && rows.tombstones == {} && id !in contents && b.prepare(vector).Some?
    ensures Holds(b, Added(b, rows, id, vector), contents[id := vector])
    ensures Added(b, rows, id, vector).tombstones == {}
  {
    assert rows.RowIds() == rows.Live();
    AddHolds(b, rows, contents, id, vector);
  }

  lemma {:induction false} AddingOld(
      b: Backend, rows: Rows, contents: map<Id, Vector>, snapshot: map<Id, Vector>, current: map<Id, Point>,
      done: set<Id>, added: nat, id: Id)
    requires Adding(b, rows, contents, snapshot, current, done, added)
    requires id in current && id !in done && id in snapshot
    ensures Adding(b, rows, contents, snapshot, current, done + {id}, added)
  {
    MergeOne(contents, snapshot, current, done, id);
    OneMoreNew(done, snapshot.Keys, id);
  }

  lemma {:induction false} AddingNew(
      b: Backend, rows: Rows, contents: map<Id, Vector>, snapshot: map<Id, Vector>, current: map<Id, Point>,
      done: set<Id>, added: nat, id: Id)
    requires Adding(b, rows, contents, snapshot, current, done, added)
    requires id in current && id !in done && id !in snapshot && b.prepare(current[id].vector).Some?
    ensures Adding(
      b, Added(b, rows, id, current[id].vector), contents[id := current[id].vector], snapshot, current,
      done + {id}, added + 1)
  {
    MergeOne(contents, snapshot, current, done, id);
    OneMoreNew(done, snapshot.Keys, id);
    PreparedNew(b, current, done, snapshot.Keys, id);
    AddUnseen(b, rows, contents, id, current[id].vector);
  }

  lemma {:induction false} RefusedNew(b: Backend, current: map<Id, Point>, snapshotIds: set<Id>, id: Id)
    requires id in current && id !in snapshotIds && b.prepare(current[id].vector).None?
    ensures !NewOnesPrepared(b, current, current.Keys, snapshotIds)
  {
  }

  lemma {:induction false} AllPicked(all: set<Id>)
    ensures all - all == {} && all - {} == all
  {
  }

  lemma {:induction false} OnePicked(all: set<Id>, left: set<Id>, id: Id)
    requires left <= all && id in left
    ensures all - (left - {id}) == all - left + {id} && id !in all - left && id in all
  {
  }

  /** The body of the first loop. */
  method AddIfNew(
      index: HnswIndex, snapshotIds: set<Id>, current: map<Id, Point>, id: Id, added0: nat,
      ghost snapshot: map<Id, Vector>, ghost done: set<Id>, ghost contents0: map<Id, Vector>)
    returns (added: nat, error: Option<Error>, ghost contents: map<Id, Vector>)
    requires index.Valid() && WellKeyed(current) && snapshot.Keys == snapshotIds
    requires Adding(index.backend, index.Contents(), contents0, snapshot, current, done, added0)
    requires id in current && id !in done
    modifies index`idMap, index`reverseMap, index`graph
    ensures index.Valid()
    ensures error.None? ==>
              Adding(index.backend, index.Contents(), contents, snapshot, current, done + {id}, added)
    ensures error.Some? ==> !NewOnesPrepared(index.backend, current, current.Keys, snapshotIds)
  {
    added, error, contents := added0, None, contents0;
    if id in snapshotIds {
      AddingOld(index.backend, index.Contents(), contents, snapshot, current, done, added, id);
      return;
    }
    ghost var before := index.Contents();
    error := index.AddPoint(current[id]);
    if error.Some? {
      RefusedNew(index.backend, current, snapshotIds, id);
      return;
    }
    AddingNew(index.backend, before, contents, snapshot, current, done, added, id);
    contents := contents[id := current[id].vector];
    added := added + 1;
  }

  /** The first loop: adds the points that the snapshot lacks. */
  method AddNew(index: HnswIndex, snapshotIds: set<Id>, current: map<Id, Point>, ghost snapshot: map<Id, Vector>)
    returns (added: nat, error: Option<Error>, ghost contents: map<Id, Vector>)
    requires index.Valid() && WellKeyed(current) && snapshot.Keys == snapshotIds
    requires Adding(index.backend, index.Contents(), snapshot, snapshot, current, {}, 0)
    modifies index`idMap, index`reverseMap, index`graph
    ensures index.Valid()
    ensures error.None? ==>
              Adding(index.backend, index.Contents(), contents, snapshot, current, current.Keys, added)
    ensures error.Some? ==> !NewOnesPrepared(index.backend, current, current.Keys, snapshotIds)
  {
    var left := current.Keys;
    added, error, contents := 0, None, snapshot;
    AllPicked(current.Keys);
    while left != {}
      invariant index.Valid() && left <= current.Keys && error.None?
      invariant Adding(index.backend, index.Contents(), contents, snapshot, current, current.Keys - left, added)
      decreases |left|
    {
      var id :| id in left;
      OnePicked(current.Keys, left, id);
      added, error, contents := AddIfNew(
        index, snapshotIds, current, id, added, snapshot, current.Keys - left, contents);
      if error.Some? {
        return;
      }
      left := left - {id};
    }
  }

  // ---- Removing what has gone ----

  /** The second loop after the snapshot ids in `done`. */
  ghost predicate Removing(
      b: Backend, rows: Rows, all: map<Id, Vector>, current: set<Id>, done: set<Id>, removed: nat)
  {
    && Holds(b, rows, all - (done - current)) && rows.RowIds() == all.Keys
    && rows.tombstones == done - current && removed == |done - current|
  }

  lemma {:induction false} RemovingOne(
      b: Backend, rows: Rows, all: map<Id, Vector>, current: set<Id>, done: set<Id>, removed: nat, id: Id)
    requires Removing(b, rows, all, current, done, removed) && id in all && id !in done
    ensures id in current ==> Removing(b, rows, all, current, done + {id}, removed)
    ensures id !in current ==> Removing(b, Tombstoned(rows, id), all, current, done + {id}, removed + 1)
  {
    OneMoreNew(done, current, id);
    if id in current {
      assert done + {id} - current == done - current;
    } else {
      assert done + {id} - current == (done - current) + {id};
      RemoveHolds(b, rows, all - (done - current), id);
      assert all - (done - current) - {id} == all - (done + {id} - current);
    }
  }

  /** The second loop: tombstones the snapshot points that have gone. */
  method RemoveGone(index: HnswIndex, snapshotIds: set<Id>, current: set<Id>, ghost all: map<Id, Vector>)
    returns (removed: nat)
    requires index.Valid() && snapshotIds <= all.Keys
    requires Removing(index.backend, index.Contents(), all, current, {}, 0)
    modifies index`tombstones
    ensures index.Valid() && Removing(index.backend, index.Contents(), all, current, snapshotIds, removed)
  {
    var left := snapshotIds;
    removed := 0;
    AllPicked(snapshotIds);
    while left != {}
      invariant index.Valid() && left <= snapshotIds
      invariant Removing(index.backend, index.Contents(), all, current, snapshotIds - left, removed)
      decreases |left|
    {
      var id :| id in left;
      OnePicked(snapshotIds, left, id);
      RemovingOne(index.backend, index.Contents(), all, current, snapshotIds - left, removed, id);
      if id !in current {
        index.RemovePoint(id);
        removed := removed + 1;
      }
      left := left - {id};
    }
  }

  /**
   * After both loops: the live ids are the collection's, the tombstones are the snapshot ids that
   * have gone, and a row holds the snapshot's vector for an old id and the current one for a new id.
   */
  ghost predicate Delta(
      b: Backend, rows: Rows, snapshot: map<Id, Vector>, current: map<Id, Point>, contents: map<Id, Vector>)
  {
    && Holds(b, rows, contents) && contents.Keys == current.Keys
    && rows.tombstones == snapshot.Keys - current.Keys
    && |rows.idMap| == |current| + |rows.tombstones|
    && forall id :: id in current ==>
         contents[id] == if id in snapshot then snapshot[id] else current[id].vector
  }

  method ApplyDelta(index: HnswIndex, snapshotIds: set<Id>, current: map<Id, Point>, ghost snapshot: map<Id, Vector>)
    returns (counts: Result<(nat, nat), Error>, ghost contents: map<Id, Vector>)
    requires index.Valid() && WellKeyed(current) && snapshot.Keys == snapshotIds
    requires Holds(index.backend, index.Contents(), snapshot) && index.tombstones == {}
    modifies index`idMap, index`reverseMap, index`graph, index`tombstones
    ensures index.Valid()
    ensures counts.Ok? ==>
              && Delta(index.backend, index.Contents(), snapshot, current, contents)
              && counts.value == (|current.Keys - snapshotIds|, |snapshotIds - current.Keys|)
    ensures counts.Err? ==> !NewOnesPrepared(index.backend, current, current.Keys, snapshotIds)
  {
    var added, error, all := AddNew(index, snapshotIds, current, snapshot);
    contents := all;
    if error.Some? {
      return Err(error.value), contents;
    }
    AddedAll(index.backend, index.Contents(), all, snapshot, current, added);
    var removed := RemoveGone(index, snapshotIds, current.Keys, all);
    DeltaDone(index.backend, index.Contents(), all, snapshot, current, removed);
    contents := all - (snapshotIds - current.Keys);
    counts := Ok((added, removed));
  }

  lemma {:induction false} AddedAll(
      b: Backend, rows: Rows, all: map<Id, Vector>, snapshot: map<Id, Vector>, current: map<Id, Point>, added: nat)
    requires Adding(b, rows, all, snapshot, current, current.Keys, added)
    ensures Removing(b, rows, all, current.Keys, {}, 0)
  {
    NothingRemoved(b, rows, all, current.Keys);
  }

  lemma {:induction false} NothingRemoved(b: Backend, rows: Rows, all: map<Id, Vector>, current: set<Id>)
    requires Holds(b, rows, all) && rows.tombstones == {}
    ensures Removing(b, rows, all, current, {}, 0)
  {
    assert rows.RowIds() == rows.Live();
    assert all - ({} - current) == all;
  }

  lemma {:induction false} DeltaContents(
      all: map<Id, Vector>, snapshot: map<Id, Vector>, current: map<Id, Point>, contents: map<Id, Vector>)
    requires Merges(all, snapshot, current, current.Keys) && contents == all - (snapshot.Keys - current.Keys)
    ensures contents.Keys == current.Keys
    ensures forall id :: id in current ==>
                           contents[id] == if id in snapshot then snapshot[id] else current[id].vector
  {
  }

  lemma {:induction false} DeltaCount(rows: Rows, old0: set<Id>, current: map<Id, Point>)
    requires rows.Fresh() && rows.RowIds() == old0 + current.Keys
    ensures |rows.idMap| == |current| + |old0 - current.Keys|
  {
    FreshSizes(rows);
    assert rows.RowIds() == current.Keys + (old0 - current.Keys);
  }

  lemma {:induction false} DeltaDone(
      b: Backend, rows: Rows, all: map<Id, Vector>, snapshot: map<Id, Vector>, current: map<Id, Point>, removed: nat)
    requires Merges(all, snapshot, current, current.Keys)
    requires Removing(b, rows, all, current.Keys, snapshot.Keys, removed)
    ensures Delta(b, rows, snapshot, current, all - (snapshot.Keys - current.Keys))
  {
    DeltaContents(all, snapshot, current, all - (snapshot.Keys - current.Keys));
    DeltaCount(rows, snapshot.Keys, current);
  }

  // ---- What a rebuild leaves ----

  lemma {:induction false} HeldRow(b: Backend, rows: Rows, contents: map<Id, Vector>, id: Id) returns (row: nat)
    requires Holds(b, rows, contents) && id in contents
    ensures row < |rows.idMap| && rows.idMap[row] == id && row in rows.graph
    ensures b.prepare(contents[id]) == Some(rows.graph[row])
  {
    assert id in rows.Live();
    row := RowOf(rows.idMap, id);
    assert rows.idMap[row] in contents;
  }

  /** The same ids, with vectors that the metric prepares alike. */
  ghost predicate PrepareAlike(b: Backend, left: map<Id, Vector>, right: map<Id, Vector>)
    requires left.Keys == right.Keys
  {
    forall id :: id in left ==> b.prepare(right[id]) == b.prepare(left[id])
  }

  /** Two contents with the same ids are held by the same rows exactly when they prepare alike. */
  lemma {:induction false} HoldsBothIff(b: Backend, rows: Rows, left: map<Id, Vector>, right: map<Id, Vector>)
    requires Holds(b, rows, left) && left.Keys == right.Keys
    ensures Holds(b, rows, right) <==> PrepareAlike(b, left, right)
  {
    if Holds(b, rows, right) {
      forall id | id in left
        ensures b.prepare(right[id]) == b.prepare(left[id])
      {
        SameRow(b, rows, left, right, id);
      }
    }
  }

  lemma {:induction false} SameRow(b: Backend, rows: Rows, left: map<Id, Vector>, right: map<Id, Vector>, id: Id)
    requires Holds(b, rows, left) && Holds(b, rows, right) && id in left
    ensures id in right && b.prepare(right[id]) == b.prepare(left[id])
  {
    var row := HeldRow(b, rows, left, id);
    assert id in rows.Live();
    assert rows.idMap[row] in right;
  }

  /** No point of the snapshot has a vector now that the metric prepares differently. */
  ghost predicate NoVectorChanged(b: Backend, snapshot: map<Id, Vector>, current: map<Id, Point>) {
    forall id :: id in snapshot && id in current ==> b.prepare(current[id].vector) == b.prepare(snapshot[id])
  }

  /**
   * After the swap the index is in step with the collection exactly when no snapshot point has a
   * different vector now: an update made while the new index was built is lost from it.
   */
  lemma {:induction false} InStepIff(
      b: Backend, rows: Rows, snapshot: map<Id, Vector>, current: map<Id, Point>, contents: map<Id, Vector>)
    requires Delta(b, rows, snapshot, current, contents)
    ensures Holds(b, rows, Vectors(current)) <==> NoVectorChanged(b, snapshot, current)
  {
    assert Holds(b, rows, contents) && Vectors(current).Keys == contents.Keys;
    HeldInStepIff(b, rows, snapshot, current, contents);
  }

  lemma {:induction false} HeldInStepIff(
      b: Backend, rows: Rows, snapshot: map<Id, Vector>, current: map<Id, Point>, contents: map<Id, Vector>)
    requires Holds(b, rows, contents) && contents.Keys == current.Keys
    requires forall id :: id in current ==>
                            contents[id] == if id in snapshot then snapshot[id] else current[id].vector
    ensures Holds(b, rows, Vectors(current)) <==> NoVectorChanged(b, snapshot, current)
  {
    HoldsBothIff(b, rows, contents, Vectors(current));
    ChangedIff(b, snapshot, current, contents);
  }

  lemma {:induction false} ChangedIff(
      b: Backend, snapshot: map<Id, Vector>, current: map<Id, Point>, contents: map<Id, Vector>)
    requires contents.Keys == current.Keys
    requires forall id :: id in current ==>
                            contents[id] == if id in snapshot then snapshot[id] else current[id].vector
    ensures PrepareAlike(b, contents, Vectors(current)) <==> NoVectorChanged(b, snapshot, current)
  {
    if PrepareAlike(b, contents, Vectors(current)) {
      forall id | id in snapshot && id in current
        ensures b.prepare(current[id].vector) == b.prepare(snapshot[id])
      {
        assert id in contents;
      }
    }
  }

  /** The new index knows nothing of the points that were only in a colder tier. */
  lemma {:induction false} SwapKeepsAccountsIff(
      b: Backend, rows: Rows, snapshot: map<Id, Vector>, current: map<Id, Point>, contents: map<Id, Vector>,
      stored: set<Id>)
    requires Delta(b, rows, snapshot, current, contents) && current.Keys <= stored
    ensures Accounted(rows, stored) <==> stored == current.Keys
    ensures forall id :: id in stored && id !in current ==> id !in rows.Live()
  {
    assert stored + rows.Live() == stored;
    if Accounted(rows, stored) {
      SubsetOfSameSize(current.Keys, stored);
    }
  }

  /** The last phase of the rebuild job: the delta under the lock, then the swap. */
  method FinishReindex(c: Collection, newIndex: HnswIndex, snapshotIds: set<Id>, ghost snapshot: map<Id, Vector>)
    returns (counts: Result<(nat, nat), Error>, ghost contents: map<Id, Vector>)
    requires c.Valid() && newIndex.Valid() && newIndex != c.index && snapshot.Keys == snapshotIds
    requires Holds(newIndex.backend, newIndex.Contents(), snapshot) && newIndex.tombstones == {}
    modifies c`index, c`cache, c`dirty, newIndex`idMap, newIndex`reverseMap, newIndex`graph, newIndex`tombstones
    ensures c.points == old(c.points) && c.stored == old(c.stored)
    ensures counts.Err? ==> c.index == old(c.index) && c.cache == old(c.cache)
    ensures counts.Ok? ==>
              && c.index == newIndex && c.Consistent() && c.CacheSound()
              && Delta(newIndex.backend, newIndex.Contents(), snapshot, c.points, contents)
              && counts.value == (|c.points.Keys - snapshotIds|, |snapshotIds - c.points.Keys|)
  {
    counts, contents := ApplyDelta(newIndex, snapshotIds, c.points, snapshot);
    if counts.Ok? {
      c.SwapIndex(newIndex);
    }
  }
}
