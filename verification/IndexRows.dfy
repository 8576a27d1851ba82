/** The id rows and tombstones kept around the external nearest-neighbour graph (`search.rs`). */
module IndexRows {
  import opened Base
  import opened Ranking

  type Vector = seq<F32>

  datatype Neighbour = Neighbour(row: nat, distance: real)

  /** The vectors in the graph, by row. */
  type Graph = map<nat, Vector>

  /**
   * `hnsw_rs` and the arithmetic of one distance metric. `prepare` normalises for cosine and only
   * checks finiteness otherwise; `nearest` and `filtered` are the two graph searches, the latter
   * with the rows its filter callback admits.
   */
  datatype Backend = Backend(
    cosine: bool,
    prepare: Vector -> Option<Vector>,
    distance: (Vector, Vector) -> real,
    nearest: (Graph, Vector, nat, nat) -> seq<Neighbour>,
    filtered: (Graph, Vector, nat, nat, set<nat>) -> seq<Neighbour>)

  ghost predicate NearestRows(b: Backend, found: seq<Neighbour>, graph: Graph, query: Vector, count: nat) {
    && |found| == Min(count, |graph|)
    && (forall i :: 0 <= i < |found| ==>
          found[i].row in graph && found[i].distance == b.distance(query, graph[found[i].row]))
    && (forall i, j :: 0 <= i < j < |found| ==>
          found[i].row != found[j].row && found[i].distance <= found[j].distance)
    && (forall i, row :: 0 <= i < |found| && row in graph && (forall j :: 0 <= j < |found| ==> found[j].row != row) ==>
          found[i].distance <= b.distance(query, graph[row]))
  }

  /** The graph search is exact when its beam is at least as wide as the answer. */
  ghost predicate Exact(b: Backend) {
    forall graph: Graph, query: Vector, count: nat, ef: nat :: ef >= count ==>
      NearestRows(b, b.nearest(graph, query, count, ef), graph, query, count)
  }

  ghost predicate AdmittedRows(b: Backend, found: seq<Neighbour>, graph: Graph, query: Vector, k: nat, admitted: set<nat>) {
    && |found| <= k
    && (forall i :: 0 <= i < |found| ==>
          && found[i].row in graph && found[i].row in admitted
          && found[i].distance == b.distance(query, graph[found[i].row]))
    && forall i, j :: 0 <= i < j < |found| ==> found[i].row != found[j].row
  }

  /** The filtered search never returns a row its filter refused, or one row twice. */
  ghost predicate Respectful(b: Backend) {
    forall graph: Graph, query: Vector, k: nat, ef: nat, admitted: set<nat> ::
      AdmittedRows(b, b.filtered(graph, query, k, ef, admitted), graph, query, k, admitted)
  }

  /** With a beam as wide as the graph, the filtered search finds every admitted row, up to k. */
  ghost predicate Exhaustive(b: Backend) {
    forall graph: Graph, query: Vector, k: nat, ef: nat, admitted: set<nat> ::
      ef >= |graph| ==>
        |b.filtered(graph, query, k, ef, admitted)| == Min(k, |admitted * graph.Keys|)
  }

  ghost predicate Ascending(found: seq<Neighbour>) {
    forall i, j :: 0 <= i < j < |found| ==> found[i].distance <= found[j].distance
  }

  /** The filtered search answers nearest first. */
  ghost predicate OrderedFilter(b: Backend) {
    forall graph: Graph, query: Vector, k: nat, ef: nat, admitted: set<nat> ::
      Ascending(b.filtered(graph, query, k, ef, admitted))
  }

  ghost function Restricted(graph: Graph, admitted: set<nat>): Graph {
    map row | row in graph && row in admitted :: graph[row]
  }

  /** With k results, or a beam as wide as the graph, it has found the nearest of the admitted rows. */
  ghost predicate PreciseFilter(b: Backend) {
    forall graph: Graph, query: Vector, k: nat, ef: nat, admitted: set<nat> ::
      |b.filtered(graph, query, k, ef, admitted)| == k || ef >= |graph| ==>
        NearestRows(b, b.filtered(graph, query, k, ef, admitted), Restricted(graph, admitted), query, k)
  }

  /** Rows of a search result by id; a row past the id map is skipped. */
  function Named(found: seq<Neighbour>, idMap: seq<Id>): seq<Scored> {
    if found == [] then []
    else
      var rest, last := Named(found[..|found| - 1], idMap), found[|found| - 1];
      if last.row < |idMap| then rest + [(idMap[last.row], last.distance)] else rest
  }

  function IdSet(ids: seq<Id>): set<Id> {
    if ids == [] then {} else IdSet(ids[..|ids| - 1]) + {ids[|ids| - 1]}
  }

  lemma {:induction false} IdSetMember(ids: seq<Id>, id: Id)
    ensures id in IdSet(ids) <==> id in ids
  {
    if ids != [] {
      IdSetMember(ids[..|ids| - 1], id);
      assert ids == ids[..|ids| - 1] + [ids[|ids| - 1]];
    }
  }

  lemma {:induction false} IdSetAppend(ids: seq<Id>, id: Id)
    ensures IdSet(ids + [id]) == IdSet(ids) + {id}
  {
    assert (ids + [id])[..|ids|] == ids;
  }

  ghost predicate AllDistinct(ids: seq<Id>) {
    if ids == [] then true
    else ids[|ids| - 1] !in IdSet(ids[..|ids| - 1]) && AllDistinct(ids[..|ids| - 1])
  }

  lemma {:induction false} DistinctAt(ids: seq<Id>, i: nat, j: nat)
    requires AllDistinct(ids) && i < j < |ids|
    ensures ids[i] != ids[j]
  {
    var n := |ids| - 1;
    if j < n {
      DistinctAt(ids[..n], i, j);
    } else {
      IdSetMember(ids[..n], ids[j]);
      assert ids[..n][i] == ids[i];
    }
  }

  lemma {:induction false} DifferentRows(ids: seq<Id>, i: nat, j: nat)
    requires AllDistinct(ids) && i < |ids| && j < |ids| && i != j
    ensures ids[i] != ids[j]
  {
    if i < j {
      DistinctAt(ids, i, j);
    } else {
      DistinctAt(ids, j, i);
    }
  }

  /** What an index holds. */
  datatype Rows = Rows(idMap: seq<Id>, tombstones: set<Id>, graph: Graph)
  {
    ghost predicate Valid() {
      && (forall row :: row in graph ==> row < |idMap|)
      && tombstones <= RowIds()
    }

    /** No id has been added twice since the last build, and every row reached the graph. */
    ghost predicate Fresh() {
      && Valid() && AllDistinct(idMap)
      && forall row :: 0 <= row < |idMap| ==> row in graph
    }

    function RowIds(): set<Id> {
      IdSet(idMap)
    }

    ghost function Live(): set<Id> {
      RowIds() - tombstones
    }
  }

  /** How many rows the search asks for. */
  function Fetched(rows: Rows, k: nat): nat {
    Min(Min(k, |rows.idMap|) + |rows.tombstones|, |rows.idMap|)
  }

  /** The unfiltered search: over-fetch by the number of tombstones, drop them, keep k. */
  function Answer(b: Backend, rows: Rows, efSearch: nat, query: Vector, k: nat): Result<seq<Scored>, Error> {
    match b.prepare(query)
    case None => Err(InvalidVector)
    case Some(prepared) =>
      var n := |rows.idMap|;
      var wanted := Min(k, n);
      if wanted == 0 then Ok([])
      else
        var extra := Fetched(rows, k);
        Ok(LiveOnes(b.nearest(rows.graph, prepared, extra, Max(efSearch, extra)), rows, wanted))
  }

  function LiveOnes(found: seq<Neighbour>, rows: Rows, wanted: nat): seq<Scored> {
    var kept := Without(Named(found, rows.idMap), rows.tombstones);
    kept[..Min(wanted, |kept|)]
  }

  // ---- Tombstoned ids never show ----

  lemma {:induction false} NamedMembers(found: seq<Neighbour>, idMap: seq<Id>, x: Scored)
    requires x in Named(found, idMap)
    ensures exists i :: 0 <= i < |found| && found[i].row < |idMap| && x == (idMap[found[i].row], found[i].distance)
  {
    var n := |found| - 1;
    if x in Named(found[..n], idMap) {
      NamedMembers(found[..n], idMap, x);
      var i :| 0 <= i < n && found[..n][i].row < |idMap|
               && x == (idMap[found[..n][i].row], found[..n][i].distance);
      assert found[i] == found[..n][i];
    }
  }

  lemma {:induction false} NamedKeeps(found: seq<Neighbour>, idMap: seq<Id>, i: nat)
    requires i < |found| && found[i].row < |idMap|
    ensures (idMap[found[i].row], found[i].distance) in Named(found, idMap)
  {
    var n := |found| - 1;
    if i < n {
      NamedKeeps(found[..n], idMap, i);
      assert found[..n][i] == found[i];
    }
  }

  /** Whatever the graph returns, a result names a row's id that is not tombstoned. */
  lemma {:induction false} AnswerIsLive(b: Backend, rows: Rows, efSearch: nat, query: Vector, k: nat, i: nat)
    requires Answer(b, rows, efSearch, query, k).Ok? && i < |Answer(b, rows, efSearch, query, k).value|
    ensures Answer(b, rows, efSearch, query, k).value[i].0 in rows.Live()
    ensures |Answer(b, rows, efSearch, query, k).value| <= k
  {
    var out := Answer(b, rows, efSearch, query, k).value;
    var wanted := Min(k, |rows.idMap|);
    var extra := Fetched(rows, k);
    var found := b.nearest(rows.graph, b.prepare(query).value, extra, Max(efSearch, extra));
    var kept := Without(Named(found, rows.idMap), rows.tombstones);
    assert out[i] == kept[i];
    WithoutMembers(Named(found, rows.idMap), rows.tombstones, kept[i]);
    NamedMembers(found, rows.idMap, kept[i]);
    IdSetMember(rows.idMap, kept[i].0);
  }

  // ---- Exactness ----

  ghost function RowOf(idMap: seq<Id>, id: Id): (row: nat)
    requires id in IdSet(idMap)
    ensures row < |idMap| && idMap[row] == id
  {
    IdSetMember(idMap, id);
    var row :| 0 <= row < |idMap| && idMap[row] == id;
    row
  }

  /** The distance to every id of a fresh index. */
  ghost function Distances(b: Backend, rows: Rows, prepared: Vector): map<Id, real>
    requires rows.Fresh()
  {
    map id | id in rows.RowIds() :: b.distance(prepared, rows.graph[RowOf(rows.idMap, id)])
  }

  lemma {:induction false} NamedInStep(found: seq<Neighbour>, idMap: seq<Id>)
    requires forall i :: 0 <= i < |found| ==> found[i].row < |idMap|
    ensures |Named(found, idMap)| == |found|
    ensures forall i :: 0 <= i < |found| ==> Named(found, idMap)[i] == (idMap[found[i].row], found[i].distance)
  {
    if found != [] {
      NamedInStep(found[..|found| - 1], idMap);
    }
  }

  lemma {:induction false} IdCount(idMap: seq<Id>)
    requires AllDistinct(idMap)
    ensures |IdSet(idMap)| == |idMap|
  {
    if idMap != [] {
      IdCount(idMap[..|idMap| - 1]);
    }
  }

  lemma {:induction false} UpToCount(s: set<nat>, n: nat)
    requires forall i :: i in s <==> 0 <= i < n
    ensures |s| == n
  {
    if n > 0 {
      UpToCount(s - {n - 1}, n - 1);
    } else {
      assert s == {};
    }
  }

  lemma {:induction false} FreshSizes(rows: Rows)
    requires rows.Fresh()
    ensures |rows.graph| == |rows.idMap| == |rows.RowIds()|
  {
    IdCount(rows.idMap);
    UpToCount(rows.graph.Keys, |rows.idMap|);
  }

  lemma {:induction false} DistanceOfRow(b: Backend, rows: Rows, prepared: Vector, row: nat)
    requires rows.Fresh() && row < |rows.idMap|
    ensures rows.idMap[row] in Distances(b, rows, prepared)
    ensures Distances(b, rows, prepared)[rows.idMap[row]] == b.distance(prepared, rows.graph[row])
  {
    IdSetMember(rows.idMap, rows.idMap[row]);
    var other := RowOf(rows.idMap, rows.idMap[row]);
    if other != row {
      DifferentRows(rows.idMap, other, row);
    }
  }

  lemma {:induction false} NamedDistinct(rows: Rows, found: seq<Neighbour>)
    requires rows.Fresh() && forall i :: 0 <= i < |found| ==> found[i].row < |rows.idMap|
    requires forall i, j :: 0 <= i < j < |found| ==> found[i].row != found[j].row
    ensures DistinctIds(Named(found, rows.idMap))
  {
    var named := Named(found, rows.idMap);
    NamedInStep(found, rows.idMap);
    forall i, j | 0 <= i < j < |named|
      ensures named[i].0 != named[j].0
    {
      DifferentRows(rows.idMap, found[i].row, found[j].row);
    }
  }

  /** `scores` is the distance of every id of a fresh index. */
  ghost predicate Measures(scores: map<Id, real>, b: Backend, rows: Rows, prepared: Vector)
    requires rows.Fresh()
  {
    && scores.Keys == rows.RowIds()
    && forall row :: 0 <= row < |rows.idMap| ==>
         rows.idMap[row] in scores && scores[rows.idMap[row]] == b.distance(prepared, rows.graph[row])
  }

  lemma {:induction false} DistancesMeasure(b: Backend, rows: Rows, prepared: Vector)
    requires rows.Fresh()
    ensures Measures(Distances(b, rows, prepared), b, rows, prepared)
    ensures |Distances(b, rows, prepared)| == |rows.idMap|
  {
    assert Distances(b, rows, prepared).Keys == rows.RowIds();
    forall row | 0 <= row < |rows.idMap|
      ensures rows.idMap[row] in Distances(b, rows, prepared)
      ensures Distances(b, rows, prepared)[rows.idMap[row]] == b.distance(prepared, rows.graph[row])
    {
      DistanceOfRow(b, rows, prepared, row);
    }
    FreshSizes(rows);
  }

  lemma {:induction false} UnnamedRow(rows: Rows, found: seq<Neighbour>, row: nat)
    requires forall i :: 0 <= i < |found| ==> found[i].row < |rows.idMap|
    requires row < |rows.idMap| && rows.idMap[row] !in IdsOf(Named(found, rows.idMap))
    ensures forall j :: 0 <= j < |found| ==> found[j].row != row
  {
    var named := Named(found, rows.idMap);
    NamedInStep(found, rows.idMap);
    assert forall j :: 0 <= j < |named| ==> named[j].0 in IdsOf(named);
  }

  lemma {:induction false} NamedFarther(
      b: Backend, rows: Rows, prepared: Vector, found: seq<Neighbour>, count: nat, scores: map<Id, real>, i: nat, id: Id)
    requires rows.Fresh() && NearestRows(b, found, rows.graph, prepared, count)
    requires Measures(scores, b, rows, prepared) && i < |found| && id in scores
    requires id !in IdsOf(Named(found, rows.idMap))
    ensures |Named(found, rows.idMap)| == |found|
    ensures Before(Named(found, rows.idMap)[i].1, scores[id], false)
  {
    var row := RowOf(rows.idMap, id);
    NamedInStep(found, rows.idMap);
    UnnamedRow(rows, found, row);
  }

  lemma {:induction false} NamedOrder(
      b: Backend, rows: Rows, prepared: Vector, found: seq<Neighbour>, count: nat, scores: map<Id, real>)
    requires rows.Fresh() && NearestRows(b, found, rows.graph, prepared, count)
    requires Measures(scores, b, rows, prepared)
    ensures var named := Named(found, rows.idMap);
            && |named| == Min(count, |scores|) && Sorted(named, false)
            && forall i :: 0 <= i < |named| ==> named[i].0 in scores && scores[named[i].0] == named[i].1
  {
    NamedInStep(found, rows.idMap);
    FreshSizes(rows);
  }

  lemma {:induction false} IsTopOf(out: seq<Scored>, scores: map<Id, real>, k: nat)
    requires |out| == Min(k, |scores|) && DistinctIds(out) && Sorted(out, false)
    requires forall i :: 0 <= i < |out| ==> out[i].0 in scores && scores[out[i].0] == out[i].1
    requires forall i, id :: 0 <= i < |out| && id in scores && id !in IdsOf(out) ==> Before(out[i].1, scores[id], false)
    ensures IsTop(out, scores, k, false)
  {
  }

  /** The nearest rows, by their ids, are the nearest ids. */
  lemma {:induction false} NearestIds(
      b: Backend, rows: Rows, prepared: Vector, found: seq<Neighbour>, count: nat, scores: map<Id, real>)
    requires rows.Fresh() && NearestRows(b, found, rows.graph, prepared, count)
    requires Measures(scores, b, rows, prepared)
    ensures IsTop(Named(found, rows.idMap), scores, count, false)
  {
    var named := Named(found, rows.idMap);
    NamedOrder(b, rows, prepared, found, count, scores);
    NamedDistinct(rows, found);
    forall i, id | 0 <= i < |named| && id in scores && id !in IdsOf(named)
      ensures Before(named[i].1, scores[id], false)
    {
      NamedInStep(found, rows.idMap);
      NamedFarther(b, rows, prepared, found, count, scores, i, id);
    }
    IsTopOf(named, scores, count);
  }

  lemma {:induction false} TopClamped(xs: seq<Scored>, scores: map<Id, real>, a: nat, b: nat, descending: bool)
    requires IsTop(xs, scores, a, descending) && Min(a, |scores|) == Min(b, |scores|)
    ensures IsTop(xs, scores, b, descending)
  {
  }

  /** The list a search keeps is the best of the live ids. */
  lemma {:induction false} KeptIsTop(named: seq<Scored>, scores: map<Id, real>, dead: set<Id>, n: nat, k: nat)
    requires dead <= scores.Keys && |scores| == n && k > 0 && n > 0
    requires IsTop(named, scores, Min(Min(k, n) + |dead|, n), false)
    ensures var kept := Without(named, dead);
            IsTop(kept[..Min(Min(k, n), |kept|)], scores - dead, k, false)
  {
    var wanted := Min(k, n);
    TopClamped(named, scores, Min(wanted + |dead|, n), wanted + |dead|, false);
    FilteredTop(named, scores, dead, wanted, false);
    RemainingCount(scores, dead);
    var kept := Without(named, dead);
    TopClamped(kept[..Min(wanted, |kept|)], scores - dead, wanted, k, false);
  }

  lemma {:induction false} NothingIsTop(scores: map<Id, real>, k: nat)
    requires k == 0 || |scores| == 0
    ensures IsTop([], scores, k, false)
  {
  }

  lemma {:induction false} AnswerUnfolds(b: Backend, rows: Rows, efSearch: nat, query: Vector, k: nat)
    requires b.prepare(query).Some? && k > 0 && |rows.idMap| > 0
    ensures var n := |rows.idMap|;
            var extra := Fetched(rows, k);
            var found := b.nearest(rows.graph, b.prepare(query).value, extra, Max(efSearch, extra));
            Answer(b, rows, efSearch, query, k) == Ok(LiveOnes(found, rows, Min(k, n)))
  {
  }

  lemma {:induction false} LiveOnesAreTop(
      b: Backend, rows: Rows, prepared: Vector, found: seq<Neighbour>, k: nat, scores: map<Id, real>)
    requires rows.Fresh() && k > 0 && |rows.idMap| > 0
    requires NearestRows(b, found, rows.graph, prepared, Fetched(rows, k))
    requires Measures(scores, b, rows, prepared)
    ensures IsTop(LiveOnes(found, rows, Min(k, |rows.idMap|)), scores - rows.tombstones, k, false)
  {
    var n := |rows.idMap|;
    FreshSizes(rows);
    NearestIds(b, rows, prepared, found, Fetched(rows, k), scores);
    KeptIsTop(Named(found, rows.idMap), scores, rows.tombstones, n, k);
  }

  lemma {:induction false} NearestIsExact(b: Backend, graph: Graph, query: Vector, count: nat, ef: nat)
    requires Exact(b) && ef >= count
    ensures NearestRows(b, b.nearest(graph, query, count, ef), graph, query, count)
  {
  }

  lemma {:induction false} NonEmptyAnswer(
      b: Backend, rows: Rows, efSearch: nat, query: Vector, prepared: Vector, k: nat, scores: map<Id, real>,
      found: seq<Neighbour>)
    requires rows.Fresh() && b.prepare(query) == Some(prepared) && k > 0 && |rows.idMap| > 0
    requires Measures(scores, b, rows, prepared)
    requires found == b.nearest(rows.graph, prepared, Fetched(rows, k), Max(efSearch, Fetched(rows, k)))
    requires NearestRows(b, found, rows.graph, prepared, Fetched(rows, k))
    ensures Answer(b, rows, efSearch, query, k).Ok?
    ensures IsTop(Answer(b, rows, efSearch, query, k).value, scores - rows.tombstones, k, false)
  {
    AnswerUnfolds(b, rows, efSearch, query, k);
    LiveOnesAreTop(b, rows, prepared, found, k, scores);
  }

  lemma {:induction false} EmptyAnswer(
      b: Backend, rows: Rows, efSearch: nat, query: Vector, k: nat, scores: map<Id, real>)
    requires b.prepare(query).Some? && (k == 0 || |rows.idMap| == 0)
    requires rows.tombstones <= scores.Keys && |scores| == |rows.idMap|
    ensures Answer(b, rows, efSearch, query, k).Ok?
    ensures IsTop(Answer(b, rows, efSearch, query, k).value, scores - rows.tombstones, k, false)
  {
    RemainingCount(scores, rows.tombstones);
    NothingIsTop(scores - rows.tombstones, k);
  }

  /**
   * Over-fetching by the tombstone count is exactly enough: on a fresh index an exact graph search
   * returns the min(k, live) nearest live ids, nearest first.
   */
  lemma {:induction false} OverFetchIsExact(b: Backend, rows: Rows, efSearch: nat, query: Vector, k: nat)
    requires Exact(b) && rows.Fresh() && b.prepare(query).Some?
    ensures Answer(b, rows, efSearch, query, k).Ok?
    ensures IsTop(
      Answer(b, rows, efSearch, query, k).value,
      Distances(b, rows, b.prepare(query).value) - rows.tombstones, k, false)
  {
    var prepared := b.prepare(query).value;
    var scores := Distances(b, rows, prepared);
    DistancesMeasure(b, rows, prepared);
    if k == 0 || |rows.idMap| == 0 {
      EmptyAnswer(b, rows, efSearch, query, k, scores);
    } else {
      var extra := Fetched(rows, k);
      var ef := Max(efSearch, extra);
      NearestIsExact(b, rows.graph, prepared, extra, ef);
      NonEmptyAnswer(b, rows, efSearch, query, prepared, k, scores, b.nearest(rows.graph, prepared, extra, ef));
    }
  }

  // ---- When an id can be found at all ----

  ghost function RowsIn(found: seq<Neighbour>): set<nat> {
    if found == [] then {} else RowsIn(found[..|found| - 1]) + {found[|found| - 1].row}
  }

  lemma {:induction false} RowsInMember(found: seq<Neighbour>, row: nat)
    ensures row in RowsIn(found) <==> exists i :: 0 <= i < |found| && found[i].row == row
  {
    if found != [] {
      var n := |found| - 1;
      RowsInMember(found[..n], row);
      assert forall i :: 0 <= i < n ==> found[..n][i] == found[i];
    }
  }

  ghost predicate DistinctRows(found: seq<Neighbour>) {
    forall i, j :: 0 <= i < j < |found| ==> found[i].row != found[j].row
  }

  lemma {:induction false} RowsInCount(found: seq<Neighbour>)
    requires DistinctRows(found)
    ensures |RowsIn(found)| == |found|
  {
    if found != [] {
      var n := |found| - 1;
      RowsInCount(found[..n]);
      RowsInMember(found[..n], found[n].row);
    }
  }

  lemma {:induction false} RowsInSubset(found: seq<Neighbour>, rows: set<nat>)
    requires forall i :: 0 <= i < |found| ==> found[i].row in rows
    ensures RowsIn(found) <= rows
  {
    forall row | row in RowsIn(found)
      ensures row in rows
    {
      RowsInMember(found, row);
    }
  }

  /** As many distinct rows as the graph has are all of them. */
  lemma {:induction false} EveryRowFound(found: seq<Neighbour>, graph: Graph, row: nat) returns (i: nat)
    requires DistinctRows(found) && |found| == |graph| && row in graph
    requires forall i :: 0 <= i < |found| ==> found[i].row in graph
    ensures i < |found| && found[i].row == row
  {
    RowsInCount(found);
    RowsInSubset(found, graph.Keys);
    SubsetOfSameSize(RowsIn(found), graph.Keys);
    RowsInMember(found, row);
    i :| 0 <= i < |found| && found[i].row == row;
  }

  lemma {:induction false} NamedLength(found: seq<Neighbour>, idMap: seq<Id>)
    ensures |Named(found, idMap)| <= |found|
  {
    if found != [] {
      NamedLength(found[..|found| - 1], idMap);
    }
  }

  lemma {:induction false} WithoutLength(xs: seq<Scored>, dead: set<Id>)
    ensures |Without(xs, dead)| <= |xs|
  {
    if xs != [] {
      WithoutLength(xs[..|xs| - 1], dead);
    }
  }

  lemma {:induction false} UncutRow(rows: Rows, found: seq<Neighbour>, i: nat, wanted: nat) returns (j: nat)
    requires i < |found| <= wanted && found[i].row < |rows.idMap| && rows.idMap[found[i].row] !in rows.tombstones
    ensures j < |LiveOnes(found, rows, wanted)| && LiveOnes(found, rows, wanted)[j].0 == rows.idMap[found[i].row]
  {
    var named, x := Named(found, rows.idMap), (rows.idMap[found[i].row], found[i].distance);
    NamedKeeps(found, rows.idMap, i);
    WithoutMembers(named, rows.tombstones, x);
    NamedLength(found, rows.idMap);
    WithoutLength(named, rows.tombstones);
    var kept := Without(named, rows.tombstones);
    j :| 0 <= j < |kept| && kept[j] == x;
  }

  /**
   * An id that was added is found by a search for everything exactly when it is not tombstoned.
   * Adding it again does not lift a tombstone, so a point that was removed, or moved back to the
   * hot tier, stays invisible until the next build.
   */
  lemma {:induction false} FoundIffNotTombstoned(b: Backend, rows: Rows, efSearch: nat, query: Vector, k: nat, id: Id)
    requires Exact(b) && rows.Valid() && (forall row :: 0 <= row < |rows.idMap| ==> row in rows.graph)
    requires b.prepare(query).Some? && id in rows.RowIds() && k >= |rows.idMap|
    ensures Answer(b, rows, efSearch, query, k).Ok?
    ensures (exists i :: 0 <= i < |Answer(b, rows, efSearch, query, k).value|
                         && Answer(b, rows, efSearch, query, k).value[i].0 == id)
            <==> id !in rows.tombstones
  {
    var out := Answer(b, rows, efSearch, query, k).value;
    forall i | 0 <= i < |out| && out[i].0 == id
      ensures id !in rows.tombstones
    {
      AnswerIsLive(b, rows, efSearch, query, k, i);
    }
    if id !in rows.tombstones {
      var j := FindsLive(b, rows, efSearch, query, k, id);
      assert out[j].0 == id;
    }
  }

  lemma {:induction false} FindsLive(
      b: Backend, rows: Rows, efSearch: nat, query: Vector, k: nat, id: Id) returns (j: nat)
    requires Exact(b) && rows.Valid() && (forall row :: 0 <= row < |rows.idMap| ==> row in rows.graph)
    requires b.prepare(query).Some? && id in rows.RowIds() && id !in rows.tombstones && k >= |rows.idMap|
    ensures j < |Answer(b, rows, efSearch, query, k).value|
    ensures Answer(b, rows, efSearch, query, k).value[j].0 == id
  {
    var n, prepared := |rows.idMap|, b.prepare(query).value;
    var found := b.nearest(rows.graph, prepared, n, Max(efSearch, n));
    NearestIsExact(b, rows.graph, prepared, n, Max(efSearch, n));
    UpToCount(rows.graph.Keys, n);
    j := FindsAmong(b, rows, efSearch, query, k, id, found);
  }

  lemma {:induction false} FindsAmong(
      b: Backend, rows: Rows, efSearch: nat, query: Vector, k: nat, id: Id, found: seq<Neighbour>) returns (j: nat)
    requires b.prepare(query).Some? && id in rows.RowIds() && id !in rows.tombstones && k >= |rows.idMap|
    requires var n, prepared := |rows.idMap|, b.prepare(query).value;
             && found == b.nearest(rows.graph, prepared, n, Max(efSearch, n))
             && NearestRows(b, found, rows.graph, prepared, n) && |rows.graph| == n
             && RowOf(rows.idMap, id) in rows.graph
    ensures j < |Answer(b, rows, efSearch, query, k).value|
    ensures Answer(b, rows, efSearch, query, k).value[j].0 == id
  {
    var n := |rows.idMap|;
    var i := FetchesRow(b, rows.graph, b.prepare(query).value, found, n, RowOf(rows.idMap, id));
    AnswerUnfolds(b, rows, efSearch, query, k);
    assert Fetched(rows, k) == n;
    j := UncutRow(rows, found, i, n);
  }

  lemma {:induction false} FetchesRow(
      b: Backend, graph: Graph, prepared: Vector, found: seq<Neighbour>, n: nat, row: nat) returns (i: nat)
    requires NearestRows(b, found, graph, prepared, n) && |graph| == n && row in graph
    ensures i < |found| <= n && found[i].row == row
  {
    i := EveryRowFound(found, graph, row);
  }

  // ---- When an id is listed once ----

  /** Ids that sit in two rows are tombstoned. */
  ghost predicate RepeatsTombstoned(rows: Rows) {
    forall i, j :: 0 <= i < j < |rows.idMap| && rows.idMap[i] == rows.idMap[j] ==> rows.idMap[i] in rows.tombstones
  }

  lemma {:induction false} NamedRepeatsIff(rows: Rows, found: seq<Neighbour>)
    requires DistinctRows(found) && |found| == |rows.graph|
    requires forall i :: 0 <= i < |found| ==> found[i].row in rows.graph
    requires forall row :: 0 <= row < |rows.idMap| <==> row in rows.graph
    ensures RepeatsAreDead(Named(found, rows.idMap), rows.tombstones) <==> RepeatsTombstoned(rows)
  {
    var named := Named(found, rows.idMap);
    NamedInStep(found, rows.idMap);
    if RepeatsAreDead(named, rows.tombstones) {
      forall i, j | 0 <= i < j < |rows.idMap| && rows.idMap[i] == rows.idMap[j]
        ensures rows.idMap[i] in rows.tombstones
      {
        var p := EveryRowFound(found, rows.graph, i);
        var q := EveryRowFound(found, rows.graph, j);
        assert named[p].0 == named[q].0;
      }
    }
    if RepeatsTombstoned(rows) {
      forall p, q | 0 <= p < q < |named| && named[p].0 == named[q].0
        ensures named[p].0 in rows.tombstones
      {
        assert found[p].row != found[q].row;
        assert rows.idMap[found[p].row] == rows.idMap[found[q].row];
      }
    }
  }

  /** A search for everything keeps all that is not tombstoned, of every row. */
  lemma {:induction false} EverythingKept(b: Backend, rows: Rows, efSearch: nat, query: Vector, k: nat)
    returns (found: seq<Neighbour>)
    requires Exact(b) && rows.Valid() && (forall row :: 0 <= row < |rows.idMap| ==> row in rows.graph)
    requires b.prepare(query).Some? && k >= |rows.idMap| > 0
    ensures NearestRows(b, found, rows.graph, b.prepare(query).value, |rows.idMap|) && |rows.graph| == |rows.idMap|
    ensures Answer(b, rows, efSearch, query, k) == Ok(Without(Named(found, rows.idMap), rows.tombstones))
  {
    var n, prepared := |rows.idMap|, b.prepare(query).value;
    found := b.nearest(rows.graph, prepared, n, Max(efSearch, n));
    NearestIsExact(b, rows.graph, prepared, n, Max(efSearch, n));
    UpToCount(rows.graph.Keys, n);
    UncutAnswer(b, rows, efSearch, query, k, found);
  }

  lemma {:induction false} UncutAnswer(
      b: Backend, rows: Rows, efSearch: nat, query: Vector, k: nat, found: seq<Neighbour>)
    requires b.prepare(query).Some? && k >= |rows.idMap| > 0 && |found| <= |rows.idMap|
    requires var n := |rows.idMap|; found == b.nearest(rows.graph, b.prepare(query).value, n, Max(efSearch, n))
    ensures Answer(b, rows, efSearch, query, k) == Ok(Without(Named(found, rows.idMap), rows.tombstones))
  {
    var n := |rows.idMap|;
    AnswerUnfolds(b, rows, efSearch, query, k);
    assert Fetched(rows, k) == n;
    NamedLength(found, rows.idMap);
    WithoutLength(Named(found, rows.idMap), rows.tombstones);
    var kept := Without(Named(found, rows.idMap), rows.tombstones);
    assert kept[..|kept|] == kept;
  }

  /**
   * A search for everything lists each id once exactly when every id that was added twice has been
   * tombstoned: adding an id that is live already leaves its old row, and is listed twice.
   */
  lemma {:induction false} ListedOnceIff(b: Backend, rows: Rows, efSearch: nat, query: Vector, k: nat)
    requires Exact(b) && rows.Valid() && (forall row :: 0 <= row < |rows.idMap| ==> row in rows.graph)
    requires b.prepare(query).Some? && k >= |rows.idMap| > 0
    ensures Answer(b, rows, efSearch, query, k).Ok?
    ensures DistinctIds(Answer(b, rows, efSearch, query, k).value)
       <==> forall i, j :: 0 <= i < j < |rows.idMap| && rows.idMap[i] == rows.idMap[j] ==>
                             rows.idMap[i] in rows.tombstones
  {
    var found := EverythingKept(b, rows, efSearch, query, k);
    NearestAreDistinct(b, rows, b.prepare(query).value, found);
    NamedRepeatsIff(rows, found);
    WithoutDistinctIff(Named(found, rows.idMap), rows.tombstones);
  }

  lemma {:induction false} NearestAreDistinct(b: Backend, rows: Rows, prepared: Vector, found: seq<Neighbour>)
    requires rows.Valid() && NearestRows(b, found, rows.graph, prepared, |rows.idMap|) && |rows.graph| == |rows.idMap|
    ensures DistinctRows(found) && |found| == |rows.graph|
    ensures forall i :: 0 <= i < |found| ==> found[i].row in rows.graph
  {
  }
}
