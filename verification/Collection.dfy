/** The in-memory collection: its points, its index and its result cache (`collection.rs`). */
module Collections {
  import opened Base
  import opened Ranking
  import opened IndexRows
  import opened Hnsw
  import opened QueryCache
  import opened Bm25Stats
  import opened Bm25
  import WalReplay
  import Graph

  const BRUTE_FORCE_THRESHOLD := 50

  // ---- Listing a map ----

  ghost predicate DistinctList(list: seq<Point>) {
    forall i, j :: 0 <= i < j < |list| ==> list[i].id != list[j].id
  }

  /** `list` has the points of the map, each once. */
  ghost predicate ListsPoints(list: seq<Point>, points: map<Id, Point>) {
    && DistinctList(list) && Graph.PointIds(list) == points.Keys
    && forall i :: 0 <= i < |list| ==> list[i].id in points && points[list[i].id] == list[i]
  }

  lemma {:induction false} PointIdsAppend(list: seq<Point>, p: Point)
    ensures Graph.PointIds(list + [p]) == Graph.PointIds(list) + {p.id}
  {
    assert forall q :: q in list + [p] <==> q in list || q == p;
  }

  lemma {:induction false} ListNext(list: seq<Point>, points: map<Id, Point>, left: set<Id>, id: Id)
    requires WellKeyed(points) && id in left && left <= points.Keys && ListsPoints(list, points - left)
    ensures ListsPoints(list + [points[id]], points - (left - {id}))
  {
    var done := points - left;
    PointIdsAppend(list, points[id]);
    assert points - (left - {id}) == done[id := points[id]];
  }

  /** The values of the map, in some order. */
  method ListPoints(points: map<Id, Point>) returns (list: seq<Point>)
    requires WellKeyed(points)
    ensures ListsPoints(list, points)
  {
    list := [];
    var left := points.Keys;
    assert points - left == map[];
    while left != {}
      invariant left <= points.Keys && ListsPoints(list, points - left)
      decreases |left|
    {
      var id :| id in left;
      ListNext(list, points, left, id);
      list := list + [points[id]];
      left := left - {id};
    }
    assert points - left == points;
  }

  lemma {:induction false} ListedKeys(list: seq<Point>)
    requires DistinctList(list)
    ensures DistinctPoints(list) && VectorsOf(list).Keys == Graph.PointIds(list)
  {
    if list != [] {
      var init, last := list[..|list| - 1], list[|list| - 1];
      ListedKeys(init);
      LastIsNew(list);
      assert list == init + [last];
      PointIdsAppend(init, last);
    }
  }

  lemma {:induction false} LastIsNew(list: seq<Point>)
    requires DistinctList(list) && list != []
    ensures list[|list| - 1].id !in Graph.PointIds(list[..|list| - 1])
  {
  }

  lemma {:induction false} ListedVector(list: seq<Point>, i: nat)
    requires DistinctList(list) && i < |list|
    ensures list[i].id in VectorsOf(list) && VectorsOf(list)[list[i].id] == list[i].vector
  {
    var n := |list| - 1;
    if i < n {
      ListedVector(list[..n], i);
      assert list[i].id != list[n].id;
    }
  }

  lemma {:induction false} ListedMap(list: seq<Point>, points: map<Id, Point>)
    requires ListsPoints(list, points)
    ensures DistinctPoints(list) && VectorsOf(list) == Vectors(points)
  {
    ListedKeys(list);
    forall id | id in points
      ensures id in VectorsOf(list) && VectorsOf(list)[id] == points[id].vector
    {
      assert id in Graph.PointIds(list);
      var p :| p in list && p.id == id;
      var i :| 0 <= i < |list| && list[i] == p;
      ListedVector(list, i);
    }
  }

  // ---- The accounts behind the brute-force guard ----

  /** Rows minus tombstones is at least the number of ids stored anywhere or live in the index. */
  ghost predicate Accounted(rows: Rows, stored: set<Id>) {
    |rows.idMap| - |rows.tombstones| >= |stored + rows.Live()|
  }

  lemma {:induction false} AddAccounted(b: Backend, rows: Rows, stored: set<Id>, id: Id, vector: Vector)
    requires Accounted(rows, stored)
    ensures Accounted(Added(b, rows, id, vector), stored + {id})
    ensures Accounted(Added(b, rows, id, vector), stored)
  {
    var after := Added(b, rows, id, vector);
    IdSetAppend(rows.idMap, id);
    SubsetCount(stored + {id} + after.Live(), stored + rows.Live() + {id});
    SubsetCount(stored + after.Live(), stored + rows.Live() + {id});
  }

  lemma {:induction false} TombstoneLive(rows: Rows, stored: set<Id>, id: Id)
    requires Accounted(rows, stored) && id in rows.Live()
    ensures Accounted(Tombstoned(rows, id), stored - {id})
  {
    var all := stored + rows.Live();
    assert Tombstoned(rows, id).Live() == rows.Live() - {id};
    assert stored - {id} + Tombstoned(rows, id).Live() == all - {id};
    assert id in all;
  }

  lemma {:induction false} TombstoneAccounted(rows: Rows, stored: set<Id>, id: Id)
    requires Accounted(rows, stored)
    ensures Accounted(Tombstoned(rows, id), stored - {id})
  {
    if id in rows.Live() {
      TombstoneLive(rows, stored, id);
    } else {
      assert Tombstoned(rows, id).tombstones == rows.tombstones;
      SubsetCount(stored - {id} + rows.Live(), stored + rows.Live());
    }
  }

  /** Hiding an id that is not live changes no row, tombstone or graph entry. */
  lemma {:induction false} HiddenAlready(rows: Rows, id: Id)
    ensures id !in rows.Live() ==> Tombstoned(rows, id).tombstones == rows.tombstones
  {
  }

  /** When the counts agree, everything stored is in memory and the index knows no other live id. */
  lemma {:induction false} GuardMeansAllInMemory(rows: Rows, inMemory: set<Id>, stored: set<Id>)
    requires Accounted(rows, stored) && inMemory <= stored
    requires |inMemory| == |rows.idMap| - |rows.tombstones|
    ensures stored == inMemory && rows.Live() <= inMemory
  {
    SubsetOfSameSize(inMemory, stored + rows.Live());
  }

  // ---- The cache ----

  /** Every entry is what the index would answer now. */
  ghost predicate Sound(b: Backend, rows: Rows, efSearch: nat, cache: seq<Cached>) {
    forall entry :: entry in cache ==> Answer(b, rows, efSearch, entry.query, entry.k) == Ok(entry.results)
  }

  /** A cached answer that lists a tombstoned id is no longer what the index answers. */
  lemma {:induction false} TombstoneMakesStale(
      b: Backend, rows: Rows, efSearch: nat, entry: Cached, id: Id, i: nat)
    requires id in rows.RowIds() && i < |entry.results| && entry.results[i].0 == id
    ensures !Sound(b, Tombstoned(rows, id), efSearch, [entry])
  {
    var after := Tombstoned(rows, id);
    if Answer(b, after, efSearch, entry.query, entry.k) == Ok(entry.results) {
      AnswerIsLive(b, after, efSearch, entry.query, entry.k, i);
      assert false;
    }
    assert entry in [entry];
  }

  /**
   * On an index in step with its contents, an answer given before an id was hidden is still a right
   * one, ties apart, exactly when it does not list the id.
   */
  lemma {:induction false} TombstoneMakesStaleIff(
      b: Backend, rows: Rows, contents: map<Id, Vector>, efSearch: nat, query: Vector, k: nat, id: Id)
    requires Exact(b) && Holds(b, rows, contents) && id in contents && b.prepare(query).Some?
    ensures Answer(b, rows, efSearch, query, k).Ok? && Holds(b, Tombstoned(rows, id), contents - {id})
    ensures IsTop(
              Answer(b, rows, efSearch, query, k).value,
              DistancesTo(b, contents - {id}, b.prepare(query).value), k, false)
       <==> id !in IdsOf(Answer(b, rows, efSearch, query, k).value)
  {
    SearchIsExact(b, rows, contents, efSearch, query, k);
    RemoveHolds(b, rows, contents, id);
    var distances := DistancesTo(b, contents, b.prepare(query).value);
    HeldAreMeasured(b, rows, contents, b.prepare(query).value, id);
    TopWithoutIff(Answer(b, rows, efSearch, query, k).value, distances, k, false, id);
  }

  lemma {:induction false} HeldAreMeasured(
      b: Backend, rows: Rows, contents: map<Id, Vector>, prepared: Vector, id: Id)
    requires Holds(b, rows, contents) && id in contents
    ensures id in DistancesTo(b, contents, prepared)
    ensures DistancesTo(b, contents - {id}, prepared) == DistancesTo(b, contents, prepared) - {id}
  {
    assert id in rows.Live();
    var row := RowOf(rows.idMap, id);
    assert rows.idMap[row] in contents;
  }

  // ---- The collection ----

  function Vectors(points: map<Id, Point>): map<Id, Vector> {
    map id | id in points :: points[id].vector
  }

  /** The distances a scan of the points computes. */
  function ScanDistances(points: map<Id, Point>, between: (Vector, Vector) -> real, query: Vector): map<Id, real> {
    map id | id in points :: between(query, points[id].vector)
  }

  lemma {:induction false} ScanCount(points: map<Id, Point>, between: (Vector, Vector) -> real, query: Vector)
    ensures |ScanDistances(points, between, query)| == |points|
  {
    assert ScanDistances(points, between, query).Keys == points.Keys;
    assert |ScanDistances(points, between, query)| == |ScanDistances(points, between, query).Keys| == |points.Keys|;
  }

  /** An exact index that is asked for k answers with that many, or with all it has. */
  lemma {:induction false} AnswerCount(b: Backend, rows: Rows, efSearch: nat, query: Vector, k: nat)
    requires Exact(b) && rows.Fresh() && Answer(b, rows, efSearch, query, k).Ok?
    ensures |Answer(b, rows, efSearch, query, k).value| == Min(k, |rows.Live()|)
  {
    OverFetchIsExact(b, rows, efSearch, query, k);
    var live := Distances(b, rows, b.prepare(query).value) - rows.tombstones;
    assert live.Keys == rows.Live();
    assert |live| == |live.Keys|;
  }

  /** Only points in memory match. */
  lemma {:induction false} MatchesInMemory(
      points: map<Id, Point>, words: string -> seq<Term>, terms: seq<Term>, ln: real -> real)
    ensures |ResultScores(Texts(points, words), (set t | t in terms), ln)| <= |points|
  {
    var scores := ResultScores(Texts(points, words), (set t | t in terms), ln);
    assert scores.Keys <= points.Keys;
    SubsetCount(scores.Keys, points.Keys);
    assert |scores| == |scores.Keys| && |points| == |points.Keys|;
  }

  /** Scores a listing of points by their distance to the query. */
  method Score(list: seq<Point>, query: Vector, between: (Vector, Vector) -> real, ghost points: map<Id, Point>)
    returns (scored: seq<Scored>)
    requires ListsPoints(list, points)
    ensures Lists(scored, ScanDistances(points, between, query))
  {
    scored := [];
    for i := 0 to |list|
      invariant |scored| == i
      invariant forall j :: 0 <= j < i ==> scored[j] == (list[j].id, between(query, list[j].vector))
    {
      scored := scored + [(list[i].id, between(query, list[i].vector))];
    }
    ScoredIds(list, scored);
  }

  lemma {:induction false} ScoredIds(list: seq<Point>, scored: seq<Scored>)
    requires |scored| == |list| && forall j :: 0 <= j < |list| ==> scored[j].0 == list[j].id
    ensures IdsOf(scored) == Graph.PointIds(list)
  {
    forall id | id in IdsOf(scored)
      ensures id in Graph.PointIds(list)
    {
      var j :| 0 <= j < |scored| && scored[j].0 == id;
      assert list[j] in list;
    }
    forall id | id in Graph.PointIds(list)
      ensures id in IdsOf(scored)
    {
      var p :| p in list && p.id == id;
      var j :| 0 <= j < |list| && list[j] == p;
      assert scored[j].0 in IdsOf(scored);
    }
  }

  /** A scan and a graph search rank alike: the one distance is an increasing function of the other. */
  ghost predicate SameRanking(b: Backend, between: (Vector, Vector) -> real, f: real -> real) {
    && Increasing(f)
    && forall q, v :: b.prepare(q).Some? && b.prepare(v).Some? ==>
                        b.distance(b.prepare(q).value, b.prepare(v).value) == f(between(q, v))
  }

  /**
   * On an index in step with the points, the scan and an exact graph search differ in ties only: at every
   * place the one shows the distance of the other, on its own scale.
   */
  lemma {:induction false} BothBranchesAgree(
      b: Backend, between: (Vector, Vector) -> real, f: real -> real, rows: Rows, points: map<Id, Point>,
      efSearch: nat, query: Vector, k: nat, scan: seq<Scored>)
    requires Exact(b) && SameRanking(b, between, f) && b.prepare(query).Some?
    requires Holds(b, rows, Vectors(points)) && IsTop(scan, ScanDistances(points, between, query), k, false)
    ensures var answer := Answer(b, rows, efSearch, query, k);
            && answer.Ok? && |answer.value| == |scan|
            && forall i :: 0 <= i < |scan| ==> answer.value[i].1 == f(scan[i].1)
  {
    SearchIsExact(b, rows, Vectors(points), efSearch, query, k);
    HeldScan(b, between, f, rows, points, query);
    var distances := DistancesTo(b, Vectors(points), b.prepare(query).value);
    RescaledTop(scan, ScanDistances(points, between, query), distances, k, f);
    TopIsUnique(Answer(b, rows, efSearch, query, k).value, Rescaled(scan, f), distances, k, false);
  }

  lemma {:induction false} HeldScan(
      b: Backend, between: (Vector, Vector) -> real, f: real -> real, rows: Rows, points: map<Id, Point>,
      query: Vector)
    requires SameRanking(b, between, f) && b.prepare(query).Some? && Holds(b, rows, Vectors(points))
    ensures var distances := DistancesTo(b, Vectors(points), b.prepare(query).value);
            && distances.Keys == ScanDistances(points, between, query).Keys
            && forall id :: id in distances ==> distances[id] == f(ScanDistances(points, between, query)[id])
  {
    forall id | id in points
      ensures b.prepare(points[id].vector).Some?
    {
      assert id in rows.Live();
      var row := RowOf(rows.idMap, id);
      assert rows.idMap[row] in Vectors(points);
    }
  }

  /** The points within some hops of a centre. */
  ghost function Within(points: map<Id, Point>, center: Id, hops: nat): map<Id, Point> {
    map id | id in points && id in Graph.Ball(points, center, hops) :: points[id]
  }

  lemma {:induction false} BfsLists(points: map<Id, Point>, center: Id, hops: nat, list: seq<Point>)
    requires center in points && Graph.IsBfs(points, center, hops, list)
    ensures ListsPoints(list, Within(points, center, hops))
  {
    Graph.BallIsPresent(points, center, hops);
    assert Within(points, center, hops).Keys == Graph.Ball(points, center, hops);
  }

  /** What `insert` accepts. */
  function Acceptance(b: Backend, dimension: nat): Point -> bool {
    (p: Point) => |p.vector| == dimension && b.prepare(p.vector).Some?
  }

  /** Replay of a delete takes the id out, present or not. */
  lemma {:induction false} DeleteRemoves(points: map<Id, Point>, id: Id, accepts: Point -> bool)
    ensures WalReplay.Apply(points, WalReplay.Delete(id), accepts) == points - {id}
    ensures id !in points ==> points - {id} == points
  {
  }

  lemma {:induction false} InsertHolds(b: Backend, rows: Rows, points: map<Id, Point>, p: Point)
    requires Holds(b, rows, Vectors(points)) && p.id !in rows.RowIds() && b.prepare(p.vector).Some?
    ensures Holds(b, Added(b, rows, p.id, p.vector), Vectors(points[p.id := p]))
  {
    AddHolds(b, rows, Vectors(points), p.id, p.vector);
    assert Vectors(points[p.id := p]) == Vectors(points)[p.id := p.vector];
  }

  // ---- The keyword index ----

  /** The words of the points in memory that have any. */
  ghost function Texts(points: map<Id, Point>, words: string -> seq<Term>): map<Id, seq<Term>> {
    map id | id in points && words(points[id].metadata) != [] :: words(points[id].metadata)
  }

  lemma {:induction false} TextsOfKept(points: map<Id, Point>, words: string -> seq<Term>, p: Point)
    ensures Texts(points[p.id := p], words) ==
            if words(p.metadata) == [] then Texts(points, words) - {p.id}
            else Texts(points, words)[p.id := words(p.metadata)]
  {
  }

  lemma {:induction false} TextsOfDropped(points: map<Id, Point>, words: string -> seq<Term>, id: Id)
    ensures Texts(points - {id}, words) == Texts(points, words) - {id}
  {
  }

  lemma {:induction false} TextsOfLinked(
      points: map<Id, Point>, words: string -> seq<Term>, from: Id, to: Id, left: Point, right: Point)
    requires from in points && to in points
    requires left.metadata == points[from].metadata && right.metadata == points[to].metadata && from != to
    ensures Texts(points[from := left][to := right], words) == Texts(points, words)
  {
  }

  class Collection {
    const dimension: nat
    const capacity: nat
    const between: (Vector, Vector) -> real
    const words: string -> seq<Term>
    const keywords: BM25Index?
    var points: map<Id, Point>
    var index: HnswIndex
    var cache: seq<Cached>
    var dirty: bool
    /** The ids of the collection in any tier; those not in `points` have been moved out of memory. */
    ghost var stored: set<Id>

    constructor (
        dimension: nat, capacity: nat, between: (Vector, Vector) -> real, words: string -> seq<Term>, keywords: bool,
        backend: Backend, efSearch: nat)
      ensures Valid() && CacheSound() && fresh(index) && (this.keywords != null ==> fresh(this.keywords))
      ensures this.dimension == dimension && this.between == between && this.words == words
      ensures (this.keywords != null) == keywords
      ensures points == map[] && stored == {} && index.backend == backend && index.efSearch == efSearch
    {
      this.dimension, this.capacity, this.between, this.words := dimension, capacity, between, words;
      points, cache, dirty, stored := map[], [], false, {};
      index := new HnswIndex(backend, efSearch);
      if keywords {
        var k := new BM25Index();
        this.keywords := k;
      } else {
        this.keywords := null;
      }
    }

    ghost predicate Consistent()
      reads this, index
    {
      index.Valid() && WellKeyed(points) && points.Keys <= stored
    }

    /** The keyword index has the words of exactly the points in memory. */
    ghost predicate KeywordsInStep()
      reads this, keywords
    {
      keywords != null ==> keywords.Valid() && keywords.texts == Texts(points, words)
    }

    ghost predicate Valid()
      reads this, index, keywords
    {
      Consistent() && KeywordsInStep() && Accounted(index.Contents(), stored)
    }

    ghost predicate CacheSound()
      reads this, index
    {
      Sound(index.backend, index.Contents(), index.efSearch, cache)
    }

    /** The index holds the points of the collection, each with its current vector. */
    ghost predicate InStep()
      reads this, index
    {
      Holds(index.backend, index.Contents(), Vectors(points))
    }

    /** What every change of the points ends with. */
    method InvalidateSearchCache()
      modifies `cache, `dirty
      ensures cache == [] && dirty
    {
      cache, dirty := [], true;
    }

    /** Replaces or adds the point. A vector the metric refuses has taken an index row by then. */
    method Insert(p: Point) returns (error: Option<Error>)
      requires Valid()
      modifies `points, `cache, `dirty, `stored, keywords, index`idMap, index`reverseMap, index`graph
      ensures Valid()
      ensures |p.vector| != dimension ==>
                && error == Some(DimensionMismatch) && points == old(points) && stored == old(stored)
                && index.Contents() == old(index.Contents()) && cache == old(cache)
      ensures |p.vector| == dimension ==>
                && index.Contents() == Added(index.backend, old(index.Contents()), p.id, p.vector)
                && (error.None? <==> index.backend.prepare(p.vector).Some?)
      ensures error.None? ==>
                points == old(points)[p.id := p] && stored == old(stored) + {p.id} && CacheSound() && dirty
      ensures error.Some? ==> points == old(points) && stored == old(stored)
      ensures points == WalReplay.Apply(old(points), WalReplay.Upsert(p), Acceptance(index.backend, dimension))
    {
      if |p.vector| != dimension {
        return Some(DimensionMismatch);
      }
      AddAccounted(index.backend, index.Contents(), stored, p.id, p.vector);
      error := index.AddPoint(p);
      if error.None? {
        Keep(p);
      }
    }

    /** The part of `insert` after the index has taken the point. */
    method Keep(p: Point)
      requires Consistent() && KeywordsInStep() && Accounted(index.Contents(), stored + {p.id})
      modifies `points, `cache, `dirty, `stored, keywords
      ensures Valid() && points == old(points)[p.id := p] && stored == old(stored) + {p.id} && CacheSound() && dirty
    {
      if keywords != null {
        IndexWords(keywords, p);
      }
      points := points[p.id := p];
      stored := stored + {p.id};
      InvalidateSearchCache();
    }

    method IndexWords(keywords: BM25Index, p: Point)
      requires keywords.Valid() && keywords.texts == Texts(points, words)
      modifies keywords
      ensures keywords.Valid() && keywords.texts == Texts(points[p.id := p], words)
    {
      TextsOfKept(points, words, p);
      keywords.IndexDocument(p.id, words(p.metadata));
    }

    method Remove(id: Id) returns (error: Option<Error>)
      requires Valid()
      modifies `points, `cache, `dirty, `stored, keywords, index`tombstones
      ensures Valid() && error == if id in old(points) then None else Some(PointNotFound(id))
      ensures points == WalReplay.Apply(old(points), WalReplay.Delete(id), Acceptance(index.backend, dimension))
      ensures error.None? ==>
                && index.Contents() == Tombstoned(old(index.Contents()), id) && stored == old(stored) - {id}
                && CacheSound() && dirty
      ensures error.Some? ==>
                index.Contents() == old(index.Contents()) && stored == old(stored) && cache == old(cache)
    {
      DeleteRemoves(points, id, Acceptance(index.backend, dimension));
      if id !in points {
        return Some(PointNotFound(id));
      }
      RemovePresent(id);
      error := None;
    }

    method RemovePresent(id: Id)
      requires Valid() && id in points
      modifies `points, `cache, `dirty, `stored, keywords, index`tombstones
      ensures Valid() && points == old(points) - {id} && CacheSound() && dirty
      ensures index.Contents() == Tombstoned(old(index.Contents()), id) && stored == old(stored) - {id}
    {
      TombstoneAccounted(index.Contents(), stored, id);
      Drop(id);
      Forget(id);
    }

    /** The part of `remove` that concerns the index. */
    method Forget(id: Id)
      requires Consistent() && KeywordsInStep() && id !in points && cache == []
      requires Accounted(Tombstoned(index.Contents(), id), stored - {id})
      modifies `stored, index`tombstones
      ensures Valid() && index.Contents() == Tombstoned(old(index.Contents()), id) && stored == old(stored) - {id}
      ensures CacheSound()
    {
      index.RemovePoint(id);
      stored := stored - {id};
    }

    /** The part of `remove` and of a demotion that does not concern the index. */
    method Drop(id: Id)
      requires Consistent() && KeywordsInStep()
      modifies `points, `cache, `dirty, keywords
      ensures Consistent() && KeywordsInStep() && points == old(points) - {id} && cache == [] && dirty
    {
      TextsOfDropped(points, words, id);
      points := points - {id};
      if keywords != null {
        keywords.RemoveDocument(id);
      }
      InvalidateSearchCache();
    }

    /** Demotion: the data leaves memory, the index keeps answering with the id. */
    method RemoveDataOnly(id: Id) returns (p: Option<Point>)
      requires Valid()
      modifies `points, `cache, `dirty, keywords
      ensures Valid() && points == old(points) - {id} && index.Contents() == old(index.Contents())
      ensures p == if id in old(points) then Some(old(points)[id]) else None
      ensures p.Some? ==> CacheSound() && dirty
      ensures p.None? ==> cache == old(cache)
    {
      if id !in points {
        assert points == points - {id};
        return None;
      }
      p := Some(points[id]);
      Drop(id);
    }

    /**
     * Promotion hides the old row before it inserts the point again. The cache is left alone: only
     * the insert that follows clears it. Until then the id, if it was live, is missing from the accounts.
     */
    method TombstoneInIndex(id: Id)
      requires Valid()
      modifies index`tombstones
      ensures Consistent() && KeywordsInStep() && Accounted(index.Contents(), stored - {id})
      ensures index.Contents() == Tombstoned(old(index.Contents()), id)
      ensures id !in old(index.Contents().Live()) ==> Valid()
    {
      TombstoneAccounted(index.Contents(), stored, id);
      HiddenAlready(index.Contents(), id);
      index.RemovePoint(id);
    }

    /**
     * A promotion of a point that is stored in a colder tier, as the collection sees it. The point is
     * back in memory and in the keyword index, but an id the index knew before is hidden from it from
     * now on. A point that `insert` refuses stays where it is; if its dimension is wrong and its id was
     * live, the counts of the guard do not cover it any more.
     */
    method Promote(p: Point) returns (error: Option<Error>)
      requires Valid() && p.id !in points && p.id in stored
      modifies `points, `cache, `dirty, keywords, `stored, index`idMap, index`reverseMap, index`graph, index`tombstones
      ensures stored == old(stored) && Consistent() && KeywordsInStep()
      ensures |p.vector| == dimension || p.id !in old(index.Contents().Live()) ==> Valid()
      ensures error.None? <==> Acceptance(index.backend, dimension)(p)
      ensures points == if error.None? then old(points)[p.id := p] else old(points)
      ensures error.None? ==> CacheSound() && dirty
      ensures var hidden := Tombstoned(old(index.Contents()), p.id);
              index.Contents() ==
              if |p.vector| == dimension then Added(index.backend, hidden, p.id, p.vector) else hidden
      ensures p.id in old(index.Contents().RowIds()) ==> p.id !in index.Contents().Live()
    {
      TombstoneInIndex(p.id);
      if |p.vector| != dimension {
        return Some(DimensionMismatch);
      }
      error := InsertStored(p);
    }

    /** The insertion of a point that is stored already, but that the accounts miss. */
    method InsertStored(p: Point) returns (error: Option<Error>)
      requires Consistent() && KeywordsInStep() && Accounted(index.Contents(), stored - {p.id}) && p.id in stored
      modifies `points, `cache, `dirty, keywords, `stored, index`idMap, index`reverseMap, index`graph
      ensures Valid() && stored == old(stored)
      ensures index.Contents() == Added(index.backend, old(index.Contents()), p.id, p.vector)
      ensures error.None? <==> index.backend.prepare(p.vector).Some?
      ensures points == if error.None? then old(points)[p.id := p] else old(points)
      ensures error.None? ==> CacheSound() && dirty
    {
      AddAccounted(index.backend, index.Contents(), stored - {p.id}, p.id, p.vector);
      assert stored - {p.id} + {p.id} == stored == stored + {p.id};
      error := index.AddPoint(p);
      if error.None? {
        Keep(p);
      }
    }

    /** Both ends gain the other, once; the index is not involved. */
    method AddRelation(from: Id, to: Id) returns (error: Option<Error>)
      requires Valid()
      modifies `points, `cache, `dirty
      ensures Valid() && index.Contents() == old(index.Contents())
      ensures points == WalReplay.Apply(old(points), WalReplay.Link(from, to), Acceptance(index.backend, dimension))
      ensures error == (if from == to then Some(InvalidPointId)
                        else if from !in old(points) then Some(PointNotFound(from))
                        else if to !in old(points) then Some(PointNotFound(to)) else None)
      ensures error.None? && from.text != "" && to.text != "" ==>
                to in Graph.Ball(points, from, 1) && from in Graph.Ball(points, to, 1)
      ensures error.None? ==> CacheSound() && dirty
      ensures error.Some? ==> cache == old(cache)
    {
      if from == to {
        return Some(InvalidPointId);
      }
      if from !in points {
        return Some(PointNotFound(from));
      }
      if to !in points {
        return Some(PointNotFound(to));
      }
      ghost var linked := WalReplay.AddRelation(points, from, to).value;
      if from.text != "" && to.text != "" {
        Graph.LinkedWithinOneHop(points, from, to);
      }
      ReplacePair(from, to, WalReplay.WithRelation(points[from], to), WalReplay.WithRelation(points[to], from));
      assert points == linked;
      error := None;
    }

    /** Two points replaced by ones that differ in their relations only. */
    method ReplacePair(from: Id, to: Id, left: Point, right: Point)
      requires Valid() && from != to && from in points && to in points
      requires left == points[from].(relations := left.relations) && right == points[to].(relations := right.relations)
      modifies `points, `cache, `dirty
      ensures Valid() && points == old(points)[from := left][to := right] && CacheSound() && dirty
    {
      TextsOfLinked(points, words, from, to, left, right);
      points := points[from := left][to := right];
      InvalidateSearchCache();
    }

    // ---- Searching ----

    /** Few points, and as many as the index has live rows. */
    predicate Guard()
      reads this, index
    {
      |points| <= BRUTE_FORCE_THRESHOLD && |points| == Max(0, index.IndexIdCount() - index.TombstoneCount())
    }

    /** The exact scan. */
    method Scan(query: Vector, k: nat) returns (out: seq<Scored>)
      requires WellKeyed(points)
      ensures IsTop(out, ScanDistances(points, between, query), k, false)
    {
      var list := ListPoints(points);
      var scored := Score(list, query, between, points);
      out := TakeTop(scored, ScanDistances(points, between, query), k, false);
    }

    /** Answers from the cache, or from the index and into the cache. */
    method SearchIndex(query: Vector, k: nat) returns (r: Result<seq<Scored>, Error>)
      requires Valid() && CacheSound()
      modifies `cache
      ensures Valid() && CacheSound() && (old(|cache|) <= capacity ==> |cache| <= capacity)
      ensures r == index.Search(query, k)
      ensures old(|cache|) <= capacity ==>
                cache == if r.Ok? && capacity > 0 then Served(old(cache), Cached(query, k, r.value), capacity)
                         else old(cache)
    {
      var i := Find(cache, query, k, 0);
      if i < |cache| {
        assert cache[i] in cache;
        r := Ok(cache[i].results);
        TouchedKeeps(cache, i);
        cache := Touched(cache, i);
        return;
      }
      r := index.Search(query, k);
      if r.Ok? && capacity > 0 {
        PutKeeps(cache, Cached(query, k, r.value), capacity);
        cache := Put(cache, Cached(query, k, r.value), capacity);
      }
    }

    /**
     * Under the guard nothing is stored outside memory and the answer is the true best k of every
     * stored point. Otherwise it is the index's answer of this moment, cached or not.
     */
    method Search(query: Vector, k: nat) returns (r: Result<seq<Scored>, Error>)
      requires Valid() && CacheSound()
      modifies `cache
      ensures Valid() && CacheSound()
      ensures Searched(query, k, r)
      ensures |query| == dimension && Guard() ==> stored == points.Keys && index.Contents().Live() <= stored
    {
      if |query| != dimension {
        return Err(DimensionMismatch);
      }
      if Guard() {
        AllInMemory();
        var out := Scan(query, k);
        return Ok(out);
      }
      r := SearchIndex(query, k);
    }

    /** The guard counts right. */
    lemma {:induction false} AllInMemory()
      requires Valid() && Guard()
      ensures stored == points.Keys && index.Contents().Live() <= stored
    {
      GuardMeansAllInMemory(index.Contents(), points.Keys, stored);
    }

    /** The k points nearest to the query among those within `hops` relations of the centre. */
    method SearchConnected(query: Vector, center: Id, hops: nat, k: nat) returns (r: Result<seq<Scored>, Error>)
      requires Consistent()
      ensures |query| != dimension ==> r == Err(DimensionMismatch)
      ensures |query| == dimension && center.text == "" ==> r == Err(InvalidPointId)
      ensures |query| == dimension && center.text != "" && center !in points ==> r == Err(PointNotFound(center))
      ensures |query| == dimension && center.text != "" && center in points ==>
                r.Ok? && IsTop(r.value, ScanDistances(Within(points, center, hops), between, query), k, false)
    {
      if |query| != dimension {
        return Err(DimensionMismatch);
      }
      var found := Graph.TraverseBfs(points, center, hops);
      match found
      case Err(error) =>
        r := Err(error);
      case Ok(list) =>
        BfsLists(points, center, hops, list);
        var scored := Score(list, query, between, Within(points, center, hops));
        var out := TakeTop(scored, ScanDistances(Within(points, center, hops), between, query), k, false);
        r := Ok(out);
    }

    /**
     * The two lists a hybrid query fuses: the vector search, and the best keyword matches among the
     * points in memory, whatever was inserted, replaced or removed before.
     */
    method HybridLists(query: Vector, terms: seq<Term>, limit: nat, ln: real -> real)
      returns (r: Result<(seq<Scored>, seq<Scored>), Error>)
      requires Valid() && CacheSound() && LnLaw(ln)
      modifies `cache
      ensures Valid() && CacheSound()
      ensures |query| != dimension ==> r == Err(DimensionMismatch)
      ensures |query| == dimension && keywords == null ==> r == Err(Storage("hybrid search requires BM25"))
      ensures |query| == dimension && keywords != null && r.Err? ==> Searched(query, Expanded(limit), Err(r.error))
      ensures r.Ok? ==>
                && Searched(query, Expanded(limit), Ok(r.value.0))
                && IsTop(r.value.1, ResultScores(Texts(points, words), (set t | t in terms), ln), Expanded(limit), true)
      ensures r.Ok? ==> NearEnough(limit, |r.value.0|)
      ensures r.Ok? ==>
                |r.value.1| >= Min(limit, |ResultScores(Texts(points, words), (set t | t in terms), ln)|)
    {
      if |query| != dimension {
        return Err(DimensionMismatch);
      }
      if keywords == null {
        return Err(Storage("hybrid search requires BM25"));
      }
      var near := Search(query, Expanded(limit));
      if near.Err? {
        return Err(near.error);
      }
      var matching := KeywordSearch(terms, limit, ln);
      r := Ok((near.value, matching));
      NearCount(query, limit, near);
    }

    /** As many results as asked for, or all there are; the graph may show fewer only where it is not exact. */
    ghost predicate NearEnough(limit: nat, count: nat)
      reads this, index
    {
      && (Guard() ==> count >= Min(limit, |points|))
      && (!Guard() && Exact(index.backend) && index.Contents().Fresh() ==>
            count >= Min(limit, Min(|points|, |index.Contents().Live()|)))
    }

    lemma {:induction false} NearCount(query: Vector, limit: nat, r: Result<seq<Scored>, Error>)
      requires r.Ok? && Searched(query, Expanded(limit), r)
      ensures NearEnough(limit, |r.value|)
    {
      if Guard() {
        ScanCount(points, between, query);
      } else if Exact(index.backend) && index.Contents().Fresh() {
        AnswerCount(index.backend, index.Contents(), index.efSearch, query, Expanded(limit));
      }
    }

    /** The best keyword matches among the points in memory. */
    method KeywordSearch(terms: seq<Term>, limit: nat, ln: real -> real) returns (out: seq<Scored>)
      requires Valid() && keywords != null && LnLaw(ln)
      ensures IsTop(out, ResultScores(Texts(points, words), (set t | t in terms), ln), Expanded(limit), true)
      ensures |out| >= Min(limit, |ResultScores(Texts(points, words), (set t | t in terms), ln)|)
    {
      out := keywords.Search(terms, Expanded(limit), ln);
      MatchesInMemory(points, words, terms, ln);
    }

    /** What a vector search answers. */
    ghost predicate Searched(query: Vector, k: nat, r: Result<seq<Scored>, Error>)
      reads this, index
    {
      if |query| != dimension then r == Err(DimensionMismatch)
      else if Guard() then r.Ok? && IsTop(r.value, ScanDistances(points, between, query), k, false)
      else r == index.Search(query, k)
    }

    /** How many results a hybrid query asks of either list. */
    function Expanded(limit: nat): nat
      reads this
    {
      Min(Max(limit * 3, 50), Max(|points|, 1))
    }

    // ---- Background rebuild ----

    method PointsSnapshot() returns (list: seq<Point>, ids: set<Id>)
      requires Consistent()
      ensures ListsPoints(list, points) && ids == points.Keys
    {
      list := ListPoints(points);
      ids := points.Keys;
    }

    method SwapIndex(newIndex: HnswIndex)
      requires Consistent() && newIndex.Valid()
      modifies `index, `cache, `dirty
      ensures index == newIndex && Consistent() && CacheSound() && dirty
      ensures points == old(points)
      ensures old(KeywordsInStep()) && Accounted(newIndex.Contents(), stored) ==> Valid()
    {
      index := newIndex;
      InvalidateSearchCache();
    }
  }
}
