/** `HnswIndex`: build, add, remove and the two searches over the rows (`search.rs`). */
module Hnsw {
  import opened Base
  import opened Ranking
  import opened IndexRows

  const MAX_ROUNDS := 20
  const PARALLEL_THRESHOLD := 100

  // ---- What the operations do to the rows ----

  /** A refused vector still takes a row and an id; only the graph goes without it. */
  function Added(b: Backend, rows: Rows, id: Id, vector: Vector): Rows {
    rows.(
      idMap := rows.idMap + [id],
      graph := match b.prepare(vector) case None => rows.graph case Some(v) => rows.graph[|rows.idMap| := v])
  }

  function Tombstoned(rows: Rows, id: Id): Rows {
    if id in rows.RowIds() then rows.(tombstones := rows.tombstones + {id}) else rows
  }

  function Built(b: Backend, points: seq<Point>): Rows {
    if points == [] then Rows([], {}, map[])
    else
      var last := points[|points| - 1];
      Added(b, Built(b, points[..|points| - 1]), last.id, last.vector)
  }

  // ---- What a fresh index holds ----

  /** The live rows are exactly `contents`, each with its prepared vector. */
  ghost predicate Holds(b: Backend, rows: Rows, contents: map<Id, Vector>) {
    && rows.Fresh() && rows.Live() == contents.Keys
    && forall row :: 0 <= row < |rows.idMap| && rows.idMap[row] in contents ==>
         b.prepare(contents[rows.idMap[row]]) == Some(rows.graph[row])
  }

  lemma {:induction false} AddKeepsFresh(b: Backend, rows: Rows, id: Id, vector: Vector)
    requires rows.Fresh() && id !in rows.RowIds() && b.prepare(vector).Some?
    ensures Added(b, rows, id, vector).Fresh()
    ensures Added(b, rows, id, vector).Live() == rows.Live() + {id}
  {
    var after := Added(b, rows, id, vector);
    assert after.idMap[..|rows.idMap|] == rows.idMap;
    IdSetAppend(rows.idMap, id);
  }

  lemma {:induction false} AddHolds(b: Backend, rows: Rows, contents: map<Id, Vector>, id: Id, vector: Vector)
    requires Holds(b, rows, contents) && id !in rows.RowIds() && b.prepare(vector).Some?
    ensures Holds(b, Added(b, rows, id, vector), contents[id := vector])
  {
    AddKeepsFresh(b, rows, id, vector);
    var after := Added(b, rows, id, vector);
    forall row | 0 <= row < |after.idMap| && after.idMap[row] in contents[id := vector]
      ensures b.prepare(contents[id := vector][after.idMap[row]]) == Some(after.graph[row])
    {
      if row < |rows.idMap| {
        IdSetMember(rows.idMap, rows.idMap[row]);
      }
    }
  }

  lemma {:induction false} RemoveHolds(b: Backend, rows: Rows, contents: map<Id, Vector>, id: Id)
    requires Holds(b, rows, contents)
    ensures Holds(b, Tombstoned(rows, id), contents - {id})
  {
    if id in rows.RowIds() {
      assert Tombstoned(rows, id).Live() == rows.Live() - {id};
    } else {
      assert id !in rows.Live();
      assert contents - {id} == contents;
    }
  }

  function VectorsOf(points: seq<Point>): map<Id, Vector> {
    if points == [] then map[]
    else VectorsOf(points[..|points| - 1])[points[|points| - 1].id := points[|points| - 1].vector]
  }

  ghost predicate DistinctPoints(points: seq<Point>) {
    if points == [] then true
    else
      var init := points[..|points| - 1];
      DistinctPoints(init) && points[|points| - 1].id !in VectorsOf(init)
  }

  ghost predicate AllPrepared(b: Backend, points: seq<Point>) {
    forall i :: 0 <= i < |points| ==> b.prepare(points[i].vector).Some?
  }

  lemma {:induction false} BuiltHolds(b: Backend, points: seq<Point>)
    requires DistinctPoints(points) && AllPrepared(b, points)
    ensures Holds(b, Built(b, points), VectorsOf(points)) && Built(b, points).tombstones == {}
  {
    if points != [] {
      var init, last := points[..|points| - 1], points[|points| - 1];
      BuiltHolds(b, init);
      var before := Built(b, init);
      assert before.Live() == before.RowIds();
      AddHolds(b, before, VectorsOf(init), last.id, last.vector);
    } else {
      assert Built(b, points).Live() == {};
    }
  }

  // ---- Whole runs ----

  datatype Change = Add(point: Point) | Remove(id: Id)

  function Run(b: Backend, rows: Rows, changes: seq<Change>): Rows {
    if changes == [] then rows
    else
      var before := Run(b, rows, changes[..|changes| - 1]);
      match changes[|changes| - 1]
      case Add(p) => Added(b, before, p.id, p.vector)
      case Remove(id) => Tombstoned(before, id)
  }

  function Contents(start: map<Id, Vector>, changes: seq<Change>): map<Id, Vector> {
    if changes == [] then start
    else
      var before := Contents(start, changes[..|changes| - 1]);
      match changes[|changes| - 1]
      case Add(p) => before[p.id := p.vector]
      case Remove(id) => before - {id}
  }

  /** Every added point is new since the build, and its vector is accepted. */
  ghost predicate FreshRun(b: Backend, rows: Rows, changes: seq<Change>) {
    if changes == [] then true
    else
      var init, last := changes[..|changes| - 1], changes[|changes| - 1];
      && FreshRun(b, rows, init)
      && (last.Add? ==> last.point.id !in Run(b, rows, init).RowIds() && b.prepare(last.point.vector).Some?)
  }

  lemma {:induction false} RunHolds(b: Backend, rows: Rows, contents: map<Id, Vector>, changes: seq<Change>)
    requires Holds(b, rows, contents) && FreshRun(b, rows, changes)
    ensures Holds(b, Run(b, rows, changes), Contents(contents, changes))
  {
    if changes != [] {
      var init, last := changes[..|changes| - 1], changes[|changes| - 1];
      RunHolds(b, rows, contents, init);
      match last {
        case Add(p) => AddHolds(b, Run(b, rows, init), Contents(contents, init), p.id, p.vector);
        case Remove(id) => RemoveHolds(b, Run(b, rows, init), Contents(contents, init), id);
      }
    }
  }

  ghost function DistancesTo(b: Backend, contents: map<Id, Vector>, prepared: Vector): map<Id, real> {
    map id | id in contents && b.prepare(contents[id]).Some? ::
      b.distance(prepared, b.prepare(contents[id]).value)
  }

  lemma {:induction false} HeldDistances(b: Backend, rows: Rows, contents: map<Id, Vector>, prepared: Vector)
    requires Holds(b, rows, contents)
    ensures Distances(b, rows, prepared) - rows.tombstones == DistancesTo(b, contents, prepared)
  {
    var left, right := Distances(b, rows, prepared) - rows.tombstones, DistancesTo(b, contents, prepared);
    assert left.Keys == rows.Live();
    forall id | id in contents
      ensures id in right && left[id] == right[id]
    {
      assert id in rows.Live();
      var row := RowOf(rows.idMap, id);
      assert b.prepare(contents[id]) == Some(rows.graph[row]);
    }
  }

  /** A search is the best k of what the index holds. */
  lemma {:induction false} SearchIsExact(
      b: Backend, rows: Rows, contents: map<Id, Vector>, efSearch: nat, query: Vector, k: nat)
    requires Exact(b) && Holds(b, rows, contents) && b.prepare(query).Some?
    ensures Answer(b, rows, efSearch, query, k).Ok?
    ensures IsTop(
      Answer(b, rows, efSearch, query, k).value, DistancesTo(b, contents, b.prepare(query).value), k, false)
  {
    OverFetchIsExact(b, rows, efSearch, query, k);
    HeldDistances(b, rows, contents, b.prepare(query).value);
  }

  /**
   * Over any run of removals and of additions that are new since the build, a search returns the
   * best k of the points that were added and not removed, by their own vectors.
   */
  lemma {:induction false} SearchAfterAnyRun(
      b: Backend, points: seq<Point>, changes: seq<Change>, efSearch: nat, query: Vector, k: nat)
    requires Exact(b) && b.prepare(query).Some?
    requires DistinctPoints(points) && AllPrepared(b, points) && FreshRun(b, Built(b, points), changes)
    ensures var answer := Answer(b, Run(b, Built(b, points), changes), efSearch, query, k);
            && answer.Ok?
            && IsTop(
                 answer.value,
                 DistancesTo(b, Contents(VectorsOf(points), changes), b.prepare(query).value), k, false)
  {
    BuiltHolds(b, points);
    RunHolds(b, Built(b, points), VectorsOf(points), changes);
    SearchIsExact(
      b, Run(b, Built(b, points), changes), Contents(VectorsOf(points), changes), efSearch, query, k);
  }

  /** A removal, then an addition of the same id: the point is stored but no search can find it. */
  lemma {:induction false} ReAddedStaysHidden(
      b: Backend, rows: Rows, p: Point, efSearch: nat, query: Vector, k: nat, i: nat)
    requires p.id in rows.RowIds()
    requires var answer := Answer(b, Added(b, Tombstoned(rows, p.id), p.id, p.vector), efSearch, query, k);
             answer.Ok? && i < |answer.value|
    ensures Answer(b, Added(b, Tombstoned(rows, p.id), p.id, p.vector), efSearch, query, k).value[i].0 != p.id
  {
    IdSetAppend(rows.idMap, p.id);
    AnswerIsLive(b, Added(b, Tombstoned(rows, p.id), p.id, p.vector), efSearch, query, k, i);
  }

  /**
   * Adding an id that is live already leaves its old row behind: from then on a search for
   * everything lists the id twice, once by the vector it no longer has.
   */
  lemma {:induction false} UpsertListsIdTwice(
      b: Backend, rows: Rows, id: Id, vector: Vector, efSearch: nat, query: Vector, k: nat)
    requires Exact(b) && rows.Valid() && (forall row :: 0 <= row < |rows.idMap| ==> row in rows.graph)
    requires id in rows.Live() && b.prepare(vector).Some? && b.prepare(query).Some? && k > |rows.idMap|
    ensures Answer(b, Added(b, rows, id, vector), efSearch, query, k).Ok?
    ensures !DistinctIds(Answer(b, Added(b, rows, id, vector), efSearch, query, k).value)
  {
    var after := Added(b, rows, id, vector);
    IdSetAppend(rows.idMap, id);
    ListedOnceIff(b, after, efSearch, query, k);
    var row := RowOf(rows.idMap, id);
    assert after.idMap[row] == after.idMap[|rows.idMap|] == id;
  }

  // ---- The filtered search ----

  /** The rows the filter callback lets through. */
  function Admitted(rows: Rows, admits: Id -> bool): set<nat> {
    set row | 0 <= row < |rows.idMap| && rows.idMap[row] !in rows.tombstones && admits(rows.idMap[row])
  }

  /** The beam width of each round. */
  function Beam(first: nat, n: nat, round: nat): nat {
    if round == 0 then first else Min(Beam(first, n, round - 1) * 2, n)
  }

  lemma {:induction false} BeamWidth(first: nat, n: nat, round: nat)
    requires 1 <= first <= n
    ensures Beam(first, n, round) == Min(Pow2(round) * first, n)
    ensures Beam(first, n, round) >= 1
  {
    if round > 0 {
      BeamWidth(first, n, round - 1);
      TwiceAsWide(Pow2(round - 1), first, n);
    }
  }

  lemma {:induction false} TwiceAsWide(width: nat, first: nat, n: nat)
    requires width >= 1 && first >= 1 && n >= 1
    ensures Min(Min(width * first, n) * 2, n) == Min(2 * width * first, n) >= 1
  {
    assert 2 * width * first == 2 * (width * first) && width * first >= 1;
  }

  lemma {:induction false} Pow2OfLastRound(n: nat)
    requires n == MAX_ROUNDS - 1
    ensures Pow2(n) == 524288
  {
    EightMoreBits(n - 8);
    EightMoreBits(n - 16);
    assert Pow2(n - 17) == 4;
  }

  /** The last round reaches the whole index exactly when n <= 2^19 times the first width. */
  lemma {:induction false} LastRoundReachesIff(first: nat, n: nat, last: nat)
    requires 1 <= first <= n && last == MAX_ROUNDS - 1
    ensures Beam(first, n, last) == n <==> n <= 524288 * first
  {
    BeamWidth(first, n, last);
    Pow2OfLastRound(last);
  }

  /** `out` names at most `wanted` distinct rows that the filter admits, each with its distance. */
  ghost predicate Matching(
      b: Backend, rows: Rows, prepared: Vector, admitted: set<nat>, wanted: nat, out: seq<Scored>)
  {
    exists found: seq<Neighbour> ::
      AdmittedRows(b, found, rows.graph, prepared, wanted, admitted) && out == Named(found, rows.idMap)
  }

  lemma {:induction false} MatchingCount(
      b: Backend, rows: Rows, prepared: Vector, admitted: set<nat>, wanted: nat, out: seq<Scored>)
    requires Matching(b, rows, prepared, admitted, wanted, out)
    ensures |out| <= wanted && |out| <= |admitted * rows.graph.Keys|
  {
    var found: seq<Neighbour> :| AdmittedRows(b, found, rows.graph, prepared, wanted, admitted) && out == Named(found, rows.idMap);
    NamedLength(found, rows.idMap);
    RowsInCount(found);
    RowsInSubset(found, admitted * rows.graph.Keys);
    SubsetCount(RowsIn(found), admitted * rows.graph.Keys);
  }

  lemma {:induction false} RoundMatches(
      b: Backend, rows: Rows, prepared: Vector, admitted: set<nat>, wanted: nat, ef: nat)
    requires Respectful(b) && rows.Valid()
    ensures var found := b.filtered(rows.graph, prepared, wanted, ef, admitted);
            && Matching(b, rows, prepared, admitted, wanted, Named(found, rows.idMap))
            && |Named(found, rows.idMap)| == |found|
  {
    var found := b.filtered(rows.graph, prepared, wanted, ef, admitted);
    assert AdmittedRows(b, found, rows.graph, prepared, wanted, admitted);
    NamedInStep(found, rows.idMap);
  }

  /** With a beam as wide as the index, a round finds every admitted row, up to the number wanted. */
  lemma {:induction false} FullRound(
      b: Backend, rows: Rows, prepared: Vector, admitted: set<nat>, wanted: nat, ef: nat)
    requires Respectful(b) && Exhaustive(b) && rows.Valid() && ef >= |rows.idMap|
    ensures |Named(b.filtered(rows.graph, prepared, wanted, ef, admitted), rows.idMap)|
            == Min(wanted, |admitted * rows.graph.Keys|)
  {
    RoundMatches(b, rows, prepared, admitted, wanted, ef);
    BoundedCount(rows.graph.Keys, |rows.idMap|);
  }

  lemma {:induction false} BoundedCount(s: set<nat>, n: nat)
    requires forall i :: i in s ==> i < n
    ensures |s| <= n
  {
    if n > 0 {
      BoundedCount(s - {n - 1}, n - 1);
    } else {
      assert s == {};
    }
  }

  /** What one round comes back with. */
  lemma {:induction false} RoundResults(
      b: Backend, rows: Rows, prepared: Vector, admitted: set<nat>, wanted: nat, ef: nat, results: seq<Scored>)
    requires Respectful(b) && rows.Valid()
    requires results == Named(b.filtered(rows.graph, prepared, wanted, ef, admitted), rows.idMap)
    ensures Matching(b, rows, prepared, admitted, wanted, results)
    ensures |results| <= Full(rows, admitted, wanted)
    ensures Exhaustive(b) && ef >= |rows.idMap| ==> |results| == Full(rows, admitted, wanted)
  {
    RoundMatches(b, rows, prepared, admitted, wanted, ef);
    MatchingCount(b, rows, prepared, admitted, wanted, results);
    if Exhaustive(b) && ef >= |rows.idMap| {
      FullRound(b, rows, prepared, admitted, wanted, ef);
    }
  }

  /** The most results there can be. */
  function Full(rows: Rows, admitted: set<nat>, wanted: nat): nat {
    Min(wanted, |admitted * rows.graph.Keys|)
  }

  /** The list comes from one of the rounds. */
  ghost predicate FromRound(
      b: Backend, rows: Rows, prepared: Vector, admitted: set<nat>, wanted: nat, out: seq<Scored>)
  {
    out == [] || exists ef: nat :: RoundList(b, rows, prepared, admitted, wanted, ef) == out
  }

  function RoundList(b: Backend, rows: Rows, prepared: Vector, admitted: set<nat>, wanted: nat, ef: nat): seq<Scored> {
    Named(b.filtered(rows.graph, prepared, wanted, ef, admitted), rows.idMap)
  }

  /** Nothing on the way to the answer disturbs the order of the graph search. */
  lemma {:induction false} RoundIsSorted(
      b: Backend, rows: Rows, prepared: Vector, admitted: set<nat>, wanted: nat, out: seq<Scored>)
    requires Respectful(b) && OrderedFilter(b) && rows.Valid()
    requires FromRound(b, rows, prepared, admitted, wanted, out)
    ensures Sorted(out, false)
  {
    if out != [] {
      var ef: nat :| RoundList(b, rows, prepared, admitted, wanted, ef) == out;
      var found := b.filtered(rows.graph, prepared, wanted, ef, admitted);
      assert AdmittedRows(b, found, rows.graph, prepared, wanted, admitted) && Ascending(found);
      NamedInStep(found, rows.idMap);
    }
  }

  /** `out` names the nearest of the admitted rows, nearest first. */
  ghost predicate NearestMatching(
      b: Backend, rows: Rows, prepared: Vector, admitted: set<nat>, wanted: nat, out: seq<Scored>)
  {
    exists found: seq<Neighbour> ::
      NearestRows(b, found, Restricted(rows.graph, admitted), prepared, wanted) && out == Named(found, rows.idMap)
  }

  lemma {:induction false} RestrictedCount(graph: Graph, admitted: set<nat>)
    ensures |Restricted(graph, admitted)| == |admitted * graph.Keys|
  {
    assert Restricted(graph, admitted).Keys == admitted * graph.Keys;
  }

  /** All the admitted rows, in order, are the nearest. */
  lemma {:induction false} AllAdmittedAreNearest(
      b: Backend, found: seq<Neighbour>, graph: Graph, prepared: Vector, wanted: nat, admitted: set<nat>)
    requires AdmittedRows(b, found, graph, prepared, wanted, admitted) && Ascending(found)
    requires |found| == |admitted * graph.Keys| <= wanted
    ensures NearestRows(b, found, Restricted(graph, admitted), prepared, wanted)
  {
    RestrictedCount(graph, admitted);
    RowsInCount(found);
    RowsInSubset(found, admitted * graph.Keys);
    SubsetOfSameSize(RowsIn(found), admitted * graph.Keys);
    forall row | row in Restricted(graph, admitted)
      ensures exists j :: 0 <= j < |found| && found[j].row == row
    {
      assert row in RowsIn(found);
      RowsInMember(found, row);
    }
  }

  /** A list from some round with as many results as there are admitted rows. */
  lemma {:induction false} CompleteRound(
      b: Backend, rows: Rows, prepared: Vector, admitted: set<nat>, wanted: nat, out: seq<Scored>)
    requires Respectful(b) && OrderedFilter(b) && rows.Valid()
    requires FromRound(b, rows, prepared, admitted, wanted, out) && |out| == |admitted * rows.graph.Keys| <= wanted
    ensures NearestMatching(b, rows, prepared, admitted, wanted, out)
  {
    var found: seq<Neighbour> := [];
    if out != [] {
      var ef: nat :| RoundList(b, rows, prepared, admitted, wanted, ef) == out;
      found := b.filtered(rows.graph, prepared, wanted, ef, admitted);
      assert AdmittedRows(b, found, rows.graph, prepared, wanted, admitted) && Ascending(found);
      NamedInStep(found, rows.idMap);
    } else {
      assert Named(found, rows.idMap) == [];
    }
    AllAdmittedAreNearest(b, found, rows.graph, prepared, wanted, admitted);
  }

  /** A round that found all that was wanted, or had a beam as wide as the index. */
  lemma {:induction false} PreciseRound(
      b: Backend, rows: Rows, prepared: Vector, admitted: set<nat>, wanted: nat, ef: nat)
    requires Respectful(b) && PreciseFilter(b) && rows.Valid()
    requires |RoundList(b, rows, prepared, admitted, wanted, ef)| >= wanted || ef >= |rows.idMap|
    ensures var results := RoundList(b, rows, prepared, admitted, wanted, ef);
            NearestMatching(b, rows, prepared, admitted, wanted, results) && |results| == Full(rows, admitted, wanted)
  {
    var found := b.filtered(rows.graph, prepared, wanted, ef, admitted);
    assert AdmittedRows(b, found, rows.graph, prepared, wanted, admitted);
    NamedInStep(found, rows.idMap);
    BoundedCount(rows.graph.Keys, |rows.idMap|);
    RestrictedCount(rows.graph, admitted);
    assert NearestRows(b, found, Restricted(rows.graph, admitted), prepared, wanted);
  }

  /** What the loop returns is a list of the nearest admitted rows, whichever round it is from. */
  lemma {:induction false} ReturnedIsNearest(
      b: Backend, rows: Rows, prepared: Vector, admitted: set<nat>, wanted: nat, ef: nat, best: seq<Scored>)
    requires Respectful(b) && OrderedFilter(b) && PreciseFilter(b) && rows.Valid()
    requires FromRound(b, rows, prepared, admitted, wanted, best) && |best| <= Full(rows, admitted, wanted)
    requires var results := RoundList(b, rows, prepared, admitted, wanted, ef);
             if |results| >= wanted then best == results
             else ef >= |rows.idMap| && (best == results || |best| >= |results|) && |best| < wanted
    ensures NearestMatching(b, rows, prepared, admitted, wanted, best)
  {
    PreciseRound(b, rows, prepared, admitted, wanted, ef);
    if best != RoundList(b, rows, prepared, admitted, wanted, ef) {
      CompleteRound(b, rows, prepared, admitted, wanted, best);
    }
  }

  /** Searches again with twice the beam until k are found, the beam covers the index or 20 rounds are over. */
  method Rounds(b: Backend, rows: Rows, first: nat, prepared: Vector, wanted: nat, admitted: set<nat>)
    returns (best: seq<Scored>)
    requires Respectful(b) && rows.Valid() && 1 <= first <= |rows.idMap| && wanted > 0
    ensures Matching(b, rows, prepared, admitted, wanted, best)
    ensures Exhaustive(b) && |rows.idMap| <= 524288 * first ==> |best| == Full(rows, admitted, wanted)
    ensures FromRound(b, rows, prepared, admitted, wanted, best)
    ensures OrderedFilter(b) && PreciseFilter(b) && |rows.idMap| <= 524288 * first ==>
              NearestMatching(b, rows, prepared, admitted, wanted, best)
  {
    var n := |rows.idMap|;
    var ef := first;
    best := [];
    NothingMatches(b, rows, prepared, admitted, wanted);
    var round := 0;
    while round < MAX_ROUNDS
      invariant 0 <= round <= MAX_ROUNDS
      invariant round < MAX_ROUNDS ==> ef == Beam(first, n, round) && 1 <= ef <= n
      invariant round == MAX_ROUNDS ==> n > 524288 * first
      invariant Matching(b, rows, prepared, admitted, wanted, best) && |best| < wanted
      invariant |best| <= Full(rows, admitted, wanted) && FromRound(b, rows, prepared, admitted, wanted, best)
    {
      var results := Named(b.filtered(rows.graph, prepared, wanted, ef, admitted), rows.idMap);
      RoundResults(b, rows, prepared, admitted, wanted, ef, results);
      assert results == RoundList(b, rows, prepared, admitted, wanted, ef);
      if |results| >= wanted {
        if OrderedFilter(b) && PreciseFilter(b) {
          ReturnedIsNearest(b, rows, prepared, admitted, wanted, ef, results);
        }
        return results;
      }
      if |results| > |best| {
        best := results;
      }
      if ef >= n {
        if OrderedFilter(b) && PreciseFilter(b) {
          ReturnedIsNearest(b, rows, prepared, admitted, wanted, ef, best);
        }
        return best;
      }
      if round == MAX_ROUNDS - 1 {
        LastRoundReachesIff(first, n, round);
      }
      ef := Min(ef * 2, n);
      round := round + 1;
    }
  }

  lemma {:induction false} NothingMatches(
      b: Backend, rows: Rows, prepared: Vector, admitted: set<nat>, wanted: nat)
    ensures Matching(b, rows, prepared, admitted, wanted, [])
  {
    assert AdmittedRows(b, [], rows.graph, prepared, wanted, admitted);
    assert Named([], rows.idMap) == [];
  }

  /** The width of the first beam. */
  function FirstBeam(rows: Rows, efSearch: nat, k: nat): nat {
    Min(Max(efSearch, 5 * Min(k, |rows.idMap|)), |rows.idMap|)
  }

  lemma {:induction false} FirstBeamReaches(rows: Rows, efSearch: nat, k: nat)
    requires k > 0
    ensures |rows.idMap| <= 524288 * FirstBeam(rows, efSearch, k)
       <==> |rows.idMap| <= 524288 * Max(efSearch, 5 * Min(k, |rows.idMap|))
  {
  }

  /** The distance of every live id that the filter admits. */
  ghost function AdmittedDistances(b: Backend, rows: Rows, prepared: Vector, admits: Id -> bool): map<Id, real>
    requires rows.Fresh()
  {
    map id | id in Distances(b, rows, prepared) && id !in rows.tombstones && admits(id) ::
      Distances(b, rows, prepared)[id]
  }

  /** As many ids as rows, in a fresh index. */
  lemma {:induction false} IdsOfRows(idMap: seq<Id>, rows: set<nat>) returns (ids: set<Id>)
    requires AllDistinct(idMap) && forall row :: row in rows ==> row < |idMap|
    ensures |ids| == |rows| && forall id :: id in ids <==> exists row :: row in rows && idMap[row] == id
    decreases |rows|
  {
    ids := {};
    if rows != {} {
      var row :| row in rows;
      ids := IdsOfRows(idMap, rows - {row});
      forall other | other in rows - {row}
        ensures idMap[other] != idMap[row]
      {
        DifferentRows(idMap, other, row);
      }
      ids := ids + {idMap[row]};
    }
  }

  lemma {:induction false} AdmittedCount(b: Backend, rows: Rows, prepared: Vector, admits: Id -> bool)
    requires rows.Fresh()
    ensures |AdmittedDistances(b, rows, prepared, admits)| == |Restricted(rows.graph, Admitted(rows, admits))|
  {
    var admitted := Admitted(rows, admits);
    RestrictedCount(rows.graph, admitted);
    assert admitted * rows.graph.Keys == admitted;
    var ids := IdsOfRows(rows.idMap, admitted);
    forall id
      ensures id in ids <==> id in AdmittedDistances(b, rows, prepared, admits)
    {
      IdSetMember(rows.idMap, id);
    }
    assert AdmittedDistances(b, rows, prepared, admits).Keys == ids;
  }

  lemma {:induction false} AdmittedMember(
      b: Backend, rows: Rows, prepared: Vector, admits: Id -> bool, row: nat)
    requires rows.Fresh() && row in Admitted(rows, admits)
    ensures rows.idMap[row] in AdmittedDistances(b, rows, prepared, admits)
    ensures AdmittedDistances(b, rows, prepared, admits)[rows.idMap[row]] == b.distance(prepared, rows.graph[row])
  {
    DistanceOfRow(b, rows, prepared, row);
  }

  lemma {:induction false} AdmittedRow(b: Backend, rows: Rows, prepared: Vector, admits: Id -> bool, id: Id)
    returns (row: nat)
    requires rows.Fresh() && id in AdmittedDistances(b, rows, prepared, admits)
    ensures row in Admitted(rows, admits) && row in rows.graph && rows.idMap[row] == id
  {
    row := RowOf(rows.idMap, id);
  }

  /** On an index without an id twice, the nearest admitted rows are the best of the admitted ids. */
  lemma {:induction false} NearestMatchingIsTop(
      b: Backend, rows: Rows, prepared: Vector, admits: Id -> bool, wanted: nat, out: seq<Scored>)
    requires rows.Fresh() && NearestMatching(b, rows, prepared, Admitted(rows, admits), wanted, out)
    ensures IsTop(out, AdmittedDistances(b, rows, prepared, admits), wanted, false)
  {
    var admitted, scores := Admitted(rows, admits), AdmittedDistances(b, rows, prepared, admits);
    var found: seq<Neighbour> :|
      NearestRows(b, found, Restricted(rows.graph, admitted), prepared, wanted) && out == Named(found, rows.idMap);
    AdmittedCount(b, rows, prepared, admits);
    NamedInStep(found, rows.idMap);
    NamedDistinct(rows, found);
    forall i | 0 <= i < |out|
      ensures out[i].0 in scores && scores[out[i].0] == out[i].1
    {
      AdmittedMember(b, rows, prepared, admits, found[i].row);
    }
    forall i, id | 0 <= i < |out| && id in scores && id !in IdsOf(out)
      ensures Before(out[i].1, scores[id], false)
    {
      var row := AdmittedRow(b, rows, prepared, admits, id);
      AdmittedMember(b, rows, prepared, admits, row);
      UnnamedRow(rows, found, row);
      NotNearer(b, rows.graph, prepared, admitted, wanted, found, i, row);
    }
    IsTopOf(out, scores, wanted);
  }

  lemma {:induction false} NotNearer(
      b: Backend, graph: Graph, prepared: Vector, admitted: set<nat>, wanted: nat, found: seq<Neighbour>, i: nat,
      row: nat)
    requires NearestRows(b, found, Restricted(graph, admitted), prepared, wanted) && i < |found|
    requires row in graph && row in admitted && forall j :: 0 <= j < |found| ==> found[j].row != row
    ensures found[i].distance <= b.distance(prepared, graph[row])
  {
    assert row in Restricted(graph, admitted);
  }

  /**
   * Every result is an admitted live row, at most k of them, no row twice; exactly min(k, admitted) of
   * them whenever the doubling beam can reach the size of the index; in the order of the graph search;
   * and the nearest of all the admitted ones when that search is precise.
   */
  method FilteredSearch(b: Backend, rows: Rows, efSearch: nat, query: Vector, k: nat, admits: Id -> bool)
    returns (r: Result<seq<Scored>, Error>)
    requires Respectful(b) && rows.Valid()
    ensures b.prepare(query).None? ==> r == Err(InvalidVector)
    ensures b.prepare(query).Some? ==>
              && r.Ok?
              && Matching(b, rows, b.prepare(query).value, Admitted(rows, admits), Min(k, |rows.idMap|), r.value)
    ensures b.prepare(query).Some? && Exhaustive(b)
            && |rows.idMap| <= 524288 * Max(efSearch, 5 * Min(k, |rows.idMap|)) ==>
              |r.value| == Min(Min(k, |rows.idMap|), |Admitted(rows, admits) * rows.graph.Keys|)
    ensures r.Ok? && OrderedFilter(b) ==> Sorted(r.value, false)
    ensures r.Ok? && OrderedFilter(b) && PreciseFilter(b)
            && |rows.idMap| <= 524288 * Max(efSearch, 5 * Min(k, |rows.idMap|)) ==>
              NearestMatching(
                b, rows, b.prepare(query).value, Admitted(rows, admits), Min(k, |rows.idMap|), r.value)
    ensures r.Ok? && OrderedFilter(b) && PreciseFilter(b) && rows.Fresh()
            && |rows.idMap| <= 524288 * Max(efSearch, 5 * Min(k, |rows.idMap|)) ==>
              IsTop(r.value, AdmittedDistances(b, rows, b.prepare(query).value, admits), k, false)
  {
    var p := b.prepare(query);
    if p.None? {
      return Err(InvalidVector);
    }
    var wanted := Min(k, |rows.idMap|);
    if wanted > 0 {
      FirstBeamReaches(rows, efSearch, k);
    }
    var best: seq<Scored> := [];
    if wanted == 0 {
      NothingMatches(b, rows, p.value, Admitted(rows, admits), wanted);
      NothingNearest(b, rows, p.value, Admitted(rows, admits));
    } else {
      best := Rounds(b, rows, FirstBeam(rows, efSearch, k), p.value, wanted, Admitted(rows, admits));
    }
    AnswerInOrder(b, rows, p.value, admits, k, best);
    r := Ok(best);
  }

  lemma {:induction false} NothingNearest(b: Backend, rows: Rows, prepared: Vector, admitted: set<nat>)
    ensures NearestMatching(b, rows, prepared, admitted, 0, [])
  {
    assert NearestRows(b, [], Restricted(rows.graph, admitted), prepared, 0) && Named([], rows.idMap) == [];
  }

  /** What the order of the graph search makes of the answer. */
  lemma {:induction false} AnswerInOrder(
      b: Backend, rows: Rows, prepared: Vector, admits: Id -> bool, k: nat, out: seq<Scored>)
    requires Respectful(b) && rows.Valid()
    requires FromRound(b, rows, prepared, Admitted(rows, admits), Min(k, |rows.idMap|), out)
    ensures OrderedFilter(b) ==> Sorted(out, false)
    ensures rows.Fresh() && NearestMatching(b, rows, prepared, Admitted(rows, admits), Min(k, |rows.idMap|), out) ==>
              IsTop(out, AdmittedDistances(b, rows, prepared, admits), k, false)
  {
    var wanted := Min(k, |rows.idMap|);
    if OrderedFilter(b) {
      RoundIsSorted(b, rows, prepared, Admitted(rows, admits), wanted, out);
    }
    if rows.Fresh() && NearestMatching(b, rows, prepared, Admitted(rows, admits), wanted, out) {
      NearestMatchingIsTop(b, rows, prepared, admits, wanted, out);
      FewAdmitted(b, rows, prepared, admits);
      TopClamped(out, AdmittedDistances(b, rows, prepared, admits), wanted, k, false);
    }
  }

  lemma {:induction false} FewAdmitted(b: Backend, rows: Rows, prepared: Vector, admits: Id -> bool)
    requires rows.Fresh()
    ensures |AdmittedDistances(b, rows, prepared, admits)| <= |rows.idMap|
  {
    DistancesMeasure(b, rows, prepared);
    SubsetCount(AdmittedDistances(b, rows, prepared, admits).Keys, Distances(b, rows, prepared).Keys);
  }

  /** A filtered search that comes back with as many results as there are admitted rows lists them all. */
  lemma {:induction false} NoMatchMissed(
      b: Backend, rows: Rows, prepared: Vector, admitted: set<nat>, wanted: nat, out: seq<Scored>, row: nat)
    requires rows.Valid() && Matching(b, rows, prepared, admitted, wanted, out)
    requires |out| == |admitted * rows.graph.Keys| && row in admitted && row in rows.graph
    ensures exists i :: 0 <= i < |out| && out[i] == (rows.idMap[row], b.distance(prepared, rows.graph[row]))
  {
    var found: seq<Neighbour> :| AdmittedRows(b, found, rows.graph, prepared, wanted, admitted) && out == Named(found, rows.idMap);
    NamedInStep(found, rows.idMap);
    RowsInCount(found);
    RowsInSubset(found, admitted * rows.graph.Keys);
    SubsetOfSameSize(RowsIn(found), admitted * rows.graph.Keys);
    assert row in RowsIn(found);
    RowsInMember(found, row);
    var i :| 0 <= i < |found| && found[i].row == row;
    assert out[i] == (rows.idMap[row], b.distance(prepared, rows.graph[row]));
  }

  // ---- The index object ----

  /** The first point whose vector the metric refuses, or the number of points. */
  function FirstRefused(b: Backend, points: seq<Point>, from: nat): (j: nat)
    requires from <= |points|
    ensures from <= j <= |points|
    ensures forall i :: from <= i < j ==> b.prepare(points[i].vector).Some?
    ensures j < |points| ==> b.prepare(points[j].vector).None?
    decreases |points| - from
  {
    if from == |points| || b.prepare(points[from].vector).None? then from else FirstRefused(b, points, from + 1)
  }

  lemma {:induction false} FirstRefusedIs(b: Backend, points: seq<Point>, i: nat)
    requires i <= |points| && forall j :: 0 <= j < i ==> b.prepare(points[j].vector).Some?
    requires i < |points| ==> b.prepare(points[i].vector).None?
    ensures FirstRefused(b, points, 0) == i
    ensures AllPrepared(b, points) <==> i == |points|
  {
  }

  /** Where adding one by one stops, and what it has added by then. */
  lemma {:induction false} StoppedAt(b: Backend, points: seq<Point>, stop: nat)
    requires stop <= |points| && forall j :: 0 <= j < stop ==> b.prepare(points[j].vector).Some?
    requires stop < |points| ==> b.prepare(points[stop].vector).None?
    ensures FirstRefused(b, points, 0) == stop && (AllPrepared(b, points) <==> stop == |points|)
    ensures points[..Min(stop + 1, |points|)] == if stop == |points| then points else points[..stop + 1]
  {
    FirstRefusedIs(b, points, stop);
  }

  lemma {:induction false} BuiltNext(b: Backend, points: seq<Point>, i: nat)
    requires i < |points|
    ensures Built(b, points[..i + 1]) == Added(b, Built(b, points[..i]), points[i].id, points[i].vector)
  {
    assert points[..i + 1][..i] == points[..i];
  }

  /** The rows a build leaves behind, refused vectors included. */
  function AfterBuild(b: Backend, points: seq<Point>): Rows {
    var j := FirstRefused(b, points, 0);
    if j == |points| then Built(b, points)
    else if b.cosine && |points| > PARALLEL_THRESHOLD then Rows([], {}, map[])
    else Built(b, points[..j + 1])
  }

  /** The last row of every id. */
  function ReverseOf(idMap: seq<Id>): map<Id, nat> {
    if idMap == [] then map[] else ReverseOf(idMap[..|idMap| - 1])[idMap[|idMap| - 1] := |idMap| - 1]
  }

  lemma {:induction false} ReverseOfKeys(idMap: seq<Id>)
    ensures ReverseOf(idMap).Keys == IdSet(idMap)
  {
    if idMap != [] {
      ReverseOfKeys(idMap[..|idMap| - 1]);
    }
  }

  lemma {:induction false} AddedValid(b: Backend, rows: Rows, id: Id, vector: Vector)
    requires rows.Valid()
    ensures Added(b, rows, id, vector).Valid()
    ensures ReverseOf(rows.idMap + [id]) == ReverseOf(rows.idMap)[id := |rows.idMap|]
  {
    IdSetAppend(rows.idMap, id);
    assert (rows.idMap + [id])[..|rows.idMap|] == rows.idMap;
  }

  class HnswIndex {
    const backend: Backend
    var efSearch: nat
    var idMap: seq<Id>
    var reverseMap: map<Id, nat>
    var tombstones: set<Id>
    var graph: Graph

    ghost predicate Valid()
      reads this
    {
      Contents().Valid() && reverseMap == ReverseOf(idMap)
    }

    function Contents(): Rows
      reads this
    {
      Rows(idMap, tombstones, graph)
    }

    constructor (backend: Backend, efSearch: nat)
      ensures Valid() && Contents() == Rows([], {}, map[])
      ensures this.backend == backend && this.efSearch == efSearch
    {
      this.backend, this.efSearch := backend, efSearch;
      idMap, reverseMap, tombstones, graph := [], map[], {}, map[];
    }

    function TombstoneCount(): nat
      reads this
    {
      |tombstones|
    }

    function IndexIdCount(): nat
      reads this
    {
      |idMap|
    }

    function Search(query: Vector, k: nat): Result<seq<Scored>, Error>
      reads this
    {
      Answer(backend, Contents(), efSearch, query, k)
    }

    /** The row and the id are taken before the vector is checked. */
    method AddPoint(point: Point) returns (error: Option<Error>)
      requires Valid()
      modifies `idMap, `reverseMap, `graph
      ensures Valid()
      ensures Contents() == Added(backend, old(Contents()), point.id, point.vector)
      ensures error == if backend.prepare(point.vector).Some? then None else Some(InvalidVector)
    {
      AddedValid(backend, Contents(), point.id, point.vector);
      var row := |idMap|;
      idMap := idMap + [point.id];
      reverseMap := reverseMap[point.id := row];
      match backend.prepare(point.vector)
      case None =>
        error := Some(InvalidVector);
      case Some(prepared) =>
        graph := graph[row := prepared];
        error := None;
    }

    method RemovePoint(id: Id)
      requires Valid()
      modifies `tombstones
      ensures Valid() && Contents() == Tombstoned(old(Contents()), id)
    {
      ReverseOfKeys(idMap);
      if id in reverseMap {
        tombstones := tombstones + {id};
      }
    }

    method Build(points: seq<Point>) returns (error: Option<Error>)
      modifies `idMap, `reverseMap, `tombstones, `graph
      ensures Valid() && Contents() == AfterBuild(backend, points)
      ensures error == if AllPrepared(backend, points) then None else Some(InvalidVector)
    {
      idMap, reverseMap, tombstones, graph := [], map[], {}, map[];
      if backend.cosine && |points| > PARALLEL_THRESHOLD {
        error := BuildNormalized(points);
      } else {
        error := BuildOneByOne(points);
      }
    }

    /** Normalises every vector first: one refusal leaves the index empty. */
    method BuildNormalized(points: seq<Point>) returns (error: Option<Error>)
      requires Valid() && Contents() == Rows([], {}, map[])
      modifies `idMap, `reverseMap, `graph
      ensures Valid()
      ensures Contents() == if AllPrepared(backend, points) then Built(backend, points) else Rows([], {}, map[])
      ensures error == if AllPrepared(backend, points) then None else Some(InvalidVector)
    {
      var normalized: seq<Vector> := [];
      for i := 0 to |points|
        invariant |normalized| == i && Contents() == old(Contents())
        invariant forall j :: 0 <= j < i ==> backend.prepare(points[j].vector) == Some(normalized[j])
      {
        match backend.prepare(points[i].vector)
        case None =>
          return Some(InvalidVector);
        case Some(v) =>
          normalized := normalized + [v];
      }
      InsertNormalized(points, normalized);
      error := None;
    }

    method InsertNormalized(points: seq<Point>, normalized: seq<Vector>)
      requires Valid() && Contents() == Rows([], {}, map[]) && |normalized| == |points|
      requires forall j :: 0 <= j < |points| ==> backend.prepare(points[j].vector) == Some(normalized[j])
      modifies `idMap, `reverseMap, `graph
      ensures Valid() && Contents() == Built(backend, points)
    {
      for i := 0 to |points|
        invariant Valid() && Contents() == Built(backend, points[..i])
      {
        BuiltNext(backend, points, i);
        InsertRow(points[i], normalized[i]);
      }
      assert points[..|points|] == points;
    }

    method InsertRow(point: Point, normalized: Vector)
      requires Valid() && backend.prepare(point.vector) == Some(normalized)
      modifies `idMap, `reverseMap, `graph
      ensures Valid() && Contents() == Added(backend, old(Contents()), point.id, point.vector)
    {
      AddedValid(backend, Contents(), point.id, point.vector);
      var row := |idMap|;
      idMap := idMap + [point.id];
      reverseMap := reverseMap[point.id := row];
      graph := graph[row := normalized];
    }

    /** Adds one by one: a refusal stops the build with the refused point's row taken. */
    method BuildOneByOne(points: seq<Point>) returns (error: Option<Error>)
      requires Valid() && Contents() == Rows([], {}, map[])
      modifies `idMap, `reverseMap, `graph
      ensures Valid()
      ensures var j := FirstRefused(backend, points, 0);
              Contents() == Built(backend, if j == |points| then points else points[..j + 1])
      ensures error == if AllPrepared(backend, points) then None else Some(InvalidVector)
    {
      var stop := AddUntilRefused(points);
      StoppedAt(backend, points, stop);
      error := if stop < |points| then Some(InvalidVector) else None;
    }

    /** The first i points are in, and none of them was refused. */
    ghost predicate Building(points: seq<Point>, i: nat)
      reads this
    {
      && i <= |points| && Valid() && Contents() == Built(backend, points[..i])
      && forall j :: 0 <= j < i ==> backend.prepare(points[j].vector).Some?
    }

    /** The same, but for a refused point, which has taken its row. */
    ghost predicate Stopped(points: seq<Point>, stop: nat)
      reads this
    {
      && stop <= |points| && Valid() && Contents() == Built(backend, points[..Min(stop + 1, |points|)])
      && (forall j :: 0 <= j < stop ==> backend.prepare(points[j].vector).Some?)
      && (stop < |points| ==> backend.prepare(points[stop].vector).None?)
    }

    method AddUntilRefused(points: seq<Point>) returns (stop: nat)
      requires Building(points, 0)
      modifies `idMap, `reverseMap, `graph
      ensures Stopped(points, stop)
    {
      for i := 0 to |points|
        invariant Building(points, i)
      {
        var error := AddNext(points, i);
        if error.Some? {
          return i;
        }
      }
      stop := |points|;
    }

    method AddNext(points: seq<Point>, i: nat) returns (error: Option<Error>)
      requires i < |points| && Building(points, i)
      modifies `idMap, `reverseMap, `graph
      ensures if error.None? then Building(points, i + 1) else Stopped(points, i)
    {
      BuiltNext(backend, points, i);
      error := AddPoint(points[i]);
    }
  }
}
