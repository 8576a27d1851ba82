/** The hypotheses about the graph library can be met: selecting the nearest row again and again meets all of them. */
module LawfulGraph {
  import opened Base
  import opened Ranking
  import opened IndexRows

  type Distance = (Vector, Vector) -> real

  ghost predicate IsNearest(d: Distance, graph: Graph, query: Vector, row: nat) {
    row in graph && forall other :: other in graph ==> d(query, graph[row]) <= d(query, graph[other])
  }

  lemma {:induction false} NearestExists(d: Distance, graph: Graph, query: Vector) returns (row: nat)
    requires graph != map[]
    ensures IsNearest(d, graph, query, row)
    decreases |graph|
  {
    row :| row in graph;
    var rest := graph - {row};
    if rest != map[] {
      var other: nat := NearestExists(d, rest, query);
      var best: nat := if d(query, graph[other]) < d(query, graph[row]) then other else row;
      forall x | x in graph
        ensures d(query, graph[best]) <= d(query, graph[x])
      {
        if x != row {
          assert x in rest && d(query, rest[other]) <= d(query, rest[x]);
        }
      }
      row := best;
    } else {
      forall x | x in graph
        ensures x == row
      {
        assert x !in rest;
      }
    }
  }

  lemma {:induction false} NearestThere(d: Distance, graph: Graph, query: Vector)
    requires graph != map[]
    ensures exists row :: IsNearest(d, graph, query, row)
  {
    var row := NearestExists(d, graph, query);
  }

  ghost function Nearest(d: Distance, graph: Graph, query: Vector): (row: nat)
    requires graph != map[]
    ensures IsNearest(d, graph, query, row)
  {
    NearestThere(d, graph, query);
    var row: nat :| IsNearest(d, graph, query, row);
    row
  }

  ghost function Select(d: Distance, graph: Graph, query: Vector, count: nat): seq<Neighbour> {
    if count == 0 || graph == map[] then []
    else
      var row := Nearest(d, graph, query);
      [Neighbour(row, d(query, graph[row]))] + Select(d, graph - {row}, query, count - 1)
  }

  lemma {:induction false} SelectUnfolds(d: Distance, graph: Graph, query: Vector, count: nat)
    requires count > 0 && graph != map[]
    ensures var row := Nearest(d, graph, query);
            Select(d, graph, query, count)
            == [Neighbour(row, d(query, graph[row]))] + Select(d, graph - {row}, query, count - 1)
  {
  }

  lemma {:induction false} NothingSelected(b: Backend, graph: Graph, query: Vector, count: nat)
    requires count == 0 || graph == map[]
    ensures NearestRows(b, [], graph, query, count)
  {
  }

  lemma {:induction false} SelectIsNearest(b: Backend, graph: Graph, query: Vector, count: nat)
    ensures NearestRows(b, Select(b.distance, graph, query, count), graph, query, count)
    decreases count
  {
    if count == 0 || graph == map[] {
      NothingSelected(b, graph, query, count);
    } else {
      var row := Nearest(b.distance, graph, query);
      var rest := graph - {row};
      SelectIsNearest(b, rest, query, count - 1);
      Prepended(b, row, Select(b.distance, rest, query, count - 1), graph, rest, query, count);
      SelectUnfolds(b.distance, graph, query, count);
    }
  }

  lemma {:induction false} PrependedMembers(
      b: Backend, row: nat, tail: seq<Neighbour>, graph: Graph, rest: Graph, query: Vector, i: nat)
    requires row in graph && rest == graph - {row} && i <= |tail|
    requires forall j :: 0 <= j < |tail| ==>
               tail[j].row in rest && tail[j].distance == b.distance(query, rest[tail[j].row])
    ensures var found := [Neighbour(row, b.distance(query, graph[row]))] + tail;
            found[i].row in graph && found[i].distance == b.distance(query, graph[found[i].row])
  {
  }

  lemma {:induction false} PrependedOrder(
      b: Backend, row: nat, tail: seq<Neighbour>, graph: Graph, rest: Graph, query: Vector, i: nat, j: nat)
    requires IsNearest(b.distance, graph, query, row) && rest == graph - {row} && i < j <= |tail|
    requires forall m :: 0 <= m < |tail| ==>
               tail[m].row in rest && tail[m].distance == b.distance(query, rest[tail[m].row])
    requires forall m, n :: 0 <= m < n < |tail| ==>
               tail[m].row != tail[n].row && tail[m].distance <= tail[n].distance
    ensures var found := [Neighbour(row, b.distance(query, graph[row]))] + tail;
            found[i].row != found[j].row && found[i].distance <= found[j].distance
  {
    var found := [Neighbour(row, b.distance(query, graph[row]))] + tail;
    assert found[j] == tail[j - 1] && (i > 0 ==> found[i] == tail[i - 1]);
  }

  lemma {:induction false} PrependedFarther(
      b: Backend, row: nat, tail: seq<Neighbour>, graph: Graph, rest: Graph, query: Vector, i: nat, other: nat)
    requires IsNearest(b.distance, graph, query, row) && rest == graph - {row} && i <= |tail|
    requires other in graph && other != row && forall m :: 0 <= m < |tail| ==> tail[m].row != other
    requires i > 0 ==> tail[i - 1].distance <= b.distance(query, rest[other])
    ensures var found := [Neighbour(row, b.distance(query, graph[row]))] + tail;
            found[i].distance <= b.distance(query, graph[other])
  {
  }

  lemma {:induction false} OthersFarther(
      b: Backend, found: seq<Neighbour>, graph: Graph, query: Vector, count: nat, i: nat, other: nat)
    requires NearestRows(b, found, graph, query, count) && i < |found| && other in graph
    requires forall m :: 0 <= m < |found| ==> found[m].row != other
    ensures found[i].distance <= b.distance(query, graph[other])
  {
  }

  /** A nearest row, before the nearest of the others. */
  lemma {:induction false} Prepended(
      b: Backend, row: nat, tail: seq<Neighbour>, graph: Graph, rest: Graph, query: Vector, count: nat)
    requires count > 0 && IsNearest(b.distance, graph, query, row) && rest == graph - {row}
    requires NearestRows(b, tail, rest, query, count - 1)
    ensures NearestRows(b, [Neighbour(row, b.distance(query, graph[row]))] + tail, graph, query, count)
  {
    var found := [Neighbour(row, b.distance(query, graph[row]))] + tail;
    RemainingRows(graph, row);
    forall i | 0 <= i < |found|
      ensures found[i].row in graph && found[i].distance == b.distance(query, graph[found[i].row])
    {
      PrependedMembers(b, row, tail, graph, rest, query, i);
    }
    forall i, j | 0 <= i < j < |found|
      ensures found[i].row != found[j].row && found[i].distance <= found[j].distance
    {
      PrependedOrder(b, row, tail, graph, rest, query, i, j);
    }
    forall i, other | 0 <= i < |found| && other in graph && (forall j :: 0 <= j < |found| ==> found[j].row != other)
      ensures found[i].distance <= b.distance(query, graph[other])
    {
      PrependedOthers(b, row, tail, graph, rest, query, count, found, i, other);
    }
  }

  lemma {:induction false} PrependedOthers(
      b: Backend, row: nat, tail: seq<Neighbour>, graph: Graph, rest: Graph, query: Vector, count: nat,
      found: seq<Neighbour>, i: nat, other: nat)
    requires count > 0 && IsNearest(b.distance, graph, query, row) && rest == graph - {row}
    requires NearestRows(b, tail, rest, query, count - 1)
    requires found == [Neighbour(row, b.distance(query, graph[row]))] + tail && i < |found| && other in graph
    requires forall j :: 0 <= j < |found| ==> found[j].row != other
    ensures found[i].distance <= b.distance(query, graph[other])
  {
    assert found[0].row != other;
    forall m | 0 <= m < |tail|
      ensures tail[m].row != other
    {
      assert found[m + 1] == tail[m];
    }
    if i > 0 {
      OthersFarther(b, tail, rest, query, count - 1, i - 1, other);
    }
    PrependedFarther(b, row, tail, graph, rest, query, i, other);
  }

  lemma {:induction false} RemainingRows(graph: Graph, row: nat)
    requires row in graph
    ensures |graph| == |graph - {row}| + 1
  {
    assert graph.Keys == (graph - {row}).Keys + {row};
  }

  ghost function BruteForce(cosine: bool, prepare: Vector -> Option<Vector>, d: Distance): Backend {
    Backend(
      cosine, prepare, d,
      (graph: Graph, query: Vector, count: nat, ef: nat) => Select(d, graph, query, count),
      (graph: Graph, query: Vector, k: nat, ef: nat, admitted: set<nat>) =>
        Select(d, Restricted(graph, admitted), query, k))
  }

  lemma {:induction false} FilteredIsComplete(b: Backend, graph: Graph, query: Vector, k: nat, admitted: set<nat>)
    ensures var found := Select(b.distance, Restricted(graph, admitted), query, k);
            && AdmittedRows(b, found, graph, query, k, admitted)
            && |found| == Min(k, |admitted * graph.Keys|)
  {
    SelectIsNearest(b, Restricted(graph, admitted), query, k);
    assert Restricted(graph, admitted).Keys == admitted * graph.Keys;
  }

  /** Whatever the metric: exact, respectful of filters, exhaustive, ordered and precise. */
  lemma {:induction false} GraphLawsCanBeMet(cosine: bool, prepare: Vector -> Option<Vector>, d: Distance)
    ensures var b := BruteForce(cosine, prepare, d);
            Exact(b) && Respectful(b) && Exhaustive(b) && OrderedFilter(b) && PreciseFilter(b)
  {
    var b := BruteForce(cosine, prepare, d);
    forall graph: Graph, query: Vector, count: nat, ef: nat
      ensures NearestRows(b, b.nearest(graph, query, count, ef), graph, query, count)
    {
      SelectIsNearest(b, graph, query, count);
    }
    forall graph: Graph, query: Vector, k: nat, ef: nat, admitted: set<nat>
      ensures AdmittedRows(b, b.filtered(graph, query, k, ef, admitted), graph, query, k, admitted)
      ensures |b.filtered(graph, query, k, ef, admitted)| == Min(k, |admitted * graph.Keys|)
    {
      FilteredIsComplete(b, graph, query, k, admitted);
    }
    forall graph: Graph, query: Vector, k: nat, ef: nat, admitted: set<nat>
      ensures NearestRows(b, b.filtered(graph, query, k, ef, admitted), Restricted(graph, admitted), query, k)
    {
      SelectIsNearest(b, Restricted(graph, admitted), query, k);
    }
  }
}
