/** Bounded breadth-first search over the relations of the points (`graph.rs`). */
module Graph {
  import opened Base
  import opened Ranking
  import WalReplay

  /** The present points that `a` relates to. Empty and dangling ids are no edge. */
  function Neighbours(points: map<Id, Point>, a: Id): set<Id> {
    if a !in points || points[a].relations.None? then {}
    else set b | b in points[a].relations.value && b.text != "" && b in points
  }

  /** A link is an edge both ways, between ids that are not empty, and no other point gains or loses an edge. */
  lemma {:induction false} LinkIsEdgeBothWays(points: map<Id, Point>, from: Id, to: Id)
    requires WalReplay.AddRelation(points, from, to).Ok?
    ensures var linked := WalReplay.AddRelation(points, from, to).value;
            && Neighbours(linked, from) == Neighbours(points, from) + (if to.text == "" then {} else {to})
            && Neighbours(linked, to) == Neighbours(points, to) + (if from.text == "" then {} else {from})
            && forall id :: id != from && id != to ==> Neighbours(linked, id) == Neighbours(points, id)
  {
  }

  /** One more hop from any point of a set. */
  ghost function Widened(points: map<Id, Point>, inner: set<Id>): set<Id> {
    inner + set a, b | a in inner && b in Neighbours(points, a) :: b
  }

  /** The points within d hops of `start`. */
  ghost function Ball(points: map<Id, Point>, start: Id, d: nat): set<Id> {
    if d == 0 then {start} else Widened(points, Ball(points, start, d - 1))
  }

  /** The hops to `id`, for an id within d of them. */
  ghost function Distance(points: map<Id, Point>, start: Id, id: Id, d: nat): (hops: nat)
    requires id in Ball(points, start, d)
    ensures hops <= d && AtDepth(points, start, id, hops)
  {
    if d == 0 || id !in Ball(points, start, d - 1) then d else Distance(points, start, id, d - 1)
  }

  ghost predicate AtDepth(points: map<Id, Point>, start: Id, id: Id, d: nat) {
    id in Ball(points, start, d) && (d > 0 ==> id !in Ball(points, start, d - 1))
  }

  lemma {:induction false} BallGrows(points: map<Id, Point>, start: Id, d: nat, e: nat)
    requires d <= e
    ensures Ball(points, start, d) <= Ball(points, start, e)
  {
    if d < e {
      BallGrows(points, start, d, e - 1);
    }
  }

  /** After a link each end is within one hop of the other. */
  lemma {:induction false} LinkedWithinOneHop(points: map<Id, Point>, from: Id, to: Id)
    requires WalReplay.AddRelation(points, from, to).Ok? && from.text != "" && to.text != ""
    ensures var linked := WalReplay.AddRelation(points, from, to).value;
            to in Ball(linked, from, 1) && from in Ball(linked, to, 1)
  {
    LinkIsEdgeBothWays(points, from, to);
    var linked := WalReplay.AddRelation(points, from, to).value;
    NeighbourWithinOneHop(linked, from, to);
    NeighbourWithinOneHop(linked, to, from);
  }

  lemma {:induction false} NeighbourWithinOneHop(points: map<Id, Point>, a: Id, b: Id)
    requires b in Neighbours(points, a)
    ensures b in Ball(points, a, 1)
  {
    assert Ball(points, a, 0) == {a};
    assert b in Widened(points, {a});
  }

  lemma {:induction false} BallIsPresent(points: map<Id, Point>, start: Id, d: nat)
    requires start in points
    ensures Ball(points, start, d) <= points.Keys
  {
    if d > 0 {
      BallIsPresent(points, start, d - 1);
    }
  }

  lemma {:induction false} DepthAtMost(points: map<Id, Point>, start: Id, id: Id, d: nat, e: nat)
    requires AtDepth(points, start, id, d) && id in Ball(points, start, e)
    ensures d <= e
  {
    if e < d {
      BallGrows(points, start, e, d - 1);
    }
  }

  lemma {:induction false} DepthIsUnique(points: map<Id, Point>, start: Id, id: Id, d: nat, e: nat)
    requires AtDepth(points, start, id, d) && id in Ball(points, start, e)
    ensures Distance(points, start, id, e) == d
  {
    var hops := Distance(points, start, id, e);
    DepthAtMost(points, start, id, d, hops);
    DepthAtMost(points, start, id, hops, d);
  }

  // ---- Shortest paths ----

  ghost predicate IsPath(points: map<Id, Point>, start: Id, path: seq<Id>) {
    && |path| > 0 && path[0] == start
    && forall i :: 0 < i < |path| ==> path[i] in Neighbours(points, path[i - 1])
  }

  lemma {:induction false} PathEndsInBall(points: map<Id, Point>, start: Id, path: seq<Id>)
    requires IsPath(points, start, path)
    ensures path[|path| - 1] in Ball(points, start, |path| - 1)
  {
    if |path| > 1 {
      var n := |path| - 1;
      PathEndsInBall(points, start, path[..n]);
      assert path[n] in Neighbours(points, path[n - 1]);
    }
  }

  lemma {:induction false} NearerNeighbour(points: map<Id, Point>, start: Id, a: Id, b: Id, d: nat)
    requires d > 0 && AtDepth(points, start, b, d)
    requires a in Ball(points, start, d - 1) && b in Neighbours(points, a)
    ensures AtDepth(points, start, a, d - 1)
  {
    if d > 1 {
      assert b !in Widened(points, Ball(points, start, d - 2));
    }
  }

  lemma {:induction false} BallHasPath(points: map<Id, Point>, start: Id, id: Id, d: nat) returns (path: seq<Id>)
    requires AtDepth(points, start, id, d)
    ensures IsPath(points, start, path) && |path| == d + 1 && path[d] == id
    decreases d
  {
    if d == 0 {
      path := [start];
    } else {
      var a :| a in Ball(points, start, d - 1) && id in Neighbours(points, a);
      NearerNeighbour(points, start, a, id, d);
      path := BallHasPath(points, start, a, d - 1);
      path := path + [id];
    }
  }

  /** The ball of radius d holds exactly the ends of the paths of at most d edges. */
  lemma {:induction false} BallIsPathsUpTo(points: map<Id, Point>, start: Id, id: Id, d: nat)
    ensures id in Ball(points, start, d) <==>
            exists path :: IsPath(points, start, path) && |path| <= d + 1 && path[|path| - 1] == id
  {
    if id in Ball(points, start, d) {
      var path := BallHasPath(points, start, id, Distance(points, start, id, d));
      assert IsPath(points, start, path) && |path| <= d + 1;
    }
    forall path | IsPath(points, start, path) && |path| <= d + 1 && path[|path| - 1] == id
      ensures id in Ball(points, start, d)
    {
      PathEndsInBall(points, start, path);
      BallGrows(points, start, |path| - 1, d);
    }
  }

  /** `Distance` is the length of a shortest path. */
  lemma {:induction false} DistanceIsShortest(points: map<Id, Point>, start: Id, id: Id, d: nat)
    requires id in Ball(points, start, d)
    ensures exists path :: IsPath(points, start, path) && path[|path| - 1] == id
                           && |path| == Distance(points, start, id, d) + 1
    ensures forall path :: IsPath(points, start, path) && path[|path| - 1] == id ==>
                             |path| > Distance(points, start, id, d)
  {
    var hops := Distance(points, start, id, d);
    var shortest := BallHasPath(points, start, id, hops);
    assert IsPath(points, start, shortest) && shortest[|shortest| - 1] == id && |shortest| == hops + 1;
    forall path | IsPath(points, start, path) && path[|path| - 1] == id
      ensures |path| > hops
    {
      PathEndsInBall(points, start, path);
      DepthIsUnique(points, start, id, hops, |path| - 1);
    }
  }

  // ---- The search ----

  /** Every id ever put on the queue, with the depth it was put there at. */
  datatype Entry = Entry(id: Id, depth: nat)

  type Trail = seq<Entry>

  ghost function Found(trail: Trail): set<Id> {
    if trail == [] then {} else Found(trail[..|trail| - 1]) + {trail[|trail| - 1].id}
  }

  lemma {:induction false} FoundAt(trail: Trail, i: nat)
    requires i < |trail|
    ensures trail[i].id in Found(trail)
  {
    var n := |trail| - 1;
    if i < n {
      FoundAt(trail[..n], i);
    }
  }

  lemma {:induction false} FoundIndex(trail: Trail, id: Id) returns (i: nat)
    requires id in Found(trail)
    ensures i < |trail| && trail[i].id == id
  {
    var n := |trail| - 1;
    if trail[n].id == id {
      i := n;
    } else {
      i := FoundIndex(trail[..n], id);
    }
  }

  lemma {:induction false} FoundAppend(trail: Trail, entry: Entry)
    ensures Found(trail + [entry]) == Found(trail) + {entry.id}
  {
    assert (trail + [entry])[..|trail|] == trail;
  }

  /** Distinct ids, in order of depth. */
  ghost predicate Ordered(trail: Trail) {
    if |trail| <= 1 then true
    else
      var n := |trail| - 1;
      && Ordered(trail[..n]) && trail[n].id !in Found(trail[..n])
      && trail[n - 1].depth <= trail[n].depth
  }

  /** A present id, recorded at its true depth. */
  ghost predicate Right(points: map<Id, Point>, start: Id, maxDepth: nat, entry: Entry) {
    entry.id in points && entry.depth <= maxDepth && AtDepth(points, start, entry.id, entry.depth)
  }

  ghost predicate Placed(points: map<Id, Point>, start: Id, maxDepth: nat, trail: Trail) {
    if trail == [] then true
    else
      var n := |trail| - 1;
      Placed(points, start, maxDepth, trail[..n]) && Right(points, start, maxDepth, trail[n])
  }

  ghost predicate Sound(points: map<Id, Point>, start: Id, maxDepth: nat, trail: Trail) {
    |trail| > 0 && trail[0] == Entry(start, 0) && Ordered(trail) && Placed(points, start, maxDepth, trail)
  }

  /** The queue spans at most two depths; the first h entries have been taken off. */
  ghost predicate Layered(trail: Trail, h: nat) {
    h <= |trail| && (h < |trail| ==> trail[|trail| - 1].depth <= trail[h].depth + 1)
  }

  lemma {:induction false} PlacedAt(points: map<Id, Point>, start: Id, maxDepth: nat, trail: Trail, i: nat)
    requires Placed(points, start, maxDepth, trail) && i < |trail|
    ensures Right(points, start, maxDepth, trail[i])
    decreases |trail|
  {
    var n := |trail| - 1;
    if i < n {
      PlacedAt(points, start, maxDepth, trail[..n], i);
    }
  }

  lemma {:induction false} OrderedPair(trail: Trail, i: nat, j: nat)
    requires Ordered(trail) && i < j < |trail|
    ensures trail[i].id != trail[j].id && trail[i].depth <= trail[j].depth
    decreases |trail|
  {
    var n := |trail| - 1;
    if j < n {
      OrderedPair(trail[..n], i, j);
    } else {
      FoundAt(trail[..n], i);
      if i < n - 1 {
        OrderedPair(trail[..n], i, n - 1);
      }
    }
  }

  /** Every entry taken off has had its neighbours put on, up to the bound. */
  ghost predicate Expanded(points: map<Id, Point>, maxDepth: nat, trail: Trail, h: nat)
    requires h <= |trail|
  {
    forall i :: 0 <= i < h && trail[i].depth < maxDepth ==> Neighbours(points, trail[i].id) <= Found(trail)
  }

  /** Once every entry shallower than e has been expanded, the whole ball of radius e is found. */
  lemma {:induction false} Covered(points: map<Id, Point>, start: Id, maxDepth: nat, trail: Trail, h: nat, e: nat)
    requires Sound(points, start, maxDepth, trail) && h <= |trail| && Expanded(points, maxDepth, trail, h)
    requires e <= maxDepth && (h < |trail| ==> trail[h].depth >= e)
    ensures Ball(points, start, e) <= Found(trail)
    decreases e
  {
    if e > 0 {
      Covered(points, start, maxDepth, trail, h, e - 1);
      forall a, b | a in Ball(points, start, e - 1) && b in Neighbours(points, a)
        ensures b in Found(trail)
      {
        CoveredStep(points, start, maxDepth, trail, h, e, a);
      }
    } else {
      FoundAt(trail, 0);
    }
  }

  lemma {:induction false} CoveredStep(
      points: map<Id, Point>, start: Id, maxDepth: nat, trail: Trail, h: nat, e: nat, a: Id)
    requires Sound(points, start, maxDepth, trail) && h <= |trail| && Expanded(points, maxDepth, trail, h)
    requires 0 < e <= maxDepth && (h < |trail| ==> trail[h].depth >= e)
    requires a in Ball(points, start, e - 1) && a in Found(trail)
    ensures Neighbours(points, a) <= Found(trail)
  {
    var i := FoundIndex(trail, a);
    PlacedAt(points, start, maxDepth, trail, i);
    DepthAtMost(points, start, a, trail[i].depth, e - 1);
    ShallowIsTaken(trail, h, e, i);
  }

  lemma {:induction false} ShallowIsTaken(trail: Trail, h: nat, e: nat, i: nat)
    requires Ordered(trail) && i < |trail| && trail[i].depth < e
    requires h < |trail| ==> trail[h].depth >= e
    ensures i < h
  {
    if h < i {
      OrderedPair(trail, h, i);
    }
  }

  lemma {:induction false} LayeredAppend(trail: Trail, h: nat, entry: Entry)
    requires Layered(trail, h) && h < |trail| && entry.depth <= trail[h].depth + 1
    ensures Layered(trail + [entry], h)
  {
  }

  lemma {:induction false} SoundAppend(points: map<Id, Point>, start: Id, maxDepth: nat, trail: Trail, entry: Entry)
    requires Sound(points, start, maxDepth, trail) && Right(points, start, maxDepth, entry)
    requires entry.id !in Found(trail) && trail[|trail| - 1].depth <= entry.depth
    ensures Sound(points, start, maxDepth, trail + [entry])
  {
    assert (trail + [entry])[..|trail|] == trail;
  }

  /** A neighbour of the head that has not been found lies one hop beyond it. */
  lemma {:induction false} Discover(
      points: map<Id, Point>, start: Id, maxDepth: nat, trail: Trail, h: nat, a: Id, d: nat, b: Id)
    requires Sound(points, start, maxDepth, trail) && Layered(trail, h) && h < |trail|
    requires trail[h] == Entry(a, d) && d < maxDepth && Ball(points, start, d) <= Found(trail)
    requires b in points && b in Neighbours(points, a) && b !in Found(trail)
    ensures Sound(points, start, maxDepth, trail + [Entry(b, d + 1)])
    ensures Layered(trail + [Entry(b, d + 1)], h)
  {
    PlacedAt(points, start, maxDepth, trail, h);
    RightNext(points, start, maxDepth, Found(trail), a, d, b);
    LayeredAppend(trail, h, Entry(b, d + 1));
    SoundAppend(points, start, maxDepth, trail, Entry(b, d + 1));
  }

  lemma {:induction false} RightNext(
      points: map<Id, Point>, start: Id, maxDepth: nat, found: set<Id>, a: Id, d: nat, b: Id)
    requires Right(points, start, maxDepth, Entry(a, d)) && d < maxDepth && Ball(points, start, d) <= found
    requires b in points && b in Neighbours(points, a) && b !in found
    ensures Right(points, start, maxDepth, Entry(b, d + 1))
  {
    OneHopFurther(points, start, a, b, d);
  }

  lemma {:induction false} OneHopFurther(points: map<Id, Point>, start: Id, a: Id, b: Id, d: nat)
    requires a in Ball(points, start, d) && b in Neighbours(points, a) && b !in Ball(points, start, d)
    ensures AtDepth(points, start, b, d + 1)
  {
    assert b in Widened(points, Ball(points, start, d));
  }

  lemma {:induction false} FoundCount(points: map<Id, Point>, start: Id, maxDepth: nat, trail: Trail)
    requires Ordered(trail) && Placed(points, start, maxDepth, trail)
    ensures |Found(trail)| == |trail| && Found(trail) <= points.Keys
    decreases |trail|
  {
    if trail != [] {
      FoundCount(points, start, maxDepth, trail[..|trail| - 1]);
    }
  }

  lemma {:induction false} TrailFits(points: map<Id, Point>, start: Id, maxDepth: nat, trail: Trail)
    requires Sound(points, start, maxDepth, trail)
    ensures |trail| <= |points|
  {
    FoundCount(points, start, maxDepth, trail);
    SubsetCount(Found(trail), points.Keys);
  }

  /** The head has been expanded: it can be taken off. */
  lemma {:induction false} Advance(
      points: map<Id, Point>, start: Id, maxDepth: nat, before: Trail, trail: Trail, h: nat)
    requires Sound(points, start, maxDepth, trail) && Layered(trail, h) && before <= trail && h < |before|
    requires Expanded(points, maxDepth, before, h) && Found(before) <= Found(trail)
    requires before[h].depth < maxDepth ==> Neighbours(points, before[h].id) <= Found(trail)
    ensures Layered(trail, h + 1) && Expanded(points, maxDepth, trail, h + 1)
  {
    if h + 1 < |trail| {
      OrderedPair(trail, h, h + 1);
    }
    assert forall i :: 0 <= i <= h ==> trail[i] == before[i];
  }

  /** The points found so far, in the order they were put on the queue. */
  ghost predicate Collects(points: map<Id, Point>, trail: Trail, found: seq<Point>) {
    && |found| == |trail|
    && forall i :: 0 <= i < |trail| ==> trail[i].id in points && found[i] == points[trail[i].id]
  }

  /** The dangling neighbours seen are visited too, but never found. */
  ghost predicate Visits(points: map<Id, Point>, trail: Trail, visited: set<Id>) {
    visited * points.Keys == Found(trail)
  }

  lemma {:induction false} VisitNew(
      points: map<Id, Point>, trail: Trail, found: seq<Point>, visited: set<Id>, h: nat, entry: Entry)
    requires Collects(points, trail, found) && Visits(points, trail, visited) && entry.id in points && h < |trail|
    ensures (trail + [entry])[h + 1..] == trail[h + 1..] + [entry]
    ensures Collects(points, trail + [entry], found + [points[entry.id]])
    ensures Visits(points, trail + [entry], visited + {entry.id})
  {
    FoundAppend(trail, entry);
  }

  /** The neighbours listed in `rels` are found. */
  ghost predicate AllFound(points: map<Id, Point>, rels: seq<Id>, trail: Trail) {
    forall b :: b in rels && b.text != "" && b in points ==> b in Found(trail)
  }

  /** The loop state while the relations of the head, a point at depth d, are walked. */
  ghost predicate Expanding(
      points: map<Id, Point>, start: Id, maxDepth: nat, trail0: Trail, trail: Trail, h: nat, a: Id, d: nat,
      rels: seq<Id>)
  {
    && Sound(points, start, maxDepth, trail) && Layered(trail, h) && h < |trail0| && trail0 <= trail
    && trail[h] == Entry(a, d) && d < maxDepth && Found(trail0) <= Found(trail)
    && Ball(points, start, d) <= Found(trail) && AllFound(points, rels, trail)
  }

  lemma {:induction false} ExpandNew(
      points: map<Id, Point>, start: Id, maxDepth: nat, trail0: Trail, trail: Trail, h: nat, a: Id, d: nat,
      rels: seq<Id>, b: Id)
    requires Expanding(points, start, maxDepth, trail0, trail, h, a, d, rels)
    requires b in points && b in Neighbours(points, a) && b !in Found(trail)
    ensures Expanding(points, start, maxDepth, trail0, trail + [Entry(b, d + 1)], h, a, d, rels + [b])
  {
    Discover(points, start, maxDepth, trail, h, a, d, b);
    FoundAppend(trail, Entry(b, d + 1));
  }

  lemma {:induction false} ExpandOld(
      points: map<Id, Point>, start: Id, maxDepth: nat, trail0: Trail, trail: Trail, h: nat, a: Id, d: nat,
      rels: seq<Id>, b: Id)
    requires Expanding(points, start, maxDepth, trail0, trail, h, a, d, rels)
    requires b.text != "" && b in points ==> b in Found(trail)
    ensures Expanding(points, start, maxDepth, trail0, trail, h, a, d, rels + [b])
  {
  }

  /** Whether a relation leads to a point not found yet, as the visited set sees it. */
  lemma {:induction false} Unvisited(points: map<Id, Point>, trail: Trail, visited: set<Id>, b: Id)
    requires Visits(points, trail, visited) && b in points
    ensures b in visited <==> b in Found(trail)
  {
    assert b in visited * points.Keys <==> b in Found(trail);
  }

  lemma {:induction false} PrefixNext(rels: seq<Id>, j: nat)
    requires j < |rels|
    ensures rels[..j + 1] == rels[..j] + [rels[j]]
  {
  }

  /** A neighbour that is not visited yet goes on the queue. */
  lemma {:induction false} TakeNew(
      points: map<Id, Point>, start: Id, maxDepth: nat, trail0: Trail, trail: Trail, h: nat, a: Id, d: nat,
      rels: seq<Id>, b: Id, found: seq<Point>, visited: set<Id>)
    requires Expanding(points, start, maxDepth, trail0, trail, h, a, d, rels)
    requires b in points && b in Neighbours(points, a) && b !in Found(trail) && h < |trail|
    requires Collects(points, trail, found) && Visits(points, trail, visited)
    ensures var entry := Entry(b, d + 1);
            && Expanding(points, start, maxDepth, trail0, trail + [entry], h, a, d, rels + [b])
            && (trail + [entry])[h + 1..] == trail[h + 1..] + [entry]
            && Collects(points, trail + [entry], found + [points[b]])
            && Visits(points, trail + [entry], visited + {b})
  {
    ExpandNew(points, start, maxDepth, trail0, trail, h, a, d, rels, b);
    VisitNew(points, trail, found, visited, h, Entry(b, d + 1));
  }

  /** The inner loop: puts the unvisited neighbours of one point on the queue. */
  method Expand(
      points: map<Id, Point>, rels: seq<Id>, nextDepth: nat, visited0: set<Id>, found0: seq<Point>, queue0: Trail,
      ghost start: Id, ghost maxDepth: nat, ghost trail0: Trail, ghost h: nat, ghost a: Id, ghost d: nat)
    returns (visited: set<Id>, found: seq<Point>, queue: Trail, ghost trail: Trail)
    requires WellKeyed(points) && Expanding(points, start, maxDepth, trail0, trail0, h, a, d, [])
    requires a in points && points[a].relations == Some(rels)
    requires nextDepth == d + 1 && queue0 == trail0[h + 1..]
    requires Collects(points, trail0, found0) && Visits(points, trail0, visited0)
    ensures Expanding(points, start, maxDepth, trail0, trail, h, a, d, rels) && queue == trail[h + 1..]
    ensures Collects(points, trail, found) && Visits(points, trail, visited)
  {
    visited, found, queue, trail := visited0, found0, queue0, trail0;
    for j := 0 to |rels|
      invariant Expanding(points, start, maxDepth, trail0, trail, h, a, d, rels[..j]) && queue == trail[h + 1..]
      invariant Collects(points, trail, found) && Visits(points, trail, visited)
    {
      var b := rels[j];
      PrefixNext(rels, j);
      if b in points {
        Unvisited(points, trail, visited, b);
      }
      if b.text == "" || b in visited {
        ExpandOld(points, start, maxDepth, trail0, trail, h, a, d, rels[..j], b);
        continue;
      }
      if b in points {
        TakeNew(points, start, maxDepth, trail0, trail, h, a, d, rels[..j], b, found, visited);
        found := found + [points[b]];
        queue := queue + [Entry(points[b].id, nextDepth)];
        trail := trail + [Entry(b, d + 1)];
      } else {
        ExpandOld(points, start, maxDepth, trail0, trail, h, a, d, rels[..j], b);
      }
      visited := visited + {b};
    }
    assert rels[..|rels|] == rels;
  }

  ghost function PointIds(found: seq<Point>): set<Id> {
    set p | p in found :: p.id
  }

  /**
   * What the search promises: every present point within `maxDepth` hops, each once, the start
   * first and the nearer points before the farther ones.
   */
  ghost predicate IsBfs(points: map<Id, Point>, start: Id, maxDepth: nat, found: seq<Point>) {
    && (forall i :: 0 <= i < |found| ==>
          found[i].id in Ball(points, start, maxDepth) && found[i].id in points && points[found[i].id] == found[i])
    && (forall i, j :: 0 <= i < j < |found| ==> found[i].id != found[j].id)
    && PointIds(found) == Ball(points, start, maxDepth)
    && |found| > 0 && found[0].id == start
    && forall i, j :: 0 <= i < j < |found| ==>
         Distance(points, start, found[i].id, maxDepth) <= Distance(points, start, found[j].id, maxDepth)
  }

  lemma {:induction false} SameIds(points: map<Id, Point>, trail: Trail, found: seq<Point>)
    requires WellKeyed(points) && Collects(points, trail, found)
    ensures PointIds(found) == Found(trail)
  {
    forall i | 0 <= i < |trail|
      ensures found[i].id in Found(trail)
    {
      FoundAt(trail, i);
    }
    forall id | id in Found(trail)
      ensures id in PointIds(found)
    {
      var i := FoundIndex(trail, id);
      assert found[i] in found;
    }
  }

  /** The depth an id was found at is its distance. */
  lemma {:induction false} DepthIsDistance(points: map<Id, Point>, start: Id, maxDepth: nat, trail: Trail, i: nat)
    requires Sound(points, start, maxDepth, trail) && i < |trail|
    ensures trail[i].id in Ball(points, start, maxDepth)
    ensures Distance(points, start, trail[i].id, maxDepth) == trail[i].depth
  {
    PlacedAt(points, start, maxDepth, trail, i);
    BallGrows(points, start, trail[i].depth, maxDepth);
    DepthIsUnique(points, start, trail[i].id, trail[i].depth, maxDepth);
  }

  lemma {:induction false} FinishedIds(
      points: map<Id, Point>, start: Id, maxDepth: nat, trail: Trail, found: seq<Point>)
    requires WellKeyed(points) && Sound(points, start, maxDepth, trail) && Layered(trail, |trail|)
    requires Expanded(points, maxDepth, trail, |trail|) && Collects(points, trail, found)
    ensures PointIds(found) == Ball(points, start, maxDepth) && |found| == |trail| > 0 && found[0].id == start
  {
    Covered(points, start, maxDepth, trail, |trail|, maxDepth);
    PlacedAt(points, start, maxDepth, trail, 0);
    SameIds(points, trail, found);
    forall id | id in Found(trail)
      ensures id in Ball(points, start, maxDepth)
    {
      var i :| 0 <= i < |trail| && trail[i].id == id;
      DepthIsDistance(points, start, maxDepth, trail, i);
    }
  }

  lemma {:induction false} FinishedOrder(
      points: map<Id, Point>, start: Id, maxDepth: nat, trail: Trail, found: seq<Point>, i: nat, j: nat)
    requires WellKeyed(points) && Sound(points, start, maxDepth, trail) && Layered(trail, |trail|)
    requires Collects(points, trail, found) && i < j < |trail|
    ensures found[i].id in Ball(points, start, maxDepth) && found[j].id in Ball(points, start, maxDepth)
    ensures found[i].id != found[j].id
    ensures Distance(points, start, found[i].id, maxDepth) <= Distance(points, start, found[j].id, maxDepth)
  {
    DepthIsDistance(points, start, maxDepth, trail, i);
    DepthIsDistance(points, start, maxDepth, trail, j);
    OrderedPair(trail, i, j);
  }

  lemma {:induction false} FinishedTrail(
      points: map<Id, Point>, start: Id, maxDepth: nat, trail: Trail, found: seq<Point>)
    requires WellKeyed(points) && Sound(points, start, maxDepth, trail) && Layered(trail, |trail|)
    requires Expanded(points, maxDepth, trail, |trail|) && Collects(points, trail, found)
    ensures IsBfs(points, start, maxDepth, found)
  {
    FinishedIds(points, start, maxDepth, trail, found);
    forall i | 0 <= i < |found|
      ensures found[i].id in Ball(points, start, maxDepth) && found[i].id in points && points[found[i].id] == found[i]
    {
      assert found[i] in found;
    }
    forall i, j | 0 <= i < j < |found|
      ensures found[i].id in Ball(points, start, maxDepth) && found[j].id in Ball(points, start, maxDepth)
      ensures found[i].id != found[j].id
      ensures Distance(points, start, found[i].id, maxDepth) <= Distance(points, start, found[j].id, maxDepth)
    {
      FinishedOrder(points, start, maxDepth, trail, found, i, j);
    }
  }

  lemma {:induction false} NeighboursFound(points: map<Id, Point>, id: Id, trail: Trail)
    requires id in points && points[id].relations.Some? && AllFound(points, points[id].relations.value, trail)
    ensures Neighbours(points, id) <= Found(trail)
  {
  }

  method TraverseBfs(points: map<Id, Point>, start: Id, maxDepth: nat) returns (r: Result<seq<Point>, Error>)
    requires WellKeyed(points)
    ensures start.text == "" ==> r == Err(InvalidPointId)
    ensures start.text != "" && start !in points ==> r == Err(PointNotFound(start))
    ensures start.text != "" && start in points ==> r.Ok? && IsBfs(points, start, maxDepth, r.value)
  {
    if start.text == "" {
      return Err(InvalidPointId);
    }
    if start !in points {
      return Err(PointNotFound(start));
    }
    var queue: Trail := [Entry(start, 0)];
    var visited: set<Id> := {start};
    var found := [points[start]];
    ghost var trail: Trail, h: nat := queue, 0;
    TrailFits(points, start, maxDepth, trail);
    while queue != []
      invariant Sound(points, start, maxDepth, trail) && Layered(trail, h) && queue == trail[h..]
      invariant Expanded(points, maxDepth, trail, h)
      invariant Collects(points, trail, found) && Visits(points, trail, visited)
      invariant |trail| <= |points|
      decreases |points| - h
    {
      var Entry(id, depth) := queue[0];
      queue := queue[1..];
      ghost var before := trail;
      if depth < maxDepth && id in points && points[id].relations.Some? {
        Covered(points, start, maxDepth, trail, h, depth);
        visited, found, queue, trail := Expand(
          points, points[id].relations.value, depth + 1, visited, found, queue, start, maxDepth, trail, h,
          id, depth);
        NeighboursFound(points, id, trail);
        TrailFits(points, start, maxDepth, trail);
      }
      PlacedAt(points, start, maxDepth, before, h);
      Advance(points, start, maxDepth, before, trail, h);
      h := h + 1;
    }
    FinishedTrail(points, start, maxDepth, trail, found);
    r := Ok(found);
  }
}
