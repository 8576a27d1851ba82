/** The first phase of `upsert_points`: what a call refuses before it logs anything (`lib.rs`). */
module UpsertCall {
  import opened Base
  import opened Ranking
  import opened IndexRows
  import opened Hnsw
  import opened Collections

  const PARALLEL_BATCH := 100

  /** Normalising keeps the length, and what is normalised can be normalised again. */
  ghost predicate NormalLaw(b: Backend) {
    b.cosine ==> forall v :: b.prepare(v).Some? ==>
                               |b.prepare(v).value| == |v| && b.prepare(b.prepare(v).value).Some?
  }

  ghost predicate AllSized(points: seq<Point>, dimension: nat) {
    forall i :: 0 <= i < |points| ==> |points[i].vector| == dimension
  }

  /** The batch is normalised as a whole before it is logged. */
  predicate NormalisedFirst(b: Backend, points: seq<Point>) {
    b.cosine && |points| > PARALLEL_BATCH
  }

  ghost function Normalised(b: Backend, points: seq<Point>): (out: seq<Point>)
    requires AllPrepared(b, points)
    ensures |out| == |points|
  {
    seq(|points|, i requires 0 <= i < |points| => points[i].(vector := b.prepare(points[i].vector).value))
  }

  /** What goes into the log, or the error of a call that leaves no trace. */
  ghost function Logged(b: Backend, dimension: nat, points: seq<Point>): Result<seq<Point>, Error> {
    if !AllSized(points, dimension) then Err(DimensionMismatch)
    else if !NormalisedFirst(b, points) then Ok(points)
    else if AllPrepared(b, points) then Ok(Normalised(b, points))
    else Err(InvalidVector)
  }

  /** Refuses, or passes on every point with its own vector, normalised if the batch is cosine and large. */
  method Validate(b: Backend, dimension: nat, points: seq<Point>) returns (r: Result<seq<Point>, Error>)
    ensures r == Logged(b, dimension, points)
    ensures r == Err(DimensionMismatch) <==> exists i :: 0 <= i < |points| && |points[i].vector| != dimension
    ensures r == Err(InvalidVector) <==>
            && b.cosine && |points| > 100
            && (forall i :: 0 <= i < |points| ==> |points[i].vector| == dimension)
            && exists i :: 0 <= i < |points| && b.prepare(points[i].vector).None?
    ensures r.Ok? ==> |r.value| == |points|
    ensures r.Ok? ==> forall i :: 0 <= i < |points| ==>
              && r.value[i].(vector := points[i].vector) == points[i]
              && (if b.cosine && |points| > 100 then b.prepare(points[i].vector) == Some(r.value[i].vector)
                  else r.value[i].vector == points[i].vector)
    ensures r.Err? ==> r.error == DimensionMismatch || r.error == InvalidVector
  {
    for i := 0 to |points|
      invariant AllSized(points[..i], dimension)
    {
      if |points[i].vector| != dimension {
        return Err(DimensionMismatch);
      }
      assert points[..i + 1] == points[..i] + [points[i]];
    }
    assert points[..|points|] == points;
    if !NormalisedFirst(b, points) {
      return Ok(points);
    }
    r := NormaliseAll(b, points);
  }

  method NormaliseAll(b: Backend, points: seq<Point>) returns (r: Result<seq<Point>, Error>)
    ensures r == if AllPrepared(b, points) then Ok(Normalised(b, points)) else Err(InvalidVector)
  {
    var out: seq<Point> := [];
    for i := 0 to |points|
      invariant |out| == i
      invariant forall j :: 0 <= j < i ==>
                  b.prepare(points[j].vector).Some? && out[j] == points[j].(vector := b.prepare(points[j].vector).value)
    {
      match b.prepare(points[i].vector)
      case None =>
        return Err(InvalidVector);
      case Some(v) =>
        out := out + [points[i].(vector := v)];
    }
    assert out == Normalised(b, points);
    r := Ok(out);
  }

  // ---- The index does not see the difference ----

  /** What is prepared already is not changed by preparing it. */
  ghost predicate Idempotent(b: Backend) {
    forall v :: b.prepare(v).Some? ==> b.prepare(b.prepare(v).value) == b.prepare(v)
  }

  /** The rows after inserting a batch, one point after the other. */
  ghost function Inserted(b: Backend, rows: Rows, points: seq<Point>): Rows {
    if points == [] then rows
    else
      var n := |points| - 1;
      Added(b, Inserted(b, rows, points[..n]), points[n].id, points[n].vector)
  }

  /** The same points, each with a vector that is prepared to the same. */
  ghost predicate PrepareAlike(b: Backend, left: seq<Point>, right: seq<Point>) {
    && |left| == |right|
    && forall i :: 0 <= i < |left| ==> left[i].id == right[i].id && b.prepare(left[i].vector) == b.prepare(right[i].vector)
  }

  lemma {:induction false} InsertedAlike(b: Backend, rows: Rows, left: seq<Point>, right: seq<Point>)
    requires PrepareAlike(b, left, right)
    ensures Inserted(b, rows, left) == Inserted(b, rows, right)
    decreases |left|
  {
    if left != [] {
      InsertedAlike(b, rows, left[..|left| - 1], right[..|right| - 1]);
    }
  }

  /** Whatever the index holds, inserting the logged batch leaves it as inserting the batch as sent would. */
  lemma {:induction false} LoggedInsertsAsSent(b: Backend, dimension: nat, rows: Rows, points: seq<Point>)
    requires Idempotent(b) && Logged(b, dimension, points).Ok?
    ensures Inserted(b, rows, Logged(b, dimension, points).value) == Inserted(b, rows, points)
  {
    InsertedAlike(b, rows, Logged(b, dimension, points).value, points);
  }

  ghost predicate AllAccepted(b: Backend, dimension: nat, points: seq<Point>) {
    forall i :: 0 <= i < |points| ==> Acceptance(b, dimension)(points[i])
  }

  /**
   * A call logs a batch of which `insert` then rejects a point exactly when every vector has the right
   * dimension, some vector is refused by the metric, and the batch is not normalised first.
   */
  lemma {:induction false} RejectedAfterLoggingIff(b: Backend, dimension: nat, points: seq<Point>)
    requires NormalLaw(b)
    ensures (Logged(b, dimension, points).Ok? && !AllAccepted(b, dimension, Logged(b, dimension, points).value))
       <==> (AllSized(points, dimension) && !AllPrepared(b, points) && !NormalisedFirst(b, points))
  {
    if AllSized(points, dimension) {
      if !NormalisedFirst(b, points) {
        AcceptedIffPrepared(b, dimension, points);
      } else if AllPrepared(b, points) {
        NormalisedAccepted(b, dimension, points);
      }
    }
  }

  lemma {:induction false} AcceptedIffPrepared(b: Backend, dimension: nat, points: seq<Point>)
    requires AllSized(points, dimension)
    ensures AllAccepted(b, dimension, points) <==> AllPrepared(b, points)
  {
    if !AllPrepared(b, points) {
      var i :| 0 <= i < |points| && b.prepare(points[i].vector).None?;
      assert !Acceptance(b, dimension)(points[i]);
    }
  }

  lemma {:induction false} NormalisedAccepted(b: Backend, dimension: nat, points: seq<Point>)
    requires NormalLaw(b) && b.cosine && AllSized(points, dimension) && AllPrepared(b, points)
    ensures AllAccepted(b, dimension, Normalised(b, points))
  {
  }
}
