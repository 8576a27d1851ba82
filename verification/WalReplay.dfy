/**
 * What a log of operations does to a collection, and the recovery functions of `wal.rs`
 * that replay one: full recovery, recovery to a point in time, and retention.
 */
module WalReplay {
  import opened Base

  datatype Operation =
    | Upsert(point: Point)
    | Delete(id: Id)
    | Link(from: Id, to: Id)

  datatype Entry = Entry(timestamp: nat, operation: Operation)

  type Store = map<Id, Point>

  /** The checks of `Collection::insert`: dimension, finite components, non-zero norm for cosine. */
  type Checks = Point -> bool

  // ---- One operation, and a whole log ----

  function WithRelation(p: Point, id: Id): (r: Point)
    ensures r.(relations := None) == p.(relations := None)
  {
    match p.relations
    case None => p.(relations := Some([id]))
    case Some(ids) => if id in ids then p else p.(relations := Some(ids + [id]))
  }

  /** `Collection::add_relation`; an error leaves the store as it was. */
  function AddRelation(s: Store, from: Id, to: Id): (r: Result<Store, Error>)
    ensures r.Ok? <==> from != to && from in s && to in s
    ensures r.Ok? ==> r.value.Keys == s.Keys && Bare(r.value) == Bare(s)
  {
    if from == to then Err(InvalidPointId)
    else if from !in s then Err(PointNotFound(from))
    else if to !in s then Err(PointNotFound(to))
    else Ok(s[from := WithRelation(s[from], to)][to := WithRelation(s[to], from)])
  }

  /** Replay of one operation: a failing one is skipped. */
  function Apply(s: Store, op: Operation, accepts: Checks): Store {
    match op
    case Upsert(p) => if accepts(p) then s[p.id := p] else s
    case Delete(id) => s - {id}
    case Link(from, to) =>
      match AddRelation(s, from, to) {
        case Ok(t) => t
        case Err(_) => s
      }
  }

  function Replay(s: Store, ops: seq<Operation>, accepts: Checks): Store {
    if ops == [] then s
    else Apply(Replay(s, ops[..|ops| - 1], accepts), ops[|ops| - 1], accepts)
  }

  lemma {:induction false} ReplayConcat(s: Store, a: seq<Operation>, b: seq<Operation>, accepts: Checks)
    ensures Replay(s, a + b, accepts) == Replay(Replay(s, a, accepts), b, accepts)
  {
    if b == [] {
      assert a + b == a;
    } else {
      assert (a + b)[..|a + b| - 1] == a + b[..|b| - 1];
      ReplayConcat(s, a, b[..|b| - 1], accepts);
    }
  }

  lemma {:induction false} ReplayWellKeyed(s: Store, ops: seq<Operation>, accepts: Checks)
    requires WellKeyed(s)
    ensures WellKeyed(Replay(s, ops, accepts))
  {
    if ops != [] {
      ReplayWellKeyed(s, ops[..|ops| - 1], accepts);
    }
  }

  /** The loop of `recover_collection`. */
  method ReplayLog(s: Store, ops: seq<Operation>, accepts: Checks) returns (t: Store)
    ensures t == Replay(s, ops, accepts)
  {
    t := s;
    for i := 0 to |ops|
      invariant t == Replay(s, ops[..i], accepts)
    {
      assert ops[..i + 1][..i] == ops[..i];
      match ops[i] {
        case Upsert(p) =>
          if accepts(p) {
            t := t[p.id := p];
          }
        case Delete(id) =>
          if id in t {
            t := t - {id};
          }
        case Link(from, to) =>
          var r := AddRelation(t, from, to);
          if r.Ok? {
            t := r.value;
          }
      }
    }
    assert ops[..|ops|] == ops;
  }

  // ---- The effect of a log, independent of the store it is replayed on ----

  /** What a log leaves behind for each id it touches: the last accepted point, or its absence. */
  type Effects = map<Id, Option<Point>>

  ghost function Effect(ops: seq<Operation>, accepts: Checks): Effects {
    if ops == [] then map[]
    else
      var e := Effect(ops[..|ops| - 1], accepts);
      match ops[|ops| - 1]
      case Upsert(p) => if accepts(p) then e[p.id := Some(p)] else e
      case Delete(id) => e[id := None]
      case Link(_, _) => e
  }

  ghost function Override(s: Store, e: Effects): Store {
    map k | k in s.Keys + e.Keys && (k in e ==> e[k].Some?) :: if k in e then e[k].value else s[k]
  }

  /** The store with the relations of every point blanked. */
  ghost function Bare(s: Store): Store {
    map k | k in s :: s[k].(relations := None)
  }

  ghost function BareEffects(e: Effects): Effects {
    map k | k in e :: if e[k].Some? then Some(e[k].value.(relations := None)) else None
  }

  ghost predicate LinkFree(ops: seq<Operation>) {
    forall i :: 0 <= i < |ops| ==> !ops[i].Link?
  }

  lemma {:induction false} EffectConcat(a: seq<Operation>, b: seq<Operation>, accepts: Checks)
    ensures Effect(a + b, accepts) == Effect(a, accepts) + Effect(b, accepts)
  {
    if b == [] {
      assert a + b == a;
    } else {
      assert (a + b)[..|a + b| - 1] == a + b[..|b| - 1];
      EffectConcat(a, b[..|b| - 1], accepts);
    }
  }

  lemma {:induction false} OverrideExtend(s: Store, e: Effects, k: Id, x: Option<Point>)
    ensures Override(s, e[k := x]) == if x.Some? then Override(s, e)[k := x.value] else Override(s, e) - {k}
  {
  }

  /** Replaying a log without links overrides the store with the log's effect. */
  lemma {:induction false} ReplayIsOverride(s: Store, ops: seq<Operation>, accepts: Checks)
    requires LinkFree(ops)
    ensures Replay(s, ops, accepts) == Override(s, Effect(ops, accepts))
  {
    if ops == [] {
      assert Override(s, map[]) == s;
    } else {
      var init, last := ops[..|ops| - 1], ops[|ops| - 1];
      ReplayIsOverride(s, init, accepts);
      match last {
        case Upsert(p) => OverrideExtend(s, Effect(init, accepts), p.id, Some(p));
        case Delete(id) => OverrideExtend(s, Effect(init, accepts), id, None);
      }
    }
  }

  lemma {:induction false} BareApply(s: Store, op: Operation, accepts: Checks)
    ensures op.Upsert? && accepts(op.point) ==>
              Bare(Apply(s, op, accepts)) == Bare(s)[op.point.id := op.point.(relations := None)]
    ensures op.Upsert? && !accepts(op.point) ==> Apply(s, op, accepts) == s
    ensures op.Delete? ==> Bare(Apply(s, op, accepts)) == Bare(s) - {op.id}
    ensures op.Link? ==> Bare(Apply(s, op, accepts)) == Bare(s)
  {
  }

  lemma {:induction false} BareEffectsExtend(e: Effects, k: Id, x: Option<Point>)
    ensures BareEffects(e[k := x]) ==
            BareEffects(e)[k := if x.Some? then Some(x.value.(relations := None)) else None]
  {
  }

  /** With links in the log the same holds of everything but the relations. */
  lemma {:induction false} BareReplayIsOverride(s: Store, ops: seq<Operation>, accepts: Checks)
    ensures Bare(Replay(s, ops, accepts)) == Override(Bare(s), BareEffects(Effect(ops, accepts)))
  {
    if ops == [] {
      assert Effect(ops, accepts) == map[];
    } else {
      var init, last := ops[..|ops| - 1], ops[|ops| - 1];
      BareReplayIsOverride(s, init, accepts);
      BareApply(Replay(s, init, accepts), last, accepts);
      var e := Effect(init, accepts);
      match last {
        case Upsert(p) =>
          BareEffectsExtend(e, p.id, Some(p));
          OverrideExtend(Bare(s), BareEffects(e), p.id, Some(p.(relations := None)));
        case Delete(id) =>
          BareEffectsExtend(e, id, None);
          OverrideExtend(Bare(s), BareEffects(e), id, None);
        case Link(from, to) =>
      }
    }
  }

  lemma {:induction false} BareEffectsUnion(d: Effects, e: Effects)
    ensures BareEffects(d + e) == BareEffects(d) + BareEffects(e)
  {
  }

  lemma {:induction false} OverrideAgain(s: Store, d: Effects, e: Effects)
    ensures Override(Override(s, d + e), e) == Override(s, d + e)
  {
  }

  // ---- Replaying again what the store already contains ----

  /**
   * Replaying any suffix of a log of upserts and deletes on the store that the whole log
   * produced changes nothing: a crash between the snapshot and the truncation is harmless.
   */
  lemma {:induction false} ReplayAbsorbsSuffix(s: Store, ops: seq<Operation>, k: nat, accepts: Checks)
    requires LinkFree(ops) && k <= |ops|
    ensures Replay(Replay(s, ops, accepts), ops[k..], accepts) == Replay(s, ops, accepts)
  {
    var final := Replay(s, ops, accepts);
    ReplayIsOverride(s, ops, accepts);
    ReplayIsOverride(final, ops[k..], accepts);
    assert ops[..k] + ops[k..] == ops;
    EffectConcat(ops[..k], ops[k..], accepts);
    OverrideAgain(s, Effect(ops[..k], accepts), Effect(ops[k..], accepts));
  }

  /** With links anywhere in the log, everything but the relations is still unchanged. */
  lemma {:induction false} ReplayAbsorbsSuffixUpToRelations(s: Store, ops: seq<Operation>, k: nat, accepts: Checks)
    requires k <= |ops|
    ensures Bare(Replay(Replay(s, ops, accepts), ops[k..], accepts)) == Bare(Replay(s, ops, accepts))
  {
    BareReplayIsOverride(s, ops, accepts);
    BareReplayIsOverride(Replay(s, ops, accepts), ops[k..], accepts);
    var d, e := Effect(ops[..k], accepts), Effect(ops[k..], accepts);
    assert Effect(ops, accepts) == d + e by {
      assert ops[..k] + ops[k..] == ops;
      EffectConcat(ops[..k], ops[k..], accepts);
    }
    BareEffectsUnion(d, e);
    OverrideAgain(Bare(s), BareEffects(d), BareEffects(e));
  }

  /**
   * The relations themselves can change: a link logged while one end was still absent
   * succeeds when the log is replayed on its own result.
   */
  lemma {:induction false} ReplayMayAddRelation(p: Point, q: Point, accepts: Checks)
    requires p.id != q.id && p.relations == None && accepts(q)
    ensures var ops := [Link(p.id, q.id), Upsert(q)];
            var once := Replay(map[p.id := p], ops, accepts);
            && p.id in once && once[p.id].relations == None
            && p.id in Replay(once, ops, accepts)
            && Replay(once, ops, accepts)[p.id].relations == Some([q.id])
  {
    var s: Store := map[p.id := p];
    var ops := [Link(p.id, q.id), Upsert(q)];
    ReplayPair(s, ops[0], ops[1], accepts);
    ReplayPair(s[q.id := q], ops[0], ops[1], accepts);
  }

  lemma {:induction false} ReplayPair(s: Store, a: Operation, b: Operation, accepts: Checks)
    ensures Replay(s, [a, b], accepts) == Apply(Apply(s, a, accepts), b, accepts)
  {
    assert [a, b][..1] == [a] && [a][..0] == [];
    assert Replay(s, [a], accepts) == Apply(s, a, accepts);
  }

  /** Effects that differ at some id are told apart by a well-keyed store. */
  lemma {:induction false} DistinguishingStore(a: Effects, b: Effects, k: Id) returns (s: Store)
    requires k in a
    requires k in b ==> a[k] != b[k]
    ensures WellKeyed(s) && Override(s, a) != Override(s, b)
  {
    if k in b {
      s := map[];
      assert a[k].Some? <==> k in Override(s, a);
      assert b[k].Some? <==> k in Override(s, b);
    } else {
      var p := Point(k, [], "", 0, None, None);
      s := map[k := if a[k] == Some(p) then p.(metadata := "other") else p];
      assert a[k].Some? <==> k in Override(s, a);
      assert k in Override(s, b) && Override(s, b)[k] == s[k];
    }
  }

  /** Two logs are interchangeable whatever the snapshot they are replayed on. */
  ghost predicate SameOnEveryStore(a: seq<Operation>, b: seq<Operation>, accepts: Checks) {
    forall s: Store | WellKeyed(s) :: Replay(s, a, accepts) == Replay(s, b, accepts)
  }

  /** Each effect of the later log is one the earlier log has had already. */
  ghost predicate Repeats(later: Effects, earlier: Effects) {
    forall id :: id in later ==> id in earlier && earlier[id] == later[id]
  }

  /** Two link-free logs are interchangeable exactly when their effects agree. */
  lemma {:induction false} SameOnEveryStoreIff(a: seq<Operation>, b: seq<Operation>, accepts: Checks)
    requires LinkFree(a) && LinkFree(b)
    ensures SameOnEveryStore(a, b, accepts) <==> Effect(a, accepts) == Effect(b, accepts)
  {
    var ea, eb := Effect(a, accepts), Effect(b, accepts);
    forall s: Store
      ensures Replay(s, a, accepts) == Override(s, ea)
      ensures Replay(s, b, accepts) == Override(s, eb)
    {
      ReplayIsOverride(s, a, accepts);
      ReplayIsOverride(s, b, accepts);
    }
    if ea != eb {
      var k :| k in ea.Keys + eb.Keys && (k in ea && k in eb ==> ea[k] != eb[k]);
      var s;
      if k in ea {
        s := DistinguishingStore(ea, eb, k);
      } else {
        s := DistinguishingStore(eb, ea, k);
      }
      assert Replay(s, a, accepts) != Replay(s, b, accepts);
    }
  }
}
