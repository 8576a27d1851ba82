/** When a log with links can be replayed on its own result without changing even the relations (`wal.rs`). */
module LinkReplay {
  import opened Base
  import opened WalReplay

  ghost function Slot(s: Store, id: Id): Option<Point> {
    if id in s then Some(s[id]) else None
  }

  predicate HasRelation(p: Point, id: Id) {
    p.relations.Some? && id in p.relations.value
  }

  /** No accepted upsert and no delete of the id. */
  ghost predicate Untouched(ops: seq<Operation>, id: Id, accepts: Checks) {
    id !in Effect(ops, accepts)
  }

  /** No link is followed by an accepted upsert or a delete of one of its ends. */
  ghost predicate LinksLast(ops: seq<Operation>, accepts: Checks) {
    forall i :: 0 <= i < |ops| && ops[i].Link? ==>
                  Untouched(ops[i + 1..], ops[i].from, accepts) && Untouched(ops[i + 1..], ops[i].to, accepts)
  }

  lemma {:induction false} KeyPersists(s: Store, ops: seq<Operation>, id: Id, accepts: Checks)
    requires Untouched(ops, id, accepts)
    ensures id in Replay(s, ops, accepts) <==> id in s
  {
    if ops != [] {
      KeyPersists(s, ops[..|ops| - 1], id, accepts);
    }
  }

  lemma {:induction false} RelationPersists(s: Store, ops: seq<Operation>, id: Id, other: Id, accepts: Checks)
    requires Untouched(ops, id, accepts) && id in s && HasRelation(s[id], other)
    ensures id in Replay(s, ops, accepts) && HasRelation(Replay(s, ops, accepts)[id], other)
  {
    if ops != [] {
      RelationPersists(s, ops[..|ops| - 1], id, other, accepts);
    }
  }

  /** What the second replay has under an id after i operations: what the first had there, or its final value. */
  ghost function Expected(s: Store, ops: seq<Operation>, i: nat, id: Id, accepts: Checks): Option<Point>
    requires i <= |ops|
  {
    if id in Effect(ops[..i], accepts) then Slot(Replay(s, ops[..i], accepts), id)
    else Slot(Replay(s, ops, accepts), id)
  }

  ghost predicate Follows(s: Store, ops: seq<Operation>, i: nat, again: Store, accepts: Checks)
    requires i <= |ops|
  {
    forall id :: Slot(again, id) == Expected(s, ops, i, id, accepts)
  }

  lemma {:induction false} ReplayRest(s: Store, ops: seq<Operation>, i: nat, accepts: Checks)
    requires i <= |ops|
    ensures Replay(s, ops, accepts) == Replay(Replay(s, ops[..i], accepts), ops[i..], accepts)
  {
    assert ops[..i] + ops[i..] == ops;
    ReplayConcat(s, ops[..i], ops[i..], accepts);
  }

  lemma {:induction false} OneMore(s: Store, ops: seq<Operation>, i: nat, accepts: Checks)
    requires i < |ops|
    ensures Replay(s, ops[..i + 1], accepts) == Apply(Replay(s, ops[..i], accepts), ops[i], accepts)
    ensures ops[i].Link? ==> Effect(ops[..i + 1], accepts) == Effect(ops[..i], accepts)
    ensures ops[i].Delete? ==> Effect(ops[..i + 1], accepts) == Effect(ops[..i], accepts)[ops[i].id := None]
    ensures ops[i].Upsert? && accepts(ops[i].point) ==>
              Effect(ops[..i + 1], accepts) == Effect(ops[..i], accepts)[ops[i].point.id := Some(ops[i].point)]
    ensures ops[i].Upsert? && !accepts(ops[i].point) ==> Effect(ops[..i + 1], accepts) == Effect(ops[..i], accepts)
  {
    assert ops[..i + 1][..i] == ops[..i];
  }

  /** An end of a link is there in the second replay exactly when it was in the first. */
  lemma {:induction false} SameEnd(s: Store, ops: seq<Operation>, i: nat, again: Store, id: Id, accepts: Checks)
    requires i < |ops| && ops[i].Link? && Follows(s, ops, i, again, accepts)
    requires Untouched(ops[i + 1..], id, accepts)
    ensures id in again <==> id in Replay(s, ops[..i], accepts)
  {
    assert Slot(again, id) == Expected(s, ops, i, id, accepts);
    if id !in Effect(ops[..i], accepts) {
      OneMore(s, ops, i, accepts);
      ReplayRest(s, ops, i + 1, accepts);
      KeyPersists(Replay(s, ops[..i + 1], accepts), ops[i + 1..], id, accepts);
    }
  }

  /** A relation of an end that nothing touched before is there already. */
  lemma {:induction false} KeptRelation(
      s: Store, ops: seq<Operation>, i: nat, again: Store, id: Id, other: Id, accepts: Checks)
    requires i < |ops| && Follows(s, ops, i, again, accepts) && id !in Effect(ops[..i], accepts)
    requires Untouched(ops[i + 1..], id, accepts)
    requires id in Replay(s, ops[..i + 1], accepts) && HasRelation(Replay(s, ops[..i + 1], accepts)[id], other)
    ensures id in again && WithRelation(again[id], other) == again[id]
  {
    assert Slot(again, id) == Expected(s, ops, i, id, accepts);
    ReplayRest(s, ops, i + 1, accepts);
    RelationPersists(Replay(s, ops[..i + 1], accepts), ops[i + 1..], id, other, accepts);
  }

  /** One end of a link that succeeds, in the second replay and in the first. */
  lemma {:induction false} LinkedEnd(
      s: Store, ops: seq<Operation>, i: nat, again: Store, id: Id, other: Id, accepts: Checks)
    requires i < |ops| && ops[i].Link? && Follows(s, ops, i, again, accepts)
    requires Untouched(ops[i + 1..], id, accepts)
    requires id in Replay(s, ops[..i], accepts) && id in again
    requires Slot(Replay(s, ops[..i + 1], accepts), id) == Some(WithRelation(Replay(s, ops[..i], accepts)[id], other))
    ensures Some(WithRelation(again[id], other)) == Expected(s, ops, i + 1, id, accepts)
  {
    assert Slot(again, id) == Expected(s, ops, i, id, accepts);
    OneMore(s, ops, i, accepts);
    if id !in Effect(ops[..i], accepts) {
      KeptRelation(s, ops, i, again, id, other, accepts);
    }
  }

  lemma {:induction false} LinkFollows(s: Store, ops: seq<Operation>, i: nat, again: Store, accepts: Checks)
    requires i < |ops| && ops[i].Link? && Follows(s, ops, i, again, accepts)
    requires Untouched(ops[i + 1..], ops[i].from, accepts) && Untouched(ops[i + 1..], ops[i].to, accepts)
    ensures Follows(s, ops, i + 1, Apply(again, ops[i], accepts), accepts)
  {
    var Link(from, to) := ops[i];
    OneMore(s, ops, i, accepts);
    SameEnd(s, ops, i, again, from, accepts);
    SameEnd(s, ops, i, again, to, accepts);
    if from != to && from in again && to in again {
      LinkedEnd(s, ops, i, again, from, to, accepts);
      LinkedEnd(s, ops, i, again, to, from, accepts);
    }
    forall id
      ensures Slot(Apply(again, ops[i], accepts), id) == Expected(s, ops, i + 1, id, accepts)
    {
      assert Slot(again, id) == Expected(s, ops, i, id, accepts);
    }
  }

  lemma {:induction false} OtherFollows(s: Store, ops: seq<Operation>, i: nat, again: Store, accepts: Checks)
    requires i < |ops| && !ops[i].Link? && Follows(s, ops, i, again, accepts)
    ensures Follows(s, ops, i + 1, Apply(again, ops[i], accepts), accepts)
  {
    OneMore(s, ops, i, accepts);
    forall id
      ensures Slot(Apply(again, ops[i], accepts), id) == Expected(s, ops, i + 1, id, accepts)
    {
      assert Slot(again, id) == Expected(s, ops, i, id, accepts);
    }
  }

  lemma {:induction false} SecondReplayFollows(s: Store, ops: seq<Operation>, i: nat, accepts: Checks)
    requires LinksLast(ops, accepts) && i <= |ops|
    ensures Follows(s, ops, i, Replay(Replay(s, ops, accepts), ops[..i], accepts), accepts)
  {
    if i > 0 {
      SecondReplayFollows(s, ops, i - 1, accepts);
      OneMore(Replay(s, ops, accepts), ops, i - 1, accepts);
      var again := Replay(Replay(s, ops, accepts), ops[..i - 1], accepts);
      if ops[i - 1].Link? {
        LinkFollows(s, ops, i - 1, again, accepts);
      } else {
        OtherFollows(s, ops, i - 1, again, accepts);
      }
    }
  }

  lemma {:induction false} SameSlots(s: Store, t: Store)
    requires forall id :: Slot(s, id) == Slot(t, id)
    ensures s == t
  {
    forall id
      ensures id in s <==> id in t
      ensures id in s ==> s[id] == t[id]
    {
      assert Slot(s, id) == Slot(t, id);
    }
  }

  lemma {:induction false} ReplayAbsorbsLinks(s: Store, ops: seq<Operation>, accepts: Checks)
    requires LinksLast(ops, accepts)
    ensures Replay(Replay(s, ops, accepts), ops, accepts) == Replay(s, ops, accepts)
  {
    SecondReplayFollows(s, ops, |ops|, accepts);
    assert ops[..|ops|] == ops;
    forall id
      ensures Slot(Replay(Replay(s, ops, accepts), ops, accepts), id) == Slot(Replay(s, ops, accepts), id)
    {
      assert Expected(s, ops, |ops|, id, accepts) == Slot(Replay(s, ops, accepts), id);
    }
    SameSlots(Replay(Replay(s, ops, accepts), ops, accepts), Replay(s, ops, accepts));
  }

  /**
   * If in the part of a log that is replayed a second time no link is followed by a change of one of
   * its ends, the second replay changes nothing, relations and their order included.
   */
  lemma {:induction false} ReplayAbsorbsSuffixWithLinks(s: Store, ops: seq<Operation>, k: nat, accepts: Checks)
    requires k <= |ops| && LinksLast(ops[k..], accepts)
    ensures Replay(Replay(s, ops, accepts), ops[k..], accepts) == Replay(s, ops, accepts)
  {
    ReplayRest(s, ops, k, accepts);
    ReplayAbsorbsLinks(Replay(s, ops[..k], accepts), ops[k..], accepts);
  }
}
