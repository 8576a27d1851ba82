/** Recovery to a timestamp, its restore points, and retention of old log entries (`wal.rs`). */
module PointInTime {
  import opened Base
  import opened Ranking
  import opened WalReplay

  function Operations(es: seq<Entry>): (ops: seq<Operation>)
    ensures |ops| == |es|
  {
    seq(|es|, i requires 0 <= i < |es| => es[i].operation)
  }

  ghost predicate Chronological(es: seq<Entry>) {
    forall i, j :: 0 <= i < j < |es| ==> es[i].timestamp <= es[j].timestamp
  }

  /** The filter of point-in-time recovery; a snapshot timestamp of 0 means the file is missing. */
  predicate Replayable(e: Entry, snapshot: nat, target: nat) {
    e.timestamp <= target && (snapshot == 0 || e.timestamp > snapshot)
  }

  function UpTo(es: seq<Entry>, snapshot: nat, target: nat): (kept: seq<Entry>) {
    if es == [] then []
    else
      var init := UpTo(es[..|es| - 1], snapshot, target);
      if Replayable(es[|es| - 1], snapshot, target) then init + [es[|es| - 1]] else init
  }

  /** In any log, chronological or not, each entry is kept or dropped by its own timestamp. */
  lemma {:induction false} UpToIsFilter(a: seq<Entry>, b: seq<Entry>, snapshot: nat, target: nat)
    ensures UpTo(a + b, snapshot, target) == UpTo(a, snapshot, target) + UpTo(b, snapshot, target)
    ensures |a| == 1 ==>
              UpTo(a, snapshot, target) ==
              if a[0].timestamp <= target && (snapshot == 0 || a[0].timestamp > snapshot) then a else []
  {
    if |a| == 1 {
      assert UpTo(a[..0], snapshot, target) == [];
    }
    if b == [] {
      assert a + b == a;
    } else {
      assert (a + b)[..|a + b| - 1] == a + b[..|b| - 1];
      UpToIsFilter(a, b[..|b| - 1], snapshot, target);
    }
  }

  function RecoverTo(base: Store, es: seq<Entry>, snapshot: nat, target: nat, accepts: Checks): Store {
    Replay(base, Operations(UpTo(es, snapshot, target)), accepts)
  }

  method RecoverToTimestamp(base: Store, es: seq<Entry>, snapshot: nat, target: nat, accepts: Checks)
    returns (s: Store)
    ensures s == RecoverTo(base, es, snapshot, target, accepts)
  {
    var kept: seq<Entry> := [];
    for i := 0 to |es|
      invariant kept == UpTo(es[..i], snapshot, target)
    {
      assert es[..i + 1][..i] == es[..i];
      if Replayable(es[i], snapshot, target) {
        kept := kept + [es[i]];
      }
    }
    assert es[..|es|] == es;
    s := ReplayLog(base, Operations(kept), accepts);
  }

  lemma {:induction false} OperationsConcat(a: seq<Entry>, b: seq<Entry>)
    ensures Operations(a + b) == Operations(a) + Operations(b)
  {
  }

  lemma {:induction false} ChronologicalInit(es: seq<Entry>)
    requires Chronological(es) && es != []
    ensures var init, last := es[..|es| - 1], es[|es| - 1];
            && Chronological(init) && es == init + [last]
            && forall i :: 0 <= i < |init| ==> init[i] == es[i] && es[i].timestamp <= last.timestamp
  {
  }

  /** One more entry before or after the cut. */
  lemma {:induction false} PrefixStep(
      es: seq<Entry>, init: seq<Entry>, last: Entry, target: nat, n: nat) returns (m: nat)
    requires es == init + [last] && n <= |init|
    requires forall i :: 0 <= i < |init| ==> init[i].timestamp <= last.timestamp && (i < n <==> init[i].timestamp <= target)
    ensures m <= |es| && es[..m] == if last.timestamp <= target then init[..n] + [last] else init[..n]
    ensures forall i :: 0 <= i < |es| ==> (i < m <==> es[i].timestamp <= target)
  {
    if last.timestamp <= target {
      m := |es|;
      assert |init| > 0 ==> init[|init| - 1].timestamp <= target;
      assert init[..n] == init;
    } else {
      m := n;
    }
  }

  /** On a chronological log later than the snapshot, exactly a prefix of the log is replayed. */
  lemma {:induction false} UpToIsPrefix(es: seq<Entry>, snapshot: nat, target: nat) returns (n: nat)
    requires Chronological(es)
    requires snapshot == 0 || forall i :: 0 <= i < |es| ==> es[i].timestamp > snapshot
    ensures n <= |es| && UpTo(es, snapshot, target) == es[..n]
    ensures forall i :: 0 <= i < |es| ==> (i < n <==> es[i].timestamp <= target)
  {
    if es == [] {
      n := 0;
    } else {
      var init, last := es[..|es| - 1], es[|es| - 1];
      ChronologicalInit(es);
      n := UpToIsPrefix(init, snapshot, target);
      n := PrefixStep(es, init, last, target, n);
    }
  }

  /** The entries of `UpTo(t2)` after `t1`, in log order. */
  function Between(es: seq<Entry>, snapshot: nat, t1: nat, t2: nat): seq<Entry> {
    if es == [] then []
    else
      var init := Between(es[..|es| - 1], snapshot, t1, t2);
      var last := es[|es| - 1];
      if Replayable(last, snapshot, t2) && last.timestamp > t1 then init + [last] else init
  }

  lemma {:induction false} UpToSplits(es: seq<Entry>, snapshot: nat, t1: nat, t2: nat)
    requires Chronological(es) && t1 <= t2
    ensures UpTo(es, snapshot, t2) == UpTo(es, snapshot, t1) + Between(es, snapshot, t1, t2)
    ensures (forall i :: 0 <= i < |es| ==> es[i].timestamp <= t1) ==> Between(es, snapshot, t1, t2) == []
  {
    if es != [] {
      var init := es[..|es| - 1];
      UpToSplits(init, snapshot, t1, t2);
      if es[|es| - 1].timestamp <= t1 {
        assert forall i :: 0 <= i < |init| ==> init[i] == es[i];
      }
    }
  }

  /** Recovering to t2 is recovering to an earlier t1, then replaying what lies between. */
  lemma {:induction false} RecoveryComposes(
      base: Store, es: seq<Entry>, snapshot: nat, t1: nat, t2: nat, accepts: Checks)
    requires Chronological(es) && t1 <= t2
    ensures RecoverTo(base, es, snapshot, t2, accepts)
         == Replay(RecoverTo(base, es, snapshot, t1, accepts), Operations(Between(es, snapshot, t1, t2)), accepts)
  {
    UpToSplits(es, snapshot, t1, t2);
    OperationsConcat(UpTo(es, snapshot, t1), Between(es, snapshot, t1, t2));
    ReplayConcat(base, Operations(UpTo(es, snapshot, t1)), Operations(Between(es, snapshot, t1, t2)), accepts);
  }

  // ---- Restore points ----

  ghost predicate StrictlyIncreasing(ts: seq<nat>) {
    forall i, j :: 0 <= i < j < |ts| ==> ts[i] < ts[j]
  }

  /** `sort` then `dedup` of the timestamps of the log. */
  method ListRestorePoints(es: seq<Entry>) returns (points: seq<nat>)
    ensures StrictlyIncreasing(points)
    ensures forall t :: t in points <==> exists i :: 0 <= i < |es| && es[i].timestamp == t
  {
    var all: seq<nat> := seq(|es|, i requires 0 <= i < |es| => es[i].timestamp);
    var sorted := SortBy<nat>(all, (t: nat) => t as real);
    forall t: nat
      ensures t in sorted <==> t in all
    {
      assert t in sorted <==> t in multiset(sorted);
      assert t in all <==> t in multiset(all);
    }
    assert forall i, j :: 0 <= i < j < |sorted| ==> sorted[i] as real <= sorted[j] as real;
    points := [];
    for i := 0 to |sorted|
      invariant StrictlyIncreasing(points)
      invariant i > 0 ==> points != [] && points[|points| - 1] == sorted[i - 1]
      invariant i == 0 ==> points == []
      invariant forall t :: t in points <==> t in sorted[..i]
    {
      assert sorted[..i + 1] == sorted[..i] + [sorted[i]];
      if i == 0 || points[|points| - 1] != sorted[i] {
        points := points + [sorted[i]];
      }
    }
    assert sorted[..|sorted|] == sorted;
    forall t
      ensures t in points <==> exists i :: 0 <= i < |es| && es[i].timestamp == t
    {
      assert t in points <==> t in all;
      assert t in all <==> exists i :: 0 <= i < |all| && all[i] == t;
      if t in all {
        var i :| 0 <= i < |all| && all[i] == t;
        assert es[i].timestamp == t;
      }
      if i :| 0 <= i < |es| && es[i].timestamp == t {
        assert all[i] == t;
      }
    }
  }

  /** Recovering to the last restore point is full recovery, on a log later than the snapshot. */
  lemma {:induction false} LastRestorePointIsFullRecovery(
      base: Store, es: seq<Entry>, snapshot: nat, points: seq<nat>, accepts: Checks)
    requires Chronological(es) && es != []
    requires snapshot == 0 || forall i :: 0 <= i < |es| ==> es[i].timestamp > snapshot
    requires StrictlyIncreasing(points)
    requires forall t :: t in points <==> exists i :: 0 <= i < |es| && es[i].timestamp == t
    ensures points != []
    ensures RecoverTo(base, es, snapshot, points[|points| - 1], accepts) == Replay(base, Operations(es), accepts)
  {
    var newest := es[|es| - 1].timestamp;
    assert newest in points;
    var target := points[|points| - 1];
    var i :| 0 <= i < |points| && points[i] == newest;
    assert newest <= target;
    var n := UpToIsPrefix(es, snapshot, target);
    assert forall j :: 0 <= j < |es| ==> es[j].timestamp <= newest;
    assert n == |es|;
    assert es[..n] == es;
  }

  /** One more entry before or after the start of a suffix. */
  lemma {:induction false} SuffixStep(
      es: seq<Entry>, init: seq<Entry>, last: Entry, bound: int, k: nat) returns (m: nat)
    requires es == init + [last] && k <= |init|
    requires forall i :: 0 <= i < |init| ==> init[i].timestamp <= last.timestamp && (i < k <==> init[i].timestamp <= bound)
    ensures m <= |es| && es[m..] == if last.timestamp <= bound then init[k..] else init[k..] + [last]
    ensures forall i :: 0 <= i < |es| ==> (i < m <==> es[i].timestamp <= bound)
  {
    if last.timestamp <= bound {
      m := |es|;
      assert |init| > 0 ==> init[|init| - 1].timestamp <= bound;
    } else {
      m := k;
    }
  }

  /** With the target past the whole log, what is replayed is the suffix after the snapshot's second. */
  lemma {:induction false} LateTargetKeepsSuffix(es: seq<Entry>, snapshot: nat, target: nat) returns (k: nat)
    requires Chronological(es) && snapshot > 0
    requires forall i :: 0 <= i < |es| ==> es[i].timestamp <= target
    ensures k <= |es| && UpTo(es, snapshot, target) == es[k..]
    ensures forall i :: 0 <= i < |es| ==> (i < k <==> es[i].timestamp <= snapshot)
  {
    if es == [] {
      k := 0;
    } else {
      var init, last := es[..|es| - 1], es[|es| - 1];
      ChronologicalInit(es);
      k := LateTargetKeepsSuffix(init, snapshot, target);
      k := SuffixStep(es, init, last, snapshot, k);
    }
  }

  /**
   * The snapshot's timestamp has a resolution of one second, and entries of that second are
   * skipped although the snapshot need not contain them. Recovery to a time that no entry
   * exceeds is full recovery on every store exactly when each id the skipped entries touch
   * is written again later.
   */
  lemma {:induction false} LateTargetIsFullRecoveryIff(
      es: seq<Entry>, snapshot: nat, target: nat, accepts: Checks) returns (k: nat)
    requires LinkFree(Operations(es)) && Chronological(es) && snapshot > 0
    requires forall i :: 0 <= i < |es| ==> es[i].timestamp <= target
    ensures k <= |es| && forall i :: 0 <= i < |es| ==> (i < k <==> es[i].timestamp <= snapshot)
    ensures SameOnEveryStore(Operations(UpTo(es, snapshot, target)), Operations(es), accepts)
       <==> Effect(Operations(es[..k]), accepts).Keys <= Effect(Operations(es[k..]), accepts).Keys
  {
    k := LateTargetKeepsSuffix(es, snapshot, target);
    LosingPrefixHarmlessIff(es, k, accepts);
  }

  /** An acknowledged upsert of the snapshot's own second is lost by every point-in-time recovery. */
  lemma {:induction false} SameSecondIsLost(p: Point, snapshot: nat, target: nat, accepts: Checks)
    requires accepts(p) && 0 < snapshot <= target
    ensures var es := [Entry(snapshot, Upsert(p))];
            && RecoverTo(map[], es, snapshot, target, accepts) == map[]
            && Replay(map[], Operations(es), accepts) == map[p.id := p]
  {
    var es := [Entry(snapshot, Upsert(p))];
    assert UpTo(es, snapshot, target) == UpTo(es[..0], snapshot, target) == [];
    assert Operations(es)[..0] == [];
  }

  // ---- Retention ----

  /** The entries `compact_wal_entries_older_than` keeps. */
  function Retained(es: seq<Entry>, cutoff: nat): (kept: seq<Entry>)
  {
    if es == [] then []
    else
      var init := Retained(es[..|es| - 1], cutoff);
      if es[|es| - 1].timestamp >= cutoff then init + [es[|es| - 1]] else init
  }

  /** In any log each entry is kept or dropped by its own timestamp. */
  lemma {:induction false} RetainedIsFilter(a: seq<Entry>, b: seq<Entry>, cutoff: nat)
    ensures Retained(a + b, cutoff) == Retained(a, cutoff) + Retained(b, cutoff)
    ensures |a| == 1 ==> Retained(a, cutoff) == if a[0].timestamp >= cutoff then a else []
  {
    if |a| == 1 {
      assert Retained(a[..0], cutoff) == [];
    }
    if b == [] {
      assert a + b == a;
    } else {
      assert (a + b)[..|a + b| - 1] == a + b[..|b| - 1];
      RetainedIsFilter(a, b[..|b| - 1], cutoff);
    }
  }

  method KeepFrom(es: seq<Entry>, cutoff: nat) returns (kept: seq<Entry>)
    ensures kept == Retained(es, cutoff) && |kept| <= |es|
  {
    kept := [];
    for i := 0 to |es|
      invariant kept == Retained(es[..i], cutoff)
      invariant |kept| <= i
    {
      assert es[..i + 1][..i] == es[..i];
      if es[i].timestamp >= cutoff {
        kept := kept + [es[i]];
      }
    }
    assert es[..|es|] == es;
  }

  /** What is kept of a chronological log is a suffix of it. */
  lemma {:induction false} RetainedIsSuffix(es: seq<Entry>, cutoff: nat) returns (k: nat)
    requires Chronological(es)
    ensures k <= |es| && Retained(es, cutoff) == es[k..]
    ensures forall i :: 0 <= i < |es| ==> (i < k <==> es[i].timestamp < cutoff)
  {
    if es == [] {
      k := 0;
    } else {
      var init, last := es[..|es| - 1], es[|es| - 1];
      ChronologicalInit(es);
      k := RetainedIsSuffix(init, cutoff);
      k := SuffixStep(es, init, last, cutoff - 1, k);
    }
  }

  /**
   * Dropping old entries does not alter recovery when the snapshot already contains them:
   * `covered` is the part of the log the snapshot was taken after, `recent` what came later.
   */
  lemma {:induction false} RetentionOfSnapshottedEntries(
      before: Store, covered: seq<Entry>, recent: seq<Entry>, cutoff: nat, accepts: Checks)
    requires Chronological(covered + recent) && LinkFree(Operations(covered))
    requires forall i :: 0 <= i < |recent| ==> recent[i].timestamp >= cutoff
    ensures var snapshot := Replay(before, Operations(covered), accepts);
            && Replay(snapshot, Operations(Retained(covered + recent, cutoff)), accepts)
            == Replay(snapshot, Operations(covered + recent), accepts)
            == Replay(before, Operations(covered + recent), accepts)
  {
    var snapshot := Replay(before, Operations(covered), accepts);
    var k := RetainedIsSuffix(covered + recent, cutoff);
    assert recent != [] ==> (covered + recent)[|covered|] == recent[0];
    assert k <= |covered|;
    assert (covered + recent)[k..] == covered[k..] + recent;
    OperationsConcat(covered[k..], recent);
    OperationsConcat(covered, recent);
    assert Operations(covered[k..]) == Operations(covered)[k..] && Operations(covered)[0..] == Operations(covered);
    ReplayAbsorbsSuffix(before, Operations(covered), k, accepts);
    ReplayAbsorbsSuffix(before, Operations(covered), 0, accepts);
    ReplayConcat(snapshot, Operations(covered[k..]), Operations(recent), accepts);
    ReplayConcat(snapshot, Operations(covered), Operations(recent), accepts);
    ReplayConcat(before, Operations(covered), Operations(recent), accepts);
  }

  /**
   * In general, losing the first k entries of a log is harmless on every snapshot exactly when
   * each id they leave an effect on is written again by a later entry.
   */
  lemma {:induction false} LosingPrefixHarmlessIff(es: seq<Entry>, k: nat, accepts: Checks)
    requires LinkFree(Operations(es)) && k <= |es|
    ensures SameOnEveryStore(Operations(es[k..]), Operations(es), accepts)
       <==> Effect(Operations(es[..k]), accepts).Keys <= Effect(Operations(es[k..]), accepts).Keys
  {
    assert es[..k] + es[k..] == es;
    OperationsConcat(es[..k], es[k..]);
    EffectConcat(Operations(es[..k]), Operations(es[k..]), accepts);
    assert Operations(es[k..]) == Operations(es)[k..];
    SameOnEveryStoreIff(Operations(es[k..]), Operations(es), accepts);
    var d, e := Effect(Operations(es[..k]), accepts), Effect(Operations(es[k..]), accepts);
    assert d + e == e ==> forall id :: id in d ==> id in d + e;
  }

  /** `wal.rs` does not ask whether the entries it drops are in a snapshot: retention loses data unless they are. */
  lemma {:induction false} RetentionHarmlessIff(es: seq<Entry>, cutoff: nat, accepts: Checks) returns (k: nat)
    requires LinkFree(Operations(es)) && Chronological(es)
    ensures k <= |es| && forall i :: 0 <= i < |es| ==> (i < k <==> es[i].timestamp < cutoff)
    ensures SameOnEveryStore(Operations(Retained(es, cutoff)), Operations(es), accepts)
       <==> Effect(Operations(es[..k]), accepts).Keys <= Effect(Operations(es[k..]), accepts).Keys
  {
    k := RetainedIsSuffix(es, cutoff);
    LosingPrefixHarmlessIff(es, k, accepts);
  }
}
