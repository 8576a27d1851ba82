/** Sorting, and what it means for a result list to be the best k of a scored set. */
module Ranking {
  import opened Base

  /** A candidate id with its distance (smaller is better) or score (larger is better). */
  type Scored = (Id, real)

  ghost predicate SortedBy<T>(xs: seq<T>, key: T -> real) {
    forall i, j :: 0 <= i < j < |xs| ==> key(xs[i]) <= key(xs[j])
  }

  lemma {:induction false} InsertionKeepsSorted<T>(ys: seq<T>, p: nat, x: T, key: T -> real)
    requires SortedBy(ys, key) && p <= |ys|
    requires p > 0 ==> key(ys[p - 1]) <= key(x)
    requires p < |ys| ==> key(x) <= key(ys[p])
    ensures SortedBy(ys[..p] + [x] + ys[p..], key)
  {
    var zs := ys[..p] + [x] + ys[p..];
    assert forall i :: 0 <= i < |zs| ==> zs[i] == if i < p then ys[i] else if i == p then x else ys[i - 1];
    forall i, j | 0 <= i < j < |zs|
      ensures key(zs[i]) <= key(zs[j])
    {
      if j < p || p < i {
      } else if i < p == j {
        assert key(ys[i]) <= key(ys[p - 1]);
      } else if i == p < j {
        assert key(ys[p]) <= key(ys[j - 1]);
      }
    }
  }

  lemma {:induction false} InsertionCount<T>(ys: seq<T>, p: nat, x: T)
    requires p <= |ys|
    ensures multiset(ys[..p] + [x] + ys[p..]) == multiset(ys) + multiset{x}
  {
    assert ys == ys[..p] + ys[p..];
  }

  /** One insertion, scanning from the right past every larger element. */
  method Insert<T>(ys: seq<T>, x: T, key: T -> real) returns (zs: seq<T>)
    requires SortedBy(ys, key)
    ensures SortedBy(zs, key) && |zs| == |ys| + 1
    ensures multiset(zs) == multiset(ys) + multiset{x}
  {
    var p := |ys|;
    while p > 0 && key(x) < key(ys[p - 1])
      invariant 0 <= p <= |ys|
      invariant p < |ys| ==> key(x) <= key(ys[p])
    {
      p := p - 1;
    }
    InsertionKeepsSorted(ys, p, x, key);
    InsertionCount(ys, p, x);
    zs := ys[..p] + [x] + ys[p..];
  }

  /** The library sort, by a key. */
  method SortBy<T>(xs: seq<T>, key: T -> real) returns (ys: seq<T>)
    ensures SortedBy(ys, key)
    ensures multiset(ys) == multiset(xs)
    ensures |ys| == |xs|
  {
    ys := [];
    for i := 0 to |xs|
      invariant |ys| == i
      invariant SortedBy(ys, key)
      invariant multiset(ys) == multiset(xs[..i])
    {
      ys := Insert(ys, xs[i], key);
      assert xs[..i + 1] == xs[..i] + [xs[i]];
    }
    assert xs[..|xs|] == xs;
  }

  ghost predicate DistinctIds(xs: seq<Scored>) {
    forall i, j :: 0 <= i < j < |xs| ==> xs[i].0 != xs[j].0
  }

  ghost function IdsOf(xs: seq<Scored>): set<Id> {
    set i | 0 <= i < |xs| :: xs[i].0
  }

  /** `xs` lists the entries of `scores`, each once, in some order. */
  ghost predicate Lists(xs: seq<Scored>, scores: map<Id, real>) {
    && DistinctIds(xs)
    && IdsOf(xs) == scores.Keys
    && forall i :: 0 <= i < |xs| ==> xs[i].0 in scores && scores[xs[i].0] == xs[i].1
  }

  predicate Before(a: real, b: real, descending: bool) {
    if descending then a >= b else a <= b
  }

  /** `out` is a best-first list of the min(k, |scores|) best entries of `scores`. */
  ghost predicate IsTop(out: seq<Scored>, scores: map<Id, real>, k: nat, descending: bool) {
    && |out| == Min(k, |scores|)
    && DistinctIds(out)
    && (forall i :: 0 <= i < |out| ==> out[i].0 in scores && scores[out[i].0] == out[i].1)
    && (forall i, j :: 0 <= i < j < |out| ==> Before(out[i].1, out[j].1, descending))
    && (forall i, id :: 0 <= i < |out| && id in scores && id !in IdsOf(out) ==>
          Before(out[i].1, scores[id], descending))
  }

  lemma {:induction false} IdsOfLast(xs: seq<Scored>)
    requires DistinctIds(xs) && xs != []
    ensures IdsOf(xs) == IdsOf(xs[..|xs| - 1]) + {xs[|xs| - 1].0}
    ensures xs[|xs| - 1].0 !in IdsOf(xs[..|xs| - 1])
  {
  }

  lemma {:induction false} DistinctCount(xs: seq<Scored>)
    requires DistinctIds(xs)
    ensures |IdsOf(xs)| == |xs|
  {
    if xs != [] {
      var init, last := xs[..|xs| - 1], xs[|xs| - 1];
      DistinctCount(init);
      IdsOfLast(xs);
    }
  }

  lemma {:induction false} SortingKeepsListing(xs: seq<Scored>, ys: seq<Scored>, scores: map<Id, real>)
    requires Lists(xs, scores) && multiset(xs) == multiset(ys)
    ensures Lists(ys, scores)
  {
    forall i | 0 <= i < |ys|
      ensures ys[i] in xs
    {
      assert ys[i] in multiset(ys);
    }
    forall i | 0 <= i < |xs|
      ensures xs[i] in ys
    {
      assert xs[i] in multiset(xs);
    }
    forall i, j | 0 <= i < j < |ys|
      ensures ys[i].0 != ys[j].0
    {
      if ys[i].0 == ys[j].0 {
        DuplicateCount(ys, i, j);
        var a :| 0 <= a < |xs| && xs[a] == ys[i];
        UniqueCount(xs, a);
      }
    }
  }

  lemma {:induction false} DuplicateCount(ys: seq<Scored>, i: nat, j: nat)
    requires i < j < |ys| && ys[i] == ys[j]
    ensures multiset(ys)[ys[i]] >= 2
  {
    assert ys == ys[..i] + [ys[i]] + ys[i + 1..j] + [ys[j]] + ys[j + 1..];
  }

  lemma {:induction false} UniqueCount(xs: seq<Scored>, a: nat)
    requires a < |xs| && DistinctIds(xs)
    ensures multiset(xs)[xs[a]] == 1
  {
    assert xs == xs[..a] + [xs[a]] + xs[a + 1..];
    assert xs[a] !in xs[..a] && xs[a] !in xs[a + 1..];
  }

  lemma {:induction false} PrefixOfSortedIsTop(ys: seq<Scored>, scores: map<Id, real>, k: nat, descending: bool)
    requires Lists(ys, scores)
    requires forall i, j :: 0 <= i < j < |ys| ==> Before(ys[i].1, ys[j].1, descending)
    ensures IsTop(ys[..Min(k, |ys|)], scores, k, descending)
  {
    DistinctCount(ys);
    var n := Min(k, |ys|);
    forall i, id | 0 <= i < n && id in scores && id !in IdsOf(ys[..n])
      ensures Before(ys[i].1, scores[id], descending)
    {
      var j := BeyondPrefix(ys, n, id);
    }
  }

  /** An id that is listed, but not among the first n. */
  lemma {:induction false} BeyondPrefix(ys: seq<Scored>, n: nat, id: Id) returns (j: nat)
    requires n <= |ys| && id in IdsOf(ys) && id !in IdsOf(ys[..n])
    ensures n <= j < |ys| && ys[j].0 == id
  {
    j :| 0 <= j < |ys| && ys[j].0 == id;
  }

  /** Sort, then truncate to k: the tail of every scan in the source. */
  method TakeTop(xs: seq<Scored>, ghost scores: map<Id, real>, k: nat, descending: bool) returns (out: seq<Scored>)
    requires Lists(xs, scores)
    ensures IsTop(out, scores, k, descending)
  {
    var ys := SortBy(xs, (x: Scored) => if descending then -x.1 else x.1);
    SortingKeepsListing(xs, ys, scores);
    PrefixOfSortedIsTop(ys, scores, k, descending);
    out := ys[..Min(k, |ys|)];
  }

  /** The entries of a score map, in some order. */
  method ListScores(scores: map<Id, real>) returns (xs: seq<Scored>)
    ensures Lists(xs, scores)
  {
    xs := [];
    var left := scores.Keys;
    assert scores - left == map[];
    while left != {}
      invariant left <= scores.Keys && Lists(xs, scores - left)
      decreases |left|
    {
      var id :| id in left;
      ListsOneMore(xs, scores, left, id);
      xs := xs + [(id, scores[id])];
      left := left - {id};
    }
    assert scores - left == scores;
  }

  lemma {:induction false} ListsOneMore(xs: seq<Scored>, scores: map<Id, real>, left: set<Id>, id: Id)
    requires id in left && left <= scores.Keys && Lists(xs, scores - left)
    ensures Lists(xs + [(id, scores[id])], scores - (left - {id}))
  {
    var longer := xs + [(id, scores[id])];
    forall i | 0 <= i < |xs|
      ensures longer[i].0 != id
    {
      assert xs[i].0 in scores - left;
    }
    IdsOfLast(longer);
    assert longer[..|xs|] == xs;
    assert (scores - (left - {id})).Keys == (scores - left).Keys + {id};
  }

  /** Two best-k lists of the same set show the same distances at every place: only ties may differ. */
  lemma {:induction false} TopIsUnique(a: seq<Scored>, b: seq<Scored>, scores: map<Id, real>, k: nat, descending: bool)
    requires IsTop(a, scores, k, descending) && IsTop(b, scores, k, descending)
    ensures |a| == |b|
    ensures forall i :: 0 <= i < |a| ==> a[i].1 == b[i].1
  {
    forall i | 0 <= i < |a|
      ensures a[i].1 == b[i].1
    {
      TopNoWorse(a, b, scores, k, descending, i);
      TopNoWorse(b, a, scores, k, descending, i);
    }
  }

  /** Among the first i + 1 ids of one list, one is missing from the first i of the other. */
  lemma {:induction false} FreshAmongFirst(a: seq<Scored>, b: seq<Scored>, i: nat) returns (j: nat)
    requires DistinctIds(a) && DistinctIds(b) && i < |a| && i < |b|
    ensures j <= i && forall m :: 0 <= m < i ==> a[m].0 != b[j].0
  {
    DistinctCount(b[..i + 1]);
    DistinctCount(a[..i]);
    if IdsOf(b[..i + 1]) <= IdsOf(a[..i]) {
      SubsetCount(IdsOf(b[..i + 1]), IdsOf(a[..i]));
    }
    var id :| id in IdsOf(b[..i + 1]) && id !in IdsOf(a[..i]);
    j :| 0 <= j <= i && b[..i + 1][j].0 == id;
    assert forall m :: 0 <= m < i ==> a[..i][m].0 in IdsOf(a[..i]);
  }

  /** The i-th of one list is no worse than the i-th of the other. */
  lemma {:induction false} TopNoWorse(
      a: seq<Scored>, b: seq<Scored>, scores: map<Id, real>, k: nat, descending: bool, i: nat)
    requires IsTop(a, scores, k, descending) && IsTop(b, scores, k, descending)
    requires i < |a|
    ensures Before(a[i].1, b[i].1, descending)
  {
    var j := FreshAmongFirst(a, b, i);
    assert Before(b[j].1, b[i].1, descending);
    var id := b[j].0;
    if id in IdsOf(a) {
      var m :| 0 <= m < |a| && a[m].0 == id;
      assert Before(a[i].1, a[m].1, descending);
    } else {
      assert Before(a[i].1, scores[id], descending);
    }
  }

  // ---- Other scores, other scales ----

  ghost predicate Increasing(f: real -> real) {
    forall x, y :: x < y ==> f(x) < f(y)
  }

  function Rescaled(xs: seq<Scored>, f: real -> real): (out: seq<Scored>)
    ensures |out| == |xs| && forall i :: 0 <= i < |xs| ==> out[i] == (xs[i].0, f(xs[i].1))
  {
    seq(|xs|, i requires 0 <= i < |xs| => (xs[i].0, f(xs[i].1)))
  }

  lemma {:induction false} IncreasingBefore(f: real -> real, x: real, y: real)
    requires Increasing(f) && Before(x, y, false)
    ensures Before(f(x), f(y), false)
  {
  }

  /** On an increasing scale the best are the same. */
  lemma {:induction false} RescaledTop(
      out: seq<Scored>, scores: map<Id, real>, rescaled: map<Id, real>, k: nat, f: real -> real)
    requires Increasing(f) && IsTop(out, scores, k, false) && rescaled.Keys == scores.Keys
    requires forall id :: id in scores ==> rescaled[id] == f(scores[id])
    ensures IsTop(Rescaled(out, f), rescaled, k, false)
  {
    assert |scores| == |scores.Keys| && |rescaled| == |rescaled.Keys|;
    assert IdsOf(Rescaled(out, f)) == IdsOf(out);
    forall i, j | 0 <= i < j < |out|
      ensures Before(f(out[i].1), f(out[j].1), false)
    {
      IncreasingBefore(f, out[i].1, out[j].1);
    }
    forall i, id | 0 <= i < |out| && id in scores && id !in IdsOf(out)
      ensures Before(f(out[i].1), rescaled[id], false)
    {
      IncreasingBefore(f, out[i].1, scores[id]);
    }
  }

  /** A list of the best is one of the best without some id exactly when it does not have the id. */
  lemma {:induction false} TopWithoutIff(out: seq<Scored>, scores: map<Id, real>, k: nat, descending: bool, id: Id)
    requires IsTop(out, scores, k, descending) && id in scores
    ensures IsTop(out, scores - {id}, k, descending) <==> id !in IdsOf(out)
  {
    if id !in IdsOf(out) {
      DistinctCount(out);
      SubsetCount(IdsOf(out), scores.Keys - {id});
      assert (scores - {id}).Keys == scores.Keys - {id};
      assert |scores - {id}| == |scores.Keys - {id}| == |scores| - 1;
    }
  }

  lemma {:induction false} SubsetCount<T>(a: set<T>, b: set<T>)
    requires a <= b
    ensures |a| <= |b|
  {
    assert b == a + (b - a);
  }

  // ---- Dropping ids from a best-first list ----

  function Without(xs: seq<Scored>, dead: set<Id>): seq<Scored> {
    if xs == [] then []
    else
      var rest, last := Without(xs[..|xs| - 1], dead), xs[|xs| - 1];
      if last.0 in dead then rest else rest + [last]
  }

  ghost predicate Sorted(xs: seq<Scored>, descending: bool) {
    forall i, j :: 0 <= i < j < |xs| ==> Before(xs[i].1, xs[j].1, descending)
  }

  lemma {:induction false} WithoutMembers(xs: seq<Scored>, dead: set<Id>, x: Scored)
    ensures x in Without(xs, dead) <==> x in xs && x.0 !in dead
  {
    if xs != [] {
      WithoutMembers(xs[..|xs| - 1], dead, x);
      assert xs == xs[..|xs| - 1] + [xs[|xs| - 1]];
    }
  }

  lemma {:induction false} WithoutKeepsOrder(xs: seq<Scored>, dead: set<Id>, descending: bool)
    requires DistinctIds(xs) && Sorted(xs, descending)
    ensures DistinctIds(Without(xs, dead)) && Sorted(Without(xs, dead), descending)
  {
    if xs != [] {
      var init, last := xs[..|xs| - 1], xs[|xs| - 1];
      var rest := Without(init, dead);
      WithoutKeepsOrder(init, dead, descending);
      forall i | 0 <= i < |rest|
        ensures rest[i].0 != last.0 && Before(rest[i].1, last.1, descending)
      {
        WithoutMembers(init, dead, rest[i]);
        assert rest[i] in init;
      }
    }
  }

  ghost predicate RepeatsAreDead(xs: seq<Scored>, dead: set<Id>) {
    forall i, j :: 0 <= i < j < |xs| && xs[i].0 == xs[j].0 ==> xs[i].0 in dead
  }

  /** What is left has no repeated id exactly when every repeated id was dropped. */
  lemma {:induction false} WithoutDistinctIff(xs: seq<Scored>, dead: set<Id>)
    ensures DistinctIds(Without(xs, dead)) <==> RepeatsAreDead(xs, dead)
  {
    if xs != [] {
      var n := |xs| - 1;
      WithoutDistinctIff(xs[..n], dead);
      if xs[n].0 !in dead {
        LastRepeats(xs, dead);
        DistinctAppend(Without(xs[..n], dead), xs[n]);
      }
      RepeatsOfLast(xs, dead);
    }
  }

  lemma {:induction false} DistinctAppend(rest: seq<Scored>, last: Scored)
    ensures DistinctIds(rest + [last])
       <==> DistinctIds(rest) && !exists a :: 0 <= a < |rest| && rest[a].0 == last.0
  {
    var xs := rest + [last];
    assert forall a :: 0 <= a < |rest| ==> xs[a] == rest[a];
    assert xs[|rest|] == last;
  }

  lemma {:induction false} RepeatsOfLast(xs: seq<Scored>, dead: set<Id>)
    requires xs != []
    ensures var n := |xs| - 1;
            RepeatsAreDead(xs, dead)
            <==> RepeatsAreDead(xs[..n], dead) && forall i :: 0 <= i < n && xs[i].0 == xs[n].0 ==> xs[i].0 in dead
  {
    var n := |xs| - 1;
    assert forall i :: 0 <= i < n ==> xs[..n][i] == xs[i];
  }

  lemma {:induction false} LastRepeats(xs: seq<Scored>, dead: set<Id>)
    requires xs != [] && xs[|xs| - 1].0 !in dead
    ensures var n := |xs| - 1;
            (exists i :: 0 <= i < n && xs[i].0 == xs[n].0)
            <==> exists a :: 0 <= a < |Without(xs[..n], dead)| && Without(xs[..n], dead)[a].0 == xs[n].0
  {
    var n := |xs| - 1;
    var rest := Without(xs[..n], dead);
    forall i | 0 <= i < n && xs[i].0 == xs[n].0
      ensures exists a :: 0 <= a < |rest| && rest[a].0 == xs[n].0
    {
      WithoutMembers(xs[..n], dead, xs[i]);
      assert xs[..n][i] == xs[i];
    }
    forall a | 0 <= a < |rest| && rest[a].0 == xs[n].0
      ensures exists i :: 0 <= i < n && xs[i].0 == xs[n].0
    {
      WithoutMembers(xs[..n], dead, rest[a]);
    }
  }

  lemma {:induction false} WithoutCount(xs: seq<Scored>, dead: set<Id>)
    requires DistinctIds(xs)
    ensures |Without(xs, dead)| + |dead * IdsOf(xs)| == |xs|
  {
    if xs != [] {
      var init, last := xs[..|xs| - 1], xs[|xs| - 1];
      WithoutCount(init, dead);
      IdsOfLast(xs);
      if last.0 in dead {
        assert dead * IdsOf(xs) == dead * IdsOf(init) + {last.0};
      } else {
        assert dead * IdsOf(xs) == dead * IdsOf(init);
      }
    }
  }

  lemma {:induction false} RemainingCount(scores: map<Id, real>, dead: set<Id>)
    requires dead <= scores.Keys
    ensures |scores - dead| == |scores| - |dead|
  {
    assert (scores - dead).Keys == scores.Keys - dead;
    assert |scores.Keys| == |scores.Keys - dead| + |dead * scores.Keys|;
    assert dead * scores.Keys == dead;
  }

  lemma {:induction false} FilteredCount(
      xs: seq<Scored>, scores: map<Id, real>, dead: set<Id>, k: nat, descending: bool)
    requires dead <= scores.Keys && IsTop(xs, scores, k + |dead|, descending)
    ensures Min(k, |Without(xs, dead)|) == Min(k, |scores - dead|)
  {
    WithoutCount(xs, dead);
    RemainingCount(scores, dead);
    SubsetCount(dead * IdsOf(xs), dead);
    if k + |dead| > |scores| {
      DistinctCount(xs);
      SubsetOfSameSize(IdsOf(xs), scores.Keys);
      assert dead * IdsOf(xs) == dead;
    }
  }

  lemma {:induction false} SubsetOfSameSize<T>(a: set<T>, b: set<T>)
    requires a <= b && |a| >= |b|
    ensures a == b
  {
    assert b == a + (b - a);
    assert |b| == |a| + |b - a|;
  }

  /**
   * Asking for |dead| more than k, then dropping the dead, leaves exactly the best k of the rest.
   */
  lemma {:induction false} FilteredTop(xs: seq<Scored>, scores: map<Id, real>, dead: set<Id>, k: nat, descending: bool)
    requires dead <= scores.Keys && IsTop(xs, scores, k + |dead|, descending)
    ensures var kept := Without(xs, dead);
            IsTop(kept[..Min(k, |kept|)], scores - dead, k, descending)
  {
    var kept := Without(xs, dead);
    var out := kept[..Min(k, |kept|)];
    FilteredCount(xs, scores, dead, k, descending);
    WithoutKeepsOrder(xs, dead, descending);
    forall i | 0 <= i < |out|
      ensures out[i].0 in scores - dead && (scores - dead)[out[i].0] == out[i].1
    {
      WithoutMembers(xs, dead, out[i]);
    }
    forall i, id | 0 <= i < |out| && id in scores - dead && id !in IdsOf(out)
      ensures Before(out[i].1, scores[id], descending)
    {
      CutIsFarther(xs, scores, dead, k, descending, i, id);
    }
  }

  lemma {:induction false} CutIsFarther(
      xs: seq<Scored>, scores: map<Id, real>, dead: set<Id>, k: nat, descending: bool, i: nat, id: Id)
    requires IsTop(xs, scores, k + |dead|, descending)
    requires Sorted(Without(xs, dead), descending)
    requires i < Min(k, |Without(xs, dead)|) && id in scores && id !in dead
    requires id !in IdsOf(Without(xs, dead)[..Min(k, |Without(xs, dead)|)])
    ensures Before(Without(xs, dead)[i].1, scores[id], descending)
  {
    var kept := Without(xs, dead);
    var out := kept[..Min(k, |kept|)];
    WithoutMembers(xs, dead, kept[i]);
    if id in IdsOf(xs) {
      var m :| 0 <= m < |xs| && xs[m].0 == id;
      WithoutMembers(xs, dead, xs[m]);
      assert id in IdsOf(kept);
      var j := BeyondPrefix(kept, |out|, id);
      WithoutMembers(xs, dead, kept[j]);
      assert kept[j].1 == scores[id];
    } else {
      var m :| 0 <= m < |xs| && xs[m] == kept[i];
    }
  }
}
