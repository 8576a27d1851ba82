/** The search cache of a collection: the answers to the most recently asked queries (`collection.rs`). */
module QueryCache {
  import opened Base
  import opened Ranking
  import opened IndexRows

  /** Most recently used first. */
  datatype Cached = Cached(query: Vector, k: nat, results: seq<Scored>)
  {
    function Key(): (Vector, nat) {
      (query, k)
    }
  }

  /** The entry for a query, or the length. */
  function Find(cache: seq<Cached>, query: Vector, k: nat, from: nat): (i: nat)
    requires from <= |cache|
    ensures i <= |cache| && (i < |cache| ==> cache[i].query == query && cache[i].k == k)
    ensures i == |cache| ==> forall j :: from <= j < |cache| ==> cache[j].Key() != (query, k)
    decreases |cache| - from
  {
    if from == |cache| || (cache[from].query == query && cache[from].k == k) then from
    else Find(cache, query, k, from + 1)
  }

  /** A hit moves its entry to the front. */
  function Touched(cache: seq<Cached>, i: nat): seq<Cached>
    requires i < |cache|
  {
    [cache[i]] + cache[..i] + cache[i + 1..]
  }

  /** A new entry goes to the front and pushes the least recently used one out. */
  function Put(cache: seq<Cached>, entry: Cached, capacity: nat): seq<Cached> {
    var longer := [entry] + cache;
    if |longer| <= capacity then longer else longer[..capacity]
  }

  /** The cache after an answer that came from it, or was put into it. */
  function Served(cache: seq<Cached>, entry: Cached, capacity: nat): seq<Cached> {
    var i := Find(cache, entry.query, entry.k, 0);
    if i < |cache| then Touched(cache, i) else Put(cache, entry, capacity)
  }

  lemma {:induction false} TouchedKeeps(cache: seq<Cached>, i: nat)
    requires i < |cache|
    ensures |Touched(cache, i)| == |cache|
    ensures forall entry :: entry in Touched(cache, i) ==> entry in cache
  {
  }

  lemma {:induction false} PutKeeps(cache: seq<Cached>, entry: Cached, capacity: nat)
    ensures |Put(cache, entry, capacity)| <= capacity
    ensures forall e :: e in Put(cache, entry, capacity) ==> e == entry || e in cache
  {
  }

  // ---- What a run of answers leaves in the cache ----

  type Key = (Vector, nat)

  function KeysOf(cache: seq<Cached>): (keys: seq<Key>)
    ensures |keys| == |cache|
    ensures forall i :: 0 <= i < |cache| ==> keys[i] == cache[i].Key()
  {
    seq(|cache|, i requires 0 <= i < |cache| => cache[i].Key())
  }

  function ServedAll(answers: seq<Cached>, capacity: nat): seq<Cached> {
    if answers == [] then []
    else Served(ServedAll(answers[..|answers| - 1], capacity), answers[|answers| - 1], capacity)
  }

  ghost function Removed(keys: seq<Key>, key: Key): seq<Key> {
    if keys == [] then [] else if keys[0] == key then keys[1..] else [keys[0]] + Removed(keys[1..], key)
  }

  /** Every key asked for, each once, by its last use: the latest first. */
  ghost function ByLastUse(answers: seq<Cached>): seq<Key> {
    if answers == [] then []
    else [answers[|answers| - 1].Key()] + Removed(ByLastUse(answers[..|answers| - 1]), answers[|answers| - 1].Key())
  }

  ghost function FirstOf(keys: seq<Key>, n: nat): seq<Key> {
    keys[..Min(n, |keys|)]
  }

  lemma {:induction false} RemovedAt(keys: seq<Key>, key: Key, i: nat)
    requires i < |keys| && keys[i] == key && key !in keys[..i]
    ensures Removed(keys, key) == keys[..i] + keys[i + 1..]
  {
    if i > 0 {
      assert keys[0] in keys[..i];
      assert key !in keys[1..][..i - 1];
      RemovedAt(keys[1..], key, i - 1);
      assert keys[..i] == [keys[0]] + keys[1..][..i - 1] && keys[1..][i..] == keys[i + 1..];
    }
  }

  lemma {:induction false} RemovedAbsent(keys: seq<Key>, key: Key)
    requires key !in keys
    ensures Removed(keys, key) == keys
  {
    if keys != [] {
      RemovedAbsent(keys[1..], key);
    }
  }

  /** A removal past the first n keys leaves those. */
  lemma {:induction false} RemovedBeyond(keys: seq<Key>, key: Key, n: nat)
    requires n <= |keys| && key !in keys[..n]
    ensures n == |keys| ==> Removed(keys, key) == keys
    ensures n <= |Removed(keys, key)| && Removed(keys, key)[..n] == keys[..n]
  {
    if key in keys {
      var i := FirstPlace(keys, key);
      assert i >= n by {
        assert forall j :: 0 <= j < n ==> keys[j] == keys[..n][j];
      }
      RemovedAt(keys, key, i);
    } else {
      RemovedAbsent(keys, key);
    }
  }

  lemma {:induction false} FirstPlace(keys: seq<Key>, key: Key) returns (i: nat)
    requires key in keys
    ensures i < |keys| && keys[i] == key && key !in keys[..i]
  {
    i := 0;
    while keys[i] != key
      invariant i < |keys| && key !in keys[..i]
      decreases |keys| - i
    {
      i := i + 1;
    }
  }

  lemma {:induction false} FindIsFirst(cache: seq<Cached>, query: Vector, k: nat, from: nat)
    requires from <= |cache| && (query, k) !in KeysOf(cache)[..from]
    ensures (query, k) !in KeysOf(cache)[..Find(cache, query, k, from)]
    decreases |cache| - from
  {
    if from < |cache| && Find(cache, query, k, from) != from {
      assert KeysOf(cache)[..from + 1] == KeysOf(cache)[..from] + [KeysOf(cache)[from]];
      FindIsFirst(cache, query, k, from + 1);
    }
  }

  /** One answer: its key comes to the front, and the keys that still fit stay in order. */
  lemma {:induction false} ServedKeys(cache: seq<Cached>, entry: Cached, capacity: nat, used: seq<Key>)
    requires capacity > 0 && KeysOf(cache) == FirstOf(used, capacity)
    ensures KeysOf(Served(cache, entry, capacity)) == FirstOf([entry.Key()] + Removed(used, entry.Key()), capacity)
  {
    var i := Find(cache, entry.query, entry.k, 0);
    var n := |cache|;
    FindIsFirst(cache, entry.query, entry.k, 0);
    if i < n {
      HitKeys(cache, i, capacity, used);
    } else {
      RemovedBeyond(used, entry.Key(), n);
      MissKeys(cache, entry, capacity, Removed(used, entry.Key()));
    }
  }

  lemma {:induction false} PrefixOfSum(a: seq<Key>, b: seq<Key>, n: nat)
    requires |a| <= n <= |a| + |b|
    ensures (a + b)[..n] == a + b[..n - |a|]
  {
  }

  lemma {:induction false} TouchedKeys(cache: seq<Cached>, i: nat)
    requires i < |cache|
    ensures KeysOf(Touched(cache, i)) == [cache[i].Key()] + KeysOf(cache)[..i] + KeysOf(cache)[i + 1..]
  {
    forall j | 0 <= j < |cache|
      ensures Touched(cache, i)[j] == if j == 0 then cache[i] else if j <= i then cache[j - 1] else cache[j]
    {
    }
  }

  lemma {:induction false} HitKeys(cache: seq<Cached>, i: nat, capacity: nat, used: seq<Key>)
    requires i < |cache| && KeysOf(cache) == FirstOf(used, capacity) && cache[i].Key() !in KeysOf(cache)[..i]
    ensures KeysOf(Touched(cache, i)) == FirstOf([cache[i].Key()] + Removed(used, cache[i].Key()), capacity)
  {
    var n, key := |cache|, cache[i].Key();
    var front := [key] + used[..i];
    assert KeysOf(cache)[..i] == used[..i] && KeysOf(cache)[i + 1..] == used[i + 1..n];
    RemovedAt(used, key, i);
    TouchedKeys(cache, i);
    assert [key] + (used[..i] + used[i + 1..]) == front + used[i + 1..];
    PrefixOfSum(front, used[i + 1..], n);
    assert used[i + 1..][..n - |front|] == used[i + 1..n];
  }

  lemma {:induction false} MissKeys(cache: seq<Cached>, entry: Cached, capacity: nat, rest: seq<Key>)
    requires capacity > 0 && |cache| <= capacity && |cache| <= |rest| && KeysOf(cache) == rest[..|cache|]
    requires |cache| == capacity || |cache| == |rest|
    ensures KeysOf(Put(cache, entry, capacity)) == FirstOf([entry.Key()] + rest, capacity)
  {
  }

  /** After any run of answers the cache holds the most recently used keys, as many as fit, the latest first. */
  lemma {:induction false} KeepsMostRecentlyUsed(answers: seq<Cached>, capacity: nat)
    requires capacity > 0
    ensures KeysOf(ServedAll(answers, capacity)) == FirstOf(ByLastUse(answers), capacity)
  {
    if answers != [] {
      var n := |answers| - 1;
      KeepsMostRecentlyUsed(answers[..n], capacity);
      ServedKeys(ServedAll(answers[..n], capacity), answers[n], capacity, ByLastUse(answers[..n]));
    }
  }

  // ---- A repeated query is served from the cache ----

  /** The keys asked for from answer i on. */
  ghost function AskedFrom(answers: seq<Cached>, i: nat): set<Key> {
    set j | i <= j < |answers| :: answers[j].Key()
  }

  ghost predicate NoRepeats(keys: seq<Key>) {
    forall i, j :: 0 <= i < j < |keys| ==> keys[i] != keys[j]
  }

  lemma {:induction false} RemovedKeys(keys: seq<Key>, key: Key)
    requires NoRepeats(keys)
    ensures NoRepeats(Removed(keys, key)) && key !in Removed(keys, key)
    ensures forall x :: x in Removed(keys, key) <==> x in keys && x != key
  {
    if key in keys {
      var i := FirstPlace(keys, key);
      RemovedAt(keys, key, i);
    } else {
      RemovedAbsent(keys, key);
    }
  }

  lemma {:induction false} UsedOnce(answers: seq<Cached>)
    ensures NoRepeats(ByLastUse(answers))
    ensures forall i :: 0 <= i < |answers| ==> answers[i].Key() in ByLastUse(answers)
  {
    if answers != [] {
      var n := |answers| - 1;
      UsedOnce(answers[..n]);
      RemovedKeys(ByLastUse(answers[..n]), answers[n].Key());
      forall i | 0 <= i < n
        ensures answers[i].Key() in ByLastUse(answers)
      {
        assert answers[..n][i] == answers[i];
      }
    }
  }

  /** The keys in front of the first occurrence of a key. */
  ghost function Ahead(keys: seq<Key>, key: Key): set<Key> {
    if keys == [] || keys[0] == key then {} else {keys[0]} + Ahead(keys[1..], key)
  }

  lemma {:induction false} AheadRemoved(keys: seq<Key>, gone: Key, key: Key)
    requires NoRepeats(keys) && gone != key
    ensures Ahead(Removed(keys, gone), key) == Ahead(keys, key) - {gone}
  {
    if keys != [] {
      if keys[0] == gone {
        AheadListed(keys[1..], key);
      } else {
        AheadRemoved(keys[1..], gone, key);
      }
    }
  }

  lemma {:induction false} AheadListed(keys: seq<Key>, key: Key)
    ensures forall x :: x in Ahead(keys, key) ==> x in keys
  {
    if keys != [] {
      AheadListed(keys[1..], key);
    }
  }

  lemma {:induction false} AheadPushed(keys: seq<Key>, last: Key, key: Key)
    requires NoRepeats(keys) && last != key
    ensures Ahead([last] + Removed(keys, last), key) == Ahead(keys, key) + {last}
  {
    AheadRemoved(keys, last, key);
    assert ([last] + Removed(keys, last))[1..] == Removed(keys, last);
  }

  /** The place of a key is the number of keys ahead of it. */
  lemma {:induction false} PlaceOf(keys: seq<Key>, key: Key)
    requires NoRepeats(keys) && key in keys
    ensures |Ahead(keys, key)| < |keys| && keys[|Ahead(keys, key)|] == key
  {
    if keys[0] != key {
      PlaceOf(keys[1..], key);
      AheadListed(keys[1..], key);
      assert keys[0] !in Ahead(keys[1..], key);
    }
  }

  /** In front of a key stand exactly the keys asked for since its last use. */
  lemma {:induction false} AheadIsAskedSince(answers: seq<Cached>, i: nat)
    requires i < |answers| && answers[i].Key() !in AskedFrom(answers, i + 1)
    ensures Ahead(ByLastUse(answers), answers[i].Key()) == AskedFrom(answers, i + 1)
  {
    var n := |answers| - 1;
    if i < n {
      AskedOneMore(answers, i + 1);
      assert answers[..n][i] == answers[i];
      AheadIsAskedSince(answers[..n], i);
      AheadOneMore(answers, answers[i].Key());
    } else {
      assert AskedFrom(answers, i + 1) == {};
    }
  }

  lemma {:induction false} AheadOneMore(answers: seq<Cached>, key: Key)
    requires answers != [] && answers[|answers| - 1].Key() != key
    ensures Ahead(ByLastUse(answers), key)
         == Ahead(ByLastUse(answers[..|answers| - 1]), key) + {answers[|answers| - 1].Key()}
  {
    UsedOnce(answers[..|answers| - 1]);
    AheadPushed(ByLastUse(answers[..|answers| - 1]), answers[|answers| - 1].Key(), key);
  }

  lemma {:induction false} AskedOneMore(answers: seq<Cached>, i: nat)
    requires i < |answers|
    ensures AskedFrom(answers, i) == AskedFrom(answers[..|answers| - 1], i) + {answers[|answers| - 1].Key()}
  {
    var n := |answers| - 1;
    forall j | i <= j < n
      ensures answers[j].Key() in AskedFrom(answers[..n], i)
    {
      assert answers[..n][j] == answers[j];
    }
  }

  lemma {:induction false} FoundIff(cache: seq<Cached>, query: Vector, k: nat)
    ensures Find(cache, query, k, 0) < |cache| <==> (query, k) in KeysOf(cache)
  {
  }

  lemma {:induction false} InFrontIff(keys: seq<Key>, n: nat, p: nat)
    requires NoRepeats(keys) && p < |keys|
    ensures keys[p] in FirstOf(keys, n) <==> p < n
  {
    if p < n {
      assert FirstOf(keys, n)[p] == keys[p];
    }
  }

  /** A query is served from the cache exactly while fewer other keys than fit were asked for since its last use. */
  lemma {:induction false} HitIff(answers: seq<Cached>, i: nat, capacity: nat)
    requires capacity > 0 && i < |answers| && answers[i].Key() !in AskedFrom(answers, i + 1)
    ensures Find(ServedAll(answers, capacity), answers[i].query, answers[i].k, 0) < |ServedAll(answers, capacity)|
       <==> |AskedFrom(answers, i + 1)| < capacity
  {
    var keys, key := ByLastUse(answers), answers[i].Key();
    KeepsMostRecentlyUsed(answers, capacity);
    FoundIff(ServedAll(answers, capacity), answers[i].query, answers[i].k);
    UsedOnce(answers);
    AheadIsAskedSince(answers, i);
    PlaceOf(keys, key);
    InFrontIff(keys, capacity, |Ahead(keys, key)|);
  }
}
