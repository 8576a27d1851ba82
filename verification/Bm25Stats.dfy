/** Term counts and the corpus statistics of the BM25 index, from scratch and one document at a time (`bm25.rs`). */
module Bm25Stats {
  import opened Base
  import opened Ranking

  /** One lower-cased word. */
  datatype Term = Term(text: string)

  /** A document's length and the count of each of its terms. */
  datatype Doc = Doc(len: nat, freqs: map<Term, nat>)

  // ---- Totals ----

  ghost function MapTotal<K(!new)>(m: map<K, nat>): nat {
    if m == map[] then 0
    else
      var k :| k in m;
      m[k] + MapTotal(m - {k})
  }

  lemma {:induction false} MapTotalRemove<K(!new)>(m: map<K, nat>, k: K)
    requires k in m
    ensures MapTotal(m) == m[k] + MapTotal(m - {k})
    decreases |m|
  {
    var x :| x in m && MapTotal(m) == m[x] + MapTotal(m - {x});
    if x != k {
      MapTotalRemove(m - {x}, k);
      MapTotalRemove(m - {k}, x);
      assert m - {x} - {k} == m - {k} - {x};
    }
  }

  lemma {:induction false} MapTotalAdd<K(!new)>(m: map<K, nat>, k: K, v: nat)
    requires k !in m
    ensures MapTotal(m[k := v]) == MapTotal(m) + v
  {
    MapTotalRemove(m[k := v], k);
    assert m[k := v] - {k} == m;
  }

  // ---- Term counts ----

  function Freqs(tokens: seq<Term>): map<Term, nat> {
    if tokens == [] then map[]
    else
      var m, last := Freqs(tokens[..|tokens| - 1]), tokens[|tokens| - 1];
      m[last := (if last in m then m[last] else 0) + 1]
  }

  method TermFreqs(tokens: seq<Term>) returns (freqs: map<Term, nat>)
    ensures freqs == Freqs(tokens)
  {
    freqs := map[];
    for i := 0 to |tokens|
      invariant freqs == Freqs(tokens[..i])
    {
      assert tokens[..i + 1][..i] == tokens[..i];
      freqs := freqs[tokens[i] := (if tokens[i] in freqs then freqs[tokens[i]] else 0) + 1];
    }
    assert tokens[..|tokens|] == tokens;
  }

  /** The counts are the multiplicities of the words, and they add up to the length of the document. */
  lemma {:induction false} FreqsCount(tokens: seq<Term>, t: Term)
    ensures t in Freqs(tokens) <==> t in tokens
    ensures t in tokens ==> Freqs(tokens)[t] == multiset(tokens)[t] > 0
    ensures MapTotal(Freqs(tokens)) == |tokens|
  {
    if tokens != [] {
      var init, last := tokens[..|tokens| - 1], tokens[|tokens| - 1];
      FreqsCount(init, t);
      FreqsCountLast(init, last);
      assert tokens == init + [last];
    }
  }

  lemma {:induction false} FreqsCountLast(init: seq<Term>, last: Term)
    ensures MapTotal(Freqs(init + [last])) == MapTotal(Freqs(init)) + 1
  {
    var m := Freqs(init);
    assert (init + [last])[..|init|] == init;
    if last in m {
      MapTotalRemove(m, last);
      MapTotalRemove(m[last := m[last] + 1], last);
      assert m[last := m[last] + 1] - {last} == m - {last};
    } else {
      MapTotalAdd(m, last, 1);
    }
  }

  function DocOf(tokens: seq<Term>): Doc {
    Doc(|tokens|, Freqs(tokens))
  }

  // ---- The statistics of a set of documents ----

  ghost function Lens(docs: map<Id, Doc>): map<Id, nat> {
    map id | id in docs :: docs[id].len
  }

  ghost function DocsWith(docs: map<Id, Doc>, t: Term): set<Id> {
    set id | id in docs && t in docs[id].freqs
  }

  function Get(docFreq: map<Term, nat>, t: Term): nat {
    if t in docFreq then docFreq[t] else 0
  }

  ghost predicate CountRight(docs: map<Id, Doc>, docFreq: map<Term, nat>, t: Term) {
    Get(docFreq, t) == |DocsWith(docs, t)|
  }

  /** The incremental statistics are the from-scratch ones. */
  ghost predicate Agree(docs: map<Id, Doc>, docFreq: map<Term, nat>, n: nat, totalLen: nat) {
    && n == |docs| && totalLen == MapTotal(Lens(docs))
    && forall t :: CountRight(docs, docFreq, t)
  }

  lemma {:induction false} DocsWithAdd(docs: map<Id, Doc>, id: Id, d: Doc, t: Term)
    requires id !in docs
    ensures |DocsWith(docs[id := d], t)| == |DocsWith(docs, t)| + if t in d.freqs then 1 else 0
  {
    if t in d.freqs {
      assert DocsWith(docs[id := d], t) == DocsWith(docs, t) + {id};
    } else {
      assert DocsWith(docs[id := d], t) == DocsWith(docs, t);
    }
  }

  lemma {:induction false} LensAdd(docs: map<Id, Doc>, id: Id, d: Doc)
    requires id !in docs
    ensures MapTotal(Lens(docs[id := d])) == MapTotal(Lens(docs)) + d.len
  {
    assert Lens(docs[id := d]) == Lens(docs)[id := d.len];
    MapTotalAdd(Lens(docs), id, d.len);
  }

  /** `after` counts each term of the document once more. */
  ghost predicate Raised(docFreq: map<Term, nat>, after: map<Term, nat>, terms: set<Term>) {
    forall t :: Get(after, t) == Get(docFreq, t) + if t in terms then 1 else 0
  }

  function SaturatingSub(a: nat, b: nat): nat {
    if a >= b then a - b else 0
  }

  /** `after` counts each term of the document once less, but never below zero. */
  ghost predicate Lowered(docFreq: map<Term, nat>, after: map<Term, nat>, terms: set<Term>) {
    forall t :: Get(after, t) == SaturatingSub(Get(docFreq, t), if t in terms then 1 else 0)
  }

  lemma {:induction false} AgreeAdd(
      docs: map<Id, Doc>, docFreq: map<Term, nat>, n: nat, totalLen: nat, id: Id, d: Doc, after: map<Term, nat>)
    requires Agree(docs, docFreq, n, totalLen) && id !in docs && Raised(docFreq, after, d.freqs.Keys)
    ensures Agree(docs[id := d], after, n + 1, totalLen + d.len)
  {
    LensAdd(docs, id, d);
    var longer := docs[id := d];
    forall t
      ensures CountRight(longer, after, t)
    {
      assert CountRight(docs, docFreq, t);
      DocsWithAdd(docs, id, d, t);
    }
  }

  /** Taking a document away never meets a zero: no subtraction saturates. */
  lemma {:induction false} NothingSaturates(
      docs: map<Id, Doc>, docFreq: map<Term, nat>, n: nat, totalLen: nat, id: Id)
    requires Agree(docs, docFreq, n, totalLen) && id in docs
    ensures n >= 1 && totalLen >= docs[id].len
    ensures forall t :: t in docs[id].freqs ==> t in docFreq && docFreq[t] >= 1
  {
    MapTotalRemove(Lens(docs), id);
    forall t | t in docs[id].freqs
      ensures t in docFreq && docFreq[t] >= 1
    {
      assert id in DocsWith(docs, t);
      assert CountRight(docs, docFreq, t);
    }
    assert id in docs.Keys;
  }

  lemma {:induction false} AgreeRemove(
      docs: map<Id, Doc>, docFreq: map<Term, nat>, n: nat, totalLen: nat, id: Id, after: map<Term, nat>)
    requires Agree(docs, docFreq, n, totalLen) && id in docs && Lowered(docFreq, after, docs[id].freqs.Keys)
    ensures Agree(docs - {id}, after, SaturatingSub(n, 1), SaturatingSub(totalLen, docs[id].len))
  {
    NothingSaturates(docs, docFreq, n, totalLen, id);
    assert (docs - {id})[id := docs[id]] == docs;
    AgreeWithout(docs - {id}, id, docs[id], docFreq, n, totalLen, after);
  }

  lemma {:induction false} AgreeWithout(
      rest: map<Id, Doc>, id: Id, d: Doc, docFreq: map<Term, nat>, n: nat, totalLen: nat, after: map<Term, nat>)
    requires id !in rest && Agree(rest[id := d], docFreq, n, totalLen) && Lowered(docFreq, after, d.freqs.Keys)
    ensures Agree(rest, after, SaturatingSub(n, 1), SaturatingSub(totalLen, d.len))
  {
    LensAdd(rest, id, d);
    forall t
      ensures CountRight(rest, after, t)
    {
      assert CountRight(rest[id := d], docFreq, t);
      DocsWithAdd(rest, id, d, t);
    }
  }

  /** Adds one to the count of every term. */
  method Raise(docFreq: map<Term, nat>, terms: set<Term>) returns (after: map<Term, nat>)
    ensures Raised(docFreq, after, terms)
  {
    after := docFreq;
    var left := terms;
    assert terms - left == {};
    while left != {}
      invariant left <= terms && Raised(docFreq, after, terms - left)
      decreases |left|
    {
      var t :| t in left;
      assert terms - (left - {t}) == terms - left + {t};
      after := after[t := Get(after, t) + 1];
      left := left - {t};
    }
    assert terms - left == terms;
  }

  /** Takes one from the count of every term that has one. */
  method Lower(docFreq: map<Term, nat>, terms: set<Term>) returns (after: map<Term, nat>)
    ensures Lowered(docFreq, after, terms)
  {
    after := docFreq;
    var left := terms;
    assert terms - left == {};
    while left != {}
      invariant left <= terms && Lowered(docFreq, after, terms - left)
      decreases |left|
    {
      var t :| t in left;
      assert terms - (left - {t}) == terms - left + {t};
      if t in after {
        after := after[t := SaturatingSub(after[t], 1)];
      }
      left := left - {t};
    }
    assert terms - left == terms;
  }

  /** Two sets of statistics of the same documents are the same, term by term. */
  lemma {:induction false} StatisticsAreDetermined(
      docs: map<Id, Doc>, freq1: map<Term, nat>, n1: nat, total1: nat, freq2: map<Term, nat>, n2: nat, total2: nat)
    requires Agree(docs, freq1, n1, total1) && Agree(docs, freq2, n2, total2)
    ensures n1 == n2 && total1 == total2 && forall t :: Get(freq1, t) == Get(freq2, t)
  {
    forall t
      ensures Get(freq1, t) == Get(freq2, t)
    {
      assert CountRight(docs, freq1, t) && CountRight(docs, freq2, t);
    }
  }
}
