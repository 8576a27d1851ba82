/** The BM25 index: documents in and out, and the ranked keyword search (`bm25.rs`). */
module Bm25 {
  import opened Base
  import opened Ranking
  import opened Bm25Stats

  // ---- Sums over a set of terms ----

  ghost function Sum(terms: set<Term>, f: Term -> real): real {
    if terms == {} then 0.0
    else
      var t :| t in terms;
      f(t) + Sum(terms - {t}, f)
  }

  lemma {:induction false} SumRemove(terms: set<Term>, f: Term -> real, t: Term)
    requires t in terms
    ensures Sum(terms, f) == f(t) + Sum(terms - {t}, f)
    decreases |terms|
  {
    var x :| x in terms && Sum(terms, f) == f(x) + Sum(terms - {x}, f);
    if x != t {
      SumRemove(terms - {x}, f, t);
      SumRemove(terms - {t}, f, x);
      assert terms - {x} - {t} == terms - {t} - {x};
    }
  }

  lemma {:induction false} SumAdd(terms: set<Term>, f: Term -> real, t: Term)
    requires t !in terms
    ensures Sum(terms + {t}, f) == Sum(terms, f) + f(t)
  {
    SumRemove(terms + {t}, f, t);
    assert terms + {t} - {t} == terms;
  }

  /** Terms strictly between 0 and 2.2 times their idf add up to a sum strictly between 0 and 2.2 times the idfs' sum. */
  lemma {:induction false} SumBetween(terms: set<Term>, f: Term -> real, g: Term -> real)
    requires forall t :: t in terms ==> Between(f, g, t)
    requires terms != {}
    ensures 0.0 < Sum(terms, f) < 2.2 * Sum(terms, g)
    decreases |terms|
  {
    var t :| t in terms;
    SumRemove(terms, f, t);
    SumRemove(terms, g, t);
    assert Between(f, g, t);
    if terms - {t} != {} {
      SumBetween(terms - {t}, f, g);
    }
  }

  ghost predicate Between(f: Term -> real, g: Term -> real, t: Term) {
    0.0 < f(t) < 2.2 * g(t)
  }

  // ---- The score of a term in a document ----

  /** What the code needs of the natural logarithm: it is positive exactly above 1. */
  ghost predicate LnLaw(ln: real -> real) {
    forall x :: x > 0.0 ==> (ln(x) > 0.0 <==> x > 1.0)
  }

  function IdfArgument(n: nat, nt: nat): real {
    (n as real - nt as real + 0.5) / (nt as real + 0.5) + 1.0
  }

  function Idf(n: nat, nt: nat, ln: real -> real): real {
    ln(IdfArgument(n, nt))
  }

  /** A term in at most all documents has a positive inverse document frequency: the code's skip is never taken. */
  lemma {:induction false} IdfPositive(n: nat, nt: nat, ln: real -> real)
    requires LnLaw(ln) && nt <= n
    ensures Idf(n, nt, ln) > 0.0
  {
    var a, b := n as real - nt as real + 0.5, nt as real + 0.5;
    QuotientPositive(a, b);
  }

  lemma {:induction false} QuotientPositive(a: real, b: real)
    requires a > 0.0 && b > 0.0
    ensures a / b > 0.0
  {
    if a / b <= 0.0 {
      assert a == a / b * b;
    }
  }

  function Norm(len: nat, avgdl: real): real
    requires avgdl > 0.0
  {
    1.0 - 0.75 + 0.75 * (len as real / avgdl)
  }

  lemma {:induction false} NormPositive(len: nat, avgdl: real)
    requires avgdl > 0.0
    ensures Norm(len, avgdl) > 0.0
  {
    if len > 0 {
      QuotientPositive(len as real, avgdl);
    }
  }

  function Saturation(tf: nat, norm: real): real
    requires norm > 0.0
  {
    tf as real * 2.2 / (tf as real + 1.2 * norm)
  }

  lemma {:induction false} SaturationBounds(tf: nat, norm: real)
    requires tf > 0 && norm > 0.0
    ensures 0.0 < Saturation(tf, norm) < 2.2
  {
    var a, b := tf as real * 2.2, tf as real + 1.2 * norm;
    QuotientPositive(a, b);
    assert a / b * b == a && a < 2.2 * b;
    if a / b >= 2.2 {
      TimesAtLeast(a / b, 2.2, b);
    }
  }

  lemma {:induction false} TimesAtLeast(x: real, y: real, b: real)
    requires x >= y && b > 0.0
    ensures x * b >= y * b
  {
    assert (x - y) * b >= 0.0;
  }

  function TermScore(idf: real, tf: nat, len: nat, avgdl: real): real
    requires avgdl > 0.0
  {
    NormPositive(len, avgdl);
    idf * Saturation(tf, Norm(len, avgdl))
  }

  lemma {:induction false} TermScoreBounds(idf: real, tf: nat, len: nat, avgdl: real)
    requires avgdl > 0.0 && idf > 0.0 && tf > 0
    ensures 0.0 < TermScore(idf, tf, len, avgdl) < 2.2 * idf
  {
    NormPositive(len, avgdl);
    SaturationBounds(tf, Norm(len, avgdl));
    ScaleBounds(idf, Saturation(tf, Norm(len, avgdl)));
  }

  lemma {:induction false} ScaleBounds(idf: real, s: real)
    requires idf > 0.0 && 0.0 < s < 2.2
    ensures 0.0 < idf * s < 2.2 * idf
  {
    assert idf * (2.2 - s) > 0.0;
  }

  // ---- The score of a document ----

  ghost function AverageLength(docs: map<Id, Doc>): real
    requires docs != map[]
  {
    MapTotal(Lens(docs)) as real / |docs| as real
  }

  ghost predicate NoEmptyDoc(docs: map<Id, Doc>) {
    forall id :: FullAt(docs, id)
  }

  ghost predicate FullAt(docs: map<Id, Doc>, id: Id) {
    id in docs ==> docs[id].len > 0 && forall t :: t in docs[id].freqs ==> docs[id].freqs[t] > 0
  }

  lemma {:induction false} AveragePositive(docs: map<Id, Doc>)
    requires docs != map[] && NoEmptyDoc(docs)
    ensures AverageLength(docs) > 0.0
  {
    var id :| id in docs;
    assert FullAt(docs, id);
    MapTotalRemove(Lens(docs), id);
    QuotientPositive(MapTotal(Lens(docs)) as real, |docs| as real);
  }

  ghost function IdfOf(docs: map<Id, Doc>, ln: real -> real): Term -> real {
    (t: Term) => Idf(|docs|, |DocsWith(docs, t)|, ln)
  }

  /** What each term adds to the score of a document. */
  ghost function WeightIn(docs: map<Id, Doc>, d: Doc, ln: real -> real): Term -> real
    requires docs != map[] && NoEmptyDoc(docs)
  {
    AveragePositive(docs);
    (t: Term) =>
      if t in d.freqs then TermScore(IdfOf(docs, ln)(t), d.freqs[t], d.len, AverageLength(docs)) else 0.0
  }

  /** The query terms a document has. */
  function Matched(d: Doc, terms: set<Term>): set<Term> {
    terms * d.freqs.Keys
  }

  /** The scores of exactly the documents that share a term with the query. */
  ghost function Scores(docs: map<Id, Doc>, terms: set<Term>, ln: real -> real): map<Id, real>
    requires docs != map[] && NoEmptyDoc(docs)
  {
    map id | id in docs && Matched(docs[id], terms) != {} ::
      Sum(Matched(docs[id], terms), WeightIn(docs, docs[id], ln))
  }

  lemma {:induction false} SumBounds(docs: map<Id, Doc>, d: Doc, matched: set<Term>, ln: real -> real)
    requires docs != map[] && NoEmptyDoc(docs) && LnLaw(ln) && matched != {}
    requires forall t :: t in matched ==> t in d.freqs && d.freqs[t] > 0
    ensures 0.0 < Sum(matched, WeightIn(docs, d, ln)) < 2.2 * Sum(matched, IdfOf(docs, ln))
  {
    forall t | t in matched
      ensures Between(WeightIn(docs, d, ln), IdfOf(docs, ln), t)
    {
      WeightBounds(docs, d, ln, t);
    }
    SumBetween(matched, WeightIn(docs, d, ln), IdfOf(docs, ln));
  }

  /** Every matching document scores above 0 and below 2.2 times the sum of the idfs of its matched terms. */
  lemma {:induction false} ScoreBounds(docs: map<Id, Doc>, terms: set<Term>, ln: real -> real, id: Id)
    requires docs != map[] && NoEmptyDoc(docs) && LnLaw(ln)
    requires id in docs && Matched(docs[id], terms) != {}
    ensures id in Scores(docs, terms, ln)
    ensures 0.0 < Scores(docs, terms, ln)[id] < 2.2 * Sum(Matched(docs[id], terms), IdfOf(docs, ln))
  {
    assert FullAt(docs, id);
    SumBounds(docs, docs[id], Matched(docs[id], terms), ln);
  }

  lemma {:induction false} DocsWithFew(docs: map<Id, Doc>, t: Term)
    ensures |DocsWith(docs, t)| <= |docs|
  {
    SubsetCount(DocsWith(docs, t), docs.Keys);
  }

  lemma {:induction false} WeightBounds(docs: map<Id, Doc>, d: Doc, ln: real -> real, t: Term)
    requires docs != map[] && NoEmptyDoc(docs) && LnLaw(ln) && t in d.freqs && d.freqs[t] > 0
    ensures Between(WeightIn(docs, d, ln), IdfOf(docs, ln), t)
  {
    AveragePositive(docs);
    DocsWithFew(docs, t);
    IdfPositive(|docs|, |DocsWith(docs, t)|, ln);
    TermScoreBounds(IdfOf(docs, ln)(t), d.freqs[t], d.len, AverageLength(docs));
  }

  // ---- Accumulating the scores, term by term ----

  /** One document's share of one term: its entry is created at 0 when it is not there yet. */
  function Bumped(scores: map<Id, real>, id: Id, share: real): map<Id, real> {
    scores[id := (if id in scores then scores[id] else 0.0) + share]
  }

  /** The documents in `seen` have had term t added. */
  ghost predicate HalfAdded(
      scores: map<Id, real>, docs: map<Id, Doc>, done: set<Term>, t: Term, seen: set<Id>, ln: real -> real)
    requires docs != map[] && NoEmptyDoc(docs)
  {
    scores.Keys <= docs.Keys && forall id :: HalfAt(scores, docs, done, t, seen, id, ln)
  }

  ghost predicate HalfAt(
      scores: map<Id, real>, docs: map<Id, Doc>, done: set<Term>, t: Term, seen: set<Id>, id: Id, ln: real -> real)
    requires docs != map[] && NoEmptyDoc(docs)
  {
    id in docs ==> ScoreIs(scores, docs, id, if id in seen then done + {t} else done, ln)
  }

  ghost predicate ScoreIs(scores: map<Id, real>, docs: map<Id, Doc>, id: Id, terms: set<Term>, ln: real -> real)
    requires docs != map[] && NoEmptyDoc(docs) && id in docs
  {
    if Matched(docs[id], terms) == {} then id !in scores
    else id in scores && scores[id] == Sum(Matched(docs[id], terms), WeightIn(docs, docs[id], ln))
  }

  lemma {:induction false} ShareAdded(
      scores: map<Id, real>, docs: map<Id, Doc>, id: Id, done: set<Term>, t: Term, ln: real -> real)
    requires docs != map[] && NoEmptyDoc(docs) && id in docs && t !in done
    requires ScoreIs(scores, docs, id, done, ln)
    ensures t !in docs[id].freqs ==> ScoreIs(scores, docs, id, done + {t}, ln)
    ensures t in docs[id].freqs ==>
              ScoreIs(Bumped(scores, id, WeightIn(docs, docs[id], ln)(t)), docs, id, done + {t}, ln)
  {
    var d := docs[id];
    if t in d.freqs {
      assert Matched(d, done + {t}) == Matched(d, done) + {t};
      SumAdd(Matched(d, done), WeightIn(docs, d, ln), t);
    } else {
      assert Matched(d, done + {t}) == Matched(d, done);
    }
  }

  lemma {:induction false} HalfAddedOne(
      scores: map<Id, real>, after: map<Id, real>, docs: map<Id, Doc>, done: set<Term>, t: Term, seen: set<Id>,
      id: Id, ln: real -> real)
    requires docs != map[] && NoEmptyDoc(docs) && t !in done && id in docs && id !in seen
    requires HalfAdded(scores, docs, done, t, seen, ln)
    requires after == if t in docs[id].freqs then Bumped(scores, id, WeightIn(docs, docs[id], ln)(t)) else scores
    ensures HalfAdded(after, docs, done, t, seen + {id}, ln)
  {
    assert HalfAt(scores, docs, done, t, seen, id, ln);
    ShareAdded(scores, docs, id, done, t, ln);
    forall other
      ensures HalfAt(after, docs, done, t, seen + {id}, other, ln)
    {
      assert HalfAt(scores, docs, done, t, seen, other, ln);
    }
  }

  /** Every document has exactly the terms in `done` added. */
  ghost predicate Sofar(scores: map<Id, real>, docs: map<Id, Doc>, done: set<Term>, ln: real -> real)
    requires docs != map[] && NoEmptyDoc(docs)
  {
    scores.Keys <= docs.Keys && forall id :: AddedAt(scores, docs, done, id, ln)
  }

  ghost predicate AddedAt(scores: map<Id, real>, docs: map<Id, Doc>, done: set<Term>, id: Id, ln: real -> real)
    requires docs != map[] && NoEmptyDoc(docs)
  {
    id in docs ==> ScoreIs(scores, docs, id, done, ln)
  }

  lemma {:induction false} NoneAdded(
      scores: map<Id, real>, docs: map<Id, Doc>, done: set<Term>, t: Term, ln: real -> real)
    requires docs != map[] && NoEmptyDoc(docs) && Sofar(scores, docs, done, ln)
    ensures HalfAdded(scores, docs, done, t, {}, ln)
  {
    forall id
      ensures HalfAt(scores, docs, done, t, {}, id, ln)
    {
      assert AddedAt(scores, docs, done, id, ln);
    }
  }

  lemma {:induction false} AllAdded(
      scores: map<Id, real>, docs: map<Id, Doc>, done: set<Term>, t: Term, ln: real -> real)
    requires docs != map[] && NoEmptyDoc(docs) && HalfAdded(scores, docs, done, t, docs.Keys, ln)
    ensures Sofar(scores, docs, done + {t}, ln)
  {
    forall id
      ensures AddedAt(scores, docs, done + {t}, id, ln)
    {
      assert HalfAt(scores, docs, done, t, docs.Keys, id, ln);
    }
  }

  lemma {:induction false} SofarIsScores(scores: map<Id, real>, docs: map<Id, Doc>, done: set<Term>, ln: real -> real)
    requires docs != map[] && NoEmptyDoc(docs) && Sofar(scores, docs, done, ln)
    ensures scores == Scores(docs, done, ln)
  {
    forall id | id in docs
      ensures id in scores <==> id in Scores(docs, done, ln)
      ensures id in scores ==> scores[id] == Scores(docs, done, ln)[id]
    {
      assert AddedAt(scores, docs, done, id, ln);
    }
  }

  lemma {:induction false} ShareIs(docs: map<Id, Doc>, id: Id, t: Term, ln: real -> real)
    requires docs != map[] && NoEmptyDoc(docs) && id in docs
    ensures AverageLength(docs) > 0.0 && (Get(docs[id].freqs, t) != 0 <==> t in docs[id].freqs)
    ensures t in docs[id].freqs ==>
              WeightIn(docs, docs[id], ln)(t)
              == TermScore(IdfOf(docs, ln)(t), Get(docs[id].freqs, t), docs[id].len, AverageLength(docs))
  {
    AveragePositive(docs);
    assert FullAt(docs, id);
  }

  /** The body of the inner loop: one term in one document. */
  method AddShare(
      docs: map<Id, Doc>, scores: map<Id, real>, t: Term, idf: real, avgdl: real, id: Id, ghost done: set<Term>,
      ghost seen: set<Id>, ghost ln: real -> real)
    returns (after: map<Id, real>)
    requires docs != map[] && NoEmptyDoc(docs) && t !in done && HalfAdded(scores, docs, done, t, seen, ln)
    requires avgdl > 0.0 && avgdl == AverageLength(docs) && idf == IdfOf(docs, ln)(t)
    requires id in docs && id !in seen
    ensures HalfAdded(after, docs, done, t, seen + {id}, ln)
  {
    var d := docs[id];
    var tf := Get(d.freqs, t);
    after := scores;
    ShareIs(docs, id, t, ln);
    if tf != 0 {
      after := Bumped(scores, id, TermScore(idf, tf, d.len, avgdl));
    }
    HalfAddedOne(scores, after, docs, done, t, seen, id, ln);
  }

  lemma {:induction false} OneFewer<T>(all: set<T>, left: set<T>, x: T)
    requires left <= all && x in left
    ensures all - (left - {x}) == all - left + {x} && x in all && x !in all - left
  {
  }

  /** The inner loop: adds one term to the score of every document that has it. */
  method AddTerm(
      docs: map<Id, Doc>, scores: map<Id, real>, t: Term, idf: real, avgdl: real, ghost done: set<Term>,
      ghost ln: real -> real)
    returns (after: map<Id, real>)
    requires docs != map[] && NoEmptyDoc(docs) && t !in done && Sofar(scores, docs, done, ln)
    requires avgdl > 0.0 && avgdl == AverageLength(docs) && idf == IdfOf(docs, ln)(t)
    ensures Sofar(after, docs, done + {t}, ln)
  {
    after := scores;
    var left := docs.Keys;
    NoneAdded(scores, docs, done, t, ln);
    assert docs.Keys - left == {};
    while left != {}
      invariant left <= docs.Keys && HalfAdded(after, docs, done, t, docs.Keys - left, ln)
      decreases |left|
    {
      var id :| id in left;
      OneFewer(docs.Keys, left, id);
      after := AddShare(docs, after, t, idf, avgdl, id, done, docs.Keys - left, ln);
      left := left - {id};
    }
    assert docs.Keys - left == docs.Keys;
    AllAdded(after, docs, done, t, ln);
  }

  /** Scores every document against every distinct query term. */
  method ScoreAll(
      docs: map<Id, Doc>, docFreq: map<Term, nat>, n: nat, totalLen: nat, terms: set<Term>, ln: real -> real)
    returns (scores: map<Id, real>)
    requires docs != map[] && NoEmptyDoc(docs) && Agree(docs, docFreq, n, totalLen) && LnLaw(ln)
    ensures scores == Scores(docs, terms, ln)
  {
    AveragePositive(docs);
    var avgdl := totalLen as real / n as real;
    scores := map[];
    var left := terms;
    assert terms - left == {};
    while left != {}
      invariant left <= terms && Sofar(scores, docs, terms - left, ln)
      decreases |left|
    {
      var t :| t in left;
      var nt := Get(docFreq, t);
      assert CountRight(docs, docFreq, t);
      var idf := Idf(n, nt, ln);
      DocsWithFew(docs, t);
      IdfPositive(n, nt, ln);
      OneFewer(terms, left, t);
      if idf > 0.0 {
        scores := AddTerm(docs, scores, t, idf, avgdl, terms - left, ln);
      }
      left := left - {t};
    }
    assert terms - left == terms;
    SofarIsScores(scores, docs, terms, ln);
  }

  // ---- The index ----

  /** The documents as their last texts give them. */
  ghost function DocsOf(texts: map<Id, seq<Term>>): map<Id, Doc> {
    map id | id in texts :: DocOf(texts[id])
  }

  ghost predicate NoBlankText(texts: map<Id, seq<Term>>) {
    forall id :: id in texts ==> texts[id] != []
  }

  lemma {:induction false} TextsGiveFullDocs(texts: map<Id, seq<Term>>)
    requires NoBlankText(texts)
    ensures NoEmptyDoc(DocsOf(texts))
  {
    forall id, t | id in texts && t in Freqs(texts[id])
      ensures Freqs(texts[id])[t] > 0
    {
      FreqsCount(texts[id], t);
    }
  }

  /** The search results over a set of texts: a function of the texts alone. */
  ghost function ResultScores(texts: map<Id, seq<Term>>, terms: set<Term>, ln: real -> real): map<Id, real>
    requires NoBlankText(texts)
  {
    TextsGiveFullDocs(texts);
    if texts == map[] then map[] else Scores(DocsOf(texts), terms, ln)
  }

  ghost predicate InStep(
      docs: map<Id, Doc>, docFreq: map<Term, nat>, n: nat, totalLen: nat, texts: map<Id, seq<Term>>)
  {
    docs == DocsOf(texts) && NoBlankText(texts) && Agree(docs, docFreq, n, totalLen)
  }

  lemma {:induction false} InStepRemove(
      docs: map<Id, Doc>, docFreq: map<Term, nat>, n: nat, totalLen: nat, texts: map<Id, seq<Term>>, id: Id,
      after: map<Term, nat>)
    requires InStep(docs, docFreq, n, totalLen, texts) && id in docs && Lowered(docFreq, after, docs[id].freqs.Keys)
    ensures InStep(
      docs - {id}, after, SaturatingSub(n, 1), SaturatingSub(totalLen, docs[id].len), texts - {id})
  {
    AgreeRemove(docs, docFreq, n, totalLen, id, after);
    assert docs - {id} == DocsOf(texts - {id});
  }

  lemma {:induction false} InStepAdd(
      docs: map<Id, Doc>, docFreq: map<Term, nat>, n: nat, totalLen: nat, texts: map<Id, seq<Term>>, id: Id,
      tokens: seq<Term>, d: Doc, after: map<Term, nat>)
    requires InStep(docs, docFreq, n, totalLen, texts) && id !in texts && tokens != [] && d == DocOf(tokens)
    requires Raised(docFreq, after, d.freqs.Keys)
    ensures InStep(docs[id := d], after, n + 1, totalLen + d.len, texts[id := tokens])
  {
    AgreeAdd(docs, docFreq, n, totalLen, id, d, after);
    assert docs[id := d] == DocsOf(texts[id := tokens]);
  }

  lemma {:induction false} PutBack<V>(m: map<Id, V>, id: Id, v: V)
    ensures (m - {id})[id := v] == m[id := v]
  {
  }

  class BM25Index {
    var docs: map<Id, Doc>
    var docFreq: map<Term, nat>
    var n: nat
    var totalLen: nat
    /** The words of the last text indexed for each id. */
    ghost var texts: map<Id, seq<Term>>

    ghost predicate Valid()
      reads this
    {
      InStep(docs, docFreq, n, totalLen, texts)
    }

    constructor ()
      ensures Valid() && texts == map[]
    {
      docs, docFreq, n, totalLen, texts := map[], map[], 0, 0, map[];
      new;
      assert Lens(map[]) == map[];
      forall t
        ensures CountRight(docs, docFreq, t)
      {
        assert DocsWith(docs, t) == {};
      }
    }

    /** Takes a document out of the statistics. */
    method Forget(id: Id)
      requires Valid()
      modifies this
      ensures Valid() && texts == old(texts) - {id}
    {
      if id in docs {
        var d := docs[id];
        var after := Lower(docFreq, d.freqs.Keys);
        InStepRemove(docs, docFreq, n, totalLen, texts, id, after);
        Install(docs - {id}, after, SaturatingSub(n, 1), SaturatingSub(totalLen, d.len), texts - {id});
      } else {
        assert texts - {id} == texts;
      }
    }

    method Install(
        docs: map<Id, Doc>, docFreq: map<Term, nat>, n: nat, totalLen: nat, ghost texts: map<Id, seq<Term>>)
      requires InStep(docs, docFreq, n, totalLen, texts)
      modifies this
      ensures Valid() && this.texts == texts
    {
      this.docs, this.docFreq, this.n, this.totalLen, this.texts := docs, docFreq, n, totalLen, texts;
    }

    method Enter(id: Id, tokens: seq<Term>)
      requires Valid() && id !in texts && tokens != []
      modifies this
      ensures Valid() && texts == old(texts)[id := tokens]
    {
      var freqs := TermFreqs(tokens);
      var d := Doc(|tokens|, freqs);
      var after := Raise(docFreq, d.freqs.Keys);
      InStepAdd(docs, docFreq, n, totalLen, texts, id, tokens, d, after);
      Install(docs[id := d], after, n + 1, totalLen + d.len, texts[id := tokens]);
    }

    /** Replaces the document; a text without words only removes it. */
    method IndexDocument(id: Id, tokens: seq<Term>)
      requires Valid()
      modifies this
      ensures Valid()
      ensures texts == if tokens == [] then old(texts) - {id} else old(texts)[id := tokens]
    {
      Forget(id);
      if tokens != [] {
        PutBack(old(texts), id, tokens);
        Enter(id, tokens);
      }
    }

    method RemoveDocument(id: Id)
      requires Valid()
      modifies this
      ensures Valid() && texts == old(texts) - {id}
    {
      Forget(id);
    }

    /** The k best documents that share a word with the query, best first. */
    method Search(query: seq<Term>, k: nat, ln: real -> real) returns (out: seq<Scored>)
      requires Valid() && LnLaw(ln)
      ensures IsTop(out, ResultScores(texts, (set t | t in query), ln), k, true)
    {
      var terms := set t | t in query;
      TextsGiveFullDocs(texts);
      if query == [] || n == 0 {
        return [];
      }
      var scores := ScoreAll(docs, docFreq, n, totalLen, terms, ln);
      var listed := ListScores(scores);
      out := TakeTop(listed, scores, k, true);
    }
  }

  /**
   * Whatever the history of two indexes, the last texts alone decide their documents and every
   * statistic a search reads: an index edited in place is the one rebuilt from scratch.
   */
  lemma {:induction false} SameTextsSameIndex(a: BM25Index, b: BM25Index)
    requires a.Valid() && b.Valid() && a.texts == b.texts
    ensures a.docs == b.docs && a.n == b.n == |a.texts| && a.totalLen == b.totalLen
    ensures forall t :: Get(a.docFreq, t) == Get(b.docFreq, t)
  {
    StatisticsAreDetermined(a.docs, a.docFreq, a.n, a.totalLen, b.docFreq, b.n, b.totalLen);
    assert a.docs.Keys == a.texts.Keys;
  }
}
