/** How BM25 ranks, said of the words of the texts alone (`bm25.rs`). */
module Bm25Ranking {
  import opened Base
  import opened Ranking
  import opened Bm25Stats
  import opened Bm25

  type Texts = map<Id, seq<Term>>

  // ---- The statistics of the texts ----

  /** How often the word is in the text. */
  ghost function Times(texts: Texts, id: Id, t: Term): nat
    requires id in texts
  {
    multiset(texts[id])[t]
  }

  /** How many texts have the word. */
  ghost function Holders(texts: Texts, t: Term): nat {
    |set id | id in texts && t in texts[id]|
  }

  ghost function TotalWords(texts: Texts): nat {
    MapTotal(map id | id in texts :: |texts[id]|)
  }

  ghost function AverageWords(texts: Texts): real
    requires texts != map[]
  {
    TotalWords(texts) as real / |texts| as real
  }

  /** The only word of the query in the text. */
  ghost predicate OnlyMatch(texts: Texts, terms: set<Term>, id: Id, t: Term) {
    id in texts && t in terms && forall w :: w in terms ==> (w in texts[id] <==> w == t)
  }

  lemma {:induction false} DocFacts(texts: Texts, id: Id, t: Term)
    requires id in texts
    ensures var d := DocsOf(texts)[id];
            && d.len == |texts[id]| && (t in d.freqs <==> t in texts[id])
            && (t in texts[id] ==> d.freqs[t] == Times(texts, id, t) > 0)
  {
    FreqsCount(texts[id], t);
  }

  lemma {:induction false} CorpusFacts(texts: Texts, t: Term)
    requires NoBlankText(texts) && texts != map[]
    ensures var docs := DocsOf(texts);
            && |docs| == |texts| > 0 && NoEmptyDoc(docs) && |DocsWith(docs, t)| == Holders(texts, t) <= |texts|
            && AverageLength(docs) == AverageWords(texts) > 0.0
  {
    var docs := DocsOf(texts);
    TextsGiveFullDocs(texts);
    forall id | id in texts
      ensures t in docs[id].freqs <==> t in texts[id]
    {
      DocFacts(texts, id, t);
    }
    assert DocsWith(docs, t) == set id | id in texts && t in texts[id];
    assert Lens(docs) == map id | id in texts :: |texts[id]|;
    assert docs.Keys == texts.Keys && |docs| == |docs.Keys| && |texts| == |texts.Keys|;
    DocsWithFew(docs, t);
    AveragePositive(docs);
  }

  /** What a word adds to the score of a text. */
  ghost function Weight(texts: Texts, id: Id, ln: real -> real): Term -> real
    requires NoBlankText(texts) && id in texts
  {
    TextsGiveFullDocs(texts);
    WeightIn(DocsOf(texts), DocsOf(texts)[id], ln)
  }

  ghost function MatchedIn(texts: Texts, terms: set<Term>, id: Id): set<Term>
    requires id in texts
  {
    set t | t in terms && t in texts[id]
  }

  lemma {:induction false} ScoreIsSum(texts: Texts, terms: set<Term>, ln: real -> real, id: Id)
    requires NoBlankText(texts) && id in texts
    ensures id in ResultScores(texts, terms, ln) <==> MatchedIn(texts, terms, id) != {}
    ensures MatchedIn(texts, terms, id) != {} ==>
              ResultScores(texts, terms, ln)[id] == Sum(MatchedIn(texts, terms, id), Weight(texts, id, ln))
  {
    TextsGiveFullDocs(texts);
    forall t | t in terms
      ensures t in DocsOf(texts)[id].freqs <==> t in texts[id]
    {
      DocFacts(texts, id, t);
    }
    assert Matched(DocsOf(texts)[id], terms) == MatchedIn(texts, terms, id);
  }

  /** What the weight of a word is computed from. */
  ghost predicate WeighedBy(texts: Texts, id: Id, ln: real -> real, t: Term, idf: real, c: nat, len: nat, avg: real)
    requires id in texts
  {
    && idf == Idf(|texts|, Holders(texts, t), ln) && c == Times(texts, id, t) && len == |texts[id]|
    && avg == AverageWords(texts)
  }

  lemma {:induction false} WeightIs(
      texts: Texts, id: Id, ln: real -> real, t: Term, idf: real, c: nat, len: nat, avg: real)
    requires NoBlankText(texts) && id in texts && t in texts[id] && WeighedBy(texts, id, ln, t, idf, c, len, avg)
    ensures avg > 0.0 && c > 0 && Weight(texts, id, ln)(t) == TermScore(idf, c, len, avg)
  {
    CorpusFacts(texts, t);
    DocFacts(texts, id, t);
    DocWeight(DocsOf(texts), DocsOf(texts)[id], ln, t);
  }

  lemma {:induction false} DocWeight(docs: map<Id, Doc>, d: Doc, ln: real -> real, t: Term)
    requires docs != map[] && NoEmptyDoc(docs) && t in d.freqs
    ensures AverageLength(docs) > 0.0
    ensures WeightIn(docs, d, ln)(t)
         == TermScore(Idf(|docs|, |DocsWith(docs, t)|, ln), d.freqs[t], d.len, AverageLength(docs))
  {
    AveragePositive(docs);
    var idf := IdfOf(docs, ln)(t);
    assert idf == Idf(|docs|, |DocsWith(docs, t)|, ln);
    assert WeightIn(docs, d, ln)(t) == TermScore(idf, d.freqs[t], d.len, AverageLength(docs));
  }

  lemma {:induction false} SumOne(f: Term -> real, t: Term)
    ensures Sum({t}, f) == f(t)
  {
    SumRemove({t}, f, t);
    assert {t} - {t} == {};
  }

  lemma {:induction false} OneMatch(texts: Texts, terms: set<Term>, ln: real -> real, id: Id, t: Term)
    requires NoBlankText(texts) && OnlyMatch(texts, terms, id, t)
    ensures id in ResultScores(texts, terms, ln)
    ensures ResultScores(texts, terms, ln)[id] == Weight(texts, id, ln)(t)
  {
    ScoreIsSum(texts, terms, ln, id);
    OnlyOneMatched(texts, terms, id, t);
    SumOne(Weight(texts, id, ln), t);
  }

  lemma {:induction false} OnlyOneMatched(texts: Texts, terms: set<Term>, id: Id, t: Term)
    requires OnlyMatch(texts, terms, id, t)
    ensures MatchedIn(texts, terms, id) == {t}
  {
  }

  lemma {:induction false} MatchedSplits(texts: Texts, terms: set<Term>, id: Id, t: Term)
    requires id in texts && t in terms && t in texts[id]
    ensures MatchedIn(texts, terms - {t}, id) == MatchedIn(texts, terms, id) - {t}
    ensures MatchedIn(texts, {t}, id) == {t} && t in MatchedIn(texts, terms, id)
  {
  }

  // ---- The score itself ----

  lemma {:induction false} IdfArgumentIs(n: nat, m: nat)
    ensures IdfArgument(n, m) == (n + 1) as real / (m as real + 0.5)
  {
    var b := m as real + 0.5;
    assert IdfArgument(n, m) * b == (n as real - m as real + 0.5) + b;
    assert IdfArgument(n, m) * b == (n + 1) as real;
  }

  lemma {:induction false} TermScoreTimes(idf: real, tf: nat, len: nat, avgdl: real, score: real)
    requires avgdl > 0.0 && tf > 0 && score == TermScore(idf, tf, len, avgdl)
    ensures score * (tf as real + 1.2 * (0.25 + 0.75 * (len as real / avgdl))) == idf * (2.2 * tf as real)
  {
    NormPositive(len, avgdl);
    var norm := Norm(len, avgdl);
    var b := tf as real + 1.2 * norm;
    assert Saturation(tf, norm) * b == tf as real * 2.2;
    MultiplyTwice(idf, Saturation(tf, norm), b);
  }

  lemma {:induction false} MultiplyTwice(a: real, s: real, b: real)
    ensures a * s * b == a * (s * b)
  {
  }

  /**
   * The textbook equation of a score: with n texts of which m have the word, the word c times among the
   * text's len words, and avg words in a text on average.
   */
  ghost predicate IsScore(score: real, ln: real -> real, n: nat, m: nat, c: nat, len: nat, avg: real)
    requires avg > 0.0
  {
    score * (c as real + 1.2 * (0.25 + 0.75 * (len as real / avg)))
    == ln((n + 1) as real / (m as real + 0.5)) * (2.2 * c as real)
  }

  lemma {:induction false} TermScoreIsScore(
      score: real, idf: real, ln: real -> real, n: nat, m: nat, c: nat, len: nat, avg: real)
    requires avg > 0.0 && c > 0 && idf == Idf(n, m, ln) && score == TermScore(idf, c, len, avg)
    ensures IsScore(score, ln, n, m, c, len, avg)
  {
    IdfArgumentIs(n, m);
    TermScoreTimes(idf, c, len, avg, score);
  }

  /** A text with one word of the query scores ln((n + 1) / (m + 0.5)) * 2.2 c / (c + 1.2 (0.25 + 0.75 len / avg)). */
  lemma {:induction false} SingleMatchScore(texts: Texts, terms: set<Term>, ln: real -> real, id: Id, t: Term)
    requires NoBlankText(texts) && OnlyMatch(texts, terms, id, t)
    ensures id in ResultScores(texts, terms, ln) && AverageWords(texts) > 0.0
    ensures IsScore(ResultScores(texts, terms, ln)[id], ln, |texts|, Holders(texts, t), Times(texts, id, t),
                    |texts[id]|, AverageWords(texts))
  {
    OneMatch(texts, terms, ln, id, t);
    var idf := Idf(|texts|, Holders(texts, t), ln);
    WeightIs(texts, id, ln, t, idf, Times(texts, id, t), |texts[id]|, AverageWords(texts));
    TermScoreIsScore(Weight(texts, id, ln)(t), idf, ln, |texts|, Holders(texts, t), Times(texts, id, t),
                     |texts[id]|, AverageWords(texts));
  }

  ghost function ScoreOrZero(texts: Texts, terms: set<Term>, ln: real -> real, id: Id): real
    requires NoBlankText(texts)
  {
    if id in ResultScores(texts, terms, ln) then ResultScores(texts, terms, ln)[id] else 0.0
  }

  lemma {:induction false} ScoreOrZeroIsSum(texts: Texts, terms: set<Term>, ln: real -> real, id: Id)
    requires NoBlankText(texts) && id in texts
    ensures ScoreOrZero(texts, terms, ln, id) == Sum(MatchedIn(texts, terms, id), Weight(texts, id, ln))
  {
    ScoreIsSum(texts, terms, ln, id);
  }

  /** The words of the query add up: each contributes what it would score alone. */
  lemma {:induction false} ScoreAddsUp(texts: Texts, terms: set<Term>, ln: real -> real, id: Id, t: Term)
    requires NoBlankText(texts) && id in texts && t in terms && t in texts[id]
    ensures ScoreOrZero(texts, terms, ln, id)
         == ScoreOrZero(texts, terms - {t}, ln, id) + ScoreOrZero(texts, {t}, ln, id)
  {
    ScoreOrZeroIsSum(texts, terms, ln, id);
    ScoreOrZeroIsSum(texts, terms - {t}, ln, id);
    ScoreOrZeroIsSum(texts, {t}, ln, id);
    MatchedSplits(texts, terms, id, t);
    SumRemove(MatchedIn(texts, terms, id), Weight(texts, id, ln), t);
    SumOne(Weight(texts, id, ln), t);
  }

  // ---- Which text ranks higher ----

  ghost predicate LnGrows(ln: real -> real) {
    forall x, y :: 0.0 < x < y ==> ln(x) < ln(y)
  }

  lemma {:induction false} QuotientLess(x: real, p: real, y: real, q: real)
    requires p > 0.0 && q > 0.0 && x * q < y * p
    ensures x / p < y / q
  {
    var u, v := x / p, y / q;
    assert u * p == x && v * q == y;
    if u >= v {
      ProductsAtLeast(u, v, p, q);
    }
  }

  lemma {:induction false} ProductsAtLeast(u: real, v: real, p: real, q: real)
    requires u >= v && p > 0.0 && q > 0.0
    ensures u * p * q >= v * q * p
  {
    var pq := p * q;
    assert pq > 0.0 && u * pq >= v * pq;
    assert u * p * q == u * pq && v * q * p == v * pq;
  }

  lemma {:induction false} ProductLess(a: real, x: real, y: real)
    requires a > 0.0 && x < y
    ensures a * x < a * y
  {
  }

  /** A higher count and a shorter text saturate further. */
  lemma {:induction false} SaturationGrows(tf: nat, norm: real, higher: nat, lower: real)
    requires 0 < tf <= higher && 0.0 < lower <= norm && (tf < higher || lower < norm)
    ensures Saturation(tf, norm) < Saturation(higher, lower)
  {
    var x, y, a, b := tf as real, higher as real, 1.2 * norm, 1.2 * lower;
    CrossLess(x, y, a, b);
    QuotientLess(x * 2.2, x + a, y * 2.2, y + b);
  }

  lemma {:induction false} CrossLess(x: real, y: real, a: real, b: real)
    requires 0.0 < x <= y && 0.0 < b <= a && (x < y || b < a)
    ensures x * 2.2 * (y + b) < y * 2.2 * (x + a)
  {
    if x < y {
      ProductLess(b, x, y);
      assert y * b <= y * a;
    } else {
      ProductLess(y, b, a);
    }
    assert x * b < y * a;
    assert x * 2.2 * (y + b) == 2.2 * (x * y) + 2.2 * (x * b);
    assert y * 2.2 * (x + a) == 2.2 * (x * y) + 2.2 * (y * a);
  }

  lemma {:induction false} NormGrows(len: nat, longer: nat, avgdl: real)
    requires avgdl > 0.0 && len <= longer
    ensures Norm(len, avgdl) <= Norm(longer, avgdl) && (len < longer ==> Norm(len, avgdl) < Norm(longer, avgdl))
  {
    if len < longer {
      QuotientLess(len as real, avgdl, longer as real, avgdl);
    }
  }

  /** A word weighs more where it is more frequent and the text is shorter. */
  lemma {:induction false} TermScoreGrows(
      idf: real, tf: nat, len: nat, higher: nat, shorter: nat, avgdl: real, low: real, high: real)
    requires avgdl > 0.0 && idf > 0.0 && 0 < tf <= higher && shorter <= len
    requires low == TermScore(idf, tf, len, avgdl) && high == TermScore(idf, higher, shorter, avgdl)
    ensures low <= high && (tf < higher || shorter < len ==> low < high)
  {
    NormPositive(len, avgdl);
    NormPositive(shorter, avgdl);
    NormGrows(shorter, len, avgdl);
    var s1, s2 := Saturation(tf, Norm(len, avgdl)), Saturation(higher, Norm(shorter, avgdl));
    assert low == idf * s1 && high == idf * s2;
    if tf < higher || shorter < len {
      SaturationGrows(tf, Norm(len, avgdl), higher, Norm(shorter, avgdl));
      ProductLess(idf, s1, s2);
    }
  }

  lemma {:induction false} WeightPositive(texts: Texts, id: Id, ln: real -> real, t: Term)
    requires NoBlankText(texts) && LnLaw(ln) && id in texts && t in texts[id]
    ensures Weight(texts, id, ln)(t) > 0.0
    ensures Idf(|texts|, Holders(texts, t), ln) > 0.0
  {
    var idf := Idf(|texts|, Holders(texts, t), ln);
    WeightIs(texts, id, ln, t, idf, Times(texts, id, t), |texts[id]|, AverageWords(texts));
    CorpusFacts(texts, t);
    IdfPositive(|texts|, Holders(texts, t), ln);
    TermScoreBounds(idf, Times(texts, id, t), |texts[id]|, AverageWords(texts));
  }

  lemma {:induction false} WeightGrows(texts: Texts, a: Id, b: Id, ln: real -> real, t: Term)
    requires NoBlankText(texts) && LnLaw(ln) && a in texts && b in texts && t in texts[b]
    requires Times(texts, a, t) >= Times(texts, b, t) && |texts[a]| <= |texts[b]|
    ensures t in texts[a] && Weight(texts, a, ln)(t) >= Weight(texts, b, ln)(t)
    ensures Times(texts, a, t) > Times(texts, b, t) || |texts[a]| < |texts[b]| ==>
              Weight(texts, a, ln)(t) > Weight(texts, b, ln)(t)
  {
    DocFacts(texts, b, t);
    assert t in multiset(texts[a]);
    var idf, avg := Idf(|texts|, Holders(texts, t), ln), AverageWords(texts);
    WeightIs(texts, a, ln, t, idf, Times(texts, a, t), |texts[a]|, avg);
    WeightIs(texts, b, ln, t, idf, Times(texts, b, t), |texts[b]|, avg);
    WeightPositive(texts, b, ln, t);
    TermScoreGrows(idf, Times(texts, b, t), |texts[b]|, Times(texts, a, t), |texts[a]|, avg,
                   Weight(texts, b, ln)(t), Weight(texts, a, ln)(t));
  }

  lemma {:induction false} SumGrows(more: set<Term>, fewer: set<Term>, f: Term -> real, g: Term -> real)
    requires fewer <= more && (forall t :: t in more ==> f(t) > 0.0) && forall t :: t in fewer ==> f(t) >= g(t)
    ensures Sum(more, f) >= Sum(fewer, g)
    ensures fewer < more ==> Sum(more, f) > Sum(fewer, g)
    ensures (exists t :: t in fewer && f(t) > g(t)) ==> Sum(more, f) > Sum(fewer, g)
    decreases |more|
  {
    if more != {} {
      var t :| t in more;
      SumRemove(more, f, t);
      if t in fewer {
        SumRemove(fewer, g, t);
        SumGrows(more - {t}, fewer - {t}, f, g);
      } else {
        SumGrows(more - {t}, fewer, f, g);
      }
    }
  }

  /**
   * A text that has every word of the query at least as often as another and is no longer scores at least
   * as high, and strictly higher if it is shorter or has some word of the query more often.
   */
  lemma {:induction false} DominatingTextRanksHigher(texts: Texts, terms: set<Term>, ln: real -> real, a: Id, b: Id)
    requires NoBlankText(texts) && LnLaw(ln) && a in texts && b in ResultScores(texts, terms, ln)
    requires |texts[a]| <= |texts[b]| && b in texts
    requires forall t :: t in terms ==> Times(texts, a, t) >= Times(texts, b, t)
    ensures a in ResultScores(texts, terms, ln)
    ensures ResultScores(texts, terms, ln)[a] >= ResultScores(texts, terms, ln)[b]
    ensures |texts[a]| < |texts[b]| || (exists t :: t in terms && Times(texts, a, t) > Times(texts, b, t)) ==>
              ResultScores(texts, terms, ln)[a] > ResultScores(texts, terms, ln)[b]
  {
    var more, fewer := MatchedIn(texts, terms, a), MatchedIn(texts, terms, b);
    ScoreIsSum(texts, terms, ln, a);
    ScoreIsSum(texts, terms, ln, b);
    forall t | t in fewer
      ensures t in more && Weight(texts, a, ln)(t) >= Weight(texts, b, ln)(t)
      ensures Times(texts, a, t) > Times(texts, b, t) || |texts[a]| < |texts[b]| ==>
                Weight(texts, a, ln)(t) > Weight(texts, b, ln)(t)
    {
      WeightGrows(texts, a, b, ln, t);
    }
    forall t | t in more
      ensures Weight(texts, a, ln)(t) > 0.0
    {
      WeightPositive(texts, a, ln, t);
    }
    SumGrows(more, fewer, Weight(texts, a, ln), Weight(texts, b, ln));
    if t :| t in terms && Times(texts, a, t) > Times(texts, b, t) && t !in fewer {
      assert t in multiset(texts[a]) && t in more;
    }
    var t :| t in fewer;
  }

  lemma {:induction false} RarerIdf(n: nat, few: nat, many: nat, ln: real -> real)
    requires LnGrows(ln) && few < many
    ensures Idf(n, few, ln) > Idf(n, many, ln)
  {
    var x, p, q := (n + 1) as real, many as real + 0.5, few as real + 0.5;
    IdfArgumentIs(n, few);
    IdfArgumentIs(n, many);
    ProductLess(x, q, p);
    QuotientLess(x, p, x, q);
    QuotientPositive(x, p);
  }

  lemma {:induction false} HigherIdfScoresHigher(
      low: real, high: real, c: nat, len: nat, avg: real, lowScore: real, highScore: real)
    requires low < high && c > 0 && avg > 0.0
    requires lowScore == TermScore(low, c, len, avg) && highScore == TermScore(high, c, len, avg)
    ensures lowScore < highScore
  {
    NormPositive(len, avg);
    var factor := Saturation(c, Norm(len, avg));
    SaturationBounds(c, Norm(len, avg));
    assert lowScore == low * factor && highScore == high * factor;
    ProductLess(factor, low, high);
  }

  /**
   * Of two texts of the same length that have one word of the query each, the same number of times, the
   * one with the rarer word scores strictly higher.
   */
  lemma {:induction false} RarerWordRanksHigher(
      texts: Texts, terms: set<Term>, ln: real -> real, a: Id, b: Id, s: Term, t: Term)
    requires NoBlankText(texts) && LnGrows(ln)
    requires OnlyMatch(texts, terms, a, s) && OnlyMatch(texts, terms, b, t)
    requires |texts[a]| == |texts[b]| && Times(texts, a, s) == Times(texts, b, t)
    requires Holders(texts, s) < Holders(texts, t)
    ensures a in ResultScores(texts, terms, ln) && b in ResultScores(texts, terms, ln)
    ensures ResultScores(texts, terms, ln)[a] > ResultScores(texts, terms, ln)[b]
  {
    OneMatch(texts, terms, ln, a, s);
    OneMatch(texts, terms, ln, b, t);
    var high, low := Idf(|texts|, Holders(texts, s), ln), Idf(|texts|, Holders(texts, t), ln);
    var c, len, avg := Times(texts, b, t), |texts[b]|, AverageWords(texts);
    WeightIs(texts, a, ln, s, high, c, len, avg);
    WeightIs(texts, b, ln, t, low, c, len, avg);
    RarerIdf(|texts|, Holders(texts, s), Holders(texts, t), ln);
    HigherIdfScoresHigher(low, high, c, len, avg, Weight(texts, b, ln)(t), Weight(texts, a, ln)(s));
  }
}
