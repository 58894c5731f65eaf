/** Why the block bounds can be trusted (crates/query/src/wand.rs, crates/query/src/scorer.rs):
    for the score that the postings themselves determine, no further hypothesis is needed. */
module BlockBounds {
  import opened Base
  import opened Postings
  import opened Wand
  import opened WandLoop
  import Ranking

  ghost predicate Trusted(l: TermList) {
    ValidList(l) && l.idf >= 0.0 && BlocksFit(l.postings, l.blocks, l.avgdl)
  }

  /** Boosts large enough for the 1.5 factor to cover a posting of impact below K1 + 1. */
  predicate Covering(w: Boosts) {
    w.title >= 0.0 && w.desc >= 0.0 && 1.5 * (w.title + w.desc) >= 1.0
  }

  /** Every posting scores at most its block's bound. */
  lemma PostingBelowBlock(l: TermList, n: nat, w: Boosts)
    requires Trusted(l) && Covering(w) && n < |l.postings|
    ensures 0.0 <= PostingScore(l, n) <= BlockBound(l, n / BLOCK_SIZE, w)
  {
    var p := l.postings[n];
    var x := ImpactOf(p, l.avgdl);
    var m := l.blocks[n / BLOCK_SIZE].maxImpact;
    ImpactBounds(p.termFreq, p.docLen, l.avgdl);
    BoostCovers(x, m, w);
    var c := 1.5 * (w.title * m + w.desc * (K1 + 1.0));
    ScaleMono(l.idf, 0.0, x);
    ScaleMono(l.idf, x, c);
    assert BlockBound(l, n / BLOCK_SIZE, w) == l.idf * c;
  }

  /** At a cursor: the score of the current posting is within the current block's bound. */
  lemma CurrentBelowBlock(c: TermCursor, w: Boosts)
    requires Trusted(c.list) && Covering(w) && !c.IsExhausted()
    ensures 0.0 <= c.ScoreCurrent() <= c.BlockUpperBound(w)
  {
    PostingBelowBlock(c.list, c.position, w);
  }

  lemma BoostCovers(x: real, m: real, w: Boosts)
    requires Covering(w) && 0.0 <= x <= m && x <= K1 + 1.0
    ensures x <= 1.5 * (w.title * m + w.desc * (K1 + 1.0))
  {
    var top := K1 + 1.0;
    Cover(x, m, top, w.title, w.desc);
  }

  lemma Cover(x: real, m: real, top: real, a: real, b: real)
    requires a >= 0.0 && b >= 0.0 && 1.5 * (a + b) >= 1.0 && 0.0 <= x <= m && x <= top
    ensures x <= 1.5 * (a * m + b * top)
  {
    ScaleMono(a, x, m);
    ScaleMono(b, x, top);
    var s := a + b;
    ScaleMono(x, 1.0, 1.5 * s);
    assert x <= 1.5 * (s * x);
    assert s * x == a * x + b * x;
    Chain(x, a * x, b * x, a * m, b * top);
  }

  lemma Chain(x: real, p: real, q: real, p': real, q': real)
    requires x <= 1.5 * (p + q) && p <= p' && q <= q'
    ensures x <= 1.5 * (p' + q')
  {
  }

  lemma ScaleMono(a: real, x: real, y: real)
    requires a >= 0.0 && x <= y
    ensures a * x <= a * y
  {
  }

  /** Sum over the lists of the score of document `d`'s posting. */
  function PostingSum(ls: seq<TermList>, d: nat): real {
    if ls == [] then 0.0 else
      var l := ls[|ls| - 1];
      var n := LowerBound(l.postings, d);
      PostingSum(ls[..|ls| - 1], d) + if n < |l.postings| then PostingScore(l, n) else 0.0
  }

  /** Scoring by postings alone; a total of zero or less means no result, as in the executor. */
  function ScoreByPostings(ls: seq<TermList>): ScoreFn {
    (d: nat) => if PostingSum(ls, d) > 0.0 then Some(PostingSum(ls, d)) else None
  }

  lemma {:induction false} SumBelowBound(ls: seq<TermList>, d: nat, w: Boosts)
    requires (forall i :: 0 <= i < |ls| ==> Trusted(ls[i])) && Covering(w) && InAll(ls, d)
    ensures PostingSum(ls, d) <= DocBound(ls, d, w)
  {
    if ls != [] {
      var front, l := ls[..|ls| - 1], ls[|ls| - 1];
      assert forall i :: 0 <= i < |front| ==> front[i] == ls[i];
      SumBelowBound(front, d, w);
      LowerBoundFinds(l.postings, d);
      PostingBelowBlock(l, LowerBound(l.postings, d), w);
    }
  }

  /** The hypothesis of the WAND theorem holds for the summed posting score. */
  lemma PostingScoreBounded(ls: seq<TermList>, w: Boosts)
    requires (forall i :: 0 <= i < |ls| ==> Trusted(ls[i])) && Covering(w)
    ensures Bounded(ls, ScoreByPostings(ls), w)
  {
    forall d: nat | InAll(ls, d) && ScoreByPostings(ls)(d).Some?
      ensures 0.0 < ScoreByPostings(ls)(d).value <= DocBound(ls, d, w)
    {
      SumBelowBound(ls, d, w);
    }
  }

  // ---- when the bound collapses ----------------------------------------------------------

  /** What is used of the natural logarithm. */
  ghost predicate IsLog(ln: real -> real) {
    ln(1.0) == 0.0 && forall x, y :: 0.0 < x < y ==> ln(x) < ln(y)
  }

  /** The scorer's `idf`: ln(1 + (N - df + 0.5) / (df + 0.5)), floored at zero. */
  function Idf(ln: real -> real, totalDocs: nat, docFreq: nat): real {
    MaxReal(ln(1.0 + ((totalDocs as real) - (docFreq as real) + 0.5) / ((docFreq as real) + 0.5)), 0.0)
  }

  /** That is ln((N + 1) / (df + 0.5)), or zero where that is negative. */
  lemma IdfIs(ln: real -> real, totalDocs: nat, docFreq: nat)
    ensures Idf(ln, totalDocs, docFreq) == MaxReal(ln((totalDocs + 1) as real / (docFreq as real + 0.5)), 0.0)
  {
    var n, df := totalDocs as real, docFreq as real;
    var q := (n - df + 0.5) / (df + 0.5);
    assert q * (df + 0.5) == n - df + 0.5;
    assert (1.0 + q) * (df + 0.5) == n + 1.0;
    assert (totalDocs + 1) as real == n + 1.0;
    QuotientIs(1.0 + q, df + 0.5, n + 1.0);
  }

  lemma QuotientIs(x: real, y: real, z: real)
    requires x * y == z && y > 0.0
    ensures x == z / y
  {
  }

  /** The rarer a term, the more it weighs, as long as it weighs anything. */
  lemma IdfFalls(ln: real -> real, totalDocs: nat, rarer: nat, commoner: nat)
    requires IsLog(ln) && rarer < commoner <= totalDocs
    ensures Idf(ln, totalDocs, rarer) > Idf(ln, totalDocs, commoner)
  {
    var n, a, b := totalDocs as real, rarer as real, commoner as real;
    var p, q := (n - a + 0.5) / (a + 0.5), (n - b + 0.5) / (b + 0.5);
    assert (1.0 + p) * (a + 0.5) == n + 1.0 && (1.0 + q) * (b + 0.5) == n + 1.0;
    assert q > 0.0;
    SmallerDivisor(1.0 + p, a + 0.5, 1.0 + q, b + 0.5);
    assert ln(1.0) < ln(1.0 + q) < ln(1.0 + p);
  }

  lemma SmallerDivisor(p: real, a: real, q: real, b: real)
    requires p * a == q * b && 0.0 < a < b && q > 0.0
    ensures p > q
  {
    assert q * a < q * b;
    Cancelled(p, q, a);
  }

  lemma Cancelled(p: real, q: real, a: real)
    requires p * a > q * a && a > 0.0
    ensures p > q
  {
  }

  /** A cursor's idf is zero exactly when its document frequency exceeds the number of documents.
      The executor sums the frequencies of all prefix expansions, so this does occur. */
  lemma IdfVanishes(ln: real -> real, totalDocs: nat, docFreq: nat)
    requires IsLog(ln)
    ensures Idf(ln, totalDocs, docFreq) == 0.0 <==> docFreq > totalDocs
  {
    var n, df := totalDocs as real, docFreq as real;
    var q := (n - df + 0.5) / (df + 0.5);
    assert q * (df + 0.5) == n - df + 0.5;
    assert (1.0 + q) * (df + 0.5) == n + 1.0;
    if docFreq > totalDocs {
      assert df >= n + 1.0;
      assert q < 0.0 < 1.0 + q;
      assert ln(1.0 + q) < ln(1.0);
    } else {
      assert n >= df;
      assert q > 0.0;
      assert ln(1.0) < ln(1.0 + q);
    }
  }
}
