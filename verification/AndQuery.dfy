/** AND retrieval end to end (crates/query/src/executor.rs, `score_query_wand` with typo tolerance
    off): one merged cursor per query token, then Block-Max WAND.  The reference is a scan over
    every live document, looking for a token with each query token as prefix. */
module AndQuery {
  import opened Base
  import opened Postings
  import opened InvertedIndex
  import opened Wand
  import opened WandAccount
  import opened WandLoop
  import opened Retrieval
  import BlockBounds
  import Ranking

  ghost predicate Matches(docs: seq<Tokens>, deleted: set<nat>, query: seq<string>, d: int) {
    forall i :: 0 <= i < |query| ==> Hit(docs, deleted, query[i], d)
  }

  /** The naive answer: every matching document below n that the scoring function accepts. */
  ghost function NaiveHits(docs: seq<Tokens>, deleted: set<nat>, query: seq<string>, score: ScoreFn,
                           n: nat): seq<Entry> {
    if n == 0 then [] else
      var c := NaiveHits(docs, deleted, query, score, n - 1);
      if Matches(docs, deleted, query, n - 1) && score(n - 1).Some? then c + [Entry(score(n - 1).value, n - 1)] else c
  }

  lemma {:induction false} SameCandidates(ls: seq<TermList>, docs: seq<Tokens>, deleted: set<nat>, query: seq<string>,
                                          score: ScoreFn, n: nat)
    requires forall d: nat :: InAll(ls, d) <==> Matches(docs, deleted, query, d)
    ensures Candidates(ls, score, n) == NaiveHits(docs, deleted, query, score, n)
  {
    if n > 0 {
      SameCandidates(ls, docs, deleted, query, score, n - 1);
      assert InAll(ls, n - 1) <==> Matches(docs, deleted, query, n - 1);
    }
  }

  lemma {:induction false} NoHits(docs: seq<Tokens>, deleted: set<nat>, query: seq<string>, score: ScoreFn, n: nat)
    requires forall d: nat :: !Matches(docs, deleted, query, d)
    ensures NaiveHits(docs, deleted, query, score, n) == []
  {
    if n > 0 {
      NoHits(docs, deleted, query, score, n - 1);
    }
  }

  /** The hits are, in document order and each once, the documents that match and get a score. */
  lemma {:induction false} HitsAre(docs: seq<Tokens>, deleted: set<nat>, query: seq<string>, score: ScoreFn, n: nat)
    ensures forall e :: e in NaiveHits(docs, deleted, query, score, n) <==>
              e.doc < n && Matches(docs, deleted, query, e.doc) && score(e.doc) == Some(e.score)
    ensures forall i, j :: 0 <= i < j < |NaiveHits(docs, deleted, query, score, n)| ==>
              NaiveHits(docs, deleted, query, score, n)[i].doc < NaiveHits(docs, deleted, query, score, n)[j].doc
  {
    hide Matches;
    if n > 0 {
      HitsAre(docs, deleted, query, score, n - 1);
      var c := NaiveHits(docs, deleted, query, score, n - 1);
      forall i | 0 <= i < |c|
        ensures c[i].doc < n - 1
      {
        assert c[i] in c;
      }
    }
  }

  /** No document at or past the end of the segment matches, so a longer scan finds no more. */
  lemma {:induction false} HitsEnd(docs: seq<Tokens>, deleted: set<nat>, query: seq<string>, score: ScoreFn, n: nat)
    requires query != [] && n >= |docs|
    ensures NaiveHits(docs, deleted, query, score, n) == NaiveHits(docs, deleted, query, score, |docs|)
  {
    if n > |docs| {
      HitsEnd(docs, deleted, query, score, n - 1);
      assert !Hit(docs, deleted, query[0], n - 1);
    }
  }

  method TotalLength(lists: seq<PostingList>) returns (total: nat)
    ensures total == |Flatten(lists)|
  {
    total := 0;
    for i := 0 to |lists|
      invariant total == |Flatten(lists[..i])|
    {
      assert lists[..i + 1][..i] == lists[..i];
      total := total + |lists[i].postings|;
    }
    assert lists[..|lists|] == lists;
  }

  /** A cursor's list for one query token: what it holds, and that its blocks can be trusted. */
  ghost predicate ListFor(l: TermList, docs: seq<Tokens>, deleted: set<nat>, token: string, idf: nat -> real,
                          avgdl: real) {
    && Faithful(l.postings, docs, deleted, token)
    && BlocksFit(l.postings, l.blocks, l.avgdl)
    && l.avgdl == avgdl && l.idf == idf(PrefixPairs(token, docs, deleted))
  }

  /** The merged cursor of one query token; None when no indexed term starts with it, in which
      case the exact lookup that follows in the source finds nothing either. */
  method CursorFor(file: IndexFile, deleted: set<nat>, token: string, idf: nat -> real, avgdl: real, ghost terms: Index,
                   ghost docs: seq<Tokens>)
    returns (c: TermCursor?)
    requires |docs| <= 0xFFFF_FFFF && IndexOf(terms, docs) && Readable(file, terms)
    ensures c == null ==> forall d :: !Hit(docs, deleted, token, d)
    ensures c != null ==>
              fresh(c) && c.position == 0 && ListFor(c.list, docs, deleted, token, idf, avgdl)
  {
    var lists := PrefixSearchTerm(file, deleted, token, terms, docs);
    if lists == [] {
      NoExpansionNoHit(terms, docs, deleted, token);
      return null;
    }
    var df := TotalLength(lists);
    var merged := Merge(lists);
    MergedIsFaithful(merged.postings, Flatten(lists), terms, docs, deleted, token);
    var blocks := RebuildBlocks(merged.postings, avgdl);
    c := new TermCursor(PostingList(merged.postings, blocks), idf(df), avgdl);
  }

  lemma NoExpansionNoHit(terms: Index, docs: seq<Tokens>, deleted: set<nat>, token: string)
    requires |docs| <= 0xFFFF_FFFF && IndexOf(terms, docs) && Expansions(terms, token) == {}
    ensures forall d :: !Hit(docs, deleted, token, d)
  {
    forall d
      ensures !Hit(docs, deleted, token, d)
    {
      if 0 <= d < |docs| {
        forall t | t in docs[d]
          ensures !(token <= t)
        {
          TokensIndexed(terms, docs, d, t);
          assert t !in Expansions(terms, token);
        }
      }
    }
  }

  /** One list per query token, in order. */
  ghost predicate ListsFor(ls: seq<TermList>, docs: seq<Tokens>, deleted: set<nat>, query: seq<string>,
                           idf: nat -> real, avgdl: real) {
    |ls| == |query| && forall i :: 0 <= i < |ls| ==> ListFor(ls[i], docs, deleted, query[i], idf, avgdl)
  }

  lemma ListsMatch(ls: seq<TermList>, docs: seq<Tokens>, deleted: set<nat>, query: seq<string>, idf: nat -> real,
                   avgdl: real)
    requires ListsFor(ls, docs, deleted, query, idf, avgdl)
    ensures forall d :: InAll(ls, d) <==> Matches(docs, deleted, query, d)
  {
    forall d
      ensures InAll(ls, d) <==> Matches(docs, deleted, query, d)
    {
      forall i | 0 <= i < |ls|
        ensures Contains(ls[i].postings, d) <==> Hit(docs, deleted, query[i], d)
      {
        assert ListFor(ls[i], docs, deleted, query[i], idf, avgdl);
      }
    }
  }

  lemma ListIsValid(l: TermList, docs: seq<Tokens>, deleted: set<nat>, token: string, idf: nat -> real, avgdl: real)
    requires |docs| <= 0xFFFF_FFFF && ListFor(l, docs, deleted, token, idf, avgdl)
    ensures ValidList(l)
  {
    forall i | 0 <= i < |l.postings|
      ensures l.postings[i].docId < DOC_LIMIT
    {
      assert l.postings[i] in l.postings;
    }
  }

  // ---- the score the postings determine --------------------------------------------------

  /** BM25 of a document read off its tokens: over the query tokens, idf of the summed document
      frequency times the impact of the saturated number of matching tokens. */
  function DocScore(query: seq<string>, docs: seq<Tokens>, deleted: set<nat>, idf: nat -> real, avgdl: real,
                    d: nat): real
    requires d < |docs|
  {
    if query == [] then 0.0
    else
      var token := query[|query| - 1];
      DocScore(query[..|query| - 1], docs, deleted, idf, avgdl, d)
      + idf(PrefixPairs(token, docs, deleted)) * Impact(Min(255, PrefixCount(token, docs[d])), DocLen(docs[d]), avgdl)
  }

  /** Where `score` answers, it is with that score, and only when that is positive, as the executor
      does; a filter may keep it from answering. */
  ghost predicate ScoresPostings(score: ScoreFn, query: seq<string>, docs: seq<Tokens>, deleted: set<nat>,
                                 idf: nat -> real, avgdl: real) {
    forall d: nat :: d < |docs| && Matches(docs, deleted, query, d) && score(d).Some? ==>
      0.0 < score(d).value == DocScore(query, docs, deleted, idf, avgdl, d)
  }

  lemma PostingIsTokenScore(l: TermList, docs: seq<Tokens>, deleted: set<nat>, token: string, idf: nat -> real,
                            avgdl: real, d: nat)
    requires ListFor(l, docs, deleted, token, idf, avgdl) && Hit(docs, deleted, token, d)
    ensures var n := LowerBound(l.postings, d);
            && n < |l.postings|
            && PostingScore(l, n) ==
               idf(PrefixPairs(token, docs, deleted)) * Impact(Min(255, PrefixCount(token, docs[d])),
                                                               DocLen(docs[d]), avgdl)
  {
    hide PrefixPairs, PrefixCount, BlocksFit, Impact;
    LowerBoundFinds(l.postings, d);
    var p := l.postings[LowerBound(l.postings, d)];
    assert p in l.postings;
  }

  /** On matching documents the lists' postings add up to the score of the tokens. */
  lemma {:induction false} SumIsDocScore(ls: seq<TermList>, query: seq<string>, docs: seq<Tokens>, deleted: set<nat>,
                                         idf: nat -> real, avgdl: real, d: nat)
    requires ListsFor(ls, docs, deleted, query, idf, avgdl) && Matches(docs, deleted, query, d) && d < |docs|
    ensures BlockBounds.PostingSum(ls, d) == DocScore(query, docs, deleted, idf, avgdl, d)
  {
    hide ListFor, Hit, PostingScore, LowerBound, PrefixPairs, PrefixCount, Impact;
    if ls != [] {
      var n := |ls| - 1;
      SumIsDocScore(ls[..n], query[..n], docs, deleted, idf, avgdl, d);
      assert ListFor(ls[n], docs, deleted, query[n], idf, avgdl);
      PostingIsTokenScore(ls[n], docs, deleted, query[n], idf, avgdl, d);
    }
  }

  ghost predicate NonNegative(idf: nat -> real, query: seq<string>, docs: seq<Tokens>, deleted: set<nat>) {
    forall i :: 0 <= i < |query| ==> idf(PrefixPairs(query[i], docs, deleted)) >= 0.0
  }

  /** The bound hypothesis of the WAND theorem holds for that score. */
  lemma PostingScoreIsBounded(ls: seq<TermList>, query: seq<string>, docs: seq<Tokens>, deleted: set<nat>,
                              idf: nat -> real, avgdl: real, w: Boosts, score: ScoreFn)
    requires query != [] && |docs| <= 0xFFFF_FFFF && ListsFor(ls, docs, deleted, query, idf, avgdl)
             && BlockBounds.Covering(w)
    requires NonNegative(idf, query, docs, deleted) && ScoresPostings(score, query, docs, deleted, idf, avgdl)
    ensures Bounded(ls, score, w)
  {
    hide PrefixPairs, DocScore, DocBound, Faithful, BlocksFit, InAll, Matches, ValidList;
    forall i | 0 <= i < |ls|
      ensures BlockBounds.Trusted(ls[i])
    {
      ListIsValid(ls[i], docs, deleted, query[i], idf, avgdl);
    }
    BlockBounds.PostingScoreBounded(ls, w);
    ListsMatch(ls, docs, deleted, query, idf, avgdl);
    forall d: nat | InAll(ls, d) && score(d).Some?
      ensures 0.0 < score(d).value <= DocBound(ls, d, w)
    {
      MatchIsDocument(docs, deleted, query, d);
      SumIsDocScore(ls, query, docs, deleted, idf, avgdl, d);
    }
  }

  lemma MatchIsDocument(docs: seq<Tokens>, deleted: set<nat>, query: seq<string>, d: int)
    requires query != [] && Matches(docs, deleted, query, d)
    ensures 0 <= d < |docs|
  {
    assert Hit(docs, deleted, query[0], d);
  }

  // ---- any positive score ----------------------------------------------------------------

  predicate Weighted(w: Boosts) {
    w.title >= 0.0 && w.desc >= 0.0 && w.title + w.desc > 0.0
  }

  /** The scoring function answers a match with a positive score or not at all, as the executor's
      own does. */
  ghost predicate PositiveOn(score: ScoreFn, query: seq<string>, docs: seq<Tokens>, deleted: set<nat>) {
    forall d: nat :: Matches(docs, deleted, query, d) && score(d).Some? ==> score(d).value > 0.0
  }

  /** Every query token has idf zero. */
  ghost predicate AllVanish(idf: nat -> real, query: seq<string>, docs: seq<Tokens>, deleted: set<nat>) {
    forall i :: 0 <= i < |query| ==> idf(PrefixPairs(query[i], docs, deleted)) == 0.0
  }

  lemma ListIsSound(l: TermList, docs: seq<Tokens>, deleted: set<nat>, token: string, idf: nat -> real, avgdl: real)
    requires ListFor(l, docs, deleted, token, idf, avgdl) && l.idf >= 0.0
    ensures Sound(l)
  {
    hide PrefixPairs, BlocksFit, PrefixCount, Sorted;
    forall p | p in l.postings
      ensures p.termFreq > 0
    {
      var i :| 0 <= i < |l.postings| && l.postings[i] == p;
      assert Contains(l.postings, p.docId);
      assert Hit(docs, deleted, token, p.docId);
      PrefixCountPositive(token, docs[p.docId]);
    }
  }

  lemma BoundsArePositive(ls: seq<TermList>, query: seq<string>, docs: seq<Tokens>, deleted: set<nat>, idf: nat -> real,
                          avgdl: real, w: Boosts)
    requires ListsFor(ls, docs, deleted, query, idf, avgdl) && Weighted(w)
    requires NonNegative(idf, query, docs, deleted) && !AllVanish(idf, query, docs, deleted)
    ensures PositiveBounds(ls, w)
  {
    hide PrefixPairs, DocBound, Faithful, BlocksFit, InAll, Sound;
    forall i | 0 <= i < |ls|
      ensures Sound(ls[i])
    {
      ListIsSound(ls[i], docs, deleted, query[i], idf, avgdl);
    }
    var i :| 0 <= i < |query| && idf(PrefixPairs(query[i], docs, deleted)) != 0.0;
    assert ls[i].idf > 0.0;
    forall d: nat | InAll(ls, d)
      ensures DocBound(ls, d, w) > 0.0
    {
      DocBoundSign(ls, d, w);
    }
  }

  /** What a query returns for any positive score: hits only, best first, as many as there are up
      to k, and every one of them when k allows; nothing exactly when nothing matches or every idf
      is zero. */
  ghost predicate Answers(r: seq<Entry>, hits: seq<Entry>, k: nat, vanish: bool) {
    && multiset(r) <= multiset(hits) && Ranking.Descending(r, EntryScore)
    && |r| == (if vanish then 0 else Min(k, |hits|))
    && (!vanish && k >= |hits| ==> Ranking.IsSorting(r, hits, EntryScore))
    && (k > 0 ==> (r == [] <==> hits == [] || vanish))
  }

  lemma AnswersFrom(r: seq<Entry>, hits: seq<Entry>, k: nat, vanish: bool)
    requires k > 0 && multiset(r) <= multiset(hits) && Ranking.Descending(r, EntryScore)
    requires |r| == if vanish then 0 else Min(k, |hits|)
    ensures Answers(r, hits, k, vanish)
  {
    hide Ranking.Descending;
    if !vanish && k >= |hits| {
      SameSize(multiset(r), multiset(hits));
    }
  }

  lemma QueryAnswers(r: seq<Entry>, ls: seq<TermList>, query: seq<string>, docs: seq<Tokens>, deleted: set<nat>,
                     idf: nat -> real, avgdl: real, w: Boosts, score: ScoreFn, k: nat, evaluated: seq<nat>)
    requires k > 0 && query != [] && ListsFor(ls, docs, deleted, query, idf, avgdl) && Weighted(w)
    requires NonNegative(idf, query, docs, deleted)
    requires Guaranteed(ls, score, k, w, r, evaluated, DOC_LIMIT)
    requires AllVanish(idf, query, docs, deleted) ==> r == []
    ensures Answers(r, Candidates(ls, score, DOC_LIMIT), k, AllVanish(idf, query, docs, deleted))
  {
    hide Candidates, ListsFor, NonNegative, AllVanish, Passed, Scored, PositiveBounds, Answers, Ranking.Descending,
         Ranking.OthersBelow;
    if !AllVanish(idf, query, docs, deleted) {
      BoundsArePositive(ls, query, docs, deleted, idf, avgdl, w);
    }
    AnswersFrom(r, Candidates(ls, score, DOC_LIMIT), k, AllVanish(idf, query, docs, deleted));
  }

  // ---- the query -------------------------------------------------------------------------

  /** One cursor per query token, or none at all when some token has no match. */
  method BuildCursors(file: IndexFile, deleted: set<nat>, query: seq<string>, idf: nat -> real, avgdl: real,
                      ghost terms: Index, ghost docs: seq<Tokens>)
    returns (cs: seq<TermCursor>)
    requires |docs| <= 0xFFFF_FFFF && IndexOf(terms, docs) && Readable(file, terms) && query != []
    ensures Distinct(cs) && fresh(set c | c in cs) && forall i :: 0 <= i < |cs| ==> cs[i].position == 0
    ensures cs == [] ==> forall d: nat :: !Matches(docs, deleted, query, d)
    ensures cs != [] ==> ListsFor(Lists(cs), docs, deleted, query, idf, avgdl)
  {
    hide ListFor;
    cs := [];
    for i := 0 to |query|
      invariant |cs| == i && Distinct(cs) && fresh(set c | c in cs)
      invariant forall j :: 0 <= j < i ==>
                  cs[j].position == 0 && ListFor(cs[j].list, docs, deleted, query[j], idf, avgdl)
    {
      var c := CursorFor(file, deleted, query[i], idf, avgdl, terms, docs);
      if c == null {
        forall d: nat
          ensures !Matches(docs, deleted, query, d)
        {
          assert !Hit(docs, deleted, query[i], d);
        }
        return [];
      }
      cs := cs + [c];
    }
  }

  /** The whole query.  `lists` are the cursors' lists, empty when some token has no match.

      For a score within the block bounds, and so for the score the postings determine, the answer
      is a best-k selection of the naive scan's hits.  For any positive score it is sound, has the
      right size and is complete when k allows. */
  method ScoreQueryWand(file: IndexFile, deleted: set<nat>, query: seq<string>, k: nat, w: Boosts,
                        idf: nat -> real, avgdl: real, score: ScoreFn, ghost terms: Index, ghost docs: seq<Tokens>)
    returns (r: seq<Entry>, ghost lists: seq<TermList>)
    requires |docs| <= 0xFFFF_FFFF && IndexOf(terms, docs) && Readable(file, terms)
    ensures query == [] || k == 0 ==> r == []
    ensures query != [] ==>
              multiset(r) <= multiset(NaiveHits(docs, deleted, query, score, |docs|))
                && Ranking.Descending(r, EntryScore)
    ensures query != [] && k > 0 && (lists == [] || Bounded(lists, score, w)) ==>
              Ranking.IsTop(r, NaiveHits(docs, deleted, query, score, |docs|), k, EntryScore)
    ensures query != [] && k > 0 && BlockBounds.Covering(w) && NonNegative(idf, query, docs, deleted)
            && ScoresPostings(score, query, docs, deleted, idf, avgdl) ==>
              Ranking.IsTop(r, NaiveHits(docs, deleted, query, score, |docs|), k, EntryScore)
    ensures query != [] && k > 0 && BlockBounds.Covering(w) && NonNegative(idf, query, docs, deleted)
            && ScoresPostings(score, query, docs, deleted, idf, avgdl) ==>
              BestHits(r, docs, deleted, query, score, k)
    ensures query != [] && k > 0 && Weighted(w) && NonNegative(idf, query, docs, deleted)
            && PositiveOn(score, query, docs, deleted) ==>
              Answers(r, NaiveHits(docs, deleted, query, score, |docs|), k, AllVanish(idf, query, docs, deleted))
    ensures lists != [] ==> ListsFor(lists, docs, deleted, query, idf, avgdl)
    ensures AllVanish(idf, query, docs, deleted) ==> r == []
  {
    lists := [];
    if query == [] {
      return [], [];
    }
    hide ListFor, NaiveHits, Candidates, InAll, Matches, Answers, BestHits, Guaranteed, PrefixPairs, NonNegative,
         ScoresPostings, DocBound;
    var cs := BuildCursors(file, deleted, query, idf, avgdl, terms, docs);
    if cs == [] {
      NoHits(docs, deleted, query, score, |docs|);
      NothingAnswers(k, AllVanish(idf, query, docs, deleted));
      NoneBest(docs, deleted, query, score, k);
      return [], [];
    }
    lists := Lists(cs);
    ListsAreValid(lists, docs, deleted, query, idf, avgdl);
    ghost var evaluated;
    r, evaluated := WandTopK(cs, k, w, score);
    ListsMatch(lists, docs, deleted, query, idf, avgdl);
    SameCandidates(lists, docs, deleted, query, score, DOC_LIMIT);
    HitsEnd(docs, deleted, query, score, DOC_LIMIT);
    if BlockBounds.Covering(w) && NonNegative(idf, query, docs, deleted)
       && ScoresPostings(score, query, docs, deleted, idf, avgdl) {
      PostingScoreIsBounded(lists, query, docs, deleted, idf, avgdl, w, score);
      if k > 0 {
        TopIsBest(r, docs, deleted, query, score, k);
      }
    }
    VanishingLists(lists, docs, deleted, query, idf, avgdl);
    if k > 0 && Weighted(w) && NonNegative(idf, query, docs, deleted) && PositiveOn(score, query, docs, deleted) {
      QueryAnswers(r, lists, query, docs, deleted, idf, avgdl, w, score, k, evaluated);
    }
  }

  /** Best first, and every matching document with a score is there, or the answer is full of documents
      that score no less. */
  ghost predicate BestHits(r: seq<Entry>, docs: seq<Tokens>, deleted: set<nat>, query: seq<string>, score: ScoreFn,
                           k: nat) {
    && (forall i, j :: 0 <= i < j < |r| ==> r[i].score >= r[j].score)
    && (forall d: nat :: Matches(docs, deleted, query, d) && score(d).Some? ==>
          Entry(score(d).value, d) in r || (|r| == k && forall e :: e in r ==> e.score >= score(d).value))
  }

  /** The same of any list of entries. */
  lemma TopByScore(r: seq<Entry>, hits: seq<Entry>, k: nat)
    requires Ranking.IsTop(r, hits, k, EntryScore)
    ensures forall i, j :: 0 <= i < j < |r| ==> r[i].score >= r[j].score
    ensures forall h :: h in hits ==> h in r || (|r| == k && forall e :: e in r ==> e.score >= h.score)
  {
    Ranking.TopBeats(r, hits, k, EntryScore);
    hide Ranking.OthersBelow;
    forall i, j | 0 <= i < j < |r|
      ensures r[i].score >= r[j].score
    {
      assert EntryScore(r[i]) >= EntryScore(r[j]);
    }
    forall h, e | h in hits && h !in r && e in r
      ensures e.score >= h.score
    {
      assert EntryScore(e) >= EntryScore(h);
    }
  }

  lemma TopIsBest(r: seq<Entry>, docs: seq<Tokens>, deleted: set<nat>, query: seq<string>, score: ScoreFn, k: nat)
    requires query != [] && Ranking.IsTop(r, NaiveHits(docs, deleted, query, score, |docs|), k, EntryScore)
    ensures BestHits(r, docs, deleted, query, score, k)
  {
    hide NaiveHits, Matches, Ranking.IsTop;
    TopByScore(r, NaiveHits(docs, deleted, query, score, |docs|), k);
    HitsAre(docs, deleted, query, score, |docs|);
    forall d: nat | Matches(docs, deleted, query, d) && score(d).Some?
      ensures Entry(score(d).value, d) in NaiveHits(docs, deleted, query, score, |docs|)
    {
      MatchIsDocument(docs, deleted, query, d);
    }
  }

  lemma NoneBest(docs: seq<Tokens>, deleted: set<nat>, query: seq<string>, score: ScoreFn, k: nat)
    requires forall d: nat :: !Matches(docs, deleted, query, d)
    ensures BestHits([], docs, deleted, query, score, k)
  {
  }

  lemma NothingAnswers(k: nat, vanish: bool)
    ensures Answers([], [], k, vanish)
  {
  }

  lemma ListsAreValid(ls: seq<TermList>, docs: seq<Tokens>, deleted: set<nat>, query: seq<string>, idf: nat -> real,
                      avgdl: real)
    requires |docs| <= 0xFFFF_FFFF && ListsFor(ls, docs, deleted, query, idf, avgdl)
    ensures forall i :: 0 <= i < |ls| ==> ValidList(ls[i])
  {
    forall i | 0 <= i < |ls|
      ensures ValidList(ls[i])
    {
      ListIsValid(ls[i], docs, deleted, query[i], idf, avgdl);
    }
  }

  lemma VanishingLists(ls: seq<TermList>, docs: seq<Tokens>, deleted: set<nat>, query: seq<string>, idf: nat -> real,
                       avgdl: real)
    requires ListsFor(ls, docs, deleted, query, idf, avgdl)
    ensures AllVanish(idf, query, docs, deleted) <==> NoIdf(ls)
  {
    hide Faithful, BlocksFit, PrefixPairs;
    if NoIdf(ls) {
      forall i | 0 <= i < |query|
        ensures idf(PrefixPairs(query[i], docs, deleted)) == 0.0
      {
        assert ListFor(ls[i], docs, deleted, query[i], idf, avgdl);
        assert ls[i].idf == 0.0;
      }
    }
  }

  /** Every idf is zero if and only if every token's summed document frequency exceeds the number
      of documents.  The sum runs over all prefix expansions, so this does occur. */
  lemma AllVanishIff(ln: real -> real, totalDocs: nat, query: seq<string>, docs: seq<Tokens>, deleted: set<nat>)
    requires BlockBounds.IsLog(ln)
    ensures AllVanish((df: nat) => BlockBounds.Idf(ln, totalDocs, df), query, docs, deleted)
       <==> (forall i :: 0 <= i < |query| ==> PrefixPairs(query[i], docs, deleted) > totalDocs)
  {
    forall i | 0 <= i < |query|
      ensures BlockBounds.Idf(ln, totalDocs, PrefixPairs(query[i], docs, deleted)) == 0.0
         <==> PrefixPairs(query[i], docs, deleted) > totalDocs
    {
      BlockBounds.IdfVanishes(ln, totalDocs, PrefixPairs(query[i], docs, deleted));
    }
  }

  /** One document with the tokens "ab" and "ac", queried for "a". */
  lemma TwoExpansions()
    ensures var docs := [["ab", "ac"]];
            && Matches(docs, {}, ["a"], 0)
            && PrefixPairs("a", docs, {}) == 2 > |docs|
  {
    var toks := ["ab", "ac"];
    assert toks[0] == "ab" && toks[1] == "ac" && "a" <= "ab" && "a" <= "ac";
    var s := set t | t in toks && "a" <= t;
    assert s == {"ab", "ac"};
    assert "ab"[1] != "ac"[1];
    assert |s| == 2;
    var docs: seq<Tokens> := [toks];
    assert docs[..0] == [] && PrefixPairs("a", [], {}) == 0;
    assert docs[0] == toks && toks[0] in docs[0] && "a" <= toks[0];
  }

  /** The match is lost: whatever the scoring function answers for the one matching document, the
      query returns nothing. */
  method MatchLostToZeroIdf(file: IndexFile, k: nat, w: Boosts, ln: real -> real, avgdl: real, score: ScoreFn,
                            ghost terms: Index)
    returns (r: seq<Entry>)
    requires BlockBounds.IsLog(ln) && IndexOf(terms, [["ab", "ac"]]) && Readable(file, terms) && score(0).Some?
    ensures r == [] && NaiveHits([["ab", "ac"]], {}, ["a"], score, 1) == [Entry(score(0).value, 0)]
  {
    hide PrefixPairs, Matches, IndexOf, Readable;
    ghost var docs: seq<Tokens> := [["ab", "ac"]];
    TwoExpansions();
    AllVanishIff(ln, 1, ["a"], docs, {});
    assert NaiveHits(docs, {}, ["a"], score, 0) == [];
    ghost var lists;
    r, lists := ScoreQueryWand(file, {}, ["a"], k, w, (df: nat) => BlockBounds.Idf(ln, 1, df), avgdl, score,
                               terms, docs);
  }
}
