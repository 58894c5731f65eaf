/** One search from the query tokens to the page (crates/query/src/multi.rs over
    crates/query/src/executor.rs): the query runs on every segment, the answers are gathered, sorted
    and cut. */
module Searching {
  import opened Base
  import opened AndQuery
  import BlockBounds
  import opened InvertedIndex
  import opened Paging
  import opened Postings
  import Ranking
  import opened Retrieval
  import opened Wand

  /** A segment as a query sees it: its posting file, its deletions, the global id of each document and
      its value in the field to sort by (none without such a field), what it scores with, and what the OR
      query finds in it when the AND query finds nothing. */
  datatype Segment = Segment(file: IndexFile, deleted: set<nat>, ids: seq<u64>, values: seq<Option<real>>,
                             idf: nat -> real, avgdl: real, score: ScoreFn, fallback: seq<ScoredDoc>)

  /** The segment was written from these documents. */
  ghost predicate Holds(seg: Segment, terms: Index, docs: seq<Tokens>) {
    |seg.values| == |seg.ids| == |docs| <= 0xFFFF_FFFF && IndexOf(terms, docs) && Readable(seg.file, terms)
  }

  ghost predicate AllHold(segs: seq<Segment>, terms: seq<Index>, docs: seq<seq<Tokens>>) {
    |segs| == |terms| == |docs| && forall i :: 0 <= i < |segs| ==> Holds(segs[i], terms[i], docs[i])
  }

  /** The segment scores by its postings. */
  ghost predicate ScoresExactly(seg: Segment, docs: seq<Tokens>, query: seq<string>) {
    NonNegative(seg.idf, query, docs, seg.deleted)
      && ScoresPostings(seg.score, query, docs, seg.deleted, seg.idf, seg.avgdl)
  }

  /** Entries as scored documents; one that cannot be fetched is left out. */
  function Fetched(seg: Segment, ord: nat, es: seq<Entry>): seq<ScoredDoc>
    requires |seg.values| == |seg.ids| <= 0xFFFF_FFFF
  {
    if es == [] then []
    else
      var e := es[|es| - 1];
      Fetched(seg, ord, es[..|es| - 1]) +
      if e.doc < |seg.ids| && e.doc !in seg.deleted then [ScoredDoc(ord, e.doc, seg.ids[e.doc], e.score,
                                                                    seg.values[e.doc])] else []
  }

  /** What the segment has to offer: the naive hits, or the fallback where there are none. */
  ghost function SegmentHits(seg: Segment, ord: nat, docs: seq<Tokens>, query: seq<string>): seq<ScoredDoc>
    requires |seg.values| == |seg.ids| <= 0xFFFF_FFFF
  {
    var hits := NaiveHits(docs, seg.deleted, query, seg.score, |docs|);
    if hits == [] && |query| > 1 then seg.fallback else Fetched(seg, ord, hits)
  }

  ghost function AllHits(segs: seq<Segment>, docs: seq<seq<Tokens>>, query: seq<string>): (all: seq<seq<ScoredDoc>>)
    requires |segs| == |docs| && forall i :: 0 <= i < |segs| ==> |segs[i].values| == |segs[i].ids| <= 0xFFFF_FFFF
    ensures |all| == |segs|
  {
    seq(|segs|, i requires 0 <= i < |segs| => SegmentHits(segs[i], i, docs[i], query))
  }

  // ---- one segment -----------------------------------------------------------------------

  ghost predicate Fetchable(seg: Segment, es: seq<Entry>) {
    forall e :: e in es ==> e.doc < |seg.ids| && e.doc !in seg.deleted
  }

  /** Fetching changes neither how many there are nor their scores. */
  lemma {:induction false} FetchedCounts(seg: Segment, ord: nat, es: seq<Entry>, x: real)
    requires |seg.values| == |seg.ids| <= 0xFFFF_FFFF && Fetchable(seg, es)
    ensures |Fetched(seg, ord, es)| == |es|
    ensures Ranking.CountGe(Fetched(seg, ord, es), ScoreOf, x) == Ranking.CountGe(es, EntryScore, x)
  {
    if es != [] {
      var front, e := es[..|es| - 1], es[|es| - 1];
      assert es == front + [e];
      FetchedCounts(seg, ord, front, x);
      var d := ScoredDoc(ord, e.doc, seg.ids[e.doc], e.score, seg.values[e.doc]);
      assert Fetched(seg, ord, es) == Fetched(seg, ord, front) + [d];
      Ranking.CountGeAppend(front, [e], EntryScore, x);
      Ranking.CountGeAppend(Fetched(seg, ord, front), [d], ScoreOf, x);
    }
  }

  lemma {:induction false} HitsFetchable(seg: Segment, docs: seq<Tokens>, query: seq<string>, n: nat)
    requires |seg.ids| == |docs| && query != []
    ensures Fetchable(seg, NaiveHits(docs, seg.deleted, query, seg.score, n))
  {
    if n > 0 {
      HitsFetchable(seg, docs, query, n - 1);
      if Matches(docs, seg.deleted, query, n - 1) {
        assert Hit(docs, seg.deleted, query[0], n - 1);
      }
    }
  }

  /** A best-k selection of the hits, fetched, counts like all hits fetched. */
  lemma TopFetched(seg: Segment, ord: nat, kept: seq<Entry>, hits: seq<Entry>, k: nat)
    requires |seg.values| == |seg.ids| <= 0xFFFF_FFFF && Fetchable(seg, hits)
             && Ranking.IsTop(kept, hits, k, EntryScore)
    ensures Like(Fetched(seg, ord, kept), Fetched(seg, ord, hits), ScoreOf, k)
    ensures |Fetched(seg, ord, kept)| == Min(k, |Fetched(seg, ord, hits)|)
  {
    hide Ranking.OthersBelow, Ranking.Descending, Ranking.CountGe, Fetched;
    forall e | e in kept
      ensures e in hits
    {
      assert e in multiset(kept);
      assert e in multiset(hits);
    }
    FetchedCounts(seg, ord, kept, 0.0);
    FetchedCounts(seg, ord, hits, 0.0);
    TopIsLike(kept, hits, EntryScore, k);
    forall x
      ensures Min(k, Ranking.CountGe(Fetched(seg, ord, kept), ScoreOf, x)) ==
                Min(k, Ranking.CountGe(Fetched(seg, ord, hits), ScoreOf, x))
    {
      FetchedCounts(seg, ord, kept, x);
      FetchedCounts(seg, ord, hits, x);
      assert Min(k, Ranking.CountGe(kept, EntryScore, x)) == Min(k, Ranking.CountGe(hits, EntryScore, x));
    }
  }

  /** Up to k by score, and up to k in number, a segment contributes what it has to offer. */
  ghost predicate Contributes(kept: seq<ScoredDoc>, offered: seq<ScoredDoc>, k: nat) {
    Like(kept, offered, ScoreOf, k) && |kept| <= |offered| && (|offered| <= k ==> |kept| == |offered|)
  }

  lemma FetchedContributes(seg: Segment, ord: nat, kept: seq<Entry>, docs: seq<Tokens>, query: seq<string>, k: nat)
    requires |seg.values| == |seg.ids| == |docs| <= 0xFFFF_FFFF && query != [] && k > 0
    requires Ranking.IsTop(kept, NaiveHits(docs, seg.deleted, query, seg.score, |docs|), k, EntryScore)
    ensures Contributes(if kept == [] && |query| > 1 then seg.fallback else Fetched(seg, ord, kept),
                        SegmentHits(seg, ord, docs, query), k)
  {
    hide NaiveHits, Fetched, Fetchable, Like, Ranking.OthersBelow, Ranking.Descending;
    var hits := NaiveHits(docs, seg.deleted, query, seg.score, |docs|);
    HitsFetchable(seg, docs, query, |docs|);
    TopFetched(seg, ord, kept, hits, k);
    LikeSelf(seg.fallback, k);
  }

  lemma LikeSelf(s: seq<ScoredDoc>, k: nat)
    ensures Like(s, s, ScoreOf, k)
  {
  }

  method FetchAll(seg: Segment, ord: nat, es: seq<Entry>) returns (scored: seq<ScoredDoc>)
    requires |seg.values| == |seg.ids| <= 0xFFFF_FFFF
    ensures scored == Fetched(seg, ord, es)
  {
    scored := [];
    for i := 0 to |es|
      invariant scored == Fetched(seg, ord, es[..i])
    {
      assert es[..i + 1][..i] == es[..i];
      if es[i].doc < |seg.ids| && es[i].doc !in seg.deleted {
        scored := scored + [ScoredDoc(ord, es[i].doc, seg.ids[es[i].doc], es[i].score, seg.values[es[i].doc])];
      }
    }
    assert es[..|es|] == es;
  }

  // ---- which documents these are ---------------------------------------------------------

  /** p is live document n of segment i, has a token for every query token, and carries its own id,
      score and sort value. */
  ghost predicate IsHit(p: ScoredDoc, i: nat, seg: Segment, docs: seq<Tokens>, query: seq<string>) {
    var n := p.localDocId;
    && p.segmentOrd == i && n < |docs| && n < |seg.ids| && n < |seg.values| && n !in seg.deleted
    && (forall q :: q in query ==> exists t :: t in docs[n] && q <= t)
    && p.globalDocId == seg.ids[n] && seg.score(n) == Some(p.score) && p.sortValue == seg.values[n]
  }

  function DocKey(p: ScoredDoc): (nat, nat) {
    (p.segmentOrd, p.localDocId)
  }

  /** Hits of the segment, none of them twice. */
  ghost predicate Sound(scored: seq<ScoredDoc>, i: nat, seg: Segment, docs: seq<Tokens>, query: seq<string>) {
    (forall p :: p in scored ==> IsHit(p, i, seg, docs, query)) && DistinctBy(scored, DocKey)
  }

  lemma FetchedIsHit(seg: Segment, i: nat, e: Entry, docs: seq<Tokens>, query: seq<string>)
    requires |seg.values| == |seg.ids| == |docs| <= 0xFFFF_FFFF && query != []
    requires Matches(docs, seg.deleted, query, e.doc) && seg.score(e.doc) == Some(e.score)
    ensures e.doc < |seg.ids| && e.doc !in seg.deleted
    ensures IsHit(ScoredDoc(i, e.doc, seg.ids[e.doc], e.score, seg.values[e.doc]), i, seg, docs, query)
  {
    assert Hit(docs, seg.deleted, query[0], e.doc);
    forall q | q in query
      ensures exists t :: t in docs[e.doc] && q <= t
    {
      var j :| 0 <= j < |query| && query[j] == q;
      assert Hit(docs, seg.deleted, query[j], e.doc);
    }
  }

  ghost predicate AllMatch(seg: Segment, es: seq<Entry>, docs: seq<Tokens>, query: seq<string>) {
    && (forall e :: e in es ==> Matches(docs, seg.deleted, query, e.doc) && seg.score(e.doc) == Some(e.score))
    && DistinctBy(es, (e: Entry) => e.doc)
  }

  lemma FetchedSnoc(seg: Segment, i: nat, front: seq<Entry>, e: Entry)
    requires |seg.values| == |seg.ids| <= 0xFFFF_FFFF
    ensures Fetched(seg, i, front + [e]) ==
            Fetched(seg, i, front)
            + if e.doc < |seg.ids| && e.doc !in seg.deleted
              then [ScoredDoc(i, e.doc, seg.ids[e.doc], e.score, seg.values[e.doc])] else []
  {
    assert (front + [e])[..|front|] == front;
  }

  lemma AllMatchFront(seg: Segment, front: seq<Entry>, e: Entry, docs: seq<Tokens>, query: seq<string>)
    requires AllMatch(seg, front + [e], docs, query)
    ensures AllMatch(seg, front, docs, query)
    ensures Matches(docs, seg.deleted, query, e.doc) && seg.score(e.doc) == Some(e.score)
    ensures forall f :: f in front ==> f.doc != e.doc
  {
    hide Matches;
    var all := front + [e];
    assert all[|front|] == e;
    assert forall i :: 0 <= i < |front| ==> front[i] == all[i];
  }

  lemma {:induction false} FetchedFrom(seg: Segment, i: nat, es: seq<Entry>)
    requires |seg.values| == |seg.ids| <= 0xFFFF_FFFF
    ensures forall p :: p in Fetched(seg, i, es) ==> exists e :: e in es && e.doc == p.localDocId
  {
    if es != [] {
      var front, e := es[..|es| - 1], es[|es| - 1];
      assert es == front + [e];
      FetchedFrom(seg, i, front);
    }
  }

  lemma SoundSnoc(scored: seq<ScoredDoc>, p: ScoredDoc, i: nat, seg: Segment, docs: seq<Tokens>, query: seq<string>)
    requires Sound(scored, i, seg, docs, query) && IsHit(p, i, seg, docs, query)
    requires forall q :: q in scored ==> q.localDocId != p.localDocId
    ensures Sound(scored + [p], i, seg, docs, query)
  {
    hide IsHit;
  }

  lemma {:induction false} FetchedSound(seg: Segment, i: nat, es: seq<Entry>, docs: seq<Tokens>, query: seq<string>)
    requires |seg.values| == |seg.ids| == |docs| <= 0xFFFF_FFFF && query != [] && AllMatch(seg, es, docs, query)
    ensures Sound(Fetched(seg, i, es), i, seg, docs, query)
  {
    hide AllMatch, Matches, IsHit;
    if es != [] {
      var front, e := es[..|es| - 1], es[|es| - 1];
      assert es == front + [e];
      AllMatchFront(seg, front, e, docs, query);
      FetchedSound(seg, i, front, docs, query);
      FetchedFrom(seg, i, front);
      FetchedSnoc(seg, i, front, e);
      FetchedIsHit(seg, i, e, docs, query);
      hide *;
      SoundSnoc(Fetched(seg, i, front), ScoredDoc(i, e.doc, seg.ids[e.doc], e.score, seg.values[e.doc]), i, seg,
                docs, query);
    }
  }

  /** Whatever the query kept, it kept hits, and fetching them gives hits. */
  lemma KeptSound(seg: Segment, i: nat, kept: seq<Entry>, docs: seq<Tokens>, query: seq<string>)
    requires |seg.values| == |seg.ids| == |docs| <= 0xFFFF_FFFF && query != []
    requires multiset(kept) <= multiset(NaiveHits(docs, seg.deleted, query, seg.score, |docs|))
    ensures Sound(Fetched(seg, i, kept), i, seg, docs, query)
  {
    hide NaiveHits, Matches, Fetched, Sound;
    var hits := NaiveHits(docs, seg.deleted, query, seg.score, |docs|);
    HitsAre(docs, seg.deleted, query, seg.score, |docs|);
    StillDistinct(hits, kept, (e: Entry) => e.doc);
    forall e | e in kept
      ensures e in hits
    {
      assert e in multiset(kept);
      assert e in multiset(hits);
    }
    FetchedSound(seg, i, kept, docs, query);
  }

  /** The segment's own answer, sound and distinct, or the fallback in its place. */
  ghost predicate Answered(scored: seq<ScoredDoc>, i: nat, seg: Segment, docs: seq<Tokens>, query: seq<string>) {
    Sound(scored, i, seg, docs, query) || (|query| > 1 && scored == seg.fallback)
  }

  /** The query on one segment.  Whatever the scoring function answers, it returns hits of the segment,
      each once, with their own ids, or the fallback. */
  method SearchSegment(seg: Segment, ord: nat, query: seq<string>, k: nat, w: Boosts, ghost terms: Index,
                       ghost docs: seq<Tokens>)
    returns (scored: seq<ScoredDoc>)
    requires Holds(seg, terms, docs) && query != [] && k > 0
    ensures Answered(scored, ord, seg, docs, query)
    ensures BlockBounds.Covering(w) && ScoresExactly(seg, docs, query) ==>
              Contributes(scored, SegmentHits(seg, ord, docs, query), k)
    ensures Weighted(w) && ScoresPositively(seg, docs, query) && |SegmentHits(seg, ord, docs, query)| <= k ==>
              multiset(scored) == multiset(SegmentHits(seg, ord, docs, query))
  {
    hide IndexOf, Readable, NaiveHits, Ranking.IsTop, Ranking.Descending, Fetched, SegmentHits, Contributes,
         NonNegative, ScoresPostings, AndQuery.Answers, AllVanish, PositiveOn, Sound;
    var kept, _ := ScoreQueryWand(seg.file, seg.deleted, query, k, w, seg.idf, seg.avgdl, seg.score, terms, docs);
    KeptSound(seg, ord, kept, docs, query);
    if kept == [] && |query| > 1 {
      scored := seg.fallback;
    } else {
      scored := FetchAll(seg, ord, kept);
    }
    if BlockBounds.Covering(w) && ScoresExactly(seg, docs, query) {
      FetchedContributes(seg, ord, kept, docs, query, k);
    }
    if Weighted(w) && ScoresPositively(seg, docs, query) && |SegmentHits(seg, ord, docs, query)| <= k {
      FetchedAll(seg, ord, kept, docs, query, k);
    }
  }

  /** The segment answers with positive scores, and some query token has a positive idf. */
  ghost predicate ScoresPositively(seg: Segment, docs: seq<Tokens>, query: seq<string>) {
    && NonNegative(seg.idf, query, docs, seg.deleted) && PositiveOn(seg.score, query, docs, seg.deleted)
    && !AllVanish(seg.idf, query, docs, seg.deleted)
  }

  lemma {:induction false} FetchedCount(seg: Segment, i: nat, es: seq<Entry>, p: ScoredDoc)
    requires |seg.values| == |seg.ids| <= 0xFFFF_FFFF
    ensures multiset(Fetched(seg, i, es))[p] ==
            if p.segmentOrd == i && p.localDocId < |seg.ids| && p.localDocId !in seg.deleted
               && p.globalDocId == seg.ids[p.localDocId] && p.sortValue == seg.values[p.localDocId]
            then multiset(es)[Entry(p.score, p.localDocId)] else 0
  {
    if es != [] {
      var front, e := es[..|es| - 1], es[|es| - 1];
      assert es == front + [e];
      FetchedCount(seg, i, front, p);
      FetchedSnoc(seg, i, front, e);
    }
  }

  /** With room for all hits, all are returned. */
  lemma FetchedAll(seg: Segment, i: nat, kept: seq<Entry>, docs: seq<Tokens>, query: seq<string>, k: nat)
    requires |seg.values| == |seg.ids| == |docs| <= 0xFFFF_FFFF && query != [] && k > 0
    requires AndQuery.Answers(kept, NaiveHits(docs, seg.deleted, query, seg.score, |docs|), k, false)
    requires |SegmentHits(seg, i, docs, query)| <= k
    ensures multiset(if kept == [] && |query| > 1 then seg.fallback else Fetched(seg, i, kept)) ==
            multiset(SegmentHits(seg, i, docs, query))
  {
    hide NaiveHits, Fetched, Fetchable, Ranking.Descending;
    var hits := NaiveHits(docs, seg.deleted, query, seg.score, |docs|);
    HitsFetchable(seg, docs, query, |docs|);
    FetchedCounts(seg, i, hits, 0.0);
    if hits != [] {
      forall p
        ensures multiset(Fetched(seg, i, kept))[p] == multiset(Fetched(seg, i, hits))[p]
      {
        FetchedCount(seg, i, kept, p);
        FetchedCount(seg, i, hits, p);
      }
    }
  }

  // ---- all segments ----------------------------------------------------------------------

  lemma {:induction false} NoMoreThanOffered(kept: seq<seq<ScoredDoc>>, offered: seq<seq<ScoredDoc>>, k: nat)
    requires |kept| == |offered| && forall i :: 0 <= i < |kept| ==> Contributes(kept[i], offered[i], k)
    ensures |Concat(kept)| <= |Concat(offered)|
    ensures (forall i :: 0 <= i < |offered| ==> |offered[i]| <= k) ==> |Concat(kept)| == |Concat(offered)|
  {
    hide Like;
    if kept != [] {
      var n := |kept| - 1;
      NoMoreThanOffered(kept[..n], offered[..n], k);
      assert Contributes(kept[n], offered[n], k);
    }
  }

  /** Segment by segment: hits of its own, none twice, or its fallback. */
  ghost predicate AllAnswered(lists: seq<seq<ScoredDoc>>, segs: seq<Segment>, docs: seq<seq<Tokens>>,
                              query: seq<string>) {
    && |lists| == |segs| == |docs|
    && forall i :: 0 <= i < |lists| ==> Answered(lists[i], i, segs[i], docs[i], query)
  }

  /** The fallback, too, names documents of its own segment, each once. */
  ghost predicate OwnFallbacks(segs: seq<Segment>) {
    forall i :: 0 <= i < |segs| ==>
      (forall p :: p in segs[i].fallback ==> p.segmentOrd == i) && DistinctBy(segs[i].fallback, DocKey)
  }

  /** A hit of some segment, or from the fallback of one. */
  ghost predicate Belongs(p: ScoredDoc, segs: seq<Segment>, docs: seq<seq<Tokens>>, query: seq<string>)
    requires |segs| == |docs|
  {
    exists i :: 0 <= i < |segs| &&
      (IsHit(p, i, segs[i], docs[i], query) || (|query| > 1 && p in segs[i].fallback))
  }

  lemma AnsweredBelongs(lists: seq<seq<ScoredDoc>>, segs: seq<Segment>, docs: seq<seq<Tokens>>, query: seq<string>)
    requires AllAnswered(lists, segs, docs, query)
    ensures forall p :: p in Concat(lists) ==> Belongs(p, segs, docs, query)
  {
    hide IsHit, Concat;
    forall p | p in Concat(lists)
      ensures Belongs(p, segs, docs, query)
    {
      var i := FromConcat(lists, p);
      assert Answered(lists[i], i, segs[i], docs[i], query);
    }
  }

  lemma DistinctJoin(a: seq<ScoredDoc>, b: seq<ScoredDoc>)
    requires DistinctBy(a, DocKey) && DistinctBy(b, DocKey)
    requires forall p, q :: p in a && q in b ==> p.segmentOrd != q.segmentOrd
    ensures DistinctBy(a + b, DocKey)
  {
    var s := a + b;
    forall i, j | 0 <= i < j < |s|
      ensures DocKey(s[i]) != DocKey(s[j])
    {
      if j < |a| {
        assert s[i] == a[i] && s[j] == a[j];
      } else if i < |a| {
        assert s[i] in a && s[j] == b[j - |a|] && s[j] in b;
      } else {
        assert s[i] == b[i - |a|] && s[j] == b[j - |a|];
      }
    }
  }

  lemma OwnAnswer(scored: seq<ScoredDoc>, i: nat, seg: Segment, docs: seq<Tokens>, query: seq<string>)
    requires Answered(scored, i, seg, docs, query)
    requires (forall p :: p in seg.fallback ==> p.segmentOrd == i) && DistinctBy(seg.fallback, DocKey)
    ensures (forall p :: p in scored ==> p.segmentOrd == i) && DistinctBy(scored, DocKey)
  {
    hide DistinctBy;
  }

  lemma {:induction false} AnsweredDistinct(lists: seq<seq<ScoredDoc>>, segs: seq<Segment>, docs: seq<seq<Tokens>>,
                                            query: seq<string>)
    requires AllAnswered(lists, segs, docs, query) && OwnFallbacks(segs)
    ensures DistinctBy(Concat(lists), DocKey) && forall p :: p in Concat(lists) ==> p.segmentOrd < |lists|
  {
    hide Answered, DistinctBy;
    if lists == [] {
      assert DistinctBy<ScoredDoc, (nat, nat)>([], DocKey) by { NothingTwice(); }
    } else {
      var n := |lists| - 1;
      AnsweredDistinct(lists[..n], segs[..n], docs[..n], query);
      OwnAnswer(lists[n], n, segs[n], docs[n], query);
      DistinctJoin(Concat(lists[..n]), lists[n]);
    }
  }

  lemma NothingTwice()
    ensures DistinctBy<ScoredDoc, (nat, nat)>([], DocKey)
  {
  }

  /** Some conditions of `Search`, for all segments at once. */
  ghost predicate AllExact(segs: seq<Segment>, docs: seq<seq<Tokens>>, query: seq<string>)
    requires |segs| == |docs|
  {
    forall i :: 0 <= i < |segs| ==> ScoresExactly(segs[i], docs[i], query)
  }

  ghost predicate AllPositive(segs: seq<Segment>, docs: seq<seq<Tokens>>, query: seq<string>)
    requires |segs| == |docs|
  {
    forall i :: 0 <= i < |segs| ==> ScoresPositively(segs[i], docs[i], query)
  }

  /** The whole search.

      Whatever the scoring functions answer, the page is cut, in the order asked for, from hits of the
      segments, each once, with their own ids, scores and sort values, or from fallbacks.  For positive
      scores, nothing is missing as long as no segment has more hits than it is asked for.  And when the
      segments score by their postings, a page by score has exactly the scores of the page cut from a
      full sort of everything every segment has to offer, although each was asked for `FetchSize` hits
      only. */
  method Search(segs: seq<Segment>, query: seq<string>, sort: Option<SortOrder>, offset: nat, limit: nat, w: Boosts,
                ghost terms: seq<Index>, ghost docs: seq<seq<Tokens>>)
    returns (page: seq<ScoredDoc>, total: nat)
    requires AllHold(segs, terms, docs) && query != []
    ensures exists lists, before, after ::
              && AllAnswered(lists, segs, docs, query) && total == |Concat(lists)|
              && Cut(before, page, after, Concat(lists), offset, limit) && InOrder(before + page + after, sort)
    ensures forall p :: p in page ==> Belongs(p, segs, docs, query)
    ensures OwnFallbacks(segs) ==> DistinctBy(page, DocKey)
    ensures Weighted(w) && AllPositive(segs, docs, query)
            && (forall i :: 0 <= i < |segs| ==> |AllHits(segs, docs, query)[i]| <= FetchSize(offset, limit)) ==>
              && total == |Concat(AllHits(segs, docs, query))|
              && exists before, after ::
                   && Cut(before, page, after, Concat(AllHits(segs, docs, query)), offset, limit)
                   && InOrder(before + page + after, sort)
    ensures BlockBounds.Covering(w) && AllExact(segs, docs, query) ==>
              && total <= |Concat(AllHits(segs, docs, query))|
              && ((forall i :: 0 <= i < |segs| ==> |AllHits(segs, docs, query)[i]| <= FetchSize(offset, limit)) ==>
                    total == |Concat(AllHits(segs, docs, query))|)
    ensures sort.None? && BlockBounds.Covering(w) && AllExact(segs, docs, query) ==>
              && (forall reference ::
                    ScorePage(reference, Concat(AllHits(segs, docs, query)), ScoreOf, offset, limit) ==>
                    Ranking.Scores(page, ScoreOf) == Ranking.Scores(reference, ScoreOf))
              && (offset == 0 ==> Like(page, Concat(AllHits(segs, docs, query)), ScoreOf, limit))
  {
    hide *;
    var k := FetchSize(offset, limit);
    HoldIs(segs, terms, docs);
    ghost var all := AllHits(segs, docs, query);
    ghost var exact := BlockBounds.Covering(w) && AllExact(segs, docs, query);
    ghost var positive := Weighted(w) && AllPositive(segs, docs, query)
                          && forall i :: 0 <= i < |segs| ==> |all[i]| <= k;
    var lists: seq<seq<ScoredDoc>> := [];
    for i := 0 to |segs|
      invariant |lists| == i
      invariant forall j :: 0 <= j < i ==> Answered(lists[j], j, segs[j], docs[j], query)
      invariant exact ==> forall j :: 0 <= j < i ==> Contributes(lists[j], all[j], k)
      invariant positive ==> forall j :: 0 <= j < i ==> multiset(lists[j]) == multiset(all[j])
    {
      SegmentOfAll(segs, docs, query, i);
      var scored := SearchSegment(segs[i], i, query, k, w, terms[i], docs[i]);
      lists := lists + [scored];
    }
    page, total := SearchSegments(lists, sort, offset, limit);
    IsAnswered(lists, segs, docs, query);
    ghost var before, after :|
      Cut(before, page, after, Concat(lists), offset, limit) && InOrder(before + page + after, sort);
    CutWithin(before, page, after, Concat(lists), offset, limit);
    AnsweredBelongs(lists, segs, docs, query);
    if OwnFallbacks(segs) {
      AnsweredDistinct(lists, segs, docs, query);
      StillDistinct(Concat(lists), page, DocKey);
    }
    if positive {
      SameJoined(lists, all);
      CutSame(before, page, after, Concat(lists), Concat(all), offset, limit);
    }
    if exact {
      NoMoreThanOffered(lists, all, k);
      if sort.None? {
        PageExact(lists, all, page, k, offset, limit);
      }
    }
  }

  lemma HoldIs(segs: seq<Segment>, terms: seq<Index>, docs: seq<seq<Tokens>>)
    requires AllHold(segs, terms, docs)
    ensures |segs| == |terms| == |docs| && forall i :: 0 <= i < |segs| ==> Holds(segs[i], terms[i], docs[i])
    ensures forall i :: 0 <= i < |segs| ==> |segs[i].values| == |segs[i].ids| == |docs[i]| <= 0xFFFF_FFFF
  {
  }

  lemma SegmentOfAll(segs: seq<Segment>, docs: seq<seq<Tokens>>, query: seq<string>, i: nat)
    requires |segs| == |docs| && forall i :: 0 <= i < |segs| ==> |segs[i].values| == |segs[i].ids| <= 0xFFFF_FFFF
    requires i < |segs|
    ensures AllHits(segs, docs, query)[i] == SegmentHits(segs[i], i, docs[i], query)
    ensures AllExact(segs, docs, query) ==> ScoresExactly(segs[i], docs[i], query)
    ensures AllPositive(segs, docs, query) ==> ScoresPositively(segs[i], docs[i], query)
  {
    hide SegmentHits, ScoresExactly, ScoresPositively;
  }

  lemma IsAnswered(lists: seq<seq<ScoredDoc>>, segs: seq<Segment>, docs: seq<seq<Tokens>>, query: seq<string>)
    requires |lists| == |segs| == |docs|
    requires forall j :: 0 <= j < |lists| ==> Answered(lists[j], j, segs[j], docs[j], query)
    ensures AllAnswered(lists, segs, docs, query)
  {
  }

  lemma CutWithin(before: seq<ScoredDoc>, page: seq<ScoredDoc>, after: seq<ScoredDoc>, all: seq<ScoredDoc>, offset: nat,
                  limit: nat)
    requires Cut(before, page, after, all, offset, limit)
    ensures multiset(page) <= multiset(all) && forall p :: p in page ==> p in all
  {
    assert multiset(before + page + after) == multiset(before) + multiset(page) + multiset(after);
    forall p | p in page
      ensures p in all
    {
      assert p in multiset(page);
      assert p in multiset(all);
    }
  }

  lemma {:induction false} SameJoined(as_: seq<seq<ScoredDoc>>, bs: seq<seq<ScoredDoc>>)
    requires |as_| == |bs| && forall i :: 0 <= i < |as_| ==> multiset(as_[i]) == multiset(bs[i])
    ensures multiset(Concat(as_)) == multiset(Concat(bs))
  {
    if as_ != [] {
      var n := |as_| - 1;
      SameJoined(as_[..n], bs[..n]);
    }
  }

  lemma CutSame(before: seq<ScoredDoc>, page: seq<ScoredDoc>, after: seq<ScoredDoc>, all: seq<ScoredDoc>,
                all': seq<ScoredDoc>, offset: nat, limit: nat)
    requires Cut(before, page, after, all, offset, limit) && multiset(all) == multiset(all')
    ensures Cut(before, page, after, all', offset, limit) && |all| == |all'|
  {
    assert |multiset(all)| == |all| && |multiset(all')| == |all'|;
  }

  lemma PageExact(kept: seq<seq<ScoredDoc>>, offered: seq<seq<ScoredDoc>>, page: seq<ScoredDoc>, k: nat, offset: nat,
                  limit: nat)
    requires |kept| == |offered| && forall i :: 0 <= i < |kept| ==> Contributes(kept[i], offered[i], k)
    requires ScorePage(page, Concat(kept), ScoreOf, offset, limit) && offset + limit <= k
    ensures forall reference :: ScorePage(reference, Concat(offered), ScoreOf, offset, limit) ==>
              Ranking.Scores(page, ScoreOf) == Ranking.Scores(reference, ScoreOf)
    ensures offset == 0 ==> Like(page, Concat(offered), ScoreOf, limit)
  {
    hide Like, ScorePage, Ranking.Scores, Concat;
    forall reference | ScorePage(reference, Concat(offered), ScoreOf, offset, limit)
      ensures Ranking.Scores(page, ScoreOf) == Ranking.Scores(reference, ScoreOf)
    {
      LikePageExact(kept, offered, ScoreOf, k, page, reference, offset, limit);
    }
    if offset == 0 {
      FirstPageLike(kept, offered, page, k, limit);
    }
  }

  lemma FirstPageLike(kept: seq<seq<ScoredDoc>>, offered: seq<seq<ScoredDoc>>, page: seq<ScoredDoc>, k: nat, limit: nat)
    requires |kept| == |offered| && forall i :: 0 <= i < |kept| ==> Contributes(kept[i], offered[i], k)
    requires ScorePage(page, Concat(kept), ScoreOf, 0, limit) && limit <= k
    ensures Like(page, Concat(offered), ScoreOf, limit)
  {
    hide Like, Concat, Ranking.IsSorting;
    var sorted :| Ranking.IsSorting(sorted, Concat(kept), ScoreOf) && page == Page(sorted, 0, limit);
    SortingDescends(sorted, Concat(kept), ScoreOf);
    CutIsLike(sorted, ScoreOf, limit);
    SortingIsLike(sorted, Concat(kept), ScoreOf, limit);
    LikeConcat(kept, offered, ScoreOf, k);
    LikeShrinks(Concat(kept), Concat(offered), ScoreOf, k, limit);
    LikeTransitive(page, sorted, Concat(kept), ScoreOf, limit);
    LikeTransitive(page, Concat(kept), Concat(offered), ScoreOf, limit);
  }
}
