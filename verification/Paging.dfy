/** Scatter, gather, sort, paginate: crates/query/src/collector.rs, the merge loop of
    crates/query/src/multi.rs, and the gather step of crates/router/src/router.rs (with no
    re-ranker, availability filter or cache).  Every level keeps only some best hits of the level
    below; the pages come out as if nothing had ever been cut. */
module Paging {
  import opened Base
  import opened Ranking

  datatype ScoredDoc = ScoredDoc(segmentOrd: nat, localDocId: u32, globalDocId: u64, score: real,
                                 sortValue: Option<real>)

  datatype SortOrder = Asc | Desc

  function ScoreOf(d: ScoredDoc): real {
    d.score
  }

  /** A missing sort value stands for minus infinity. */
  predicate AtMost(a: Option<real>, b: Option<real>) {
    a.None? || (b.Some? && a.value <= b.value)
  }

  /** `a` may stand before `b`: by the sort field when one is given, else by descending score. */
  predicate Before(a: ScoredDoc, b: ScoredDoc, sort: Option<SortOrder>) {
    match sort
    case None => a.score >= b.score
    case Some(Asc) => AtMost(a.sortValue, b.sortValue)
    case Some(Desc) => AtMost(b.sortValue, a.sortValue)
  }

  function Order(sort: Option<SortOrder>): (ScoredDoc, ScoredDoc) -> bool {
    (a, b) => Before(a, b, sort)
  }

  function Page<T>(s: seq<T>, offset: nat, limit: nat): seq<T> {
    s[Min(offset, |s|)..Min(offset + limit, |s|)]
  }

  /** Item i of a page is item offset + i of the list, for as long as there is one. */
  lemma PageItem<T>(s: seq<T>, offset: nat, limit: nat)
    ensures |Page(s, offset, limit)| == Max(0, Min(limit, |s| - offset))
    ensures forall i :: 0 <= i < |Page(s, offset, limit)| ==> Page(s, offset, limit)[i] == s[offset + i]
  {
  }

  /** `all`, rearranged, is what was cut before the page, the page, and what was cut after it. */
  ghost predicate Cut<T>(before: seq<T>, page: seq<T>, after: seq<T>, all: seq<T>, offset: nat, limit: nat) {
    && multiset(before + page + after) == multiset(all)
    && |before| == Min(offset, |all|) && |page| == Min(limit, |all| - |before|)
  }

  lemma PageIsCut<T>(sorted: seq<T>, all: seq<T>, offset: nat, limit: nat) returns (before: seq<T>, after: seq<T>)
    requires multiset(sorted) == multiset(all)
    ensures Cut(before, Page(sorted, offset, limit), after, all, offset, limit)
    ensures before + Page(sorted, offset, limit) + after == sorted
  {
    assert |multiset(sorted)| == |multiset(all)|;
    before, after := sorted[..Min(offset, |sorted|)], sorted[Min(offset + limit, |sorted|)..];
    assert before + Page(sorted, offset, limit) + after == sorted;
  }

  /** In the order asked for: by descending score; by the field from low to high, documents without
      it first; or from high to low, documents without it last. */
  ghost predicate InOrder(s: seq<ScoredDoc>, sort: Option<SortOrder>) {
    match sort
    case None => forall i, j :: 0 <= i < j < |s| ==> s[i].score >= s[j].score
    case Some(Asc) =>
      forall i, j :: 0 <= i < j < |s| && s[i].sortValue.Some? ==>
        s[j].sortValue.Some? && s[i].sortValue.value <= s[j].sortValue.value
    case Some(Desc) =>
      forall i, j :: 0 <= i < j < |s| && s[j].sortValue.Some? ==>
        s[i].sortValue.Some? && s[i].sortValue.value >= s[j].sortValue.value
  }

  lemma OrderedIsInOrder(s: seq<ScoredDoc>, sort: Option<SortOrder>)
    requires OrderedBy(s, Order(sort))
    ensures InOrder(s, sort)
  {
    forall i, j | 0 <= i < j < |s|
      ensures Before(s[i], s[j], sort)
    {
      assert Order(sort)(s[i], s[j]);
    }
  }

  lemma OrderIsTotal(sort: Option<SortOrder>)
    ensures TotalPreorder(Order(sort))
  {
  }

  /** A page cut from the documents in the order asked for. */
  ghost predicate PageOf(page: seq<ScoredDoc>, docs: seq<ScoredDoc>, sort: Option<SortOrder>, offset: nat, limit: nat) {
    exists sorted :: multiset(sorted) == multiset(docs) && OrderedBy(sorted, Order(sort))
           && page == Page(sorted, offset, limit)
  }

  /** A page cut from a sorting by descending score. */
  ghost predicate ScorePage<T(!new)>(page: seq<T>, all: seq<T>, key: T -> real, offset: nat, limit: nat) {
    exists sorted :: IsSorting(sorted, all, key) && page == Page(sorted, offset, limit)
  }

  lemma WithoutSortField(page: seq<ScoredDoc>, docs: seq<ScoredDoc>, offset: nat, limit: nat)
    requires PageOf(page, docs, None, offset, limit)
    ensures ScorePage(page, docs, ScoreOf, offset, limit)
  {
    var sorted :| multiset(sorted) == multiset(docs) && OrderedBy(sorted, Order(None))
                  && page == Page(sorted, offset, limit);
    ByScore(sorted);
    assert IsSorting(sorted, docs, ScoreOf);
  }

  /** `TopNCollector::collect`. */
  method Collect(docs: seq<ScoredDoc>, sort: Option<SortOrder>, offset: nat, limit: nat)
    returns (page: seq<ScoredDoc>, total: nat)
    ensures PageOf(page, docs, sort, offset, limit) && total == |docs|
    ensures exists before, after ::
              Cut(before, page, after, docs, offset, limit) && InOrder(before + page + after, sort)
    ensures sort == None ==> forall i, j :: 0 <= i < j < |page| ==> page[i].score >= page[j].score
    ensures sort == Some(Asc) ==> forall i, j :: 0 <= i < j < |page| && page[i].sortValue.Some? ==>
              page[j].sortValue.Some? && page[i].sortValue.value <= page[j].sortValue.value
    ensures sort == Some(Desc) ==> forall i, j :: 0 <= i < j < |page| && page[j].sortValue.Some? ==>
              page[i].sortValue.Some? && page[i].sortValue.value >= page[j].sortValue.value
  {
    total := |docs|;
    OrderIsTotal(sort);
    var s := SortBy(docs, Order(sort));
    page := s[Min(offset, |s|)..Min(offset + limit, |s|)];
    assert page == Page(s, offset, limit);
    hide *;
    ghost var before, after := PageIsCut(s, docs, offset, limit);
    OrderedIsInOrder(s, sort);
    PageOrder(before, page, after, sort);
    SomeSorting(page, s, docs, sort, offset, limit);
  }

  lemma SomeSorting(page: seq<ScoredDoc>, sorted: seq<ScoredDoc>, docs: seq<ScoredDoc>, sort: Option<SortOrder>,
                    offset: nat, limit: nat)
    requires multiset(sorted) == multiset(docs) && OrderedBy(sorted, Order(sort)) && page == Page(sorted, offset, limit)
    ensures PageOf(page, docs, sort, offset, limit)
  {
  }

  /** The middle of an ordered list is in order. */
  lemma PageOrder(before: seq<ScoredDoc>, page: seq<ScoredDoc>, after: seq<ScoredDoc>, sort: Option<SortOrder>)
    requires InOrder(before + page + after, sort)
    ensures sort == None ==> forall i, j :: 0 <= i < j < |page| ==> page[i].score >= page[j].score
    ensures sort == Some(Asc) ==> forall i, j :: 0 <= i < j < |page| && page[i].sortValue.Some? ==>
              page[j].sortValue.Some? && page[i].sortValue.value <= page[j].sortValue.value
    ensures sort == Some(Desc) ==> forall i, j :: 0 <= i < j < |page| && page[j].sortValue.Some? ==>
              page[i].sortValue.Some? && page[i].sortValue.value >= page[j].sortValue.value
  {
    var s := before + page + after;
    forall i | 0 <= i < |page|
      ensures page[i] == s[|before| + i]
    {
    }
  }

  lemma ByScore(s: seq<ScoredDoc>)
    requires OrderedBy(s, Order(None))
    ensures Descending(s, ScoreOf)
  {
    forall i, j | 0 <= i < j < |s|
      ensures ScoreOf(s[i]) >= ScoreOf(s[j])
    {
      assert Order(None)(s[i], s[j]);
    }
  }

  /** The gathering loop of the multi-segment search and of the router. */
  method Gather<T>(lists: seq<seq<T>>) returns (all: seq<T>)
    ensures all == Concat(lists)
  {
    all := [];
    for i := 0 to |lists|
      invariant all == Concat(lists[..i])
    {
      assert lists[..i + 1][..i] == lists[..i];
      all := all + lists[i];
    }
    assert lists[..|lists|] == lists;
  }

  /** How many hits the executor asks WAND for: enough for the page, for ten pages, and for 200, and no
      more than the most of these. */
  function FetchSize(offset: nat, limit: nat): (k: nat)
    ensures k >= offset + limit && k >= limit * 10 && k >= 200
    ensures k == offset + limit || k == limit * 10 || k == 200
  {
    Max(Max(offset + limit, limit * 10), 200)
  }

  /** The multi-segment search: gather every segment's scored documents, then collect. */
  method SearchSegments(segments: seq<seq<ScoredDoc>>, sort: Option<SortOrder>, offset: nat, limit: nat)
    returns (page: seq<ScoredDoc>, totalHits: nat)
    ensures totalHits == |Concat(segments)|
    ensures PageOf(page, Concat(segments), sort, offset, limit)
    ensures sort.None? ==> ScorePage(page, Concat(segments), ScoreOf, offset, limit)
    ensures exists before, after ::
              Cut(before, page, after, Concat(segments), offset, limit) && InOrder(before + page + after, sort)
  {
    hide PageOf, ScorePage, Cut, InOrder;
    var all := Gather(segments);
    page, totalHits := Collect(all, sort, offset, limit);
    if sort.None? {
      WithoutSortField(page, all, offset, limit);
    }
  }

  /** On the page, or ahead of it, or behind a full page. */
  ghost predicate OnPageOrCut(e: ScoredDoc, page: seq<ScoredDoc>, offset: nat, limit: nat) {
    || e in page
    || (offset > 0 && forall p :: p in page ==> e.score >= p.score)
    || (|page| == limit && forall p :: p in page ==> e.score <= p.score)
  }

  lemma HitOnPageOrCut(e: ScoredDoc, page: seq<ScoredDoc>, all: seq<ScoredDoc>, offset: nat, limit: nat)
    requires ScorePage(page, all, ScoreOf, offset, limit) && e in all
    ensures OnPageOrCut(e, page, offset, limit)
  {
    var sorted :| IsSorting(sorted, all, ScoreOf) && page == Page(sorted, offset, limit);
    assert e in multiset(all);
    assert e in multiset(sorted);
    var k :| 0 <= k < |sorted| && sorted[k] == e;
    PageItem(sorted, offset, limit);
    if offset <= k < offset + limit {
      assert page[k - offset] == e;
    } else {
      forall p | p in page
        ensures if k < offset then e.score >= p.score else e.score <= p.score
      {
        var i :| 0 <= i < |page| && page[i] == p;
        assert p == sorted[offset + i];
        assert ScoreOf(e) == e.score && ScoreOf(p) == p.score;
      }
    }
  }

  /** What the shards that answered have to offer. */
  function Reached<T>(full: seq<seq<T>>, results: seq<Option<seq<ScoredDoc>>>): (reached: seq<seq<T>>)
    requires |full| == |results|
    ensures |reached| == |full|
  {
    seq(|full|, i requires 0 <= i < |full| => if results[i].Some? then full[i] else [])
  }

  /** Up to the scatter limit every answer counts, by score, like all the shard has to offer. */
  ghost predicate AnswersLike(results: seq<Option<seq<ScoredDoc>>>, full: seq<seq<ScoredDoc>>, scatter: nat) {
    && |full| == |results|
    && forall i :: 0 <= i < |results| && results[i].Some? ==> Like(results[i].value, full[i], ScoreOf, scatter)
  }

  /** The router: failed shards are left out, and it is an error when none answers.  `full` is what
      each shard has to offer: as long as the page ends within the scatter limit, it has the scores of
      the page of one sort of everything the answering shards have. */
  method SearchShards(results: seq<Option<seq<ScoredDoc>>>, offset: nat, limit: nat, ghost full: seq<seq<ScoredDoc>>,
                      ghost scatter: nat)
    returns (page: Option<seq<ScoredDoc>>)
    ensures page.None? <==> forall i :: 0 <= i < |results| ==> results[i].None?
    ensures page.Some? ==> exists all :: Gathered(all, results) && ScorePage(page.value, all, ScoreOf, offset, limit)
    ensures page.Some? ==> forall i, e :: 0 <= i < |results| && results[i].Some? && e in results[i].value ==>
              OnPageOrCut(e, page.value, offset, limit)
    ensures page.Some? && AnswersLike(results, full, scatter) && offset + limit <= scatter ==>
              forall reference :: ScorePage(reference, Concat(Reached(full, results)), ScoreOf, offset, limit) ==>
                Scores(page.value, ScoreOf) == Scores(reference, ScoreOf)
  {
    var all: seq<ScoredDoc> := [];
    var healthy := 0;
    for i := 0 to |results|
      invariant all == Concat(Answers(results[..i])) && healthy == |Answers(results[..i])|
    {
      assert results[..i + 1][..i] == results[..i];
      if results[i].Some? {
        ConcatSnoc(Answers(results[..i]), results[i].value);
        all := all + results[i].value;
        healthy := healthy + 1;
      } else {
        assert Answers(results[..i + 1]) == Answers(results[..i]);
      }
    }
    assert results[..|results|] == results;
    NoAnswers(results);
    if healthy == 0 {
      return None;
    }
    OrderIsTotal(None);
    var s := SortBy(all, Order(None));
    ByScore(s);
    assert IsSorting(s, all, ScoreOf);
    page := Some(s[Min(offset, |s|)..Min(offset + limit, |s|)]);
    assert page.value == Page(s, offset, limit);
    hide *;
    SortedPage(page.value, s, all, offset, limit);
    GatherIs(results);
    RouterPage(results, page.value, full, scatter, offset, limit);
  }

  lemma SortedPage(page: seq<ScoredDoc>, sorted: seq<ScoredDoc>, all: seq<ScoredDoc>, offset: nat, limit: nat)
    requires IsSorting(sorted, all, ScoreOf) && page == Page(sorted, offset, limit)
    ensures ScorePage(page, all, ScoreOf, offset, limit)
  {
  }

  lemma RouterPage(results: seq<Option<seq<ScoredDoc>>>, page: seq<ScoredDoc>, full: seq<seq<ScoredDoc>>, scatter: nat,
                   offset: nat, limit: nat)
    requires ScorePage(page, Concat(Answers(results)), ScoreOf, offset, limit)
    ensures forall i, e :: 0 <= i < |results| && results[i].Some? && e in results[i].value ==>
              OnPageOrCut(e, page, offset, limit)
    ensures AnswersLike(results, full, scatter) && offset + limit <= scatter ==>
              forall reference :: ScorePage(reference, Concat(Reached(full, results)), ScoreOf, offset, limit) ==>
                Scores(page, ScoreOf) == Scores(reference, ScoreOf)
  {
    hide ScorePage, OnPageOrCut, Concat, Answers, Like, Scores;
    AnswersJoined(results);
    forall i, e | 0 <= i < |results| && results[i].Some? && e in results[i].value
      ensures OnPageOrCut(e, page, offset, limit)
    {
      InConcat(Sent(results), i, e);
      HitOnPageOrCut(e, page, Concat(Answers(results)), offset, limit);
    }
    if AnswersLike(results, full, scatter) && offset + limit <= scatter {
      forall reference | ScorePage(reference, Concat(Reached(full, results)), ScoreOf, offset, limit)
        ensures Scores(page, ScoreOf) == Scores(reference, ScoreOf)
      {
        AnsweredLike(results, full, scatter);
        LikePageExact(Sent(results), Reached(full, results), ScoreOf, scatter, page, reference, offset, limit);
      }
    }
  }

  lemma AnsweredLike(results: seq<Option<seq<ScoredDoc>>>, full: seq<seq<ScoredDoc>>, scatter: nat)
    requires AnswersLike(results, full, scatter)
    ensures forall i :: 0 <= i < |results| ==> Like(Sent(results)[i], Reached(full, results)[i], ScoreOf, scatter)
  {
    hide Like;
    NothingLike(scatter);
  }

  lemma NothingLike(k: nat)
    ensures Like<ScoredDoc>([], [], ScoreOf, k)
  {
  }

  // ---- indistinguishable up to k ---------------------------------------------------------

  /** Counting by score cannot tell `a` from `b` until it passes k. */
  ghost predicate Like<T>(a: seq<T>, b: seq<T>, key: T -> real, k: nat) {
    && Min(k, |a|) == Min(k, |b|)
    && forall x :: Min(k, CountGe(a, key, x)) == Min(k, CountGe(b, key, x))
  }

  lemma TopIsLike<T>(kept: seq<T>, all: seq<T>, key: T -> real, k: nat)
    requires IsTop(kept, all, k, key)
    ensures Like(kept, all, key, k)
  {
    forall x
      ensures Min(k, CountGe(kept, key, x)) == Min(k, CountGe(all, key, x))
    {
      TopCounts(kept, all, k, key, x);
    }
  }

  lemma SortingIsLike<T>(sorted: seq<T>, all: seq<T>, key: T -> real, k: nat)
    requires IsSorting(sorted, all, key)
    ensures Like(sorted, all, key, k)
  {
    assert |multiset(sorted)| == |multiset(all)|;
    forall x
      ensures CountGe(sorted, key, x) == CountGe(all, key, x)
    {
      CountGeMultiset(sorted, all, key, x);
    }
  }

  /** Cutting a descending list at k. */
  lemma CutIsLike<T>(s: seq<T>, key: T -> real, k: nat)
    requires Descending(s, key)
    ensures Like(Page(s, 0, k), s, key, k)
  {
    var n := Min(k, |s|);
    var a, b := s[..n], s[n..];
    assert s == a + b && Page(s, 0, k) == a;
    forall x
      ensures Min(k, CountGe(a, key, x)) == Min(k, CountGe(s, key, x))
    {
      CutCounts(a, b, key, x);
    }
  }

  lemma CutCounts<T>(a: seq<T>, b: seq<T>, key: T -> real, x: real)
    requires Descending(a + b, key)
    ensures CountGe(a + b, key, x) == CountGe(a, key, x) || CountGe(a, key, x) == |a|
    ensures CountGe(a + b, key, x) >= CountGe(a, key, x)
  {
    CountGeAppend(a, b, key, x);
    if a != [] && b != [] {
      var s := a + b;
      if key(a[|a| - 1]) >= x {
        assert Descending(a, key) by { assert forall i :: 0 <= i < |a| ==> s[i] == a[i]; }
        KeptCountsAll(a, key, x);
      } else {
        forall e | e in b
          ensures key(e) < x
        {
          var i :| 0 <= i < |b| && b[i] == e;
          assert s[|a| - 1] == a[|a| - 1] && s[|a| + i] == e;
        }
        CountGeAll(b, key, x);
      }
    }
  }

  lemma LikeShrinks<T>(a: seq<T>, b: seq<T>, key: T -> real, k: nat, n: nat)
    requires Like(a, b, key, k) && n <= k
    ensures Like(a, b, key, n)
  {
    forall x
      ensures Min(n, CountGe(a, key, x)) == Min(n, CountGe(b, key, x))
    {
      assert Min(k, CountGe(a, key, x)) == Min(k, CountGe(b, key, x));
    }
  }

  lemma LikeTransitive<T>(a: seq<T>, b: seq<T>, c: seq<T>, key: T -> real, k: nat)
    requires Like(a, b, key, k) && Like(b, c, key, k)
    ensures Like(a, c, key, k)
  {
    forall x
      ensures Min(k, CountGe(a, key, x)) == Min(k, CountGe(c, key, x))
    {
      assert Min(k, CountGe(a, key, x)) == Min(k, CountGe(b, key, x));
    }
  }

  lemma LikeAppend<T>(a: seq<T>, b: seq<T>, a': seq<T>, b': seq<T>, key: T -> real, k: nat)
    requires Like(a, a', key, k) && Like(b, b', key, k)
    ensures Like(a + b, a' + b', key, k)
  {
    forall x
      ensures Min(k, CountGe(a + b, key, x)) == Min(k, CountGe(a' + b', key, x))
    {
      CountGeAppend(a, b, key, x);
      CountGeAppend(a', b', key, x);
      assert Min(k, CountGe(a, key, x)) == Min(k, CountGe(a', key, x));
      assert Min(k, CountGe(b, key, x)) == Min(k, CountGe(b', key, x));
    }
  }

  lemma {:induction false} LikeConcat<T>(as_: seq<seq<T>>, bs: seq<seq<T>>, key: T -> real, k: nat)
    requires |as_| == |bs| && forall i :: 0 <= i < |as_| ==> Like(as_[i], bs[i], key, k)
    ensures Like(Concat(as_), Concat(bs), key, k)
  {
    if as_ != [] {
      var n := |as_| - 1;
      LikeConcat(as_[..n], bs[..n], key, k);
      LikeAppend(Concat(as_[..n]), as_[n], Concat(bs[..n]), bs[n], key, k);
    }
  }

  /** Descending lists that are alike up to the end of a page show the same scores on it. */
  lemma LikeSamePage<T>(a: seq<T>, b: seq<T>, key: T -> real, k: nat, offset: nat, limit: nat)
    requires Descending(a, key) && Descending(b, key) && Like(a, b, key, k) && offset + limit <= k
    ensures Scores(Page(a, offset, limit), key) == Scores(Page(b, offset, limit), key)
  {
    var n := offset + limit;
    LikeShrinks(a, b, key, k, n);
    SameCountsSamePage(a, key, b, key, n);
    var sa, sb := Scores(a[..Min(n, |a|)], key), Scores(b[..Min(n, |b|)], key);
    assert |sa| == |sb|;
    forall i | 0 <= i < |Page(a, offset, limit)|
      ensures key(Page(a, offset, limit)[i]) == key(Page(b, offset, limit)[i])
    {
      assert sa[offset + i] == sb[offset + i];
    }
  }

  // ---- pages are exact -------------------------------------------------------------------

  /** Segments whose contributions cannot be told from `full` up to k give the same page of scores. */
  lemma LikePageExact<T(!new)>(kept: seq<seq<T>>, full: seq<seq<T>>, key: T -> real, k: nat,
                               page: seq<T>, reference: seq<T>, offset: nat, limit: nat)
    requires |kept| == |full| && forall i :: 0 <= i < |kept| ==> Like(kept[i], full[i], key, k)
    requires ScorePage(page, Concat(kept), key, offset, limit) && ScorePage(reference, Concat(full), key, offset, limit)
    requires offset + limit <= k
    ensures Scores(page, key) == Scores(reference, key)
  {
    hide Like, Concat, IsSorting, Scores;
    var fast :| IsSorting(fast, Concat(kept), key) && page == Page(fast, offset, limit);
    var slow :| IsSorting(slow, Concat(full), key) && reference == Page(slow, offset, limit);
    LikeConcat(kept, full, key, k);
    SortingIsLike(fast, Concat(kept), key, k);
    LikeTransitive(fast, Concat(kept), Concat(full), key, k);
    SortingIsLike(slow, Concat(full), key, k);
    LikeSymmetric(slow, Concat(full), key, k);
    LikeTransitive(fast, Concat(full), slow, key, k);
    SortingDescends(fast, Concat(kept), key);
    SortingDescends(slow, Concat(full), key);
    LikeSamePage(fast, slow, key, k, offset, limit);
  }

  lemma LikeSymmetric<T>(a: seq<T>, b: seq<T>, key: T -> real, k: nat)
    requires Like(a, b, key, k)
    ensures Like(b, a, key, k)
  {
    forall x
      ensures Min(k, CountGe(b, key, x)) == Min(k, CountGe(a, key, x))
    {
      assert Min(k, CountGe(a, key, x)) == Min(k, CountGe(b, key, x));
    }
  }

  /** Segments: each contributes a best-K selection of its candidates.  With K at least
      offset + limit, the page has the scores of the page over all candidates. */
  lemma SegmentPageExact<T(!new)>(kept: seq<seq<T>>, full: seq<seq<T>>, key: T -> real, k: nat,
                                  page: seq<T>, reference: seq<T>, offset: nat, limit: nat)
    requires |kept| == |full| && forall i :: 0 <= i < |kept| ==> IsTop(kept[i], full[i], k, key)
    requires ScorePage(page, Concat(kept), key, offset, limit) && ScorePage(reference, Concat(full), key, offset, limit)
    requires offset + limit <= k
    ensures Scores(page, key) == Scores(reference, key)
  {
    hide *;
    forall i | 0 <= i < |kept|
      ensures Like(kept[i], full[i], key, k)
    {
      TopIsLike(kept[i], full[i], key, k);
    }
    LikePageExact(kept, full, key, k, page, reference, offset, limit);
  }

  lemma SortingDescends<T>(r: seq<T>, s: seq<T>, key: T -> real)
    requires IsSorting(r, s, key)
    ensures Descending(r, key)
  {
  }

  lemma SegmentsLike<T>(kept: seq<seq<T>>, full: seq<seq<T>>, key: T -> real, k: nat, sorted: seq<T>)
    requires |kept| == |full| && forall i :: 0 <= i < |kept| ==> IsTop(kept[i], full[i], k, key)
    requires IsSorting(sorted, Concat(kept), key)
    ensures Like(sorted, Concat(full), key, k)
  {
    forall i | 0 <= i < |kept|
      ensures Like(kept[i], full[i], key, k)
    {
      TopIsLike(kept[i], full[i], key, k);
    }
    LikeConcat(kept, full, key, k);
    SortingIsLike(sorted, Concat(kept), key, k);
    LikeTransitive(sorted, Concat(kept), Concat(full), key, k);
  }

  /** What one shard sends for a scatter limit: the first page of its own sorted hits. */
  ghost predicate ShardAnswer<T(!new)>(hits: seq<T>, full: seq<seq<T>>, key: T -> real, scatter: nat) {
    exists kept, sorted :: ShardWork(hits, full, key, scatter, kept, sorted)
  }

  ghost predicate ShardWork<T>(hits: seq<T>, full: seq<seq<T>>, key: T -> real, scatter: nat, kept: seq<seq<T>>,
                               sorted: seq<T>) {
    && |kept| == |full|
    && (forall i :: 0 <= i < |kept| ==> IsTop(kept[i], full[i], FetchSize(0, scatter), key))
    && IsSorting(sorted, Concat(kept), key)
    && hits == Page(sorted, 0, scatter)
  }

  lemma ShardLike<T(!new)>(hits: seq<T>, full: seq<seq<T>>, key: T -> real, scatter: nat)
    requires ShardAnswer(hits, full, key, scatter)
    ensures Like(hits, Concat(full), key, scatter)
  {
    var kept, sorted :| ShardWork(hits, full, key, scatter, kept, sorted);
    var k := FetchSize(0, scatter);
    SegmentsLike(kept, full, key, k, sorted);
    LikeShrinks(sorted, Concat(full), key, k, scatter);
    CutIsLike(sorted, key, scatter);
    LikeTransitive(hits, sorted, Concat(full), key, scatter);
  }

  /** All candidates of the cluster, shard by shard. */
  function Everything<T>(full: seq<seq<seq<T>>>): (all: seq<seq<T>>)
    ensures |all| == |full|
  {
    seq(|full|, i requires 0 <= i < |full| => Concat(full[i]))
  }

  /** The cluster: shards cut their segments' hits, the router cuts the shards' hits, and still
      every page that ends within the scatter limit has the scores of one global sort. */
  lemma ClusterPageExact<T(!new)>(hits: seq<seq<T>>, full: seq<seq<seq<T>>>, key: T -> real, scatter: nat,
                            page: seq<T>, reference: seq<T>, offset: nat, limit: nat)
    requires |hits| == |full| && forall i :: 0 <= i < |hits| ==> ShardAnswer(hits[i], full[i], key, scatter)
    requires ScorePage(page, Concat(hits), key, offset, limit)
    requires ScorePage(reference, Concat(Everything(full)), key, offset, limit)
    requires offset + limit <= scatter
    ensures Scores(page, key) == Scores(reference, key)
  {
    hide *;
    forall i | 0 <= i < |hits|
      ensures Like(hits[i], Everything(full)[i], key, scatter)
    {
      ShardLike(hits[i], full[i], key, scatter);
      EverythingAt(full, i);
    }
    LikePageExact(hits, Everything(full), key, scatter, page, reference, offset, limit);
  }

  lemma EverythingAt<T>(full: seq<seq<seq<T>>>, i: nat)
    requires i < |full|
    ensures Everything(full)[i] == Concat(full[i])
  {
  }
}
