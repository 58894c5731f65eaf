/** What conjunctive Block-Max WAND guarantees for any positive score, bounded or not
    (crates/query/src/wand.rs): it keeps the best of what it scored, and what it skipped lay in
    blocks whose summed bound did not beat the final threshold. */
module WandAccount {
  import opened Base
  import opened Postings
  import opened Wand
  import Ranking

  ghost predicate Ascending(s: seq<nat>) {
    forall i, j :: 0 <= i < j < |s| ==> s[i] < s[j]
  }

  /** The scoring calls so far: strictly increasing members of the intersection, below `f`. */
  ghost predicate Calls(ls: seq<TermList>, evaluated: seq<nat>, f: nat) {
    && Ascending(evaluated)
    && forall d :: d in evaluated ==> d < f && InAll(ls, d)
  }

  lemma CallsSnoc(ls: seq<TermList>, evaluated: seq<nat>, d: nat)
    requires Calls(ls, evaluated, d) && InAll(ls, d)
    ensures Calls(ls, evaluated + [d], d + 1)
  {
    forall i | 0 <= i < |evaluated|
      ensures evaluated[i] < d
    {
      assert evaluated[i] in evaluated;
    }
  }

  lemma CallsLater(ls: seq<TermList>, evaluated: seq<nat>, f: nat, g: nat)
    requires Calls(ls, evaluated, f) && f <= g
    ensures Calls(ls, evaluated, g)
  {
  }

  /** The executor's scoring function answers with a positive score or not at all. */
  ghost predicate Positive(ls: seq<TermList>, score: ScoreFn) {
    forall d: nat :: InAll(ls, d) && score(d).Some? ==> score(d).value > 0.0
  }

  ghost predicate PositiveBounds(ls: seq<TermList>, w: Boosts) {
    forall d: nat :: InAll(ls, d) ==> DocBound(ls, d, w) > 0.0
  }

  /** The entries that calls on these documents yield. */
  function Scored(score: ScoreFn, docs: seq<nat>): seq<Entry> {
    if docs == [] then [] else
      var d := docs[|docs| - 1];
      Scored(score, docs[..|docs| - 1]) + if score(d).Some? then [Entry(score(d).value, d)] else []
  }

  /** No document from f up to g is in every list. */
  ghost predicate Gap(ls: seq<TermList>, f: nat, g: nat) {
    forall d: nat :: f <= d < g ==> !InAll(ls, d)
  }

  /** A document that would have been scored was, or its bound does not beat the threshold. */
  ghost predicate Passed(ls: seq<TermList>, score: ScoreFn, w: Boosts, evaluated: seq<nat>, threshold: real, f: nat) {
    forall d: nat :: d < f && InAll(ls, d) && score(d).Some? && d !in evaluated ==> DocBound(ls, d, w) <= threshold
  }

  /** The heap is what offering the scored entries builds, and nothing was passed over without
      reason. */
  ghost predicate Accounts(ls: seq<TermList>, score: ScoreFn, k: nat, w: Boosts, h: seq<Entry>, evaluated: seq<nat>,
                           f: nat) {
    && h == OfferAll(Scored(score, evaluated), k)
    && Calls(ls, evaluated, f)
    && (k > 0 && Positive(ls, score) ==> Passed(ls, score, w, evaluated, Threshold(h, k), f))
  }

  lemma ScoredSnoc(score: ScoreFn, docs: seq<nat>, d: nat)
    ensures Scored(score, docs + [d]) == Scored(score, docs) + if score(d).Some? then [Entry(score(d).value, d)] else []
  {
    assert (docs + [d])[..|docs|] == docs;
  }

  lemma {:induction false} ScoredAre(ls: seq<TermList>, score: ScoreFn, docs: seq<nat>)
    ensures forall e :: e in Scored(score, docs) ==> e.doc in docs && score(e.doc) == Some(e.score)
  {
    if docs != [] {
      var front, d := docs[..|docs| - 1], docs[|docs| - 1];
      assert docs == front + [d];
      ScoredSnoc(score, front, d);
      ScoredAre(ls, score, front);
    }
  }

  lemma ScoredPositive(ls: seq<TermList>, score: ScoreFn, evaluated: seq<nat>, f: nat)
    requires Positive(ls, score) && Calls(ls, evaluated, f)
    ensures forall e :: e in Scored(score, evaluated) ==> e.score > 0.0
  {
    ScoredAre(ls, score, evaluated);
  }

  lemma OfferedSnoc(c: seq<Entry>, k: nat, e: Entry)
    ensures OfferAll(c + [e], k) == Offer(OfferAll(c, k), k, e)
  {
    assert (c + [e])[..|c|] == c;
  }

  lemma TopParts(h: seq<Entry>, c: seq<Entry>, k: nat)
    requires Ranking.IsTop(h, c, k, EntryScore)
    ensures |h| <= k && Ranking.Descending(h, EntryScore) && multiset(h) <= multiset(c)
  {
    hide Ranking.OthersBelow, Ranking.Descending;
  }

  lemma ThresholdNotNegative(h: seq<Entry>, c: seq<Entry>, k: nat)
    requires multiset(h) <= multiset(c) && forall x :: x in c ==> x.score > 0.0
    ensures Threshold(h, k) >= 0.0
  {
    if h != [] {
      LastPositive(h, c);
    }
  }

  /** A heap with room has no threshold yet. */
  lemma RoomRises(h: seq<Entry>, c: seq<Entry>, k: nat, e: Entry)
    requires |h| < k && Ranking.IsTop(h, c, k, EntryScore) && e.score > 0.0 && forall x :: x in c ==> x.score > 0.0
    ensures Threshold(Offer(h, k, e), k) >= Threshold(h, k)
  {
    assert Threshold(h, k) == 0.0;
    hide *;
    OfferKeepsTop(h, c, k, e);
    TopParts(Offer(h, k, e), c + [e], k);
    ThresholdNotNegative(Offer(h, k, e), c + [e], k);
  }

  lemma FullRises(h: seq<Entry>, c: seq<Entry>, k: nat, e: Entry)
    requires |h| == k > 0 && Ranking.Descending(h, EntryScore) && multiset(h) <= multiset(c)
    requires e.score > 0.0 && forall x :: x in c ==> x.score > 0.0
    ensures Threshold(Offer(h, k, e), k) >= Threshold(h, k)
  {
    hide Ranking.Descending, Insert;
    LastPositive(h, c);
    if e.score > h[k - 1].score {
      hide Offer, Threshold;
      OfferIsPush(h, k, e);
      EvictionRaises(h, k, e);
    }
  }

  /** The threshold never falls. */
  lemma ThresholdRises(h: seq<Entry>, c: seq<Entry>, k: nat, e: Entry)
    requires k > 0 && Ranking.IsTop(h, c, k, EntryScore) && e.score > 0.0 && forall x :: x in c ==> x.score > 0.0
    ensures Threshold(Offer(h, k, e), k) >= Threshold(h, k)
  {
    hide *;
    TopParts(h, c, k);
    if |h| < k {
      RoomRises(h, c, k, e);
    } else {
      FullRises(h, c, k, e);
    }
  }

  lemma EvictionRaises(h: seq<Entry>, k: nat, e: Entry)
    requires |h| == k > 0 && Ranking.Descending(h, EntryScore) && e.score > h[k - 1].score
    ensures Threshold(Insert(h, e)[..k], k) >= Threshold(h, k)
  {
    InsertFloor(h, e);
    hide Insert, Ranking.Descending;
    var g := Insert(h, e);
    assert g[..k][k - 1] == g[k - 1] && g[k - 1] in g;
  }

  // ---- the moves -------------------------------------------------------------------------

  lemma StartsAccounted(ls: seq<TermList>, score: ScoreFn, k: nat, w: Boosts)
    ensures Accounts(ls, score, k, w, [], [], 0)
  {
  }

  /** Nothing lies between the frontier and a list's first posting from there on. */
  lemma PivotGap(ls: seq<TermList>, f: nat, pivot: nat, i: nat)
    requires ValidLists(ls) && i < |ls|
    requires LowerBound(ls[i].postings, f) < |ls[i].postings| ==>
               ls[i].postings[LowerBound(ls[i].postings, f)].docId >= pivot
    ensures Gap(ls, f, pivot)
  {
    forall d: nat | f <= d < pivot
      ensures !InAll(ls, d)
    {
      GapHasNone(ls[i].postings, f, pivot, d);
    }
  }

  lemma GapJoin(ls: seq<TermList>, f: nat, g: nat, h: nat)
    requires Gap(ls, f, g) && Gap(ls, g, h)
    ensures Gap(ls, f, h)
  {
    hide InAll;
  }

  /** Over a gap. */
  lemma GapAccounted(ls: seq<TermList>, score: ScoreFn, k: nat, w: Boosts, h: seq<Entry>, evaluated: seq<nat>,
                     f: nat, g: nat)
    requires Accounts(ls, score, k, w, h, evaluated, f) && Gap(ls, f, g) && f <= g
    ensures Accounts(ls, score, k, w, h, evaluated, g)
  {
    hide InAll, Scored, OfferAll, Threshold;
  }

  /** Over blocks whose bound does not beat the threshold. */
  lemma SkipAccounted(ls: seq<TermList>, score: ScoreFn, k: nat, w: Boosts, h: seq<Entry>, evaluated: seq<nat>,
                      p: nat, nd: nat)
    requires ValidLists(ls) && Accounts(ls, score, k, w, h, evaluated, p) && p <= nd && JumpAllowed(ls, p, nd)
    requires DocBound(ls, p, w) <= Threshold(h, k)
    ensures Accounts(ls, score, k, w, h, evaluated, nd)
  {
    hide InAll, Scored, OfferAll, Threshold, DocBound, JumpAllowed;
    CallsLater(ls, evaluated, p, nd);
    forall d: nat | p <= d < nd && InAll(ls, d)
      ensures DocBound(ls, d, w) <= Threshold(h, k)
    {
      JumpKeepsBound(ls, p, nd, d, w);
    }
  }

  /** Over one scoring call. */
  lemma CallAccounted(ls: seq<TermList>, score: ScoreFn, k: nat, w: Boosts, h: seq<Entry>, evaluated: seq<nat>, p: nat)
    requires Accounts(ls, score, k, w, h, evaluated, p) && InAll(ls, p)
    ensures var h' := if score(p).Some? then Offer(h, k, Entry(score(p).value, p)) else h;
            Accounts(ls, score, k, w, h', evaluated + [p], p + 1)
  {
    hide InAll, OfferAll, Threshold, DocBound, Scored, Offer;
    CallsSnoc(ls, evaluated, p);
    ScoredSnoc(score, evaluated, p);
    if score(p).Some? {
      var c, e := Scored(score, evaluated), Entry(score(p).value, p);
      OfferedSnoc(c, k, e);
      if k > 0 && Positive(ls, score) {
        ScoredPositive(ls, score, evaluated, p);
        OfferAllKeepsTop(c, k);
        ThresholdRises(h, c, k, e);
        StillPassed(ls, score, w, evaluated, Threshold(h, k), Threshold(Offer(h, k, e), k), p);
      }
    } else {
      assert Scored(score, evaluated) + [] == Scored(score, evaluated);
      if k > 0 && Positive(ls, score) {
        StillPassed(ls, score, w, evaluated, Threshold(h, k), Threshold(h, k), p);
      }
    }
  }

  lemma StillPassed(ls: seq<TermList>, score: ScoreFn, w: Boosts, evaluated: seq<nat>, t: real, t': real, p: nat)
    requires Passed(ls, score, w, evaluated, t, p) && t <= t'
    ensures Passed(ls, score, w, evaluated + [p], t', p + 1)
  {
    hide InAll, DocBound;
    forall d: nat | d < p + 1 && InAll(ls, d) && score(d).Some? && d !in evaluated + [p]
      ensures DocBound(ls, d, w) <= t'
    {
      assert d !in evaluated && d != p;
    }
  }

  // ---- what the account says at the end --------------------------------------------------

  lemma CandidatesNext(ls: seq<TermList>, score: ScoreFn, n: nat)
    ensures Candidates(ls, score, n + 1) ==
            Candidates(ls, score, n) + if InAll(ls, n) && score(n).Some? then [Entry(score(n).value, n)] else []
  {
  }

  lemma NothingYet(ls: seq<TermList>, score: ScoreFn, evaluated: seq<nat>)
    requires Calls(ls, evaluated, 0)
    ensures evaluated == [] && Scored(score, evaluated) == [] && Candidates(ls, score, 0) == []
  {
    FirstIsIn(evaluated);
  }

  lemma FirstIsIn(s: seq<nat>)
    ensures s == [] || exists d :: d in s
  {
    if s != [] {
      assert s[0] in s;
    }
  }

  lemma GrowBoth(a: seq<Entry>, b: seq<Entry>, x: seq<Entry>)
    requires multiset(a) <= multiset(b)
    ensures multiset(a + x) <= multiset(b + x)
  {
  }

  lemma GrowOne(a: seq<Entry>, b: seq<Entry>, x: seq<Entry>)
    requires multiset(a) <= multiset(b)
    ensures multiset(a) <= multiset(b + x)
  {
  }

  /** Every document below n that has a score was called. */
  ghost predicate AllCalled(ls: seq<TermList>, score: ScoreFn, evaluated: seq<nat>, n: nat) {
    forall d: nat :: d < n && InAll(ls, d) && score(d).Some? ==> d in evaluated
  }

  lemma AllCalledBefore(ls: seq<TermList>, score: ScoreFn, evaluated: seq<nat>, n: nat)
    requires AllCalled(ls, score, evaluated, n + 1)
    ensures AllCalled(ls, score, evaluated, n)
    ensures n !in evaluated ==> !(InAll(ls, n) && score(n).Some?)
    ensures evaluated != [] && evaluated[|evaluated| - 1] == n ==> AllCalled(ls, score, evaluated[..|evaluated| - 1], n)
  {
    hide InAll;
    if evaluated != [] && evaluated[|evaluated| - 1] == n {
      assert evaluated == evaluated[..|evaluated| - 1] + [n];
    }
  }

  lemma ScoredLast(ls: seq<TermList>, score: ScoreFn, evaluated: seq<nat>, front: seq<nat>, d: nat)
    requires evaluated != [] && evaluated[|evaluated| - 1] == d && front == evaluated[..|evaluated| - 1] && InAll(ls, d)
    ensures Scored(score, evaluated) ==
            Scored(score, front) + if InAll(ls, d) && score(d).Some? then [Entry(score(d).value, d)] else []
  {
  }

  /** The calls yield candidates, each once, and all of them if none was passed over. */
  lemma {:induction false} ScoredWithin(ls: seq<TermList>, score: ScoreFn, evaluated: seq<nat>, n: nat)
    requires Calls(ls, evaluated, n)
    ensures multiset(Scored(score, evaluated)) <= multiset(Candidates(ls, score, n))
    ensures AllCalled(ls, score, evaluated, n) ==> Scored(score, evaluated) == Candidates(ls, score, n)
  {
    hide *;
    if n == 0 {
      NothingYet(ls, score, evaluated);
    } else {
      var before := Candidates(ls, score, n - 1);
      var gain := if InAll(ls, n - 1) && score(n - 1).Some? then [Entry(score(n - 1).value, n - 1)] else [];
      CandidatesNext(ls, score, n - 1);
      if AllCalled(ls, score, evaluated, n) {
        AllCalledBefore(ls, score, evaluated, n - 1);
      }
      if evaluated != [] && evaluated[|evaluated| - 1] == n - 1 {
        var front := evaluated[..|evaluated| - 1];
        CallsFront(ls, evaluated, n);
        ScoredWithin(ls, score, front, n - 1);
        ScoredLast(ls, score, evaluated, front, n - 1);
        GrowBoth(Scored(score, front), before, gain);
      } else {
        CallsEarlier(ls, evaluated, n);
        NotYetCalled(ls, evaluated, n - 1);
        ScoredWithin(ls, score, evaluated, n - 1);
        GrowOne(Scored(score, evaluated), before, gain);
      }
    }
  }

  lemma NotYetCalled(ls: seq<TermList>, evaluated: seq<nat>, n: nat)
    requires Calls(ls, evaluated, n)
    ensures n !in evaluated
  {
  }

  lemma CallsFront(ls: seq<TermList>, evaluated: seq<nat>, n: nat)
    requires Calls(ls, evaluated, n) && evaluated != [] && evaluated[|evaluated| - 1] == n - 1
    ensures Calls(ls, evaluated[..|evaluated| - 1], n - 1) && InAll(ls, n - 1)
    ensures forall d: nat :: d < n - 1 ==> (d in evaluated[..|evaluated| - 1] <==> d in evaluated)
  {
    hide InAll;
    var front := evaluated[..|evaluated| - 1];
    assert evaluated == front + [n - 1];
    assert n - 1 in evaluated;
    forall d | d in front
      ensures d < n - 1 && InAll(ls, d)
    {
      var i :| 0 <= i < |front| && front[i] == d;
      assert evaluated[i] < evaluated[|evaluated| - 1];
      assert d in evaluated;
    }
  }

  lemma CallsEarlier(ls: seq<TermList>, evaluated: seq<nat>, n: nat)
    requires Calls(ls, evaluated, n) && n > 0 && (evaluated == [] || evaluated[|evaluated| - 1] != n - 1)
    ensures Calls(ls, evaluated, n - 1)
  {
    hide InAll;
    forall d | d in evaluated
      ensures d < n - 1
    {
      var i :| 0 <= i < |evaluated| && evaluated[i] == d;
      var last := evaluated[|evaluated| - 1];
      assert last in evaluated;
      assert i < |evaluated| - 1 ==> evaluated[i] < last;
    }
  }

  lemma PushFrom(h: seq<Entry>, k: nat, e: Entry)
    ensures forall x :: x in Offer(h, k, e) ==> x == e || x in h
  {
    var g := Insert(h, e);
    forall x | x in Offer(h, k, e)
      ensures x == e || x in h
    {
      assert x in g ==> x in multiset(g);
    }
  }

  lemma {:induction false} OfferedFrom(c: seq<Entry>, k: nat)
    ensures forall x :: x in OfferAll(c, k) ==> x in c
  {
    if c != [] {
      var front, e := c[..|c| - 1], c[|c| - 1];
      assert c == front + [e];
      OfferedFrom(front, k);
      PushFrom(OfferAll(front, k), k, e);
    }
  }

  lemma OfferKeeps(h: seq<Entry>, k: nat, e: Entry)
    ensures multiset(Offer(h, k, e)) <= multiset(h) + multiset{e}
  {
    var g := Insert(h, e);
    hide Insert;
    assert g == g[..|g| - 1] + [g[|g| - 1]];
  }

  lemma OfferNothing(k: nat)
    ensures OfferAll([], k) == []
  {
  }

  lemma {:induction false} OfferedWithin(c: seq<Entry>, k: nat)
    ensures multiset(OfferAll(c, k)) <= multiset(c)
  {
    hide *;
    if c == [] {
      OfferNothing(k);
    } else {
      var front, e := c[..|c| - 1], c[|c| - 1];
      assert c == front + [e];
      OfferedWithin(front, k);
      OfferedSnoc(front, k, e);
      OfferKeeps(OfferAll(front, k), k, e);
      WithinOne(multiset(OfferAll(c, k)), multiset(OfferAll(front, k)), multiset(front), e);
    }
  }

  lemma WithinOne(a: multiset<Entry>, b: multiset<Entry>, c: multiset<Entry>, e: Entry)
    requires a <= b + multiset{e} && b <= c
    ensures a <= c + multiset{e}
  {
  }

  /** Whatever the scoring function answers, what is returned are candidates, each at most once. */
  lemma ReturnedWithin(ls: seq<TermList>, score: ScoreFn, evaluated: seq<nat>, k: nat, r: seq<Entry>, n: nat)
    requires Calls(ls, evaluated, n) && multiset(r) == multiset(OfferAll(Scored(score, evaluated), k))
    ensures multiset(r) <= multiset(Candidates(ls, score, n))
  {
    hide *;
    OfferedWithin(Scored(score, evaluated), k);
    ScoredWithin(ls, score, evaluated, n);
  }

  /** Every entry returned comes from a call. */
  lemma KeptWasScored(ls: seq<TermList>, score: ScoreFn, evaluated: seq<nat>, k: nat, r: seq<Entry>)
    requires multiset(r) == multiset(OfferAll(Scored(score, evaluated), k))
    ensures forall e :: e in r ==> e.doc in evaluated
  {
    hide Scored, OfferAll;
    OfferedFrom(Scored(score, evaluated), k);
    ScoredAre(ls, score, evaluated);
    forall e | e in r
      ensures e.doc in evaluated
    {
      assert e in multiset(r);
      assert e in OfferAll(Scored(score, evaluated), k);
    }
  }

  /** What the final heap is worth for any positive score. */
  ghost predicate Guaranteed(ls: seq<TermList>, score: ScoreFn, k: nat, w: Boosts, r: seq<Entry>, evaluated: seq<nat>,
                             n: nat) {
    && Ranking.IsTop(r, Scored(score, evaluated), k, EntryScore)
    && multiset(r) <= multiset(Candidates(ls, score, n))
    && Passed(ls, score, w, evaluated, Threshold(r, k), n)
    && (PositiveBounds(ls, w) ==> |r| == Min(k, |Candidates(ls, score, n)|))
  }

  lemma AccountGuarantees(ls: seq<TermList>, score: ScoreFn, k: nat, w: Boosts, h: seq<Entry>, evaluated: seq<nat>,
                          n: nat, r: seq<Entry>)
    requires k > 0 && Positive(ls, score) && Accounts(ls, score, k, w, h, evaluated, n)
    requires Ranking.IsSorting(r, h, EntryScore)
    ensures Guaranteed(ls, score, k, w, r, evaluated, n)
  {
    var c := Scored(score, evaluated);
    ScoredPositive(ls, score, evaluated, n);
    OfferAllKeepsTop(c, k);
    hide InAll, OfferAll, DocBound, Scored, Candidates;
    Ranking.SortedTopIsTop(r, h, c, k, EntryScore);
    SortingKeepsThreshold(r, h, k);
    ScoredWithin(ls, score, evaluated, n);
    if PositiveBounds(ls, w) {
      FilledUp(ls, score, k, w, h, evaluated, n);
    }
  }

  lemma SortingKeepsThreshold(r: seq<Entry>, h: seq<Entry>, k: nat)
    requires Ranking.IsSorting(r, h, EntryScore) && Ranking.Descending(h, EntryScore)
    ensures |r| == |h| && Threshold(r, k) == Threshold(h, k)
  {
    assert |multiset(r)| == |multiset(h)|;
    if r != [] {
      assert r[|r| - 1] in multiset(h);
      assert h[|h| - 1] in multiset(r);
      Ranking.DescendsToLast(h, EntryScore, r[|r| - 1]);
      Ranking.DescendsToLast(r, EntryScore, h[|h| - 1]);
    }
  }

  lemma SubSize<T>(a: multiset<T>, b: multiset<T>)
    requires a <= b
    ensures |a| <= |b|
  {
    assert b == a + (b - a);
  }

  /** Positive bounds keep the filter open until k entries are held. */
  lemma FilledUp(ls: seq<TermList>, score: ScoreFn, k: nat, w: Boosts, h: seq<Entry>, evaluated: seq<nat>, n: nat)
    requires k > 0 && PositiveBounds(ls, w) && Calls(ls, evaluated, n)
    requires Ranking.IsTop(h, Scored(score, evaluated), k, EntryScore)
    requires Passed(ls, score, w, evaluated, Threshold(h, k), n)
    ensures |h| == Min(k, |Candidates(ls, score, n)|)
  {
    hide InAll, DocBound, Scored, Candidates, Calls;
    ScoredWithin(ls, score, evaluated, n);
    var all := Candidates(ls, score, n);
    SubSize(multiset(Scored(score, evaluated)), multiset(all));
    if d: nat :| d < n && InAll(ls, d) && score(d).Some? && d !in evaluated {
      assert DocBound(ls, d, w) <= Threshold(h, k);
    }
  }

  // ---- when bounds are positive ----------------------------------------------------------

  /** A list whose idf and boosts are not negative has bounds that are not; with a positive idf, and
      a positive boost, they are positive. */
  lemma BlockBoundSign(l: TermList, d: nat, w: Boosts)
    requires Sorted(l.postings) && BlocksFit(l.postings, l.blocks, l.avgdl) && Contains(l.postings, d)
    requires (forall p :: p in l.postings ==> p.termFreq > 0)
    requires l.idf >= 0.0 && w.title >= 0.0 && w.desc >= 0.0 && w.title + w.desc > 0.0
    ensures BlockBound(l, LowerBound(l.postings, d) / BLOCK_SIZE, w) >= 0.0
    ensures l.idf > 0.0 ==> BlockBound(l, LowerBound(l.postings, d) / BLOCK_SIZE, w) > 0.0
  {
    hide BlocksFit, Sorted, Contains, LowerBound;
    LowerBoundFinds(l.postings, d);
    var n := LowerBound(l.postings, d);
    HeaderPositive(l, n);
    var m := l.blocks[n / BLOCK_SIZE].maxImpact;
    SumSign(w.title, m, w.desc, K1 + 1.0);
    BoundIsProduct(l, n / BLOCK_SIZE, w, w.title * m + w.desc * (K1 + 1.0));
    hide BlockBound;
    ProductSign(l.idf, w.title * m + w.desc * (K1 + 1.0));
  }

  lemma BoundIsProduct(l: TermList, b: nat, w: Boosts, x: real)
    requires b < |l.blocks| && x == w.title * l.blocks[b].maxImpact + w.desc * (K1 + 1.0)
    ensures BlockBound(l, b, w) == 1.5 * l.idf * x
  {
  }

  lemma HeaderPositive(l: TermList, n: nat)
    requires BlocksFit(l.postings, l.blocks, l.avgdl) && n < |l.postings| && l.postings[n].termFreq > 0
    ensures n / BLOCK_SIZE < |l.blocks| && l.blocks[n / BLOCK_SIZE].maxImpact > 0.0
  {
    var p := l.postings[n];
    ImpactBounds(p.termFreq, p.docLen, l.avgdl);
    assert ImpactOf(p, l.avgdl) <= l.blocks[n / BLOCK_SIZE].maxImpact;
  }

  lemma TimesPositive(a: real, b: real)
    requires a >= 0.0 && b > 0.0
    ensures a * b >= 0.0 && (a > 0.0 ==> a * b > 0.0)
  {
    if a == 0.0 {
      assert a * b == 0.0;
    } else {
      BothPositive(a, b);
    }
  }

  lemma BothPositive(a: real, b: real)
    requires a > 0.0 && b > 0.0
    ensures a * b > 0.0
  {
    var zero := 0.0;
    if b * a <= zero * a {
      CancelMul(b, zero, a);
    }
  }

  lemma SumSign(a: real, m: real, b: real, n: real)
    requires a >= 0.0 && b >= 0.0 && a + b > 0.0 && m > 0.0 && n > 0.0
    ensures a * m + b * n > 0.0
  {
    TimesPositive(a, m);
    TimesPositive(b, n);
  }

  lemma ProductSign(a: real, b: real)
    requires a >= 0.0 && b > 0.0
    ensures 1.5 * a * b >= 0.0 && (a > 0.0 ==> 1.5 * a * b > 0.0)
  {
    TimesPositive(1.5 * a, b);
  }

  /** Lists as the executor builds them. */
  ghost predicate Sound(l: TermList) {
    && Sorted(l.postings) && BlocksFit(l.postings, l.blocks, l.avgdl) && l.idf >= 0.0
    && forall p :: p in l.postings ==> p.termFreq > 0
  }

  lemma {:induction false} DocBoundSign(ls: seq<TermList>, d: nat, w: Boosts)
    requires (forall i :: 0 <= i < |ls| ==> Sound(ls[i])) && InAll(ls, d)
    requires w.title >= 0.0 && w.desc >= 0.0 && w.title + w.desc > 0.0
    ensures DocBound(ls, d, w) >= 0.0
    ensures (exists i :: 0 <= i < |ls| && ls[i].idf > 0.0) ==> DocBound(ls, d, w) > 0.0
  {
    hide Contains, BlocksFit, Sorted, LowerBound, BlockBound;
    if ls != [] {
      var front, l := ls[..|ls| - 1], ls[|ls| - 1];
      assert forall i :: 0 <= i < |front| ==> front[i] == ls[i];
      DocBoundSign(front, d, w);
      BlockBoundSign(l, d, w);
      if i :| 0 <= i < |ls| && ls[i].idf > 0.0 {
        assert i < |front| ==> front[i].idf > 0.0;
      }
    }
  }
}
