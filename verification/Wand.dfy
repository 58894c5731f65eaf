/** Block-Max WAND (crates/query/src/wand.rs).

    The reference is `Scan`: offer every document number in turn to a top-k heap, with no
    skipping at all.  `WandTopK` is proved to end with exactly the heap that `Scan` builds, and
    that heap is proved to be a best-k selection of the scored intersection. */
module Wand {
  import opened Base
  import opened Postings
  import Ranking

  /** What a cursor was built from; only its position ever changes. */
  datatype TermList = TermList(postings: seq<Posting>, blocks: seq<PostingBlock>, idf: real, avgdl: real)

  datatype Boosts = Boosts(title: real, desc: real)

  datatype Entry = Entry(score: real, doc: nat)

  function EntryScore(e: Entry): real {
    e.score
  }

  type ScoreFn = nat -> Option<real>

  /** Document numbers are `u32`; the loop computes `pivot + 1`, so the last one is not used. */
  const DOC_LIMIT: nat := 0xFFFF_FFFF

  ghost predicate ValidList(l: TermList) {
    Sorted(l.postings) && forall i :: 0 <= i < |l.postings| ==> l.postings[i].docId < DOC_LIMIT
  }

  ghost predicate ValidLists(ls: seq<TermList>) {
    ls != [] && forall i :: 0 <= i < |ls| ==> ValidList(ls[i])
  }

  /** The AND condition: every list holds document `d`. */
  ghost predicate InAll(ls: seq<TermList>, d: int) {
    forall i :: 0 <= i < |ls| ==> Contains(ls[i].postings, d)
  }

  function BlockBound(l: TermList, b: nat, w: Boosts): real {
    var maxImpact := if b < |l.blocks| then l.blocks[b].maxImpact else 0.0;
    1.5 * l.idf * (w.title * maxImpact + w.desc * (K1 + 1.0))
  }

  /** The scorer's `term_score` at idf 1, times the list's idf. */
  function PostingScore(l: TermList, n: nat): real
    requires n < |l.postings|
  {
    l.idf * ImpactOf(l.postings[n], l.avgdl)
  }

  /** The bound of the block where `d` lives, summed over the lists. */
  function DocBound(ls: seq<TermList>, d: nat, w: Boosts): real {
    if ls == [] then 0.0 else
      DocBound(ls[..|ls| - 1], d, w)
      + BlockBound(ls[|ls| - 1], LowerBound(ls[|ls| - 1].postings, d) / BLOCK_SIZE, w)
  }

  /** What the algorithm needs of its scoring function. */
  ghost predicate Bounded(ls: seq<TermList>, score: ScoreFn, w: Boosts) {
    forall d: nat :: InAll(ls, d) && score(d).Some? ==> 0.0 < score(d).value <= DocBound(ls, d, w)
  }

  // ---- the heap, as a value --------------------------------------------------------------

  /** `BinaryHeap<Reverse<(score_bits, doc_id)>>` kept as a list, the entry that `pop` removes
      last.  Bit patterns of non-negative floats are ordered as the numbers are. */
  predicate Above(a: Entry, b: Entry) {
    a.score > b.score || (a.score == b.score && a.doc > b.doc)
  }

  function Threshold(h: seq<Entry>, k: nat): real {
    if |h| < k || h == [] then 0.0 else h[|h| - 1].score
  }

  function Insert(h: seq<Entry>, e: Entry): (r: seq<Entry>)
    ensures multiset(r) == multiset(h) + multiset{e} && |r| == |h| + 1
  {
    if h == [] || Above(e, h[0]) then [e] + h
    else
      assert h == [h[0]] + h[1..];
      [h[0]] + Insert(h[1..], e)
  }

  lemma {:induction false} InsertDescends(h: seq<Entry>, e: Entry)
    requires Ranking.Descending(h, EntryScore)
    ensures Ranking.Descending(Insert(h, e), EntryScore)
  {
    if h != [] && !Above(e, h[0]) {
      InsertDescends(h[1..], e);
      var t := Insert(h[1..], e);
      forall i | 0 <= i < |t|
        ensures t[i].score <= h[0].score
      {
        assert t[i] in multiset(t);
        assert t[i] == e || t[i] in h[1..];
      }
    }
  }

  /** Push, then drop the smallest entry when there are more than k. */
  function Push(h: seq<Entry>, k: nat, e: Entry): seq<Entry> {
    var g := Insert(h, e);
    if |g| > k then g[..|g| - 1] else g
  }

  /** The guard of the evaluation step, then the push. */
  function Offer(h: seq<Entry>, k: nat, e: Entry): seq<Entry> {
    if e.score > Threshold(h, k) || Threshold(h, k) == 0.0 then Push(h, k, e) else h
  }

  /** The scored intersection below `n`, in document order. */
  ghost function Candidates(ls: seq<TermList>, score: ScoreFn, n: nat): seq<Entry> {
    if n == 0 then [] else
      var c := Candidates(ls, score, n - 1);
      if InAll(ls, n - 1) && score(n - 1).Some? then c + [Entry(score(n - 1).value, n - 1)] else c
  }

  /** The reference: every entry offered in turn, none skipped. */
  function OfferAll(c: seq<Entry>, k: nat): seq<Entry> {
    if c == [] then [] else Offer(OfferAll(c[..|c| - 1], k), k, c[|c| - 1])
  }

  ghost function Scan(ls: seq<TermList>, score: ScoreFn, k: nat, n: nat): seq<Entry> {
    OfferAll(Candidates(ls, score, n), k)
  }

  // ---- the reference keeps a best-k selection --------------------------------------------

  lemma {:induction false} CandidatesBelow(ls: seq<TermList>, score: ScoreFn, n: nat)
    ensures forall e :: e in Candidates(ls, score, n) ==> e.doc < n && InAll(ls, e.doc) && score(e.doc) == Some(e.score)
    ensures forall d: nat :: d < n && InAll(ls, d) && score(d).Some? ==>
              Entry(score(d).value, d) in Candidates(ls, score, n)
  {
    if n > 0 {
      CandidatesBelow(ls, score, n - 1);
    }
  }

  /** Offering one more entry keeps a best-k selection. */
  lemma OfferKeepsTop(h: seq<Entry>, c: seq<Entry>, k: nat, e: Entry)
    requires k > 0 && Ranking.IsTop(h, c, k, EntryScore)
    requires e.score > 0.0 && forall x :: x in c ==> x.score > 0.0
    ensures Ranking.IsTop(Offer(h, k, e), c + [e], k, EntryScore)
  {
    if |h| < k {
      OfferToRoom(h, c, k, e);
    } else {
      LastPositive(h, c);
      if e.score <= h[k - 1].score {
        OfferRejected(h, c, k, e);
      } else {
        OfferEvicts(h, c, k, e);
        OfferIsPush(h, k, e);
      }
    }
  }

  lemma LastPositive(h: seq<Entry>, c: seq<Entry>)
    requires h != [] && multiset(h) <= multiset(c) && forall x :: x in c ==> x.score > 0.0
    ensures h[|h| - 1].score > 0.0
  {
    assert h[|h| - 1] in multiset(h);
    assert h[|h| - 1] in multiset(c);
  }

  lemma OfferIsPush(h: seq<Entry>, k: nat, e: Entry)
    requires |h| == k > 0 && e.score > h[k - 1].score
    ensures Offer(h, k, e) == Insert(h, e)[..k]
  {
  }

  lemma OfferToRoom(h: seq<Entry>, c: seq<Entry>, k: nat, e: Entry)
    requires Ranking.IsTop(h, c, k, EntryScore) && |h| < k
    ensures Ranking.IsTop(Offer(h, k, e), c + [e], k, EntryScore)
  {
    InsertDescends(h, e);
    assert |multiset(h)| == |multiset(c)|;
    SameSize(multiset(h), multiset(c));
  }

  lemma OfferRejected(h: seq<Entry>, c: seq<Entry>, k: nat, e: Entry)
    requires Ranking.IsTop(h, c, k, EntryScore) && |h| == k > 0
    requires e.score <= h[k - 1].score
    ensures Ranking.IsTop(h, c + [e], k, EntryScore)
  {
    forall o | o in multiset(c + [e]) - multiset(h)
      ensures o.score <= h[k - 1].score
    {
      if o != e {
        assert (multiset(c + [e]) - multiset(h))[o] == (multiset(c) - multiset(h))[o];
        assert EntryScore(o) <= EntryScore(h[k - 1]);
      }
    }
  }

  lemma OfferEvicts(h: seq<Entry>, c: seq<Entry>, k: nat, e: Entry)
    requires Ranking.IsTop(h, c, k, EntryScore) && |h| == k > 0
    requires e.score > h[k - 1].score
    ensures Ranking.IsTop(Insert(h, e)[..k], c + [e], k, EntryScore)
  {
    hide *;
    EvictShape(h, c, k, e);
    EvictBelow(h, c, k, e);
    AssembleTop(Insert(h, e)[..k], c + [e], k);
  }

  lemma EvictShape(h: seq<Entry>, c: seq<Entry>, k: nat, e: Entry)
    requires Ranking.IsTop(h, c, k, EntryScore) && |h| == k > 0
    ensures var kept := Insert(h, e)[..k];
            && |kept| == k <= |c + [e]|
            && Ranking.Descending(kept, EntryScore)
            && multiset(kept) <= multiset(c + [e])
  {
    InsertDescends(h, e);
    EvictInside(h, c, k, e);
  }

  lemma AssembleTop(kept: seq<Entry>, all: seq<Entry>, k: nat)
    requires |kept| == k <= |all| && k > 0
    requires Ranking.Descending(kept, EntryScore)
    requires multiset(kept) <= multiset(all)
    requires Ranking.OthersBelow(kept, all, EntryScore, EntryScore(kept[k - 1]))
    ensures Ranking.IsTop(kept, all, k, EntryScore)
  {
  }

  lemma EvictBelow(h: seq<Entry>, c: seq<Entry>, k: nat, e: Entry)
    requires Ranking.IsTop(h, c, k, EntryScore) && |h| == k > 0
    requires e.score > h[k - 1].score
    ensures var kept := Insert(h, e)[..k];
            Ranking.OthersBelow(kept, c + [e], EntryScore, EntryScore(kept[k - 1]))
  {
    var kept := Insert(h, e)[..k];
    forall o | o in multiset(c + [e]) - multiset(kept)
      ensures EntryScore(o) <= EntryScore(kept[k - 1])
    {
      OmittedStaysBelow(h, c, k, e, o);
    }
  }

  lemma EvictInside(h: seq<Entry>, c: seq<Entry>, k: nat, e: Entry)
    requires |h| == k && multiset(h) <= multiset(c)
    ensures var g := Insert(h, e);
            && multiset(g[..k]) == multiset(h) + multiset{e} - multiset{g[k]}
            && multiset(g[..k]) <= multiset(c + [e]) == multiset(c) + multiset{e}
  {
    var g := Insert(h, e);
    assert g == g[..k] + [g[k]];
    StillInside(multiset(h), multiset(c), e, g[k]);
  }

  lemma InsertFloor(h: seq<Entry>, e: Entry)
    requires Ranking.Descending(h, EntryScore) && h != [] && e.score > h[|h| - 1].score
    ensures forall x :: x in Insert(h, e) ==> x.score >= h[|h| - 1].score
  {
    forall x | x in Insert(h, e)
      ensures x.score >= h[|h| - 1].score
    {
      assert x in multiset(Insert(h, e));
      if x != e {
        Ranking.DescendsToLast(h, EntryScore, x);
      }
    }
  }

  lemma OmittedStaysBelow(h: seq<Entry>, c: seq<Entry>, k: nat, e: Entry, o: Entry)
    requires Ranking.IsTop(h, c, k, EntryScore) && |h| == k > 0
    requires e.score > h[k - 1].score
    requires o in multiset(c + [e]) - multiset(Insert(h, e)[..k])
    ensures o.score <= Insert(h, e)[k - 1].score
  {
    var g := Insert(h, e);
    InsertDescends(h, e);
    InsertFloor(h, e);
    EvictInside(h, c, k, e);
    assert EntryScore(g[k - 1]) >= EntryScore(g[k]);
    if o != g[k] {
      StillOmitted(multiset(c), multiset(h), e, g[k], o);
      assert EntryScore(o) <= EntryScore(h[k - 1]);
      assert g[k - 1] in g;
    }
  }

  lemma StillOmitted<T>(m: multiset<T>, h: multiset<T>, e: T, last: T, o: T)
    requires o in m + multiset{e} - (h + multiset{e} - multiset{last}) && o != last
    ensures o in m - h
  {
  }

  lemma StillInside<T>(h: multiset<T>, m: multiset<T>, e: T, last: T)
    requires h <= m
    ensures h + multiset{e} - multiset{last} <= m + multiset{e}
  {
  }

  lemma {:induction false} OfferAllKeepsTop(c: seq<Entry>, k: nat)
    requires k > 0 && forall e :: e in c ==> e.score > 0.0
    ensures Ranking.IsTop(OfferAll(c, k), c, k, EntryScore)
  {
    if c != [] {
      var front := c[..|c| - 1];
      assert c == front + [c[|c| - 1]];
      OfferAllKeepsTop(front, k);
      OfferKeepsTop(OfferAll(front, k), front, k, c[|c| - 1]);
    }
  }

  /** The reference heap is a best-k selection of the scored intersection. */
  lemma ScanKeepsTop(ls: seq<TermList>, score: ScoreFn, k: nat, n: nat)
    requires k > 0 && forall d: nat :: InAll(ls, d) && score(d).Some? ==> score(d).value > 0.0
    ensures Ranking.IsTop(Scan(ls, score, k, n), Candidates(ls, score, n), k, EntryScore)
  {
    CandidatesBelow(ls, score, n);
    OfferAllKeepsTop(Candidates(ls, score, n), k);
  }

  // ---- what may be skipped ---------------------------------------------------------------

  /** Offering document `d` would leave heap `h` as it is. */
  ghost predicate Idle(ls: seq<TermList>, score: ScoreFn, k: nat, h: seq<Entry>, d: nat) {
    InAll(ls, d) && score(d).Some? ==> score(d).value <= Threshold(h, k) && Threshold(h, k) != 0.0
  }

  lemma {:induction false} SkipIdle(ls: seq<TermList>, score: ScoreFn, k: nat, f: nat, g: nat)
    requires f <= g
    requires forall d :: f <= d < g ==> Idle(ls, score, k, Scan(ls, score, k, f), d)
    ensures Scan(ls, score, k, g) == Scan(ls, score, k, f)
    decreases g - f
  {
    if f < g {
      SkipIdle(ls, score, k, f, g - 1);
      assert Idle(ls, score, k, Scan(ls, score, k, f), g - 1);
      var c := Candidates(ls, score, g - 1);
      if InAll(ls, g - 1) && score(g - 1).Some? {
        assert (c + [Entry(score(g - 1).value, g - 1)])[..|c|] == c;
      }
    }
  }

  /** One evaluation step of the reference. */
  lemma ScanStep(ls: seq<TermList>, score: ScoreFn, k: nat, d: nat)
    requires InAll(ls, d)
    ensures var h := Scan(ls, score, k, d);
            Scan(ls, score, k, d + 1) == if score(d).Some? then Offer(h, k, Entry(score(d).value, d)) else h
  {
    var c := Candidates(ls, score, d);
    if score(d).Some? {
      assert (c + [Entry(score(d).value, d)])[..|c|] == c;
    }
  }

  /** No document in [f, pivot) is in a list whose first posting from f on is the pivot's. */
  lemma GapHasNone(ps: seq<Posting>, f: nat, pivot: int, d: int)
    requires Sorted(ps) && f <= d < pivot
    requires LowerBound(ps, f) < |ps| ==> ps[LowerBound(ps, f)].docId >= pivot
    ensures !Contains(ps, d)
  {
    var n := LowerBound(ps, f);
    forall i | 0 <= i < |ps|
      ensures ps[i].docId != d
    {
      if n < i {
        assert ps[n].docId < ps[i].docId;
      }
    }
  }

  lemma LowerBoundMonotone(ps: seq<Posting>, t: int, u: int)
    requires Sorted(ps) && t <= u
    ensures LowerBound(ps, t) <= LowerBound(ps, u)
  {
  }

  /** First position of the block after the one holding position `n`. */
  function NextBlockStart(n: nat): nat {
    (n / BLOCK_SIZE + 1) * BLOCK_SIZE
  }

  /** Block-jump safety, for one list: a document it holds in [p, nd), with nd no later than the
      next block's first document, lies in the block where the cursor stands. */
  lemma JumpStaysInBlock(ps: seq<Posting>, p: nat, nd: int, d: int)
    requires Sorted(ps) && p <= d < nd && Contains(ps, d)
    requires var nb := NextBlockStart(LowerBound(ps, p)); nb < |ps| ==> nd <= ps[nb].docId
    ensures LowerBound(ps, d) / BLOCK_SIZE == LowerBound(ps, p) / BLOCK_SIZE
  {
    LowerBoundMonotone(ps, p, d);
    LowerBoundFinds(ps, d);
    var n, nb := LowerBound(ps, d), NextBlockStart(LowerBound(ps, p));
    if nb < |ps| {
      assert ps[n].docId < ps[nb].docId;
    }
  }

  ghost predicate JumpAllowed(ls: seq<TermList>, p: nat, nd: int) {
    forall i :: 0 <= i < |ls| ==>
      var nb := NextBlockStart(LowerBound(ls[i].postings, p));
      nb < |ls[i].postings| ==> nd <= ls[i].postings[nb].docId
  }

  lemma JumpAllowedSnoc(ls: seq<TermList>, l: TermList, p: nat, nd: int)
    requires JumpAllowed(ls, p, nd)
    requires var nb := NextBlockStart(LowerBound(l.postings, p)); nb < |l.postings| ==> nd <= l.postings[nb].docId
    ensures JumpAllowed(ls + [l], p, nd)
  {
  }

  /** Block-jump safety, for all lists: nothing skipped has a bound other than the pivot's. */
  lemma {:induction false} JumpKeepsBound(ls: seq<TermList>, p: nat, nd: int, d: nat, w: Boosts)
    requires (forall i :: 0 <= i < |ls| ==> ValidList(ls[i])) && p <= d < nd
    requires InAll(ls, d) && JumpAllowed(ls, p, nd)
    ensures DocBound(ls, d, w) == DocBound(ls, p, w)
  {
    if ls != [] {
      var front := ls[..|ls| - 1];
      assert forall i :: 0 <= i < |front| ==> front[i] == ls[i];
      JumpKeepsBound(front, p, nd, d, w);
      JumpStaysInBlock(ls[|ls| - 1].postings, p, nd, d);
    }
  }

  // ---- the four moves of the frontier ----------------------------------------------------

  /** Step 1 to 2: nothing lies between the frontier and the pivot. */
  lemma MoveToPivot(ls: seq<TermList>, score: ScoreFn, k: nat, f: nat, pivot: nat, i: nat)
    requires ValidLists(ls) && i < |ls| && f <= pivot
    requires LowerBound(ls[i].postings, f) < |ls[i].postings| ==>
               ls[i].postings[LowerBound(ls[i].postings, f)].docId >= pivot
    ensures Scan(ls, score, k, pivot) == Scan(ls, score, k, f)
  {
    forall d | f <= d < pivot
      ensures Idle(ls, score, k, Scan(ls, score, k, f), d)
    {
      GapHasNone(ls[i].postings, f, pivot, d);
    }
    SkipIdle(ls, score, k, f, pivot);
  }

  /** Step 4: a block whose summed bound does not beat the threshold holds nothing to keep. */
  lemma MoveByJump(ls: seq<TermList>, score: ScoreFn, k: nat, p: nat, nd: nat, w: Boosts)
    requires ValidLists(ls) && Bounded(ls, score, w) && p <= nd && JumpAllowed(ls, p, nd)
    requires DocBound(ls, p, w) <= Threshold(Scan(ls, score, k, p), k)
    ensures Scan(ls, score, k, nd) == Scan(ls, score, k, p)
  {
    forall d | p <= d < nd
      ensures Idle(ls, score, k, Scan(ls, score, k, p), d)
    {
      if InAll(ls, d) && score(d).Some? {
        JumpKeepsBound(ls, p, nd, d, w);
      }
    }
    SkipIdle(ls, score, k, p, nd);
  }

  lemma {:induction false} ZeroIdfBound(ls: seq<TermList>, d: nat, w: Boosts)
    requires forall i :: 0 <= i < |ls| ==> ls[i].idf == 0.0
    ensures DocBound(ls, d, w) == 0.0
  {
    if ls != [] {
      ZeroIdfBound(ls[..|ls| - 1], d, w);
    }
  }

  // ---- progress --------------------------------------------------------------------------

  /** Postings at or after the frontier, summed over the lists. */
  function Remaining(ls: seq<TermList>, f: nat): nat {
    if ls == [] then 0 else
      Remaining(ls[..|ls| - 1], f) + |ls[|ls| - 1].postings| - LowerBound(ls[|ls| - 1].postings, f)
  }

  lemma {:induction false} RemainingFalls(ls: seq<TermList>, f: nat, g: nat)
    requires (forall i :: 0 <= i < |ls| ==> ValidList(ls[i])) && f <= g
    ensures Remaining(ls, g) <= Remaining(ls, f)
    ensures forall i :: 0 <= i < |ls| && LowerBound(ls[i].postings, f) < LowerBound(ls[i].postings, g)
              ==> Remaining(ls, g) < Remaining(ls, f)
  {
    if ls != [] {
      var front := ls[..|ls| - 1];
      assert forall i :: 0 <= i < |front| ==> front[i] == ls[i];
      RemainingFalls(front, f, g);
      LowerBoundMonotone(ls[|ls| - 1].postings, f, g);
    }
  }
}
