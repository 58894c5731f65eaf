/** The mutable half of crates/query/src/wand.rs: cursors, the heap, and the retrieval loop. */
module WandLoop {
  import opened Base
  import opened Postings
  import opened Wand
  import opened WandAccount
  import Ranking

  class TermCursor {
    const list: TermList
    var position: nat

    constructor (pl: PostingList, idf: real, avgdl: real)
      ensures position == 0
      ensures list.postings == pl.postings && list.idf == idf && list.avgdl == avgdl
      ensures if pl.blocks == [] && pl.postings != []
              then BlocksFit(pl.postings, list.blocks, avgdl) else list.blocks == pl.blocks
    {
      var blocks := pl.blocks;
      if pl.blocks == [] && pl.postings != [] {
        blocks := RebuildBlocks(pl.postings, avgdl);
      }
      list := TermList(pl.postings, blocks, idf, avgdl);
      position := 0;
    }

    predicate IsExhausted()
      reads this
    {
      position >= |list.postings|
    }

    function CurrentDocId(): u32
      requires !IsExhausted()
      reads this
    {
      list.postings[position].docId
    }

    /** The score of the current posting alone. */
    function ScoreCurrent(): real
      requires !IsExhausted()
      reads this
    {
      PostingScore(list, position)
    }

    function BlockUpperBound(w: Boosts): real
      reads this
    {
      BlockBound(list, position / BLOCK_SIZE, w)
    }

    /** First document of the next block, if there is a next block. */
    function NextBlockDocId(): Option<u32>
      reads this
    {
      var next := NextBlockStart(position);
      if next < |list.postings| then Some(list.postings[next].docId) else None
    }

    /** To the first posting at or after `target`; a cursor never moves back. */
    method AdvanceTo(target: int)
      requires Sorted(list.postings) && position <= |list.postings|
      modifies this
      ensures position == Max(old(position), LowerBound(list.postings, target))
    {
      var n := PartitionPoint(list.postings, position, (p: Posting) => p.docId < target);
      if n > position {
        assert list.postings[n - 1].docId < target;
        LowerBoundUnique(list.postings, target, n);
      } else if n < |list.postings| {
        assert list.postings[n].docId >= target;
      }
      position := n;
    }
  }

  class TopKHeap {
    const k: nat
    var heap: seq<Entry>

    constructor (k: nat)
      ensures this.k == k && heap == []
    {
      this.k := k;
      heap := [];
    }

    method Add(doc: nat, score: real)
      modifies this
      ensures heap == Push(old(heap), k, Entry(score, doc))
    {
      heap := Insert(heap, Entry(score, doc));
      if |heap| > k {
        heap := heap[..|heap| - 1];
      }
    }

    function CurrentThreshold(): real
      reads this
    {
      Threshold(heap, k)
    }

    method IntoVec() returns (v: seq<Entry>)
      ensures Ranking.IsSorting(v, heap, EntryScore)
    {
      v := Ranking.SortDesc(heap, EntryScore);
    }
  }

  // ---- cursors in step -------------------------------------------------------------------

  ghost predicate Distinct(cs: seq<TermCursor>) {
    forall i, j :: 0 <= i < j < |cs| ==> cs[i] != cs[j]
  }

  function Lists(cs: seq<TermCursor>): (ls: seq<TermList>)
    ensures |ls| == |cs| && forall i :: 0 <= i < |cs| ==> ls[i] == cs[i].list
  {
    seq(|cs|, i requires 0 <= i < |cs| => cs[i].list)
  }

  /** Every cursor stands at its first posting at or after document `f`. */
  ghost predicate AtFrontier(cs: seq<TermCursor>, f: nat)
    reads cs
  {
    forall i :: 0 <= i < |cs| ==> cs[i].position == LowerBound(cs[i].list.postings, f)
  }

  /** Every cursor stands on a posting of document `p`. */
  ghost predicate AllAt(cs: seq<TermCursor>, p: nat)
    reads cs
  {
    forall i :: 0 <= i < |cs| ==> !cs[i].IsExhausted() && cs[i].CurrentDocId() == p
  }

  /** Step 1: the highest current document, unless a cursor has run out. */
  method FindPivot(cs: seq<TermCursor>) returns (done: bool, pivot: u32)
    ensures done <==> exists i :: 0 <= i < |cs| && cs[i].IsExhausted()
    ensures !done ==> forall i :: 0 <= i < |cs| ==> cs[i].CurrentDocId() <= pivot
    ensures !done && cs != [] ==> exists i :: 0 <= i < |cs| && cs[i].CurrentDocId() == pivot
  {
    pivot := 0;
    for j := 0 to |cs|
      invariant forall i :: 0 <= i < j ==> !cs[i].IsExhausted() && cs[i].CurrentDocId() <= pivot
      invariant if j == 0 then pivot == 0 else exists i :: 0 <= i < j && cs[i].CurrentDocId() == pivot
    {
      if cs[j].IsExhausted() {
        return true, pivot;
      }
      pivot := Max(pivot, cs[j].CurrentDocId());
    }
    done := false;
  }

  /** Move every cursor to `target`, stopping early when `watch` is set and one runs out. */
  method AdvanceAll(cs: seq<TermCursor>, target: nat, watch: bool, ghost f: nat) returns (done: bool)
    requires Distinct(cs) && ValidLists(Lists(cs)) && AtFrontier(cs, f) && f <= target
    modifies cs
    ensures !done ==> AtFrontier(cs, target)
    ensures done ==> exists i :: 0 <= i < |cs| && LowerBound(cs[i].list.postings, target) == |cs[i].list.postings|
    ensures watch && !done ==> forall i :: 0 <= i < |cs| ==> !cs[i].IsExhausted()
    ensures !watch ==> !done
  {
    for j := 0 to |cs|
      invariant forall i :: 0 <= i < j ==> cs[i].position == LowerBound(cs[i].list.postings, target)
      invariant forall i :: j <= i < |cs| ==> cs[i].position == LowerBound(cs[i].list.postings, f)
      invariant watch ==> forall i :: 0 <= i < j ==> !cs[i].IsExhausted()
    {
      var c := cs[j];
      assert ValidList(Lists(cs)[j]);
      LowerBoundMonotone(c.list.postings, f, target);
      assert forall i :: 0 <= i < |cs| && i != j ==> cs[i] != c;
      c.AdvanceTo(target);
      if watch && cs[j].IsExhausted() {
        return true;
      }
    }
    done := false;
  }

  /** Step 4: the summed bound of the blocks under the cursors. */
  method TotalBlockBound(cs: seq<TermCursor>, w: Boosts, ghost p: nat) returns (total: real)
    requires AtFrontier(cs, p)
    ensures total == DocBound(Lists(cs), p, w)
  {
    total := 0.0;
    for j := 0 to |cs|
      invariant total == DocBound(Lists(cs)[..j], p, w)
    {
      assert Lists(cs)[..j + 1][..j] == Lists(cs)[..j];
      total := total + cs[j].BlockUpperBound(w);
    }
    assert Lists(cs)[..|cs|] == Lists(cs);
  }

  /** Step 4: the earliest next-block boundary over the cursors. */
  method NextBoundary(cs: seq<TermCursor>, ghost p: nat) returns (next: Option<u32>)
    requires ValidLists(Lists(cs)) && AtFrontier(cs, p)
    requires AllAt(cs, p)
    ensures next.Some? ==> p < next.value < DOC_LIMIT
    ensures forall nd: int :: (next.Some? ==> nd <= next.value) ==> JumpAllowed(Lists(cs), p, nd)
  {
    next := None;
    for j := 0 to |cs|
      invariant next.Some? ==> p < next.value < DOC_LIMIT
      invariant forall nd: int :: (next.Some? ==> nd <= next.value) ==> JumpAllowed(Lists(cs)[..j], p, nd)
    {
      ghost var seen, upTo := Lists(cs)[..j], Lists(cs)[..j + 1];
      assert upTo == seen + [cs[j].list];
      assert ValidList(Lists(cs)[j]);
      var mine := cs[j].NextBlockDocId();
      if mine.Some? {
        assert cs[j].CurrentDocId() < mine.value;
        if next.None? || mine.value < next.value {
          next := mine;
        }
      }
      forall nd: int | next.Some? ==> nd <= next.value
        ensures JumpAllowed(upTo, p, nd)
      {
        JumpAllowedSnoc(seen, cs[j].list, p, nd);
      }
    }
    assert Lists(cs)[..|cs|] == Lists(cs);
  }

  // ---- the loop --------------------------------------------------------------------------

  ghost predicate NoIdf(ls: seq<TermList>) {
    forall i :: 0 <= i < |ls| ==> ls[i].idf == 0.0
  }

  datatype Meeting = Exhausted | Disagree | Agree

  /** Steps 1 to 3: find the pivot, bring every cursor to it, and see whether they agree. */
  method Meet(cs: seq<TermCursor>, ghost score: ScoreFn, ghost k: nat, ghost f: nat)
    returns (outcome: Meeting, pivot: u32)
    requires cs != [] && Distinct(cs) && ValidLists(Lists(cs)) && AtFrontier(cs, f) && f <= DOC_LIMIT
    modifies cs
    ensures outcome == Exhausted ==>
              Scan(Lists(cs), score, k, DOC_LIMIT) == Scan(Lists(cs), score, k, f) && Gap(Lists(cs), f, DOC_LIMIT)
    ensures outcome != Exhausted ==>
              && AtFrontier(cs, pivot) && f <= pivot < DOC_LIMIT
              && Scan(Lists(cs), score, k, pivot) == Scan(Lists(cs), score, k, f) && Gap(Lists(cs), f, pivot)
    ensures outcome == Disagree ==> Remaining(Lists(cs), pivot) < Remaining(Lists(cs), f)
    ensures outcome == Agree ==> Remaining(Lists(cs), pivot) <= Remaining(Lists(cs), f) && InAll(Lists(cs), pivot)
    ensures outcome == Agree ==> AllAt(cs, pivot)
  {
    ghost var ls := Lists(cs);
    var done;
    done, pivot := FindPivot(cs);
    if done {
      ghost var i :| 0 <= i < |cs| && cs[i].IsExhausted();
      MoveToPivot(ls, score, k, f, DOC_LIMIT, i);
      PivotGap(ls, f, DOC_LIMIT, i);
      return Exhausted, pivot;
    }
    PivotAhead(cs, score, k, f, pivot);
    done := AdvanceAll(cs, pivot, true, f);
    if done {
      ghost var i :| 0 <= i < |cs| && LowerBound(cs[i].list.postings, pivot) == |cs[i].list.postings|;
      MoveToPivot(ls, score, k, pivot, DOC_LIMIT, i);
      PivotGap(ls, pivot, DOC_LIMIT, i);
      GapJoin(ls, f, pivot, DOC_LIMIT);
      return Exhausted, pivot;
    }
    if exists i :: 0 <= i < |cs| && cs[i].CurrentDocId() != pivot {
      ghost var i :| 0 <= i < |cs| && cs[i].CurrentDocId() != pivot;
      OvershootFalls(ls, f, pivot, i);
      return Disagree, pivot;
    }
    AgreeMeansAll(cs, pivot);
    outcome := Agree;
  }

  lemma PivotAhead(cs: seq<TermCursor>, score: ScoreFn, k: nat, f: nat, pivot: nat)
    requires ValidLists(Lists(cs)) && AtFrontier(cs, f)
    requires forall i :: 0 <= i < |cs| ==> !cs[i].IsExhausted() && cs[i].CurrentDocId() <= pivot
    requires exists i :: 0 <= i < |cs| && cs[i].CurrentDocId() == pivot
    ensures f <= pivot < DOC_LIMIT
    ensures Scan(Lists(cs), score, k, pivot) == Scan(Lists(cs), score, k, f) && Gap(Lists(cs), f, pivot)
    ensures Remaining(Lists(cs), pivot) <= Remaining(Lists(cs), f)
    ensures forall i :: 0 <= i < |cs| ==> StartsBy(cs[i].list.postings, f, pivot)
  {
    var ls := Lists(cs);
    var top :| 0 <= top < |cs| && cs[top].CurrentDocId() == pivot;
    assert ValidList(ls[top]);
    MoveToPivot(ls, score, k, f, pivot, top);
    PivotGap(ls, f, pivot, top);
    RemainingFalls(ls, f, pivot);
    forall i | 0 <= i < |cs|
      ensures StartsBy(cs[i].list.postings, f, pivot)
    {
      assert cs[i].CurrentDocId() <= pivot;
    }
  }

  /** The first posting from `f` on is no later than `pivot`. */
  predicate StartsBy(ps: seq<Posting>, f: nat, pivot: int) {
    var n := LowerBound(ps, f);
    n < |ps| && ps[n].docId <= pivot
  }

  /** A cursor that had to pass the pivot used up a posting. */
  lemma OvershootFalls(ls: seq<TermList>, f: nat, pivot: nat, i: nat)
    requires ValidLists(ls) && f <= pivot && i < |ls| && StartsBy(ls[i].postings, f, pivot)
    requires var n := LowerBound(ls[i].postings, pivot); n < |ls[i].postings| && ls[i].postings[n].docId != pivot
    ensures Remaining(ls, pivot) < Remaining(ls, f)
  {
    assert ValidList(ls[i]);
    LowerBoundMonotone(ls[i].postings, f, pivot);
    RemainingFalls(ls, f, pivot);
  }

  /** Move every cursor off the document they agree on. */
  method LeaveDocument(cs: seq<TermCursor>, p: nat, target: nat)
    requires cs != [] && Distinct(cs) && ValidLists(Lists(cs)) && AtFrontier(cs, p) && p < target <= DOC_LIMIT
    requires AllAt(cs, p)
    modifies cs
    ensures AtFrontier(cs, target) && Remaining(Lists(cs), target) < Remaining(Lists(cs), p)
  {
    assert ValidList(Lists(cs)[0]);
    RemainingFalls(Lists(cs), p, target);
    PassesPosting(cs[0].list.postings, p, target);
    var done := AdvanceAll(cs, target, false, p);
  }

  /** The heap matches the reference up to the frontier, whenever the bounds can be trusted. */
  ghost predicate Tracks(ls: seq<TermList>, score: ScoreFn, k: nat, w: Boosts, h: seq<Entry>, f: nat) {
    && (Bounded(ls, score, w) ==> h == Scan(ls, score, k, f))
    && (NoIdf(ls) ==> h == [])
  }

  /** Step 4: the block-max filter.  Says where to go on when the blocks can be skipped. */
  method BlockFilter(cs: seq<TermCursor>, w: Boosts, threshold: real, p: nat, ghost h: seq<Entry>, ghost score: ScoreFn,
                     ghost k: nat, ghost evaluated: seq<nat>)
    returns (skip: bool, next: Option<u32>)
    requires cs != [] && ValidLists(Lists(cs)) && AtFrontier(cs, p) && p < DOC_LIMIT
    requires AllAt(cs, p)
    requires threshold == Threshold(h, k) && Tracks(Lists(cs), score, k, w, h, p)
    requires Accounts(Lists(cs), score, k, w, h, evaluated, p)
    ensures skip && next.Some? ==> p < next.value < DOC_LIMIT
    ensures skip ==> var nd := if next.Some? then next.value else DOC_LIMIT;
                     Tracks(Lists(cs), score, k, w, h, nd) && Accounts(Lists(cs), score, k, w, h, evaluated, nd)
    ensures NoIdf(Lists(cs)) ==> skip
    ensures skip <==> DocBound(Lists(cs), p, w) <= threshold
  {
    hide Accounts, InAll, Candidates;
    ghost var ls := Lists(cs);
    var bound := TotalBlockBound(cs, w, p);
    if NoIdf(ls) {
      ZeroIdfBound(ls, p, w);
    }
    skip := bound <= threshold;
    next := None;
    if skip {
      next := NextBoundary(cs, p);
      ghost var nd := if next.Some? then next.value else DOC_LIMIT;
      SkipAccounted(ls, score, k, w, h, evaluated, p, nd);
      if Bounded(ls, score, w) {
        MoveByJump(ls, score, k, p, nd, w);
      }
    }
  }

  /** Step 5: score the document and keep it if it is good enough. */
  method Evaluate(heap: TopKHeap, score: ScoreFn, p: nat, ghost ls: seq<TermList>, ghost w: Boosts,
                  ghost evaluated: seq<nat>)
    requires InAll(ls, p) && !NoIdf(ls) && Tracks(ls, score, heap.k, w, heap.heap, p)
    requires Accounts(ls, score, heap.k, w, heap.heap, evaluated, p)
    modifies heap
    ensures Tracks(ls, score, heap.k, w, heap.heap, p + 1)
    ensures Accounts(ls, score, heap.k, w, heap.heap, evaluated + [p], p + 1)
  {
    hide Accounts, InAll, Candidates;
    CallAccounted(ls, score, heap.k, w, heap.heap, evaluated, p);
    ScanStep(ls, score, heap.k, p);
    var threshold := heap.CurrentThreshold();
    if score(p).Some? {
      var s := score(p).value;
      if s > threshold || heap.CurrentThreshold() == 0.0 {
        heap.Add(p, s);
      }
    }
  }

  /** Steps 4 to 6 for a document all cursors agree on: skip its blocks, or score it and move on.
      `next` is the new frontier; the scoring function is called exactly when the summed bound
      beats the threshold. */
  method Settle(cs: seq<TermCursor>, heap: TopKHeap, w: Boosts, score: ScoreFn, p: nat, ghost before: seq<nat>)
    returns (stop: bool, ghost next: nat, ghost evaluated: seq<nat>)
    requires cs != [] && Distinct(cs) && ValidLists(Lists(cs)) && AtFrontier(cs, p) && p < DOC_LIMIT
    requires AllAt(cs, p)
    requires InAll(Lists(cs), p) && Tracks(Lists(cs), score, heap.k, w, heap.heap, p)
    requires Accounts(Lists(cs), score, heap.k, w, heap.heap, before, p)
    modifies cs, heap
    ensures Tracks(Lists(cs), score, heap.k, w, heap.heap, next)
    ensures Accounts(Lists(cs), score, heap.k, w, heap.heap, evaluated, next)
    ensures evaluated == if DocBound(Lists(cs), p, w) > Threshold(old(heap.heap), heap.k) then before + [p] else before
    ensures stop ==> next == DOC_LIMIT
    ensures !stop ==> p < next <= DOC_LIMIT && AtFrontier(cs, next)
    ensures !stop ==> Remaining(Lists(cs), next) < Remaining(Lists(cs), p)
  {
    hide Tracks, Accounts, InAll, Remaining, AllAt, AtFrontier, ValidLists, Distinct, DocBound, Threshold;
    evaluated := before;
    var skip, boundary := BlockFilter(cs, w, heap.CurrentThreshold(), p, heap.heap, score, heap.k, before);
    if skip && boundary.None? {
      return true, DOC_LIMIT, before;
    }
    var target := if skip then boundary.value else p + 1;
    if !skip {
      Evaluate(heap, score, p, Lists(cs), w, before);
      evaluated := before + [p];
    }
    ghost var kept := heap.heap;
    LeaveDocument(cs, p, target);
    assert heap.heap == kept;
    stop, next := false, target;
  }

  /** The main loop: alternate meeting on a document and settling it. */
  method Retrieve(cs: seq<TermCursor>, heap: TopKHeap, w: Boosts, score: ScoreFn) returns (ghost evaluated: seq<nat>)
    requires cs != [] && Distinct(cs) && ValidLists(Lists(cs)) && AtFrontier(cs, 0) && heap.heap == []
    modifies cs, heap
    ensures Tracks(Lists(cs), score, heap.k, w, heap.heap, DOC_LIMIT)
    ensures Accounts(Lists(cs), score, heap.k, w, heap.heap, evaluated, DOC_LIMIT)
  {
    hide InAll, Remaining, AllAt, ValidLists, Distinct, Accounts, Gap;
    evaluated := [];
    ghost var ls := Lists(cs);
    ghost var f: nat := 0;
    StartsAccounted(ls, score, heap.k, w);
    while true
      invariant AtFrontier(cs, f) && f <= DOC_LIMIT
      invariant Tracks(ls, score, heap.k, w, heap.heap, f)
      invariant Accounts(ls, score, heap.k, w, heap.heap, evaluated, f)
      decreases Remaining(ls, f)
    {
      ghost var kept := heap.heap;
      var outcome, pivot := Meet(cs, score, heap.k, f);
      assert heap.heap == kept;
      if outcome == Exhausted {
        GapAccounted(ls, score, heap.k, w, heap.heap, evaluated, f, DOC_LIMIT);
        f := DOC_LIMIT;
        break;
      }
      GapAccounted(ls, score, heap.k, w, heap.heap, evaluated, f, pivot);
      f := pivot;
      if outcome == Agree {
        var stop;
        stop, f, evaluated := Settle(cs, heap, w, score, pivot, evaluated);
        if stop {
          break;
        }
      }
    }
  }

  /** Conjunctive Block-Max WAND.  `evaluated` are the documents the scoring function was called on.

      Under `Bounded`, the result is exactly what the reference scan keeps.  For any positive score
      it is a best-k selection of what was scored, a document passed over has a summed bound no
      higher than the final threshold, and with positive bounds as many entries come back as there
      are candidates, up to k.  When every cursor's idf is zero the result is empty whatever the
      scoring function says, because a bound of zero never exceeds the initial threshold. */
  method WandTopK(cs: seq<TermCursor>, k: nat, w: Boosts, score: ScoreFn)
    returns (r: seq<Entry>, ghost evaluated: seq<nat>)
    requires Distinct(cs) && (forall i :: 0 <= i < |cs| ==> ValidList(cs[i].list) && cs[i].position == 0)
    modifies cs
    ensures cs == [] || k == 0 ==> r == []
    ensures cs != [] && k > 0 && Bounded(Lists(cs), score, w) ==>
              && Ranking.IsSorting(r, Scan(Lists(cs), score, k, DOC_LIMIT), EntryScore)
              && Ranking.IsTop(r, Candidates(Lists(cs), score, DOC_LIMIT), k, EntryScore)
    ensures cs != [] && k > 0 && Positive(Lists(cs), score) ==>
              Guaranteed(Lists(cs), score, k, w, r, evaluated, DOC_LIMIT)
    ensures NoIdf(Lists(cs)) ==> r == []
    ensures Calls(Lists(cs), evaluated, DOC_LIMIT) && forall e :: e in r ==> e.doc in evaluated
    ensures multiset(r) <= multiset(Candidates(Lists(cs), score, DOC_LIMIT)) && Ranking.Descending(r, EntryScore)
  {
    hide Guaranteed, InAll, Candidates;
    evaluated := [];
    if cs == [] || k == 0 {
      return [], evaluated;
    }
    var heap := new TopKHeap(k);
    evaluated := Retrieve(cs, heap, w, score);
    r := heap.IntoVec();
    KeptWasScored(Lists(cs), score, evaluated, k, r);
    ReturnedWithin(Lists(cs), score, evaluated, k, r, DOC_LIMIT);
    if Bounded(Lists(cs), score, w) {
      ScanKeepsTop(Lists(cs), score, k, DOC_LIMIT);
      Ranking.SortedTopIsTop(r, heap.heap, Candidates(Lists(cs), score, DOC_LIMIT), k, EntryScore);
    }
    if Positive(Lists(cs), score) {
      AccountGuarantees(Lists(cs), score, k, w, heap.heap, evaluated, DOC_LIMIT, r);
    }
  }

  /** Cursors standing on one document put it in every list. */
  lemma AgreeMeansAll(cs: seq<TermCursor>, pivot: nat)
    requires AllAt(cs, pivot)
    ensures InAll(Lists(cs), pivot)
  {
    forall i | 0 <= i < |cs|
      ensures Contains(Lists(cs)[i].postings, pivot)
    {
      assert Lists(cs)[i].postings[cs[i].position].docId == pivot;
    }
  }

  lemma PassesPosting(ps: seq<Posting>, p: nat, q: nat)
    requires Sorted(ps) && p < q && LowerBound(ps, p) < |ps| && ps[LowerBound(ps, p)].docId == p
    ensures LowerBound(ps, p) < LowerBound(ps, q)
  {
    LowerBoundMonotone(ps, p, q);
  }
}
