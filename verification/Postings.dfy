/** Posting lists (crates/index/src/posting.rs): BM25 impact, block headers, and merging. */
module Postings {
  import opened Base

  const BLOCK_SIZE: nat := 64
  const K1: real := 1.2
  const B: real := 0.75

  datatype Posting = Posting(docId: u32, termFreq: u8, docLen: u16)

  datatype PostingBlock = PostingBlock(maxImpact: real)

  datatype PostingList = PostingList(postings: seq<Posting>, blocks: seq<PostingBlock>)

  ghost predicate Sorted(ps: seq<Posting>) {
    forall i, j :: 0 <= i < j < |ps| ==> ps[i].docId < ps[j].docId
  }

  ghost predicate Contains(ps: seq<Posting>, d: int) {
    exists i :: 0 <= i < |ps| && ps[i].docId == d
  }

  /** How many postings at the front lie before document `t`. */
  function LowerBound(ps: seq<Posting>, t: int): (n: nat)
    ensures n <= |ps|
    ensures forall i :: 0 <= i < n ==> ps[i].docId < t
    ensures n < |ps| ==> ps[n].docId >= t
  {
    if ps == [] || ps[0].docId >= t then 0 else
      var n := 1 + LowerBound(ps[1..], t);
      assert forall i :: 1 <= i < n ==> ps[i] == ps[1..][i - 1];
      n
  }

  lemma LowerBoundUnique(ps: seq<Posting>, t: int, n: nat)
    requires Sorted(ps) && n <= |ps|
    requires forall i :: 0 <= i < n ==> ps[i].docId < t
    requires n < |ps| ==> ps[n].docId >= t
    ensures n == LowerBound(ps, t)
  {
  }

  lemma LowerBoundFinds(ps: seq<Posting>, d: int)
    requires Sorted(ps)
    ensures Contains(ps, d) <==> LowerBound(ps, d) < |ps| && ps[LowerBound(ps, d)].docId == d
  {
    var n := LowerBound(ps, d);
    if Contains(ps, d) {
      var i :| 0 <= i < |ps| && ps[i].docId == d;
      LowerBoundUnique(ps, d, i);
    }
  }

  // ---- BM25 impact -----------------------------------------------------------------------

  function Norm(docLen: real, avgdl: real): (n: real)
    requires docLen >= 0.0
    ensures n >= K1 * 0.25
  {
    var a := MaxReal(avgdl, 1.0);
    DivNonNeg(B * docLen, a);
    K1 * (1.0 - B + B * docLen / a)
  }

  /** The source's `bm25_impact`, over the reals. */
  function Impact(termFreq: u8, docLen: u16, avgdl: real): real {
    (termFreq as real) * (K1 + 1.0) / ((termFreq as real) + Norm(docLen as real, avgdl))
  }

  /** BM25 with k1 = 1.2 and b = 0.75: the impact times (tf + k1 (1 - b + b len / avgdl)) is tf (k1 + 1), an
      average length below 1 counting as 1. */
  lemma ImpactIs(termFreq: u8, docLen: u16, avgdl: real)
    ensures var tf, len, avg := termFreq as real, docLen as real, if avgdl >= 1.0 then avgdl else 1.0;
            Impact(termFreq, docLen, avgdl) * (avg * tf + 0.3 * avg + 0.9 * len) == 2.2 * tf * avg
  {
    var tf, len, avg := termFreq as real, docLen as real, MaxReal(avgdl, 1.0);
    var n := Norm(len, avgdl);
    var q := B * len / avg;
    assert q * avg == B * len;
    assert n * avg == 0.3 * avg + 0.9 * len by { Spread(q, avg, len); }
    var i := Impact(termFreq, docLen, avgdl);
    assert i * (tf + n) == tf * 2.2;
    Multiply(i, tf, n, avg);
  }

  lemma Spread(q: real, avg: real, len: real)
    requires q * avg == 0.75 * len
    ensures 1.2 * (0.25 + q) * avg == 0.3 * avg + 0.9 * len
  {
  }

  lemma Multiply(i: real, tf: real, n: real, avg: real)
    requires i * (tf + n) == tf * 2.2
    ensures i * (avg * tf + n * avg) == 2.2 * tf * avg
  {
    assert i * (avg * tf + n * avg) == (i * (tf + n)) * avg;
  }

  lemma DivNonNeg(x: real, y: real)
    requires x >= 0.0 && y > 0.0
    ensures x / y >= 0.0
  {
  }

  lemma DivMono(x: real, x': real, y: real)
    requires x <= x' && y > 0.0
    ensures x / y <= x' / y
  {
    assert x / y * y == x && x' / y * y == x';
    CancelMul(x / y, x' / y, y);
  }

  lemma CancelMul(a: real, b: real, y: real)
    requires a * y <= b * y && y > 0.0
    ensures a <= b
  {
  }

  /** t / (t + n) rises with t and falls with n. */
  lemma SaturationMono(t: real, n: real, t': real, n': real)
    requires 0.0 <= t <= t' && 0.0 < n' <= n
    ensures t / (t + n) <= t' / (t' + n')
  {
    var l, r := t / (t + n), t' / (t' + n');
    assert l * (t + n) == t && r * (t' + n') == t';
    CrossLess(t, n, t', n');
    assert l * ((t + n) * (t' + n')) == t * (t' + n');
    assert r * ((t + n) * (t' + n')) == t' * (t + n);
    CancelMul(l, r, (t + n) * (t' + n'));
  }

  lemma CrossLess(t: real, n: real, t': real, n': real)
    requires 0.0 <= t <= t' && 0.0 < n' <= n
    ensures t * (t' + n') <= t' * (t + n)
  {
    assert t * n' <= t * n <= t' * n;
  }

  /** The impact is below K1 + 1, and positive exactly for a positive frequency. */
  lemma ImpactBounds(termFreq: u8, docLen: u16, avgdl: real)
    ensures 0.0 <= Impact(termFreq, docLen, avgdl) < K1 + 1.0
    ensures termFreq > 0 <==> Impact(termFreq, docLen, avgdl) > 0.0
  {
    var t, n := termFreq as real, Norm(docLen as real, avgdl);
    var r := Impact(termFreq, docLen, avgdl);
    assert r * (t + n) == t * (K1 + 1.0);
    CancelMul(0.0, r, t + n);
    if termFreq > 0 {
      assert r != 0.0;
    }
    var gap := K1 + 1.0 - r;
    assert gap * (t + n) == (K1 + 1.0) * (t + n) - r * (t + n) == 2.2 * n > 0.0;
    CancelMul(0.0, gap, t + n);
  }

  /** More occurrences never lower the impact, and neither does a shorter document. */
  lemma ImpactMonotone(tf: u8, dl: u16, tf': u8, dl': u16, avgdl: real)
    requires tf <= tf' && dl' <= dl
    ensures Impact(tf, dl, avgdl) <= Impact(tf', dl', avgdl)
  {
    var n, n' := Norm(dl as real, avgdl), Norm(dl' as real, avgdl);
    DivMono(B * dl' as real, B * dl as real, MaxReal(avgdl, 1.0));
    var t, t' := tf as real, tf' as real;
    SaturationMono(t, n, t', n');
    assert Impact(tf, dl, avgdl) == (K1 + 1.0) * (t / (t + n));
    assert Impact(tf', dl', avgdl) == (K1 + 1.0) * (t' / (t' + n'));
  }

  // ---- block headers ---------------------------------------------------------------------

  function ImpactOf(p: Posting, avgdl: real): real {
    Impact(p.termFreq, p.docLen, avgdl)
  }

  /** One header per 64 postings, each the exact maximum of its block. */
  ghost predicate BlocksFit(ps: seq<Posting>, blocks: seq<PostingBlock>, avgdl: real) {
    && |blocks| == (|ps| + BLOCK_SIZE - 1) / BLOCK_SIZE
    && (forall i :: 0 <= i < |ps| ==> ImpactOf(ps[i], avgdl) <= blocks[i / BLOCK_SIZE].maxImpact)
    && (forall b :: 0 <= b < |blocks| ==> Attained(ps, b, blocks[b].maxImpact, avgdl))
  }

  ghost predicate Attained(ps: seq<Posting>, b: nat, m: real, avgdl: real) {
    exists i :: 0 <= i < |ps| && i / BLOCK_SIZE == b && ImpactOf(ps[i], avgdl) == m
  }

  method RebuildBlocks(ps: seq<Posting>, avgdl: real) returns (blocks: seq<PostingBlock>)
    ensures BlocksFit(ps, blocks, avgdl)
    ensures |blocks| == (|ps| + 63) / 64
    ensures forall i :: 0 <= i < |ps| ==> Impact(ps[i].termFreq, ps[i].docLen, avgdl) <= blocks[i / 64].maxImpact
  {
    var numBlocks := (|ps| + BLOCK_SIZE - 1) / BLOCK_SIZE;
    blocks := [];
    for b := 0 to numBlocks
      invariant |blocks| == b
      invariant forall i :: 0 <= i < |ps| && i < b * BLOCK_SIZE ==>
                  ImpactOf(ps[i], avgdl) <= blocks[i / BLOCK_SIZE].maxImpact
      invariant forall c :: 0 <= c < b ==> Attained(ps, c, blocks[c].maxImpact, avgdl)
    {
      var start := b * BLOCK_SIZE;
      var end := Min(start + BLOCK_SIZE, |ps|);
      var m := MaxOver(ps, start, end, avgdl);
      assert start < end by { assert b <= numBlocks - 1; }
      var i :| start <= i < end && ImpactOf(ps[i], avgdl) == m;
      assert i / BLOCK_SIZE == b;
      assert Attained(ps, b, m, avgdl);
      blocks := blocks + [PostingBlock(m)];
    }
  }

  /** `fold(0.0, f32::max)` over one block. */
  method MaxOver(ps: seq<Posting>, start: nat, end: nat, avgdl: real) returns (m: real)
    requires start <= end <= |ps|
    ensures forall i :: start <= i < end ==> ImpactOf(ps[i], avgdl) <= m
    ensures start < end ==> exists i :: start <= i < end && ImpactOf(ps[i], avgdl) == m
    ensures start == end ==> m == 0.0
  {
    m := 0.0;
    for i := start to end
      invariant forall j :: start <= j < i ==> ImpactOf(ps[j], avgdl) <= m
      invariant i == start ==> m == 0.0
      invariant start < i ==> exists j :: start <= j < i && ImpactOf(ps[j], avgdl) == m
    {
      ImpactBounds(ps[i].termFreq, ps[i].docLen, avgdl);
      m := MaxReal(m, ImpactOf(ps[i], avgdl));
    }
  }

  // ---- merging ---------------------------------------------------------------------------

  /** Total occurrences that `ps` records for document `d`, with no ceiling. */
  function TfSum(ps: seq<Posting>, d: int): nat {
    if ps == [] then 0 else
      TfSum(ps[..|ps| - 1], d) + if ps[|ps| - 1].docId == d then ps[|ps| - 1].termFreq else 0
  }

  function Flatten(lists: seq<PostingList>): seq<Posting> {
    if lists == [] then [] else Flatten(lists[..|lists| - 1]) + lists[|lists| - 1].postings
  }

  lemma {:induction false} TfSumAppend(a: seq<Posting>, b: seq<Posting>, d: int)
    ensures TfSum(a + b, d) == TfSum(a, d) + TfSum(b, d)
  {
    if b == [] {
      assert a + b == a;
    } else {
      assert (a + b)[..|a + b| - 1] == a + b[..|b| - 1];
      TfSumAppend(a, b[..|b| - 1], d);
    }
  }

  lemma {:induction false} TfSumAbsent(ps: seq<Posting>, d: int)
    requires !Contains(ps, d)
    ensures TfSum(ps, d) == 0
  {
    if ps != [] {
      assert forall i :: 0 <= i < |ps| ==> ps[i].docId != d;
      TfSumAbsent(ps[..|ps| - 1], d);
    }
  }

  ghost predicate ByDoc(ps: seq<Posting>) {
    forall i, j :: 0 <= i < j < |ps| ==> ps[i].docId <= ps[j].docId
  }

  /** The library's `sort_unstable_by_key(|p| p.doc_id)`. */
  method SortByDoc(ps: seq<Posting>) returns (r: seq<Posting>)
    ensures ByDoc(r) && |r| == |ps|
    ensures forall p :: p in r <==> p in ps
    ensures forall d :: TfSum(r, d) == TfSum(ps, d)
  {
    r := [];
    for i := 0 to |ps|
      invariant ByDoc(r) && |r| == i
      invariant forall p :: p in r <==> p in ps[..i]
      invariant forall d :: TfSum(r, d) == TfSum(ps[..i], d)
    {
      var p := ps[i];
      var at := PartitionPoint(r, 0, (q: Posting) => q.docId <= p.docId);
      assert ps[..i + 1] == ps[..i] + [p];
      InsertedAt(r, at, p, ps[..i]);
      r := r[..at] + [p] + r[at..];
    }
    assert ps[..|ps|] == ps;
  }

  lemma InsertedAt(r: seq<Posting>, at: nat, p: Posting, ps: seq<Posting>)
    requires at <= |r| && (forall q :: q in r <==> q in ps) && forall d :: TfSum(r, d) == TfSum(ps, d)
    ensures forall q :: q in r[..at] + [p] + r[at..] <==> q in ps + [p]
    ensures forall d :: TfSum(r[..at] + [p] + r[at..], d) == TfSum(ps + [p], d)
  {
    assert r == r[..at] + r[at..];
    forall d
      ensures TfSum(r[..at] + [p] + r[at..], d) == TfSum(ps + [p], d)
    {
      TfSumAppend(r[..at], r[at..], d);
      TfSumAppend(r[..at] + [p], r[at..], d);
      TfSumAppend(r[..at], [p], d);
      TfSumAppend(ps, [p], d);
    }
    assert forall q :: q in r <==> q in r[..at] || q in r[at..];
  }

  /** What `PostingList::merge` promises: one posting per document of the inputs, with the
      occurrences added up to the ceiling of a byte. */
  ghost predicate IsMerge(m: seq<Posting>, all: seq<Posting>) {
    && Sorted(m)
    && (forall d :: Contains(m, d) <==> Contains(all, d))
    && (forall p :: p in m ==> p.termFreq == Min(255, TfSum(all, p.docId)))
    && (forall p :: p in m ==> LengthFrom(p, all))
  }

  ghost predicate LengthFrom(p: Posting, all: seq<Posting>) {
    exists q :: q in all && q.docId == p.docId && q.docLen == p.docLen
  }

  method Merge(lists: seq<PostingList>) returns (m: PostingList)
    ensures IsMerge(m.postings, Flatten(lists)) && m.blocks == []
  {
    var all: seq<Posting> := [];
    for i := 0 to |lists|
      invariant all == Flatten(lists[..i])
    {
      assert lists[..i + 1][..i] == lists[..i];
      all := all + lists[i].postings;
    }
    assert lists[..|lists|] == lists;
    var sorted := SortByDoc(all);
    var ps := Collapse(sorted);
    CollapsedIsMerge(ps, sorted, all);
    m := PostingList(ps, []);
  }

  /** The merge loop's invariant over the part of the sorted input already read. */
  ghost predicate Collapsed(ps: seq<Posting>, read: seq<Posting>) {
    && IsMerge(ps, read)
    && (ps == [] <==> read == [])
    && (ps != [] ==> ps[|ps| - 1].docId == read[|read| - 1].docId)
  }

  /** One turn of the merge loop: add to the last posting, or start a new one. */
  function Absorb(ps: seq<Posting>, p: Posting): seq<Posting> {
    if ps != [] && ps[|ps| - 1].docId == p.docId then
      var last := ps[|ps| - 1];
      ps[..|ps| - 1] + [last.(termFreq := Min(255, last.termFreq + p.termFreq))]
    else
      ps + [p]
  }

  lemma AbsorbCollapses(ps: seq<Posting>, read: seq<Posting>, p: Posting)
    requires Collapsed(ps, read) && ByDoc(read + [p])
    ensures Collapsed(Absorb(ps, p), read + [p])
  {
    if ps != [] && ps[|ps| - 1].docId == p.docId {
      CollapseSame(ps, read, p);
    } else {
      CollapseNew(ps, read, p);
    }
  }

  function AbsorbAll(sorted: seq<Posting>): seq<Posting> {
    if sorted == [] then [] else Absorb(AbsorbAll(sorted[..|sorted| - 1]), sorted[|sorted| - 1])
  }

  lemma {:induction false} AbsorbAllCollapses(sorted: seq<Posting>)
    requires ByDoc(sorted)
    ensures Collapsed(AbsorbAll(sorted), sorted)
  {
    hide IsMerge, Absorb;
    if sorted != [] {
      var front, p := sorted[..|sorted| - 1], sorted[|sorted| - 1];
      assert sorted == front + [p];
      AbsorbAllCollapses(front);
      AbsorbCollapses(AbsorbAll(front), front, p);
    } else {
      NothingCollapses();
    }
  }

  lemma NothingCollapses()
    ensures Collapsed([], [])
  {
  }

  /** Fold runs of one document into a single posting. */
  method Collapse(sorted: seq<Posting>) returns (ps: seq<Posting>)
    requires ByDoc(sorted)
    ensures IsMerge(ps, sorted)
  {
    ps := [];
    for i := 0 to |sorted|
      invariant ps == AbsorbAll(sorted[..i])
    {
      assert sorted[..i + 1][..i] == sorted[..i];
      ps := Absorb(ps, sorted[i]);
    }
    assert sorted[..|sorted|] == sorted;
    AbsorbAllCollapses(sorted);
  }

  lemma CollapseSame(ps: seq<Posting>, read: seq<Posting>, p: Posting)
    requires Collapsed(ps, read) && ps != [] && ps[|ps| - 1].docId == p.docId
    ensures var last := ps[|ps| - 1];
            Collapsed(ps[..|ps| - 1] + [last.(termFreq := Min(255, last.termFreq + p.termFreq))], read + [p])
  {
    var last := ps[|ps| - 1];
    var upd := last.(termFreq := Min(255, last.termFreq + p.termFreq));
    var ps' := ps[..|ps| - 1] + [upd];
    assert forall i :: 0 <= i < |ps| ==> ps'[i].docId == ps[i].docId;
    SameDocs(ps, ps', read, p);
    forall q | q in ps'
      ensures q.termFreq == Min(255, TfSum(read + [p], q.docId)) && LengthFrom(q, read + [p])
    {
      TfSumAppend(read, [p], q.docId);
      var i :| 0 <= i < |ps'| && ps'[i] == q;
      assert ps[i] in ps && LengthFrom(ps[i], read);
      var r :| r in read && r.docId == ps[i].docId && r.docLen == ps[i].docLen;
      assert r in read + [p];
    }
  }

  lemma SameDocs(ps: seq<Posting>, ps': seq<Posting>, read: seq<Posting>, p: Posting)
    requires |ps| == |ps'| && (forall i :: 0 <= i < |ps| ==> ps'[i].docId == ps[i].docId)
    requires (forall d :: Contains(ps, d) <==> Contains(read, d)) && Contains(ps, p.docId)
    ensures forall d :: Contains(ps', d) <==> Contains(read + [p], d)
  {
    ContainsSnoc(read, p);
    forall d
      ensures Contains(ps', d) <==> Contains(ps, d)
    {
      if Contains(ps', d) {
        var i :| 0 <= i < |ps'| && ps'[i].docId == d;
        assert ps[i].docId == d;
      }
      if Contains(ps, d) {
        var i :| 0 <= i < |ps| && ps[i].docId == d;
        assert ps'[i].docId == d;
      }
    }
  }

  lemma ContainsSnoc(ps: seq<Posting>, p: Posting)
    ensures forall d :: Contains(ps + [p], d) <==> Contains(ps, d) || p.docId == d
  {
    forall d
      ensures Contains(ps + [p], d) <==> Contains(ps, d) || p.docId == d
    {
      if Contains(ps, d) {
        var i :| 0 <= i < |ps| && ps[i].docId == d;
        assert (ps + [p])[i].docId == d;
      }
      if p.docId == d {
        assert (ps + [p])[|ps|].docId == d;
      }
    }
  }

  lemma CollapseNew(ps: seq<Posting>, read: seq<Posting>, p: Posting)
    requires Collapsed(ps, read) && ByDoc(read + [p])
    requires ps == [] || ps[|ps| - 1].docId != p.docId
    ensures Collapsed(ps + [p], read + [p])
  {
    var ps' := ps + [p];
    assert read != [] ==> (read + [p])[|read| - 1].docId <= (read + [p])[|read|].docId;
    assert forall i :: 0 <= i < |ps| ==> ps[i].docId <= ps[|ps| - 1].docId < p.docId;
    assert Sorted(ps');
    ContainsSnoc(ps, p);
    ContainsSnoc(read, p);
    assert !Contains(read, p.docId) by { assert !Contains(ps, p.docId); }
    TfSumAbsent(read, p.docId);
    assert (read + [p])[|read|] == p;
    forall q | q in ps'
      ensures q.termFreq == Min(255, TfSum(read + [p], q.docId)) && LengthFrom(q, read + [p])
    {
      TfSumAppend(read, [p], q.docId);
      if q in ps {
        var r :| r in read && r.docId == q.docId && r.docLen == q.docLen;
        assert r in read + [p];
      }
    }
  }

  lemma CollapsedIsMerge(ps: seq<Posting>, sorted: seq<Posting>, all: seq<Posting>)
    requires IsMerge(ps, sorted)
    requires forall p :: p in sorted <==> p in all
    requires forall d :: TfSum(sorted, d) == TfSum(all, d)
    ensures IsMerge(ps, all)
  {
    forall d
      ensures Contains(sorted, d) <==> Contains(all, d)
    {
      if Contains(sorted, d) {
        var i :| 0 <= i < |sorted| && sorted[i].docId == d;
        assert sorted[i] in all;
      }
      if Contains(all, d) {
        var i :| 0 <= i < |all| && all[i].docId == d;
        assert all[i] in sorted;
      }
    }
    forall p | p in ps
      ensures LengthFrom(p, all)
    {
      assert LengthFrom(p, sorted);
    }
  }
}
