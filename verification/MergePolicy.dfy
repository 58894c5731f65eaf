/** Which segments to merge, and what a merge reads (crates/shard/src/merge.rs). */
module MergePolicy {
  import opened Base
  import opened Documents
  import opened Ranking
  import opened SegmentLists

  const MIN_SEGMENTS := 3
  const MAX_AT_ONCE := 10

  /** A segment's place in the list and its document count. */
  datatype Ranked = Ranked(at: nat, count: nat)

  predicate Smaller(a: Ranked, b: Ranked) {
    a.count <= b.count
  }

  /** Smaller, or as small and listed before. */
  predicate Earlier(a: Ranked, b: Ranked) {
    a.count < b.count || (a.count == b.count && a.at < b.at)
  }

  function Places(segs: seq<Entry>): seq<Ranked> {
    seq(|segs|, i requires 0 <= i < |segs| => Ranked(i, |segs[i].docs|))
  }

  /** The segments' places, sorted by document count as the stable `sort_by_key` leaves them. */
  function BySize(segs: seq<Entry>): (r: seq<Ranked>)
    ensures |r| == |segs| && forall i :: 0 <= i < |r| ==> r[i].at < |segs| && r[i] == Places(segs)[r[i].at]
  {
    var r := StableSort(Places(segs), Smaller);
    SortedPlaces(segs, r);
    r
  }

  lemma SortedPlaces(segs: seq<Entry>, r: seq<Ranked>)
    requires multiset(r) == multiset(Places(segs))
    ensures |r| == |segs| && forall i :: 0 <= i < |r| ==> r[i].at < |segs| && r[i] == Places(segs)[r[i].at]
  {
    assert |multiset(r)| == |r| && |multiset(Places(segs))| == |segs|;
    forall i | 0 <= i < |r|
      ensures r[i].at < |segs| && r[i] == Places(segs)[r[i].at]
    {
      assert r[i] in multiset(r);
      assert r[i] in Places(segs);
    }
  }

  /** The ids the policy takes: of the ten smallest segments, ties going to the one listed first. */
  function Picked(segs: seq<Entry>): (group: seq<nat>)
    ensures |group| == Min(MAX_AT_ONCE, |segs|)
  {
    var r := BySize(segs);
    seq(Min(MAX_AT_ONCE, |segs|), i requires 0 <= i < Min(MAX_AT_ONCE, |segs|) => segs[r[i].at].id)
  }

  lemma PickedAre(segs: seq<Entry>)
    ensures forall k :: 0 <= k < |Picked(segs)| ==> Picked(segs)[k] == segs[BySize(segs)[k].at].id
  {
    hide BySize;
  }

  /** The chosen ids are distinct listed segments, as many as the policy takes, and each comes before
      every one left out. */
  ghost predicate PicksSmallest(segs: seq<Entry>, group: seq<nat>) {
    && |group| == Min(MAX_AT_ONCE, |segs|)
    && (forall i, j :: 0 <= i < j < |group| ==> group[i] != group[j])
    && (forall id :: id in group ==> id in Ids(segs))
    && (forall i, j :: 0 <= i < |segs| && 0 <= j < |segs| && segs[i].id in group && segs[j].id !in group ==>
          Earlier(Places(segs)[i], Places(segs)[j]))
  }

  ghost predicate InOrder(r: seq<Ranked>) {
    forall i, j :: 0 <= i < j < |r| ==> Earlier(r[i], r[j])
  }

  lemma InOrderSnoc(front: seq<Ranked>, last: Ranked)
    requires InOrder(front) && forall e :: e in front ==> Earlier(e, last)
    ensures InOrder(front + [last])
  {
    hide Earlier;
    var r := front + [last];
    forall i, j | 0 <= i < j < |r|
      ensures Earlier(r[i], r[j])
    {
      assert r[i] == front[i];
      assert j < |front| ==> r[j] == front[j];
    }
  }

  lemma InOrderFront(front: seq<Ranked>, last: Ranked)
    requires InOrder(front + [last])
    ensures InOrder(front) && forall e :: e in front ==> Earlier(e, last)
  {
    hide Earlier;
    var r := front + [last];
    assert r[|front|] == last;
    forall i | 0 <= i < |front|
      ensures Earlier(front[i], last)
    {
      assert r[i] == front[i];
    }
    forall i, j | 0 <= i < j < |front|
      ensures Earlier(front[i], front[j])
    {
      assert r[i] == front[i] && r[j] == front[j];
    }
  }

  lemma PlacedMembers(r: seq<Ranked>, d: Ranked)
    ensures forall e :: e in Placed(r, d, Smaller) <==> e in r || e == d
  {
    var q := Placed(r, d, Smaller);
    hide Placed;
    forall e
      ensures e in q <==> e in r || e == d
    {
      assert e in q <==> e in multiset(q);
      assert e in r <==> e in multiset(r);
    }
  }

  /** Whatever comes later in the list goes behind its equals. */
  lemma {:induction false} PlacedInOrder(r: seq<Ranked>, d: Ranked)
    requires InOrder(r) && forall e :: e in r ==> e.at < d.at
    ensures InOrder(Placed(r, d, Smaller))
  {
    hide InOrder, Placed;
    if r == [] {
      PlacedLast(r, d, Smaller);
      InOrderSnoc(r, d);
    } else {
      var front, last := r[..|r| - 1], r[|r| - 1];
      assert r == front + [last];
      InOrderFront(front, last);
      if Smaller(last, d) {
        PlacedLast(r, d, Smaller);
        InOrderSnoc(r, d);
      } else {
        PlacedInOrder(front, d);
        PlacedFurther(r, d, Smaller);
        PlacedMembers(front, d);
        InOrderSnoc(Placed(front, d, Smaller), last);
      }
    }
  }

  lemma {:induction false} SortInOrder(rs: seq<Ranked>)
    requires forall i :: 0 <= i < |rs| ==> rs[i].at == i
    ensures InOrder(StableSort(rs, Smaller))
  {
    if rs != [] {
      var front := rs[..|rs| - 1];
      SortInOrder(front);
      forall e | e in StableSort(front, Smaller)
        ensures e.at < |front|
      {
        assert e in multiset(StableSort(front, Smaller));
        assert e in front;
      }
      PlacedInOrder(StableSort(front, Smaller), rs[|rs| - 1]);
    }
  }

  lemma SizesInOrder(segs: seq<Entry>)
    ensures InOrder(BySize(segs))
    ensures forall i :: 0 <= i < |segs| ==> Places(segs)[i] in BySize(segs)
  {
    SortInOrder(Places(segs));
    var r := BySize(segs);
    forall i | 0 <= i < |segs|
      ensures Places(segs)[i] in r
    {
      assert Places(segs)[i] in multiset(Places(segs));
      assert Places(segs)[i] in multiset(r);
    }
  }

  /** What is picked is a smallest group, ties settled by the list. */
  lemma PickedIsSmallest(segs: seq<Entry>)
    requires DistinctIds(segs)
    ensures PicksSmallest(segs, Picked(segs))
  {
    SizesInOrder(segs);
    PickedAre(segs);
    hide BySize, Picked, InOrder, Places;
    PickIs(segs, BySize(segs), Picked(segs));
  }

  lemma PickIs(segs: seq<Entry>, r: seq<Ranked>, group: seq<nat>)
    requires DistinctIds(segs) && |r| == |segs| && |group| == Min(MAX_AT_ONCE, |segs|) && InOrder(r)
    requires forall i :: 0 <= i < |r| ==> r[i].at < |segs| && r[i] == Places(segs)[r[i].at]
    requires forall i :: 0 <= i < |segs| ==> Places(segs)[i] in r
    requires forall k :: 0 <= k < |group| ==> group[k] == segs[r[k].at].id
    ensures PicksSmallest(segs, group)
  {
    forall i, j | 0 <= i < j < |group|
      ensures group[i] != group[j]
    {
      assert Earlier(r[i], r[j]);
      SameSegment(segs, r[i].at, r[j].at);
    }
    forall i, j | 0 <= i < |segs| && 0 <= j < |segs| && segs[i].id in group && segs[j].id !in group
      ensures Earlier(Places(segs)[i], Places(segs)[j])
    {
      var p :| 0 <= p < |group| && group[p] == segs[i].id;
      SameSegment(segs, r[p].at, i);
      assert Places(segs)[j] in r;
      var q :| 0 <= q < |r| && r[q] == Places(segs)[j];
      assert q >= |group|;
      assert Earlier(r[p], r[q]);
    }
  }

  lemma SameSegment(segs: seq<Entry>, a: nat, b: nat)
    requires DistinctIds(segs) && a < |segs| && b < |segs|
    ensures segs[a].id == segs[b].id ==> a == b
  {
  }

  /** At most one group: nothing below three segments, otherwise the smallest ten. */
  method FindMerges(segs: seq<Entry>) returns (groups: seq<seq<nat>>)
    ensures groups == if |segs| < 3 then [] else [Picked(segs)]
    ensures |segs| >= 3 ==> |groups[0]| == Min(10, |segs|)
  {
    if |segs| < MIN_SEGMENTS {
      return [];
    }
    var indexed: seq<Ranked> := [];
    for i := 0 to |segs|
      invariant |indexed| == i && forall k :: 0 <= k < i ==> indexed[k] == Ranked(k, |segs[k].docs|)
    {
      indexed := indexed + [Ranked(i, |segs[i].docs|)];
    }
    assert indexed == Places(segs);
    CountsArePreorder();
    var sorted := StableSortBy(indexed, Smaller);
    assert sorted == BySize(segs);
    PickedAre(segs);
    hide StableSort, BySize, Picked;
    var n := Min(MAX_AT_ONCE, |segs|);
    var group := [];
    for i := 0 to n
      invariant |group| == i && forall k :: 0 <= k < i ==> group[k] == Picked(segs)[k]
    {
      group := group + [segs[sorted[i].at].id];
    }
    assert group == Picked(segs);
    groups := if |group| >= MIN_SEGMENTS then [group] else [];
  }

  lemma CountsArePreorder()
    ensures TotalPreorder(Smaller)
  {
  }

  // ---- when the last segment of a list is picked -----------------------------------------

  /** How many segments have at most n documents. */
  function NoLarger(segs: seq<Entry>, n: nat): (k: nat)
    ensures k <= |segs|
  {
    if segs == [] then 0 else NoLarger(segs[..|segs| - 1], n) + if |segs[|segs| - 1].docs| <= n then 1 else 0
  }

  function Lightness(r: Ranked): real {
    -(r.count as real)
  }

  lemma {:induction false} NoLargerIs(segs: seq<Entry>, d: Ranked)
    ensures NoLarger(segs, d.count) == CountGe(Places(segs), Lightness, Lightness(d))
  {
    if segs != [] {
      var front, last := segs[..|segs| - 1], segs[|segs| - 1];
      NoLargerIs(front, d);
      assert Places(segs) == Places(front) + [Ranked(|front|, |last.docs|)];
      CountGeAppend(Places(front), [Ranked(|front|, |last.docs|)], Lightness, Lightness(d));
    }
  }

  lemma OneMorePlace(segs: seq<Entry>, e: Entry)
    ensures Places(segs + [e]) == Places(segs) + [Ranked(|segs|, |e.docs|)]
    ensures BySize(segs + [e]) == Placed(BySize(segs), Ranked(|segs|, |e.docs|), Smaller)
    ensures InOrder(BySize(segs)) && multiset(BySize(segs)) == multiset(Places(segs))
  {
    var full := segs + [e];
    assert Places(full)[..|segs|] == Places(segs) && Places(full)[|segs|] == Ranked(|segs|, |e.docs|);
    SortInOrder(Places(segs));
  }

  lemma SmallerIs(a: Ranked, d: Ranked)
    ensures Smaller(a, d) <==> Lightness(a) >= Lightness(d)
  {
  }

  lemma LightestFirst(r: seq<Ranked>)
    requires InOrder(r)
    ensures Descending(r, Lightness)
  {
  }

  /** In sorted places, a place goes behind as many as are no larger. */
  lemma PlacedByCount(r: seq<Ranked>, d: Ranked, n: nat)
    requires InOrder(r) && n == CountGe(r, Lightness, Lightness(d))
    ensures n <= |r| && Placed(r, d, Smaller) == r[..n] + [d] + r[n..]
  {
    hide *;
    LightestFirst(r);
    forall i: nat | i < |r|
      ensures Smaller(r[i], d) <==> i < n
    {
      SmallerIs(r[i], d);
      RankByCount(r, Lightness, Lightness(d), i);
    }
    PlacedAt(r, n, d, Smaller);
  }

  lemma SameCount(r: seq<Ranked>, all: seq<Ranked>, x: real)
    requires multiset(r) == multiset(all)
    ensures CountGe(r, Lightness, x) == CountGe(all, Lightness, x)
  {
    hide *;
    CountGeMultiset(r, all, Lightness, x);
  }

  /** One more segment goes behind those no larger, and in front of the others. */
  lemma LastPlaced(segs: seq<Entry>, e: Entry)
    ensures var n := NoLarger(segs, |e.docs|);
            BySize(segs + [e]) == BySize(segs)[..n] + [Ranked(|segs|, |e.docs|)] + BySize(segs)[n..]
  {
    var d := Ranked(|segs|, |e.docs|);
    hide *;
    OneMorePlace(segs, e);
    NoLargerIs(segs, d);
    SameCount(BySize(segs), Places(segs), Lightness(d));
    PlacedByCount(BySize(segs), d, NoLarger(segs, |e.docs|));
  }

  /** It is picked if and only if fewer than ten are no larger; if not, the ten picked are those of
      the list without it. */
  lemma LastPickedIff(segs: seq<Entry>, e: Entry)
    requires e.id !in Ids(segs)
    ensures e.id in Picked(segs + [e]) <==> NoLarger(segs, |e.docs|) < MAX_AT_ONCE
    ensures NoLarger(segs, |e.docs|) >= MAX_AT_ONCE ==> Picked(segs + [e]) == Picked(segs)
  {
    var full, n := segs + [e], NoLarger(segs, |e.docs|);
    LastPlaced(segs, e);
    PickedAre(segs);
    PickedAre(full);
    hide BySize, Picked, NoLarger;
    var r := BySize(full);
    if n < MAX_AT_ONCE {
      assert r[n].at == |segs|;
      assert Picked(full)[n] == e.id;
    } else {
      forall k | 0 <= k < MAX_AT_ONCE
        ensures Picked(full)[k] == Picked(segs)[k] && Picked(full)[k] in Ids(segs)
      {
        assert r[k] == BySize(segs)[k];
        assert full[r[k].at] == segs[r[k].at];
      }
    }
  }

  /** What a merge writes: the live documents of the segments named, segment by segment. */
  method CollectLive(segs: seq<Entry>, group: seq<nat>) returns (docs: seq<Document>)
    ensures docs == LiveOf(segs, Named(group))
  {
    ghost var chosen := Named(group);
    docs := [];
    for i := 0 to |segs|
      invariant docs == LiveOf(segs[..i], chosen)
    {
      assert segs[..i + 1] == segs[..i] + [segs[i]];
      SplitSnoc(segs[..i], segs[i], chosen);
      if segs[i].id in group {
        var live := ReadLive(segs[i]);
        docs := docs + live;
      }
    }
    assert segs[..|segs|] == segs;
  }

  method ReadLive(e: Entry) returns (live: seq<Document>)
    ensures live == LiveDocs(e)
  {
    live := [];
    for slot := 0 to |e.docs|
      invariant live == LiveUpTo(e, slot)
    {
      if e.Live(slot) {
        live := live + [e.docs[slot]];
      }
    }
  }
}
