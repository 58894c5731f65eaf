/** What flushes and merges do to the segment list as a whole: contents, counts, and the groups the
    policy picks. */
module Swaps {
  import opened Base
  import opened Documents
  import opened MergePolicy
  import opened SegmentLists
  import opened ShardModel
  import opened ShardSafety
  import opened WriteBuffers

  /** A flushed segment adds exactly the drained documents to what is visible. */
  lemma AddedContents(list: SegList, id: nat, docs: seq<Document>)
    ensures Visible(Added(list, Entry(id, docs, {})).segs) == Visible(list.segs) + docs
  {
    VisibleSnoc(list.segs, Entry(id, docs, {}));
    FreshLive(id, docs, |docs|);
    assert docs[..|docs|] == docs;
  }

  /** Reindexing leaves one segment holding exactly what was visible. */
  lemma ReindexedContents(list: SegList, id: nat, docs: seq<Document>)
    requires docs == Visible(list.segs)
    ensures var segs := Replaced(list, Ids(list.segs), Entry(id, docs, {})).segs;
            |segs| == 1 && Visible(segs) == docs
  {
    var e := Entry(id, docs, {});
    LiveOfWide(list.segs, Ids(list.segs));
    FreshLive(id, docs, |docs|);
    assert docs[..|docs|] == docs && [] + [e] == [e];
    hide LiveUpTo, Mapped;
    VisibleSnoc([], e);
  }

  lemma {:induction false} LiveOfWide(segs: seq<Entry>, group: set<nat>)
    requires Ids(segs) <= group
    ensures LiveOf(segs, group) == Visible(segs) && Without(segs, group) == []
  {
    if segs != [] {
      var front, last := segs[..|segs| - 1], segs[|segs| - 1];
      assert segs == front + [last];
      IdsSnoc(front, last);
      LiveOfWide(front, group);
    }
  }

  /** A group rewritten as one segment. */
  ghost function Merged(list: SegList, group: seq<nat>, id: nat): SegList {
    Replaced(list, Named(group), Entry(id, LiveOf(list.segs, Named(group)), {}))
  }

  /** How many segments there are once the policy has had its turn. */
  function AfterMerge(n: nat): nat {
    if n < MIN_SEGMENTS then n else n - Min(MAX_AT_ONCE, n) + 1
  }

  /** The list once the policy has had its turn, `id` being the next number. */
  ghost function Tidied(list: SegList, id: nat): SegList {
    if |list.segs| < MIN_SEGMENTS then list else Merged(list, Picked(list.segs), id)
  }

  lemma OneMoreSegment(list: SegList, e: Entry)
    ensures |Added(list, e).segs| == |list.segs| + 1
  {
  }

  ghost predicate Unrepeated(group: seq<nat>) {
    forall i, j :: 0 <= i < j < |group| ==> group[i] != group[j]
  }

  lemma PickedFit(segs: seq<Entry>)
    requires DistinctIds(segs)
    ensures Named(Picked(segs)) <= Ids(segs) && Unrepeated(Picked(segs))
  {
    hide Picked;
    PickedIsSmallest(segs);
  }

  lemma NamedFrom(group: seq<nat>)
    ensures group[0..] == group && group[|group|..] == [] && Named([]) == {}
  {
  }

  lemma NamedRest(group: seq<nat>, i: nat)
    requires i < |group| && Unrepeated(group)
    ensures group[i] in Named(group[i..]) && Named(group[i..]) - {group[i]} == Named(group[i + 1..])
  {
    assert group[i..] == [group[i]] + group[i + 1..];
    assert group[i] !in group[i + 1..];
  }

  lemma {:induction false} NamedSize(group: seq<nat>)
    requires Unrepeated(group)
    ensures |Named(group)| == |group|
  {
    if group == [] {
      NamedFrom(group);
    } else {
      NamedRest(group, 0);
      assert group[0..] == group;
      assert Unrepeated(group[1..]);
      NamedSize(group[1..]);
    }
  }

  lemma DistinctSnoc(front: seq<Entry>, last: Entry)
    requires DistinctIds(front + [last])
    ensures DistinctIds(front) && last.id !in Ids(front)
  {
    var all := front + [last];
    assert all[|front|] == last;
    assert forall i :: 0 <= i < |front| ==> all[i] == front[i];
  }

  lemma NoIds(olds: set<nat>)
    ensures Ids([]) == {} && Without([], olds) == []
  {
  }

  lemma {:induction false} WithoutSize(segs: seq<Entry>, olds: set<nat>)
    requires DistinctIds(segs)
    ensures |Without(segs, olds)| == |Ids(segs) - olds|
  {
    hide *;
    if segs == [] {
      NoIds(olds);
    } else {
      var front, last := segs[..|segs| - 1], segs[|segs| - 1];
      assert segs == front + [last];
      DistinctSnoc(front, last);
      WithoutSize(front, olds);
      IdsSnoc(front, last);
      SplitSnoc(front, last, olds);
      var kept := Ids(front) - olds;
      assert Ids(segs) - olds == if last.id in olds then kept else kept + {last.id};
    }
  }

  lemma {:induction false} IdsSize(segs: seq<Entry>)
    requires DistinctIds(segs)
    ensures |Ids(segs)| == |segs|
  {
    WithoutSize(segs, {});
    assert Ids(segs) - {} == Ids(segs);
    WithoutNone(segs);
  }

  lemma {:induction false} WithoutNone(segs: seq<Entry>)
    ensures Without(segs, {}) == segs
  {
    if segs != [] {
      WithoutNone(segs[..|segs| - 1]);
    }
  }

  /** A merge replaces as many segments as it names by one. */
  lemma MergedCount(list: SegList, group: seq<nat>, id: nat)
    requires DistinctIds(list.segs) && Named(group) <= Ids(list.segs) && Unrepeated(group)
    ensures |Merged(list, group, id).segs| == |list.segs| - |group| + 1
  {
    hide Ids, Named, Unrepeated, DistinctIds, LiveOf, Without;
    WithoutSize(list.segs, Named(group));
    IdsSize(list.segs);
    NamedSize(group);
  }

  lemma RemoveOne(dirs: map<nat, Dir>, all: set<nat>, rest: set<nat>, i: nat)
    requires i in rest && rest <= all
    ensures dirs - (all - rest) - {i} == dirs - (all - (rest - {i}))
  {
  }

  lemma SameCounts(a: seq<Document>, b: seq<Document>)
    requires forall d :: d in a || d in b ==> multiset(a)[d] == multiset(b)[d]
    ensures multiset(a) == multiset(b)
  {
    forall d
      ensures multiset(a)[d] == multiset(b)[d]
    {
      assert d in a <==> d in multiset(a);
      assert d in b <==> d in multiset(b);
    }
  }

  lemma CancelFront(a: seq<Document>, b: seq<Document>, c: seq<Document>)
    ensures multiset(a + b) == multiset(a + c) <==> multiset(b) == multiset(c)
  {
    assert multiset(a + b) == multiset(a) + multiset(b);
    assert multiset(a + c) == multiset(a) + multiset(c);
    assert multiset(a + b) - multiset(a) == multiset(b);
    assert multiset(a + c) - multiset(a) == multiset(c);
  }

  /** Flushing leaves what searches see unchanged if and only if no buffered document was marked
      deleted: the drained delete set is dropped, so marked documents come back. */
  lemma FlushKeepsSearchesIff(list: SegList, id: nat, docs: seq<Document>, hidden: set<u64>)
    ensures multiset(Visible(Added(list, Entry(id, docs, {})).segs)) ==
              multiset(Visible(list.segs) + Unhidden(docs, hidden))
            <==> forall d :: d in docs ==> d.id !in hidden
  {
    hide *;
    AddedContents(list, id, docs);
    CancelFront(Visible(list.segs), docs, Unhidden(docs, hidden));
    forall d
      ensures multiset(Unhidden(docs, hidden))[d] == if d.id in hidden then 0 else multiset(docs)[d]
    {
      UnhiddenCounts(docs, hidden, d);
    }
    if forall d :: d in docs ==> d.id !in hidden {
      forall d | d in docs || d in Unhidden(docs, hidden)
        ensures multiset(docs)[d] == multiset(Unhidden(docs, hidden))[d]
      {
        assert d in Unhidden(docs, hidden) ==> d in multiset(Unhidden(docs, hidden));
      }
      SameCounts(docs, Unhidden(docs, hidden));
    } else {
      var d :| d in docs && d.id in hidden;
      assert d in multiset(docs);
    }
  }
}
