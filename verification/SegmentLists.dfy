/** The segment list (crates/shard/src/segment_list.rs): open segment readers and the map from
    document id to location, kept in step through add, replace, delete and reopen. */
module SegmentLists {
  import opened Base
  import opened Documents

  /** A segment directory: its documents, whether all its files are in place, and its deletion
      bitmap. */
  datatype Dir = Dir(docs: seq<Document>, complete: bool, dead: set<nat>)

  /** An open segment.  `dead` is the bitmap as it was when the reader was opened. */
  datatype Entry = Entry(id: nat, docs: seq<Document>, dead: set<nat>)
  {
    /** `reader.get_doc(slot)` is Some. */
    predicate Live(slot: int) {
      0 <= slot < |docs| && slot !in dead
    }
  }

  datatype Loc = Loc(seg: nat, slot: nat)

  datatype SegList = SegList(segs: seq<Entry>, locs: map<u64, Loc>)

  /** Map every live document among the first n of an entry to its slot. */
  function Mapped(locs: map<u64, Loc>, e: Entry, n: nat): map<u64, Loc>
    requires n <= |e.docs|
  {
    if n == 0 then locs
    else
      var front := Mapped(locs, e, n - 1);
      if e.Live(n - 1) then front[e.docs[n - 1].id := Loc(e.id, n - 1)] else front
  }

  function Added(sl: SegList, e: Entry): SegList {
    SegList(sl.segs + [e], Mapped(sl.locs, e, |e.docs|))
  }

  function Without(segs: seq<Entry>, olds: set<nat>): seq<Entry> {
    if segs == [] then [] else
      Without(segs[..|segs| - 1], olds) + if segs[|segs| - 1].id in olds then [] else [segs[|segs| - 1]]
  }

  function Unmapped(locs: map<u64, Loc>, olds: set<nat>): map<u64, Loc> {
    map id | id in locs && locs[id].seg !in olds :: locs[id]
  }

  function Replaced(sl: SegList, olds: set<nat>, e: Entry): SegList {
    SegList(Without(sl.segs, olds) + [e], Mapped(Unmapped(sl.locs, olds), e, |e.docs|))
  }

  function Ids(segs: seq<Entry>): set<nat> {
    set i | 0 <= i < |segs| :: segs[i].id
  }

  function Named(group: seq<nat>): set<nat> {
    set id | id in group
  }

  /** The documents a reader returns, in slot order, among the first n. */
  function LiveUpTo(e: Entry, n: nat): (r: seq<Document>)
    requires n <= |e.docs|
  {
    if n == 0 then [] else LiveUpTo(e, n - 1) + if e.Live(n - 1) then [e.docs[n - 1]] else []
  }

  function LiveDocs(e: Entry): seq<Document> {
    LiveUpTo(e, |e.docs|)
  }

  /** The live documents of the segments named in `group`, in list order. */
  function LiveOf(segs: seq<Entry>, group: set<nat>): seq<Document> {
    if segs == [] then [] else
      LiveOf(segs[..|segs| - 1], group) + if segs[|segs| - 1].id in group then LiveDocs(segs[|segs| - 1]) else []
  }

  /** What a search over the open readers can see. */
  function Visible(segs: seq<Entry>): seq<Document> {
    if segs == [] then [] else Visible(segs[..|segs| - 1]) + LiveDocs(segs[|segs| - 1])
  }

  /** The first segment with this id. */
  function Find(segs: seq<Entry>, id: nat): Option<Entry> {
    if segs == [] then None else if segs[0].id == id then Some(segs[0]) else Find(segs[1..], id)
  }

  function GetDoc(sl: SegList, id: u64): Option<Document> {
    if id !in sl.locs then None
    else
      match Find(sl.segs, sl.locs[id].seg)
      case None => None
      case Some(e) => if e.Live(sl.locs[id].slot) then Some(e.docs[sl.locs[id].slot]) else None
  }

  // ---- the truth of the map --------------------------------------------------------------

  ghost predicate DistinctIds(segs: seq<Entry>) {
    forall i, j :: 0 <= i < j < |segs| ==> segs[i].id != segs[j].id
  }

  /** A location names a listed segment and a live slot of it holding a document with that id. */
  ghost predicate Points(segs: seq<Entry>, loc: Loc, id: u64) {
    exists i :: 0 <= i < |segs| && segs[i].id == loc.seg && segs[i].Live(loc.slot) && segs[i].docs[loc.slot].id == id
  }

  ghost predicate LocsTrue(sl: SegList) {
    forall id :: id in sl.locs ==> Points(sl.segs, sl.locs[id], id)
  }

  /** Every id outside `deleted` that a reader still shows is in the map. */
  ghost predicate LocsFull(sl: SegList, deleted: set<u64>) {
    forall i, slot :: 0 <= i < |sl.segs| && sl.segs[i].Live(slot) && sl.segs[i].docs[slot].id !in deleted ==>
      sl.segs[i].docs[slot].id in sl.locs
  }

  ghost predicate MapTrue(sl: SegList, deleted: set<u64>) {
    DistinctIds(sl.segs) && LocsTrue(sl) && LocsFull(sl, deleted)
  }

  lemma {:induction false} MappedIs(locs: map<u64, Loc>, e: Entry, n: nat)
    requires n <= |e.docs|
    ensures var m := Mapped(locs, e, n);
            && (forall id :: id in locs ==> id in m)
            && (forall slot :: slot < n && e.Live(slot) ==> e.docs[slot].id in m)
            && (forall id :: id in m ==>
                  || (id in locs && m[id] == locs[id])
                  || (m[id].seg == e.id && e.Live(m[id].slot) && e.docs[m[id].slot].id == id))
  {
    if n > 0 {
      MappedIs(locs, e, n - 1);
    }
  }

  lemma PointsKept(segs: seq<Entry>, segs': seq<Entry>, loc: Loc, id: u64)
    requires Points(segs, loc, id)
    requires forall i :: 0 <= i < |segs| && segs[i].id == loc.seg ==> segs[i] in segs'
    ensures Points(segs', loc, id)
  {
    var i :| 0 <= i < |segs| && segs[i].id == loc.seg && segs[i].Live(loc.slot) && segs[i].docs[loc.slot].id == id;
    var j :| 0 <= j < |segs'| && segs'[j] == segs[i];
  }

  /** Adding a segment under a new id keeps the map truthful. */
  lemma AddKeepsTrue(sl: SegList, e: Entry, deleted: set<u64>)
    requires MapTrue(sl, deleted) && e.id !in Ids(sl.segs)
    ensures MapTrue(Added(sl, e), deleted)
  {
    var sl' := Added(sl, e);
    MappedIs(sl.locs, e, |e.docs|);
    forall i | 0 <= i < |sl.segs|
      ensures sl'.segs[i] == sl.segs[i] && sl.segs[i].id != e.id
    {
      assert sl.segs[i].id in Ids(sl.segs);
    }
    assert sl'.segs[|sl.segs|] == e;
    forall id | id in sl'.locs
      ensures Points(sl'.segs, sl'.locs[id], id)
    {
      if id in sl.locs && sl'.locs[id] == sl.locs[id] {
        PointsKept(sl.segs, sl'.segs, sl.locs[id], id);
      }
    }
    forall i, slot | 0 <= i < |sl'.segs| && sl'.segs[i].Live(slot) && sl'.segs[i].docs[slot].id !in deleted
      ensures sl'.segs[i].docs[slot].id in sl'.locs
    {
      if i < |sl.segs| {
        assert sl.segs[i].docs[slot].id in sl.locs;
      }
    }
  }

  lemma {:induction false} WithoutIs(segs: seq<Entry>, olds: set<nat>)
    ensures forall e :: e in Without(segs, olds) <==> e in segs && e.id !in olds
    ensures DistinctIds(segs) ==> DistinctIds(Without(segs, olds))
  {
    if segs != [] {
      var front, last := segs[..|segs| - 1], segs[|segs| - 1];
      assert segs == front + [last];
      WithoutIs(front, olds);
      if DistinctIds(segs) {
        forall i | 0 <= i < |Without(front, olds)|
          ensures Without(front, olds)[i].id != last.id
        {
          assert Without(front, olds)[i] in front;
          var k :| 0 <= k < |front| && front[k] == Without(front, olds)[i];
          assert segs[k] == front[k];
        }
      }
    }
  }

  /** The new segment shows, under its id, every document the replaced ones show. */
  ghost predicate Inherits(e: Entry, segs: seq<Entry>, olds: set<nat>) {
    forall i, slot :: 0 <= i < |segs| && segs[i].id in olds && segs[i].Live(slot) ==> Shows(e, segs[i].docs[slot])
  }

  ghost predicate Shows(e: Entry, d: Document) {
    exists slot :: e.Live(slot) && e.docs[slot] == d
  }

  ghost predicate Listed(segs: seq<Entry>, d: Document) {
    exists i :: 0 <= i < |segs| && Shows(segs[i], d)
  }

  /** Replacing segments by one that inherits their documents keeps the map truthful. */
  lemma ReplaceKeepsTrue(sl: SegList, olds: set<nat>, e: Entry, deleted: set<u64>)
    requires MapTrue(sl, deleted) && e.id !in Ids(sl.segs) && Inherits(e, sl.segs, olds)
    ensures MapTrue(Replaced(sl, olds, e), deleted)
  {
    var mid := SegList(Without(sl.segs, olds), Unmapped(sl.locs, olds));
    WithoutIs(sl.segs, olds);
    forall id | id in mid.locs
      ensures Points(mid.segs, mid.locs[id], id)
    {
      PointsKept(sl.segs, mid.segs, sl.locs[id], id);
    }
    MappedIs(mid.locs, e, |e.docs|);
    ReplacedDistinct(sl, olds, e);
    ReplacedTrue(mid, e);
    ReplacedFull(sl, olds, e, deleted);
  }

  lemma ReplacedDistinct(sl: SegList, olds: set<nat>, e: Entry)
    requires DistinctIds(sl.segs) && e.id !in Ids(sl.segs)
    ensures DistinctIds(Without(sl.segs, olds) + [e])
  {
    WithoutIs(sl.segs, olds);
    forall i | 0 <= i < |Without(sl.segs, olds)|
      ensures Without(sl.segs, olds)[i].id != e.id
    {
      assert Without(sl.segs, olds)[i] in sl.segs;
      var k :| 0 <= k < |sl.segs| && sl.segs[k] == Without(sl.segs, olds)[i];
      assert sl.segs[k].id in Ids(sl.segs);
    }
  }

  lemma ReplacedTrue(mid: SegList, e: Entry)
    requires LocsTrue(mid)
    ensures LocsTrue(Added(mid, e))
  {
    MappedIs(mid.locs, e, |e.docs|);
    var sl' := Added(mid, e);
    assert sl'.segs[|mid.segs|] == e;
    forall id | id in sl'.locs
      ensures Points(sl'.segs, sl'.locs[id], id)
    {
      if id in mid.locs && sl'.locs[id] == mid.locs[id] {
        PointsKept(mid.segs, sl'.segs, mid.locs[id], id);
      }
    }
  }

  lemma ReplacedFull(sl: SegList, olds: set<nat>, e: Entry, deleted: set<u64>)
    requires MapTrue(sl, deleted) && Inherits(e, sl.segs, olds)
    ensures LocsFull(Replaced(sl, olds, e), deleted)
  {
    var sl' := Replaced(sl, olds, e);
    WithoutIs(sl.segs, olds);
    MappedIs(Unmapped(sl.locs, olds), e, |e.docs|);
    forall i, slot | 0 <= i < |sl'.segs| && sl'.segs[i].Live(slot) && sl'.segs[i].docs[slot].id !in deleted
      ensures sl'.segs[i].docs[slot].id in sl'.locs
    {
      if i < |sl'.segs| - 1 {
        assert sl'.segs[i] in Without(sl.segs, olds);
        var k :| 0 <= k < |sl.segs| && sl.segs[k] == sl'.segs[i];
        var id := sl.segs[k].docs[slot].id;
        assert id in sl.locs;
        if sl.locs[id].seg in olds {
          InheritedId(sl, olds, e, id);
        }
      }
    }
  }

  lemma InheritedId(sl: SegList, olds: set<nat>, e: Entry, id: u64)
    requires LocsTrue(sl) && Inherits(e, sl.segs, olds) && id in sl.locs && sl.locs[id].seg in olds
    ensures exists slot :: e.Live(slot) && e.docs[slot].id == id
  {
    var loc := sl.locs[id];
    var i :| 0 <= i < |sl.segs| && sl.segs[i].id == loc.seg && sl.segs[i].Live(loc.slot)
             && sl.segs[i].docs[loc.slot].id == id;
    assert Shows(e, sl.segs[i].docs[loc.slot]);
    var slot :| e.Live(slot) && e.docs[slot] == sl.segs[i].docs[loc.slot];
  }

  /** Deleting an id takes it out of the map; nothing else is owed about deleted ids. */
  lemma DeleteKeepsTrue(sl: SegList, deleted: set<u64>, id: u64)
    requires MapTrue(sl, deleted)
    ensures MapTrue(SegList(sl.segs, sl.locs - {id}), deleted + {id})
  {
  }

  lemma {:induction false} FindIs(segs: seq<Entry>, i: nat)
    requires DistinctIds(segs) && i < |segs|
    ensures Find(segs, segs[i].id) == Some(segs[i])
  {
    if i > 0 {
      FindIs(segs[1..], i - 1);
    }
  }

  /** Under a truthful map a lookup succeeds exactly on the mapped ids, with a document of that id
      that some open reader shows. */
  lemma GetDocIsTrue(sl: SegList, id: u64)
    requires DistinctIds(sl.segs) && LocsTrue(sl)
    ensures GetDoc(sl, id).Some? <==> id in sl.locs
    ensures id in sl.locs ==> GetDoc(sl, id).value.id == id && Listed(sl.segs, GetDoc(sl, id).value)
  {
    hide Find;
    if id in sl.locs {
      var loc := sl.locs[id];
      assert Points(sl.segs, loc, id);
      var i :| 0 <= i < |sl.segs| && sl.segs[i].id == loc.seg && sl.segs[i].Live(loc.slot)
               && sl.segs[i].docs[loc.slot].id == id;
      FindIs(sl.segs, i);
      assert Shows(sl.segs[i], sl.segs[i].docs[loc.slot]);
    }
  }

  // ---- live documents --------------------------------------------------------------------

  lemma {:induction false} LiveUpToIs(e: Entry, n: nat, d: Document)
    requires n <= |e.docs|
    ensures d in LiveUpTo(e, n) <==> exists slot :: slot < n && e.Live(slot) && e.docs[slot] == d
  {
    if n > 0 {
      LiveUpToIs(e, n - 1, d);
    }
  }

  /** Each slot's document, if it is live. */
  function Slots(e: Entry, n: nat): seq<Option<Document>>
    requires n <= |e.docs|
  {
    seq(n, slot requires 0 <= slot < n => if e.Live(slot) then Some(e.docs[slot]) else None)
  }

  /** A reader returns the live documents, each once, in slot order. */
  lemma {:induction false} LiveInOrder(e: Entry, n: nat)
    requires n <= |e.docs|
    ensures LiveUpTo(e, n) == Answers(Slots(e, n))
  {
    if n > 0 {
      LiveInOrder(e, n - 1);
      assert Slots(e, n)[..n - 1] == Slots(e, n - 1);
    }
  }

  lemma LiveDocsAre(e: Entry, d: Document)
    ensures d in LiveDocs(e) <==> Shows(e, d)
  {
    LiveUpToIs(e, |e.docs|, d);
  }

  ghost predicate GroupShows(segs: seq<Entry>, group: set<nat>, d: Document) {
    exists i :: 0 <= i < |segs| && segs[i].id in group && Shows(segs[i], d)
  }

  lemma GroupShowsSnoc(segs: seq<Entry>, e: Entry, group: set<nat>, d: Document)
    ensures GroupShows(segs + [e], group, d) <==> GroupShows(segs, group, d) || (e.id in group && Shows(e, d))
  {
    hide Shows;
    var all := segs + [e];
    assert all[|segs|] == e;
    if GroupShows(segs, group, d) {
      var i :| 0 <= i < |segs| && segs[i].id in group && Shows(segs[i], d);
      assert all[i] == segs[i];
    }
  }

  lemma {:induction false} LiveOfIs(segs: seq<Entry>, group: set<nat>, d: Document)
    ensures d in LiveOf(segs, group) <==> GroupShows(segs, group, d)
  {
    hide LiveDocs, Shows;
    if segs == [] {
    } else {
      hide GroupShows;
      var front, last := segs[..|segs| - 1], segs[|segs| - 1];
      assert segs == front + [last];
      LiveOfIs(front, group, d);
      LiveDocsAre(last, d);
      GroupShowsSnoc(front, last, group, d);
    }
  }

  /** A fresh segment written from documents shows exactly those, in order. */
  lemma {:induction false} FreshLive(id: nat, docs: seq<Document>, n: nat)
    requires n <= |docs|
    ensures LiveUpTo(Entry(id, docs, {}), n) == docs[..n]
  {
    if n > 0 {
      FreshLive(id, docs, n - 1);
    }
  }

  /** Writing the live documents of a group into one segment inherits them all. */
  lemma MergedInherits(segs: seq<Entry>, group: set<nat>, id: nat)
    ensures Inherits(Entry(id, LiveOf(segs, group), {}), segs, group)
  {
    var e := Entry(id, LiveOf(segs, group), {});
    forall i, slot | 0 <= i < |segs| && segs[i].id in group && segs[i].Live(slot)
      ensures Shows(e, segs[i].docs[slot])
    {
      var d := segs[i].docs[slot];
      assert Shows(segs[i], d);
      assert GroupShows(segs, group, d);
      LiveOfIs(segs, group, d);
      var k :| 0 <= k < |e.docs| && e.docs[k] == d;
      assert e.Live(k);
    }
  }

  // ---- conservation ----------------------------------------------------------------------

  lemma JoinRight(a: seq<Document>, b: seq<Document>, c: seq<Document>, x: seq<Document>)
    requires multiset(a) == multiset(b + c)
    ensures multiset(a + x) == multiset(b + (c + x))
  {
  }

  lemma JoinLeft(a: seq<Document>, b: seq<Document>, c: seq<Document>, x: seq<Document>)
    requires multiset(a) == multiset(b + c)
    ensures multiset(a + x) == multiset((b + x) + c)
  {
  }

  lemma VisibleSnoc(segs: seq<Entry>, e: Entry)
    ensures Visible(segs + [e]) == Visible(segs) + LiveDocs(e)
  {
    assert (segs + [e])[..|segs|] == segs;
  }

  lemma SplitSnoc(segs: seq<Entry>, e: Entry, group: set<nat>)
    ensures Without(segs + [e], group) == Without(segs, group) + if e.id in group then [] else [e]
    ensures LiveOf(segs + [e], group) == LiveOf(segs, group) + if e.id in group then LiveDocs(e) else []
  {
    assert (segs + [e])[..|segs|] == segs;
  }

  lemma NothingVisible(group: set<nat>)
    ensures Visible([]) == [] && Without([], group) == [] && LiveOf([], group) == []
  {
  }

  lemma {:induction false} VisibleSplits(segs: seq<Entry>, group: set<nat>)
    ensures multiset(Visible(segs)) == multiset(Visible(Without(segs, group)) + LiveOf(segs, group))
  {
    hide *;
    if segs == [] {
      NothingVisible(group);
    } else {
      var front, last := segs[..|segs| - 1], segs[|segs| - 1];
      assert segs == front + [last];
      VisibleSplits(front, group);
      VisibleSnoc(front, last);
      SplitSnoc(front, last, group);
      if last.id in group {
        assert Without(segs, group) == Without(front, group);
        JoinRight(Visible(front), Visible(Without(front, group)), LiveOf(front, group), LiveDocs(last));
      } else {
        VisibleSnoc(Without(front, group), last);
        JoinLeft(Visible(front), Visible(Without(front, group)), LiveOf(front, group), LiveDocs(last));
      }
    }
  }

  /** Merging a group, or reindexing everything, leaves the multiset of documents visible through
      the open readers unchanged. */
  lemma ReplaceConserves(sl: SegList, group: set<nat>, id: nat)
    ensures multiset(Visible(Replaced(sl, group, Entry(id, LiveOf(sl.segs, group), {})).segs)) ==
              multiset(Visible(sl.segs))
  {
    var docs := LiveOf(sl.segs, group);
    VisibleSplits(sl.segs, group);
    FreshLive(id, docs, |docs|);
    assert docs[..|docs|] == docs;
    VisibleSnoc(Without(sl.segs, group), Entry(id, docs, {}));
  }
}
