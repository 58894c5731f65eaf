/** Which document a lookup by id returns after segments were added or merged
    (crates/shard/src/shard.rs, crates/shard/src/segment_list.rs). */
module Serving {
  import opened Base
  import opened Documents
  import opened MergePolicy
  import opened SegmentLists
  import opened ShardModel
  import opened ShardSafety
  import opened Swaps

  function LastWithId(docs: seq<Document>, id: u64): Option<Document> {
    if docs == [] then None
    else if docs[|docs| - 1].id == id then Some(docs[|docs| - 1])
    else LastWithId(docs[..|docs| - 1], id)
  }

  function OrElse<T>(a: Option<T>, b: Option<T>): Option<T> {
    if a.Some? then a else b
  }

  lemma LastSnoc(docs: seq<Document>, d: Document, id: u64)
    ensures LastWithId(docs + [d], id) == if d.id == id then Some(d) else LastWithId(docs, id)
  {
    assert (docs + [d])[..|docs|] == docs;
  }

  lemma {:induction false} LastOfTwo(a: seq<Document>, b: seq<Document>, id: u64)
    ensures LastWithId(a + b, id) == OrElse(LastWithId(b, id), LastWithId(a, id))
  {
    if b == [] {
      assert a + b == a;
    } else {
      var front, d := b[..|b| - 1], b[|b| - 1];
      assert a + b == (a + front) + [d] && b == front + [d];
      LastSnoc(a + front, d, id);
      LastSnoc(front, d, id);
      LastOfTwo(a, front, id);
    }
  }

  lemma {:induction false} LastIs(docs: seq<Document>, id: u64)
    ensures LastWithId(docs, id).None? <==> forall d :: d in docs ==> d.id != id
    ensures LastWithId(docs, id).Some? ==> LastWithId(docs, id).value.id == id && LastWithId(docs, id).value in docs
  {
    if docs != [] {
      var front, d := docs[..|docs| - 1], docs[|docs| - 1];
      assert docs == front + [d];
      LastIs(front, id);
    }
  }

  /** Where mapping a fresh segment leaves an id: at its last slot with that id, if it has one. */
  lemma {:induction false} MappedServes(locs: map<u64, Loc>, id: nat, docs: seq<Document>, n: nat, key: u64)
    requires n <= |docs|
    ensures var m, last := Mapped(locs, Entry(id, docs, {}), n), LastWithId(docs[..n], key);
            if last.Some? then key in m && m[key].seg == id && m[key].slot < n && docs[m[key].slot] == last.value
            else (key in m <==> key in locs) && (key in m ==> m[key] == locs[key])
  {
    if n > 0 {
      MappedServes(locs, id, docs, n - 1, key);
      assert docs[..n] == docs[..n - 1] + [docs[n - 1]];
      LastSnoc(docs[..n - 1], docs[n - 1], key);
    }
  }

  lemma {:induction false} FindBefore(segs: seq<Entry>, e: Entry, id: nat)
    requires e.id != id
    ensures Find(segs + [e], id) == Find(segs, id)
  {
    if segs != [] {
      assert (segs + [e])[1..] == segs[1..] + [e];
      FindBefore(segs[1..], e, id);
    }
  }

  lemma {:induction false} FindLast(segs: seq<Entry>, e: Entry)
    requires e.id !in Ids(segs)
    ensures Find(segs + [e], e.id) == Some(e)
  {
    if segs != [] {
      assert (segs + [e])[1..] == segs[1..] + [e];
      assert segs[0].id in Ids(segs);
      assert Ids(segs[1..]) <= Ids(segs) by {
        forall id | id in Ids(segs[1..])
          ensures id in Ids(segs)
        {
          var i :| 0 <= i < |segs[1..]| && segs[1..][i].id == id;
          assert segs[i + 1].id == id;
        }
      }
      FindLast(segs[1..], e);
    }
  }

  lemma LocListed(sl: SegList, key: u64)
    requires LocsTrue(sl) && key in sl.locs
    ensures sl.locs[key].seg in Ids(sl.segs)
  {
    assert Points(sl.segs, sl.locs[key], key);
  }

  /** A fresh segment serves the ids it holds, each with its last document of that id. */
  lemma AddedServes(sl: SegList, id: nat, docs: seq<Document>, key: u64)
    requires LocsTrue(sl) && id !in Ids(sl.segs)
    ensures GetDoc(Added(sl, Entry(id, docs, {})), key) == OrElse(LastWithId(docs, key), GetDoc(sl, key))
  {
    hide Find, Ids, LocsTrue, Mapped, LastWithId;
    var e := Entry(id, docs, {});
    MappedServes(sl.locs, id, docs, |docs|, key);
    assert docs[..|docs|] == docs;
    FindLast(sl.segs, e);
    if key in sl.locs {
      LocListed(sl, key);
      FindBefore(sl.segs, e, sl.locs[key].seg);
    }
  }

  /** The list without a group and without the locations in it. */
  function Rest(sl: SegList, olds: set<nat>): SegList {
    SegList(Without(sl.segs, olds), Unmapped(sl.locs, olds))
  }

  lemma MergedIsAdded(sl: SegList, group: seq<nat>, id: nat)
    ensures Merged(sl, group, id) == Added(Rest(sl, Named(group)), Entry(id, LiveOf(sl.segs, Named(group)), {}))
  {
  }

  lemma RestIsTrue(sl: SegList, olds: set<nat>)
    requires DistinctIds(sl.segs) && LocsTrue(sl)
    ensures DistinctIds(Rest(sl, olds).segs) && LocsTrue(Rest(sl, olds)) && Ids(Rest(sl, olds).segs) <= Ids(sl.segs)
  {
    var mid := Rest(sl, olds);
    WithoutIs(sl.segs, olds);
    forall id | id in mid.locs
      ensures Points(mid.segs, mid.locs[id], id)
    {
      PointsKept(sl.segs, mid.segs, sl.locs[id], id);
    }
    forall id | id in Ids(mid.segs)
      ensures id in Ids(sl.segs)
    {
      var i :| 0 <= i < |mid.segs| && mid.segs[i].id == id;
      assert mid.segs[i] in sl.segs;
      var k :| 0 <= k < |sl.segs| && sl.segs[k] == mid.segs[i];
    }
  }

  /** The listed segment a location points into. */
  lemma LocEntry(sl: SegList, key: u64) returns (e: Entry)
    requires LocsTrue(sl) && key in sl.locs
    ensures e in sl.segs && e.id == sl.locs[key].seg && e.Live(sl.locs[key].slot) && e.docs[sl.locs[key].slot].id == key
  {
    assert Points(sl.segs, sl.locs[key], key);
    var i :| 0 <= i < |sl.segs| && sl.segs[i].id == sl.locs[key].seg && sl.segs[i].Live(sl.locs[key].slot)
             && sl.segs[i].docs[sl.locs[key].slot].id == key;
    e := sl.segs[i];
  }

  lemma FindMember(segs: seq<Entry>, e: Entry)
    requires DistinctIds(segs) && e in segs
    ensures Find(segs, e.id) == Some(e)
  {
    var i :| 0 <= i < |segs| && segs[i] == e;
    FindIs(segs, i);
  }

  lemma RestServes(sl: SegList, olds: set<nat>, key: u64)
    requires DistinctIds(sl.segs) && LocsTrue(sl)
    ensures key in sl.locs && sl.locs[key].seg !in olds ==> GetDoc(Rest(sl, olds), key) == GetDoc(sl, key)
    ensures key !in sl.locs ==> GetDoc(Rest(sl, olds), key) == GetDoc(sl, key) == None
  {
    hide Find, DistinctIds, LocsTrue, Without;
    if key in sl.locs && sl.locs[key].seg !in olds {
      var e := LocEntry(sl, key);
      WithoutIs(sl.segs, olds);
      FindMember(sl.segs, e);
      FindMember(Rest(sl, olds).segs, e);
    }
  }

  /** An id served from the group is among the documents the merge rewrites. */
  lemma GroupHolds(sl: SegList, olds: set<nat>, key: u64)
    requires LocsTrue(sl) && key in sl.locs && sl.locs[key].seg in olds
    ensures LastWithId(LiveOf(sl.segs, olds), key).Some?
  {
    hide LiveOf, LastWithId;
    var loc := sl.locs[key];
    assert Points(sl.segs, loc, key);
    var i :| 0 <= i < |sl.segs| && sl.segs[i].id == loc.seg && sl.segs[i].Live(loc.slot)
             && sl.segs[i].docs[loc.slot].id == key;
    var d := sl.segs[i].docs[loc.slot];
    assert Shows(sl.segs[i], d);
    assert GroupShows(sl.segs, olds, d);
    LiveOfIs(sl.segs, olds, d);
    LastIs(LiveOf(sl.segs, olds), key);
  }

  /** A merge serves, for each id the group still shows, the last document it shows; other ids are
      served as before. */
  lemma MergedServes(sl: SegList, group: seq<nat>, id: nat, key: u64)
    requires DistinctIds(sl.segs) && LocsTrue(sl) && id !in Ids(sl.segs)
    ensures GetDoc(Merged(sl, group, id), key) ==
              OrElse(LastWithId(LiveOf(sl.segs, Named(group)), key), GetDoc(sl, key))
  {
    hide *;
    var olds := Named(group);
    MergedIsAdded(sl, group, id);
    RestIsTrue(sl, olds);
    AddedServes(Rest(sl, olds), id, LiveOf(sl.segs, olds), key);
    RestServes(sl, olds, key);
    if key in sl.locs && sl.locs[key].seg in olds {
      GroupHolds(sl, olds, key);
    }
    OrElseFirst(LastWithId(LiveOf(sl.segs, olds), key), GetDoc(Rest(sl, olds), key), GetDoc(sl, key));
  }

  lemma OrElseFirst<T>(a: Option<T>, b: Option<T>, b': Option<T>)
    ensures a.Some? || b == b' ==> OrElse(a, b) == OrElse(a, b')
  {
  }

  // ---- a flush, and the merge behind it --------------------------------------------------

  /** The list after the buffer was flushed. */
  function Flushed(mem: Mem): SegList {
    Added(mem.list, Entry(mem.nextSeg, mem.buffer, {}))
  }

  /** The list when flush returns. */
  ghost function FlushedList(mem: Mem): SegList {
    Tidied(Flushed(mem), mem.nextSeg + 1)
  }

  /** Numbers not yet given out are of no listed segment. */
  ghost predicate Unnumbered(mem: Mem) {
    mem.nextSeg !in Ids(mem.list.segs) && mem.nextSeg + 1 !in Ids(mem.list.segs)
  }

  lemma FlushedIsTrue(mem: Mem)
    requires DistinctIds(mem.list.segs) && LocsTrue(mem.list) && Unnumbered(mem)
    ensures DistinctIds(Flushed(mem).segs) && LocsTrue(Flushed(mem)) && mem.nextSeg + 1 !in Ids(Flushed(mem).segs)
    ensures Flushed(mem).segs == mem.list.segs + [Entry(mem.nextSeg, mem.buffer, {})]
  {
    var e := Entry(mem.nextSeg, mem.buffer, {});
    ReplacedTrue(mem.list, e);
    WithoutNone(mem.list.segs);
    ReplacedDistinct(mem.list, {}, e);
    IdsSnoc(mem.list.segs, e);
  }

  /** What the merge behind a flush rewrites. */
  ghost function Rewritten(mem: Mem): seq<Document> {
    var segs := Flushed(mem).segs;
    if |segs| < MIN_SEGMENTS then [] else LiveOf(segs, Named(Picked(segs)))
  }

  /** What a lookup returns when a flush returns. */
  lemma FlushServes(mem: Mem, key: u64)
    requires DistinctIds(mem.list.segs) && LocsTrue(mem.list) && Unnumbered(mem)
    ensures GetDoc(FlushedList(mem), key) ==
            OrElse(LastWithId(Rewritten(mem), key), OrElse(LastWithId(mem.buffer, key), GetDoc(mem.list, key)))
  {
    hide Added, Flushed, Merged, LiveOf, GetDoc, Ids, DistinctIds, LocsTrue, Picked;
    FlushedIsTrue(mem);
    AddedServes(mem.list, mem.nextSeg, mem.buffer, key);
    assert Flushed(mem) == Added(mem.list, Entry(mem.nextSeg, mem.buffer, {})) by { FlushedIs(mem); }
    MergedServes(Flushed(mem), Picked(Flushed(mem).segs), mem.nextSeg + 1, key);
  }

  lemma FlushedIs(mem: Mem)
    ensures Flushed(mem) == Added(mem.list, Entry(mem.nextSeg, mem.buffer, {}))
    ensures Flushed(mem).segs == mem.list.segs + [Entry(mem.nextSeg, mem.buffer, {})]
  {
  }

  lemma FlushedLive(mem: Mem, group: set<nat>)
    ensures LiveOf(Flushed(mem).segs, group) ==
            LiveOf(mem.list.segs, group) + if mem.nextSeg in group then mem.buffer else []
  {
    var e := Entry(mem.nextSeg, mem.buffer, {});
    SplitSnoc(mem.list.segs, e, group);
    FreshLive(e.id, e.docs, |e.docs|);
    assert e.docs[..|e.docs|] == e.docs;
  }

  /** When a call that indexes d fills the buffer, as a caller can tell from the state before it:
      fewer than ten segments are no larger than the one to be flushed, or the ten the policy picks
      then show no document of that id, or d last. */
  ghost predicate ServedAtCapacity(mem: Mem, d: Document) {
    var segs := mem.list.segs;
    NoLarger(segs, |mem.buffer| + 1) < MAX_AT_ONCE
    || var shown := LastWithId(LiveOf(segs, Named(Picked(segs))), d.id); shown == None || shown == Some(d)
  }

  /** With few segments no larger than it, the flushed segment is among those rewritten, last. */
  lemma RewrittenWithOwn(mem: Mem, d: Document)
    requires mem.nextSeg !in Ids(mem.list.segs) && mem.buffer != [] && mem.buffer[|mem.buffer| - 1] == d
    requires NoLarger(mem.list.segs, |mem.buffer|) < MAX_AT_ONCE
    ensures Rewritten(mem) == [] || LastWithId(Rewritten(mem), d.id) == Some(d)
  {
    hide Ids, NoLarger, LiveOf, LastWithId, Picked, Flushed;
    var segs, own := mem.list.segs, Entry(mem.nextSeg, mem.buffer, {});
    FlushedIs(mem);
    LastPickedIff(segs, own);
    if |segs| + 1 >= MIN_SEGMENTS {
      var group := Named(Picked(segs + [own]));
      FlushedLive(mem, group);
      assert mem.nextSeg in group;
      LastOfTwo(LiveOf(segs, group), mem.buffer, d.id);
      EndsWith(mem.buffer, d);
    }
  }

  lemma EndsWith(docs: seq<Document>, d: Document)
    requires docs != [] && docs[|docs| - 1] == d
    ensures LastWithId(docs, d.id) == Some(d)
  {
  }

  /** With many, it is not, and the ten rewritten are those of the list before. */
  lemma RewrittenWithoutOwn(mem: Mem)
    requires mem.nextSeg !in Ids(mem.list.segs) && NoLarger(mem.list.segs, |mem.buffer|) >= MAX_AT_ONCE
    ensures Rewritten(mem) == LiveOf(mem.list.segs, Named(Picked(mem.list.segs)))
  {
    hide Ids, NoLarger, LiveOf, Picked, Flushed;
    var segs, own := mem.list.segs, Entry(mem.nextSeg, mem.buffer, {});
    FlushedIs(mem);
    LastPickedIff(segs, own);
    var group := Named(Picked(segs));
    FlushedLive(mem, group);
    assert mem.nextSeg !in group;
    assert LiveOf(segs, group) + [] == LiveOf(segs, group);
  }

  /** When indexing d fills the buffer, d is served under its id when the call returns if and only if
      `ServedAtCapacity` held before it. */
  lemma CapacityServesIff(mem: Mem, d: Document)
    requires DistinctIds(mem.list.segs) && LocsTrue(mem.list) && Unnumbered(mem)
    ensures GetDoc(FlushedList(mem.(buffer := mem.buffer + [d])), d.id) == Some(d) <==> ServedAtCapacity(mem, d)
  {
    hide LiveOf, GetDoc, Ids, DistinctIds, LocsTrue, FlushedList, Rewritten, NoLarger, Picked, LastWithId;
    var full := mem.(buffer := mem.buffer + [d]);
    FlushServes(full, d.id);
    EndsWith(full.buffer, d);
    if NoLarger(mem.list.segs, |full.buffer|) < MAX_AT_ONCE {
      RewrittenWithOwn(full, d);
      LastOfNone(d.id);
    } else {
      RewrittenWithoutOwn(full);
    }
  }

  lemma FewServe(mem: Mem, d: Document)
    requires |mem.list.segs| < MAX_AT_ONCE
    ensures ServedAtCapacity(mem, d)
  {
  }

  lemma LastOfNone(id: u64)
    ensures LastWithId([], id) == None
  {
  }

  lemma NextIsUnnumbered(s: State)
    requires Inv(s) && s.phase != Down
    ensures DistinctIds(s.mem.list.segs) && LocsTrue(s.mem.list) && Unnumbered(s.mem)
  {
    hide Safe, Held, PhaseOk, Ids, LocsFull, DeadOk, IndexDocs;
    ListedIds(s.disk.dirs, s.mem.list.segs);
  }
}
