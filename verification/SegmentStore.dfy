/** The segment list as the object it is: its vector, map and counter change in place, and
    `mark_deleted` writes through to the bitmap on disk. */
module SegmentStore {
  import opened Base
  import opened Documents
  import opened SegmentLists
  import opened ShardModel

  /** The segment directories on disk. */
  class DataDir {
    var dirs: map<nat, Dir>

    constructor (dirs: map<nat, Dir>)
      ensures this.dirs == dirs
    {
      this.dirs := dirs;
    }
  }

  method MapDocs(locs: map<u64, Loc>, e: Entry) returns (m: map<u64, Loc>)
    ensures m == Mapped(locs, e, |e.docs|)
  {
    m := locs;
    for slot := 0 to |e.docs|
      invariant m == Mapped(locs, e, slot)
    {
      if e.Live(slot) {
        m := m[e.docs[slot].id := Loc(e.id, slot)];
      }
    }
  }

  class SegmentList {
    const disk: DataDir
    var segs: seq<Entry>
    var locs: map<u64, Loc>
    var nextSeg: nat

    ghost function List(): SegList
      reads this
    {
      SegList(segs, locs)
    }

    /** Opens every readable directory in the order given; an unreadable one still counts for the
        numbering. */
    constructor (disk: DataDir, order: seq<nat>)
      requires forall i :: i in order ==> i in disk.dirs
      ensures this.disk == disk && List() == OpenList(disk.dirs, order) && nextSeg == MaxOf(order) + 1
    {
      this.disk := disk;
      segs, locs, nextSeg := [], map[], 1;
      new;
      var highest := 0;
      for i := 0 to |order|
        invariant this.disk == disk && disk.dirs == old(disk.dirs)
        invariant List() == OpenList(disk.dirs, order[..i]) && highest == MaxOf(order[..i])
      {
        var id := order[i];
        assert id in order && order[..i + 1][..i] == order[..i];
        highest := Max(highest, id);
        var dir := disk.dirs[id];
        if dir.complete {
          AddSegment(Entry(id, dir.docs, dir.dead));
        }
      }
      assert order[..|order|] == order;
      nextSeg := highest + 1;
    }

    method NextSegmentId() returns (id: nat)
      modifies this`nextSeg
      ensures id == old(nextSeg) && nextSeg == id + 1
    {
      id := nextSeg;
      nextSeg := nextSeg + 1;
    }

    method AddSegment(e: Entry)
      modifies this`segs, this`locs
      ensures List() == Added(old(List()), e)
    {
      locs := MapDocs(locs, e);
      segs := segs + [e];
    }

    method ReplaceSegments(group: seq<nat>, e: Entry)
      modifies this`segs, this`locs
      ensures List() == Replaced(old(List()), Named(group), e)
    {
      ghost var olds := Named(group);
      ghost var before := List();
      locs := map id | id in locs && locs[id].seg !in group :: locs[id];
      assert locs == Unmapped(old(locs), olds);
      locs := MapDocs(locs, e);
      ghost var mapped := locs;
      var kept := [];
      for i := 0 to |segs|
        invariant segs == before.segs && locs == mapped && kept == Without(segs[..i], olds)
      {
        assert segs[..i + 1] == segs[..i] + [segs[i]];
        SplitSnoc(segs[..i], segs[i], olds);
        if segs[i].id !in group {
          kept := kept + [segs[i]];
        }
      }
      assert segs[..|segs|] == segs;
      segs := kept + [e];
    }

    method FindSegment(id: nat) returns (e: Option<Entry>)
      ensures e == Find(segs, id)
    {
      for i := 0 to |segs|
        invariant Find(segs, id) == Find(segs[i..], id)
      {
        if segs[i].id == id {
          return Some(segs[i]);
        }
      }
      e := None;
    }

    /** `get_doc`: under a truthful map, found exactly when mapped. */
    method Get(id: u64) returns (d: Option<Document>)
      ensures d == GetDoc(List(), id)
    {
      if id !in locs {
        return None;
      }
      var e := FindSegment(locs[id].seg);
      if e.None? || !e.value.Live(locs[id].slot) {
        return None;
      }
      d := Some(e.value.docs[locs[id].slot]);
    }

    /** Writes the bitmap of the segment that holds the id; the open reader does not see it. */
    method MarkDeleted(id: u64) returns (marked: bool)
      requires forall i :: i in Ids(segs) ==> i in disk.dirs
      modifies this`locs, disk
      ensures var s := Marked(old(List()), old(disk.dirs), id); List() == s.0 && disk.dirs == s.1
      ensures marked <==> id in old(locs) && old(locs)[id].seg in Ids(segs)
      ensures segs == old(segs) && disk.dirs.Keys == old(disk.dirs.Keys)
      ensures !marked ==> locs == old(locs) && disk.dirs == old(disk.dirs)
      ensures marked ==>
                var loc := old(locs)[id];
                && loc.slot in disk.dirs[loc.seg].dead && id !in locs
                && disk.dirs[loc.seg].dead == old(disk.dirs)[loc.seg].dead + {loc.slot}
                && disk.dirs[loc.seg].docs == old(disk.dirs)[loc.seg].docs
                && (forall i :: i in disk.dirs && i != loc.seg ==> disk.dirs[i] == old(disk.dirs)[i])
    {
      if id !in locs {
        return false;
      }
      var loc := locs[id];
      var e := FindSegment(loc.seg);
      FindsId(segs, loc.seg);
      if e.None? {
        return false;
      }
      var dir := disk.dirs[loc.seg];
      disk.dirs := disk.dirs[loc.seg := dir.(dead := dir.dead + {loc.slot})];
      locs := locs - {id};
      marked := true;
    }
  }

  lemma {:induction false} FindsId(segs: seq<Entry>, id: nat)
    ensures Find(segs, id).Some? <==> id in Ids(segs)
  {
    if segs != [] {
      FindsId(segs[1..], id);
      IdsCons(segs);
    }
  }

  lemma IdsCons(segs: seq<Entry>)
    requires segs != []
    ensures Ids(segs) == {segs[0].id} + Ids(segs[1..])
  {
    forall id | id in Ids(segs)
      ensures id == segs[0].id || id in Ids(segs[1..])
    {
      var i :| 0 <= i < |segs| && segs[i].id == id;
      if i > 0 {
        assert segs[1..][i - 1].id == id;
      }
    }
    forall id | id in Ids(segs[1..])
      ensures id in Ids(segs)
    {
      var i :| 0 <= i < |segs[1..]| && segs[1..][i].id == id;
      assert segs[i + 1].id == id;
    }
  }
}
