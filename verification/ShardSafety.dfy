/** Every step of the storage protocol keeps the invariant, and what follows for whole runs. */
module ShardSafety {
  import opened Base
  import opened Documents
  import opened SegmentLists
  import opened ShardModel
  import opened Wal

  // ---- logs ------------------------------------------------------------------------------

  function DocOf(e: WalEntry): seq<Document> {
    if e.Index? then [e.doc] else []
  }

  lemma IndexDocsSnoc(wal: seq<WalEntry>, e: WalEntry)
    ensures IndexDocs(wal + [e]) == IndexDocs(wal) + DocOf(e)
  {
    assert (wal + [e])[..|wal|] == wal;
  }

  lemma IndexDocsNone()
    ensures IndexDocs([]) == []
  {
  }

  lemma {:induction false} IndexDocsCons(wal: seq<WalEntry>)
    requires wal != []
    ensures IndexDocs(wal) == DocOf(wal[0]) + IndexDocs(wal[1..])
  {
    hide *;
    IndexDocsNone();
    if |wal| == 1 {
      assert wal == [] + [wal[0]] && wal[1..] == [];
      IndexDocsSnoc([], wal[0]);
    } else {
      var front, last := wal[..|wal| - 1], wal[|wal| - 1];
      IndexDocsCons(front);
      IndexDocsSnoc(front, last);
      IndexDocsSnoc(front[1..], last);
      assert wal == front + [last] && wal[1..] == front[1..] + [last];
    }
  }

  // ---- the open list against the disk ----------------------------------------------------

  /** What an open reader shows under a never-deleted id is on disk and not marked. */
  lemma ListedIsOnDisk(s: State, d: Document)
    requires DiskOk(s) && ListOk(s) && Listed(s.mem.list.segs, d) && d.id !in s.deleted
    ensures OnDisk(s.disk.dirs, d)
  {
    var i :| 0 <= i < |s.mem.list.segs| && Shows(s.mem.list.segs[i], d);
    var e := s.mem.list.segs[i];
    var slot :| e.Live(slot) && e.docs[slot] == d;
    assert Backed(s.disk.dirs, e);
    assert DeadOk(s.disk.dirs[e.id], s.deleted);
  }

  lemma HeldIsSafe(s: State)
    requires DiskOk(s) && ListOk(s) && Held(s)
    ensures Safe(s)
  {
    hide DiskOk, ListOk, OnDisk, Listed, IndexDocs;
    forall d | d in s.logged && d.id !in s.deleted
      ensures d in IndexDocs(s.disk.wal) || OnDisk(s.disk.dirs, d)
    {
      if Listed(s.mem.list.segs, d) {
        ListedIsOnDisk(s, d);
      }
    }
  }

  /** Changing directories no reader is open on. */
  lemma BackedElsewhere(dirs: map<nat, Dir>, dirs': map<nat, Dir>, segs: seq<Entry>, touched: set<nat>)
    requires AllBacked(dirs, segs) && touched !! Ids(segs)
    requires forall i :: i in dirs && i !in touched ==> i in dirs' && dirs'[i] == dirs[i]
    ensures AllBacked(dirs', segs)
  {
    forall i | 0 <= i < |segs|
      ensures Backed(dirs', segs[i])
    {
      assert Backed(dirs, segs[i]) && segs[i].id in Ids(segs);
    }
  }

  lemma ListedIds(dirs: map<nat, Dir>, segs: seq<Entry>)
    requires AllBacked(dirs, segs)
    ensures Ids(segs) <= dirs.Keys
  {
    forall id | id in Ids(segs)
      ensures id in dirs
    {
      var i :| 0 <= i < |segs| && segs[i].id == id;
      assert Backed(dirs, segs[i]);
    }
  }

  lemma MoreDeleted(sl: SegList, deleted: set<u64>, deleted': set<u64>)
    requires MapTrue(sl, deleted) && deleted <= deleted'
    ensures MapTrue(sl, deleted')
  {
  }

  // ---- one lemma per step ----------------------------------------------------------------

  lemma StartIndexKeeps(s: State, docs: seq<Document>)
    requires Inv(s) && Enabled(s, StartIndex(docs))
    ensures Inv(Do(s, StartIndex(docs)))
  {
    hide DiskOk, ListOk, Held, Safe;
    var s' := Do(s, StartIndex(docs));
    SameBut(s, s');
  }

  /** The parts of the invariant that do not look at the phase. */
  lemma SameBut(s: State, s': State)
    requires Inv(s) && s.phase != Down
    requires s'.disk == s.disk && s'.mem.list == s.mem.list && s'.logged == s.logged && s'.deleted == s.deleted
             && s'.top == s.top
    requires s'.mem.nextSeg >= s.mem.nextSeg
    ensures DiskOk(s') && Safe(s') && ListOk(s') && Held(s')
  {
    hide Listed, OnDisk, MapTrue, AllBacked, DeadOk, IndexDocs;
  }

  lemma AppendRecordKeeps(s: State)
    requires Inv(s) && Enabled(s, AppendRecord)
    ensures Inv(Do(s, AppendRecord))
  {
    hide Listed, OnDisk, MapTrue, AllBacked, DeadOk, IndexDocs;
    var s', d := Do(s, AppendRecord), s.phase.rest[0];
    IndexDocsSnoc(s.disk.wal, Index(d));
    assert IndexDocs(s'.disk.wal) == IndexDocs(s.disk.wal) + [d];
    assert DiskOk(s');
    assert Held(s');
    HeldIsSafe(s');
  }

  lemma FinishIndexKeeps(s: State)
    requires Inv(s) && Enabled(s, FinishIndex)
    ensures Inv(Do(s, FinishIndex))
  {
    hide DiskOk, ListOk, Held, Safe;
    SameBut(s, Do(s, FinishIndex));
  }

  lemma StartDeleteKeeps(s: State, id: u64)
    requires Inv(s) && Enabled(s, StartDelete(id))
    ensures Inv(Do(s, StartDelete(id)))
  {
    hide Listed, OnDisk, MapTrue, AllBacked, IndexDocs;
    var s' := Do(s, StartDelete(id));
    IndexDocsSnoc(s.disk.wal, Delete(id));
    MoreDeleted(s.mem.list, s.deleted, s'.deleted);
    assert IndexDocs(s'.disk.wal) == IndexDocs(s.disk.wal);
    assert DiskOk(s');
    assert Held(s');
    HeldIsSafe(s');
  }

  /** Marking the slot a truthful map gives marks a document with the deleted id. */
  lemma MarkedSlot(s: State, id: u64)
    requires ListOk(s) && id in s.mem.list.locs
    ensures var loc := s.mem.list.locs[id];
            && loc.seg in Ids(s.mem.list.segs) && loc.seg in s.disk.dirs
            && loc.slot < |s.disk.dirs[loc.seg].docs| && s.disk.dirs[loc.seg].docs[loc.slot].id == id
  {
    hide DistinctIds, LocsFull;
    var loc := s.mem.list.locs[id];
    assert Points(s.mem.list.segs, loc, id);
    var i :| 0 <= i < |s.mem.list.segs| && s.mem.list.segs[i].id == loc.seg
             && s.mem.list.segs[i].Live(loc.slot) && s.mem.list.segs[i].docs[loc.slot].id == id;
    assert Backed(s.disk.dirs, s.mem.list.segs[i]);
  }

  lemma MarkBacked(dirs: map<nat, Dir>, segs: seq<Entry>, seg: nat, slot: nat)
    requires AllBacked(dirs, segs) && seg in dirs
    ensures AllBacked(dirs[seg := dirs[seg].(dead := dirs[seg].dead + {slot})], segs)
  {
    var dirs' := dirs[seg := dirs[seg].(dead := dirs[seg].dead + {slot})];
    forall i | 0 <= i < |segs|
      ensures Backed(dirs', segs[i])
    {
      assert Backed(dirs, segs[i]);
    }
  }

  lemma MarkDeadOk(dir: Dir, slot: nat, deleted: set<u64>)
    requires DeadOk(dir, deleted) && slot < |dir.docs| && dir.docs[slot].id in deleted
    ensures DeadOk(dir.(dead := dir.dead + {slot}), deleted)
  {
  }

  /** Marking an id whose deletion was requested disturbs nothing else. */
  lemma MarkKeeps(s: State, id: u64)
    requires DiskOk(s) && ListOk(s) && Held(s) && id in s.deleted
    ensures var s' := MarkDeleted(s, id);
            && DiskOk(s') && ListOk(s') && Held(s')
            && s' == s.(disk := s'.disk, mem := s'.mem) && s'.disk.wal == s.disk.wal && s'.mem.buffer == s.mem.buffer
  {
    hide Listed, MapTrue, AllBacked, IndexDocs, DeadOk;
    if id in s.mem.list.locs {
      var loc := s.mem.list.locs[id];
      MarkedSlot(s, id);
      DeleteKeepsTrue(s.mem.list, s.deleted, id);
      assert s.deleted + {id} == s.deleted;
      MarkBacked(s.disk.dirs, s.mem.list.segs, loc.seg, loc.slot);
      MarkDeadOk(s.disk.dirs[loc.seg], loc.slot, s.deleted);
    }
  }

  lemma FinishDeleteKeeps(s: State)
    requires Inv(s) && Enabled(s, FinishDelete)
    ensures Inv(Do(s, FinishDelete))
  {
    hide DiskOk, ListOk, Held, Safe, MarkDeleted, IndexDocs;
    var mid := s.(mem := s.mem.(hidden := s.mem.hidden + {s.phase.target}));
    SameBut(s, mid);
    MarkKeeps(mid, s.phase.target);
    var s' := Do(s, FinishDelete);
    PhaseAside(MarkDeleted(mid, s.phase.target), s');
    HeldIsSafe(s');
  }

  lemma PhaseAside(s: State, s': State)
    requires s' == s.(phase := s'.phase)
    ensures DiskOk(s) ==> DiskOk(s')
    ensures ListOk(s) ==> ListOk(s')
    ensures Held(s) ==> Held(s')
  {
    hide Listed, OnDisk, MapTrue, AllBacked, DeadOk, IndexDocs;
  }

  lemma StartFlushKeeps(s: State)
    requires Inv(s) && Enabled(s, StartFlush)
    ensures Inv(Do(s, StartFlush))
  {
    SameBut(s, Do(s, StartFlush));
    hide Listed, OnDisk, MapTrue, AllBacked, DeadOk, IndexDocs;
  }

  /** The live documents of open segments were all logged. */
  lemma LiveLogged(s: State, group: set<nat>)
    requires DiskOk(s) && ListOk(s)
    ensures forall d :: d in LiveOf(s.mem.list.segs, group) ==> d in s.logged
  {
    hide MapTrue, DeadOk, IndexDocs, LiveOf;
    forall d | d in LiveOf(s.mem.list.segs, group)
      ensures d in s.logged
    {
      LiveOfIs(s.mem.list.segs, group, d);
      var i :| 0 <= i < |s.mem.list.segs| && s.mem.list.segs[i].id in group && Shows(s.mem.list.segs[i], d);
      assert Backed(s.disk.dirs, s.mem.list.segs[i]);
      assert d in s.mem.list.segs[i].docs;
    }
  }

  lemma StartMergeKeeps(s: State, group: set<nat>)
    requires Inv(s) && Enabled(s, StartMerge(group))
    ensures Inv(Do(s, StartMerge(group)))
  {
    SameBut(s, Do(s, StartMerge(group)));
    LiveLogged(s, group);
    hide Listed, OnDisk, MapTrue, AllBacked, DeadOk, IndexDocs, LiveOf, DiskOk, Held, Safe;
  }

  lemma StartReindexKeeps(s: State)
    requires Inv(s) && Enabled(s, StartReindex)
    ensures Inv(Do(s, StartReindex))
  {
    SameBut(s, Do(s, StartReindex));
    LiveLogged(s, Ids(s.mem.list.segs));
    hide Listed, OnDisk, MapTrue, AllBacked, DeadOk, IndexDocs, LiveOf, DiskOk, Held, Safe;
  }

  lemma CreateDirKeeps(s: State)
    requires Inv(s) && Enabled(s, CreateDir)
    ensures Inv(Do(s, CreateDir))
  {
    hide Listed, OnDisk, MapTrue, IndexDocs, LiveOf;
    var s' := Do(s, CreateDir);
    ListedIds(s.disk.dirs, s.mem.list.segs);
    BackedElsewhere(s.disk.dirs, s'.disk.dirs, s.mem.list.segs, {s.phase.id});
    hide AllBacked;
    assert DiskOk(s') && ListOk(s');
    assert Held(s');
    HeldIsSafe(s');
  }

  lemma CompleteDirKeeps(s: State)
    requires Inv(s) && Enabled(s, CompleteDir)
    ensures Inv(Do(s, CompleteDir))
  {
    hide Listed, OnDisk, MapTrue, IndexDocs, LiveOf;
    var s' := Do(s, CompleteDir);
    BackedElsewhere(s.disk.dirs, s'.disk.dirs, s.mem.list.segs, {s.phase.id});
    hide AllBacked;
    assert DiskOk(s') && ListOk(s');
    assert Held(s');
    HeldIsSafe(s');
  }

  lemma ShowsAll(id: nat, docs: seq<Document>)
    ensures forall d :: d in docs ==> Shows(Entry(id, docs, {}), d)
  {
    forall d | d in docs
      ensures Shows(Entry(id, docs, {}), d)
    {
      var slot :| 0 <= slot < |docs| && docs[slot] == d;
      assert Entry(id, docs, {}).Live(slot);
    }
  }

  lemma ListedSnoc(segs: seq<Entry>, e: Entry, d: Document)
    ensures Listed(segs + [e], d) <==> Listed(segs, d) || Shows(e, d)
  {
    hide Shows;
    var all := segs + [e];
    assert all[|segs|] == e;
    if Listed(segs, d) {
      var i :| 0 <= i < |segs| && Shows(segs[i], d);
      assert all[i] == segs[i];
    }
  }

  lemma BackedSnoc(dirs: map<nat, Dir>, segs: seq<Entry>, e: Entry)
    requires AllBacked(dirs, segs) && Backed(dirs, e)
    ensures AllBacked(dirs, segs + [e])
  {
  }

  lemma InstallFlushKeeps(s: State)
    requires Inv(s) && Enabled(s, Install) && s.phase.job.Flushing?
    ensures Inv(Do(s, Install))
  {
    hide Listed, OnDisk, MapTrue, AllBacked, IndexDocs, LiveOf, DeadOk, Mapped, LiveUpTo, Shows;
    var s', e := Do(s, Install), Entry(s.phase.id, s.phase.docs, {});
    AddKeepsTrue(s.mem.list, e, s.deleted);
    BackedSnoc(s.disk.dirs, s.mem.list.segs, e);
    ShowsAll(e.id, e.docs);
    forall d
      ensures Listed(s'.mem.list.segs, d) <==> Listed(s.mem.list.segs, d) || Shows(e, d)
    {
      ListedSnoc(s.mem.list.segs, e, d);
    }
    assert DiskOk(s') && ListOk(s');
    assert Held(s');
    HeldIsSafe(s');
  }

  lemma BackedWithout(dirs: map<nat, Dir>, segs: seq<Entry>, olds: set<nat>)
    requires AllBacked(dirs, segs)
    ensures AllBacked(dirs, Without(segs, olds)) && Ids(Without(segs, olds)) !! olds
  {
    var kept := Without(segs, olds);
    WithoutIs(segs, olds);
    forall i | 0 <= i < |kept|
      ensures Backed(dirs, kept[i]) && kept[i].id !in olds
    {
      assert kept[i] in segs;
      var k :| 0 <= k < |segs| && segs[k] == kept[i];
      assert Backed(dirs, segs[k]);
    }
  }

  /** Replacing a group by one segment with its live documents loses none of them. */
  lemma ReplacedListed(segs: seq<Entry>, group: set<nat>, id: nat, d: Document)
    requires Listed(segs, d)
    ensures Listed(Without(segs, group) + [Entry(id, LiveOf(segs, group), {})], d)
  {
    hide Shows, Without, LiveOf;
    var e := Entry(id, LiveOf(segs, group), {});
    ListedSnoc(Without(segs, group), e, d);
    var i :| 0 <= i < |segs| && Shows(segs[i], d);
    if segs[i].id in group {
      LiveOfIs(segs, group, d);
      assert GroupShows(segs, group, d);
      ShowsAll(id, e.docs);
    } else {
      WithoutIs(segs, group);
      var k :| 0 <= k < |Without(segs, group)| && Without(segs, group)[k] == segs[i];
    }
  }

  lemma InstallMergeKeeps(s: State)
    requires Inv(s) && Enabled(s, Install) && s.phase.job.Merging?
    ensures Inv(Do(s, Install))
  {
    hide Listed, OnDisk, MapTrue, AllBacked, IndexDocs, LiveOf, DeadOk, Mapped, LiveUpTo, Shows, Without, Inherits;
    var s', e, group := Do(s, Install), Entry(s.phase.id, s.phase.docs, {}), s.phase.job.group;
    MergedInherits(s.mem.list.segs, group, e.id);
    ReplaceKeepsTrue(s.mem.list, group, e, s.deleted);
    BackedWithout(s.disk.dirs, s.mem.list.segs, group);
    BackedSnoc(s.disk.dirs, Without(s.mem.list.segs, group), e);
    forall d | Listed(s.mem.list.segs, d)
      ensures Listed(s'.mem.list.segs, d)
    {
      ReplacedListed(s.mem.list.segs, group, e.id, d);
    }
    IdsSnoc(Without(s.mem.list.segs, group), e);
    hide Ids;
    assert DiskOk(s') && ListOk(s');
    assert Held(s');
    HeldIsSafe(s');
  }

  lemma IdsSnoc(segs: seq<Entry>, e: Entry)
    ensures Ids(segs + [e]) == Ids(segs) + {e.id}
  {
    var all := segs + [e];
    assert all[|segs|] == e;
    forall id | id in Ids(segs)
      ensures id in Ids(all)
    {
      var i :| 0 <= i < |segs| && segs[i].id == id;
      assert all[i] == segs[i];
    }
  }

  lemma TruncateKeeps(s: State)
    requires Inv(s) && Enabled(s, Truncate)
    ensures Inv(Do(s, Truncate))
  {
    hide Listed, OnDisk, MapTrue, AllBacked, DeadOk, LiveOf;
    var s' := Do(s, Truncate);
    assert IndexDocs(s'.disk.wal) == [];
    hide IndexDocs;
    assert DiskOk(s') && ListOk(s');
    assert Held(s');
    HeldIsSafe(s');
  }

  lemma DeadOkLess(dir: Dir, complete: bool, dead: set<nat>, deleted: set<u64>)
    requires DeadOk(dir, deleted) && dead <= dir.dead
    ensures DeadOk(Dir(dir.docs, complete, dead), deleted)
  {
  }

  lemma SpoilKeeps(s: State, i: nat, complete: bool, dead: set<nat>)
    requires Inv(s) && Enabled(s, Spoil(i, complete, dead))
    ensures Inv(Do(s, Spoil(i, complete, dead)))
  {
    hide Listed, OnDisk, MapTrue, IndexDocs, LiveOf, DeadOk;
    var s' := Do(s, Spoil(i, complete, dead));
    BackedElsewhere(s.disk.dirs, s'.disk.dirs, s.mem.list.segs, {i});
    DeadOkLess(s.disk.dirs[i], complete, dead, s.deleted);
    hide AllBacked;
    assert DiskOk(s') && ListOk(s');
    assert Held(s');
    HeldIsSafe(s');
  }

  lemma RemoveDirKeeps(s: State, i: nat)
    requires Inv(s) && Enabled(s, RemoveDir(i))
    ensures Inv(Do(s, RemoveDir(i)))
  {
    hide Listed, OnDisk, MapTrue, IndexDocs, LiveOf, DeadOk;
    var s' := Do(s, RemoveDir(i));
    BackedElsewhere(s.disk.dirs, s'.disk.dirs, s.mem.list.segs, {i});
    hide AllBacked;
    assert DiskOk(s') && ListOk(s');
    assert Held(s');
    HeldIsSafe(s');
  }

  lemma GiveUpKeeps(s: State, i: nat)
    requires Inv(s) && Enabled(s, GiveUp(i))
    ensures Inv(Do(s, GiveUp(i)))
  {
    SameBut(s, Do(s, GiveUp(i)));
    hide DiskOk, ListOk, Held, Safe;
  }

  lemma FinishRemovingKeeps(s: State)
    requires Inv(s) && Enabled(s, FinishRemoving)
    ensures Inv(Do(s, FinishRemoving))
  {
    SameBut(s, Do(s, FinishRemoving));
    hide DiskOk, ListOk, Held, Safe;
  }

  lemma CrashKeeps(s: State)
    requires Inv(s) && Enabled(s, Crash)
    ensures Inv(Do(s, Crash))
  {
    hide ListOk, Held, OnDisk, IndexDocs, DeadOk, Listed;
  }

  // ---- reopening -------------------------------------------------------------------------

  ghost predicate Distinct(order: seq<nat>) {
    forall i, j :: 0 <= i < j < |order| ==> order[i] != order[j]
  }

  lemma OpenSnoc(dirs: map<nat, Dir>, front: seq<nat>, last: nat)
    requires (forall i :: i in front ==> i in dirs) && last in dirs
    ensures (forall i :: i in front + [last] ==> i in dirs)
    ensures OpenList(dirs, front + [last]) ==
            if dirs[last].complete then Added(OpenList(dirs, front), Entry(last, dirs[last].docs, dirs[last].dead))
               else OpenList(dirs, front)
  {
    assert (front + [last])[..|front|] == front;
  }

  lemma OpenNone(dirs: map<nat, Dir>, deleted: set<u64>)
    ensures OpenList(dirs, []) == SegList([], map[])
    ensures AllBacked(dirs, []) && MapTrue(SegList([], map[]), deleted) && Ids([]) == {}
  {
  }

  /** Opening reads every complete directory into a truthful list. */
  lemma {:induction false} OpenIsTrue(dirs: map<nat, Dir>, order: seq<nat>, deleted: set<u64>)
    requires (forall i :: i in order ==> i in dirs) && Distinct(order)
    ensures var sl := OpenList(dirs, order);
            AllBacked(dirs, sl.segs) && MapTrue(sl, deleted) && forall i :: i in Ids(sl.segs) ==> i in order
  {
    hide *;
    if order == [] {
      OpenNone(dirs, deleted);
    } else {
      var front, last := order[..|order| - 1], order[|order| - 1];
      assert order == front + [last];
      DistinctFront(front, last);
      OpenIsTrue(dirs, front, deleted);
      OpenSnoc(dirs, front, last);
      if dirs[last].complete {
        var sl, e := OpenList(dirs, front), Entry(last, dirs[last].docs, dirs[last].dead);
        AddKeepsTrue(sl, e, deleted);
        AddedSegs(sl, e);
        OwnBacked(dirs, last);
        BackedSnoc(dirs, sl.segs, e);
        IdsSnoc(sl.segs, e);
      }
    }
  }

  lemma DistinctFront(front: seq<nat>, last: nat)
    requires Distinct(front + [last])
    ensures Distinct(front) && last !in front
  {
    var all := front + [last];
    assert all[|front|] == last;
    forall i, j | 0 <= i < j < |front|
      ensures front[i] != front[j]
    {
      assert all[i] == front[i] && all[j] == front[j];
    }
    forall i | 0 <= i < |front|
      ensures front[i] != last
    {
      assert all[i] == front[i];
    }
  }

  lemma AddedSegs(sl: SegList, e: Entry)
    ensures Added(sl, e).segs == sl.segs + [e]
  {
  }

  lemma OwnBacked(dirs: map<nat, Dir>, i: nat)
    requires i in dirs && dirs[i].complete
    ensures Backed(dirs, Entry(i, dirs[i].docs, dirs[i].dead))
  {
  }

  lemma OwnShows(dir: Dir, id: nat, slot: nat)
    requires slot < |dir.docs| && slot !in dir.dead
    ensures Shows(Entry(id, dir.docs, dir.dead), dir.docs[slot])
  {
    assert Entry(id, dir.docs, dir.dead).Live(slot);
  }

  /** Every live slot of a complete directory named in the order is shown by the opened list. */
  lemma {:induction false} OpenShows(dirs: map<nat, Dir>, order: seq<nat>, i: nat, slot: nat)
    requires (forall k :: k in order ==> k in dirs) && i in order
    requires dirs[i].complete && slot < |dirs[i].docs| && slot !in dirs[i].dead
    ensures Listed(OpenList(dirs, order).segs, dirs[i].docs[slot])
  {
    hide *;
    var front, last := order[..|order| - 1], order[|order| - 1];
    assert order == front + [last];
    OpenSnoc(dirs, front, last);
    var d := dirs[i].docs[slot];
    if last != i {
      OpenShows(dirs, front, i, slot);
    } else {
      OwnShows(dirs[i], i, slot);
    }
    if dirs[last].complete {
      var e := Entry(last, dirs[last].docs, dirs[last].dead);
      AddedSegs(OpenList(dirs, front), e);
      ListedSnoc(OpenList(dirs, front).segs, e, d);
    }
  }

  lemma {:induction false} MaxOfIs(order: seq<nat>)
    ensures forall i :: i in order ==> i <= MaxOf(order)
  {
    if order != [] {
      var front, last := order[..|order| - 1], order[|order| - 1];
      assert order == front + [last];
      MaxOfIs(front);
    }
  }

  lemma OpenHolds(s: State, order: seq<nat>, d: Document)
    requires Lists(order, s.disk.dirs) && OnDisk(s.disk.dirs, d)
    ensures Listed(OpenList(s.disk.dirs, order).segs, d)
  {
    hide OpenList, Listed;
    var i, slot :| i in s.disk.dirs && s.disk.dirs[i].complete && 0 <= slot < |s.disk.dirs[i].docs|
                   && slot !in s.disk.dirs[i].dead && s.disk.dirs[i].docs[slot] == d;
    OpenShows(s.disk.dirs, order, i, slot);
  }

  lemma ReopenKeeps(s: State, order: seq<nat>)
    requires Inv(s) && Enabled(s, Reopen(order))
    ensures Inv(Do(s, Reopen(order)))
  {
    hide Listed, OnDisk, MapTrue, IndexDocs, LiveOf, DeadOk, AllBacked, OpenList, MaxOf;
    var s' := Do(s, Reopen(order));
    OpenIsTrue(s.disk.dirs, order, s.deleted);
    MaxOfIs(order);
    forall d | OnDisk(s.disk.dirs, d)
      ensures Listed(s'.mem.list.segs, d)
    {
      OpenHolds(s, order, d);
    }
    assert DiskOk(s') && ListOk(s');
    assert Held(s');
    HeldIsSafe(s');
    assert [] + IndexDocs(s.disk.wal) == IndexDocs(s.disk.wal);
  }

  lemma ReplayKeeps(s: State)
    requires Inv(s) && Enabled(s, Replay)
    ensures Inv(Do(s, Replay))
  {
    hide DiskOk, ListOk, Held, Safe, MarkDeleted, IndexDocs;
    IndexDocsCons(s.phase.todo);
    match s.phase.todo[0]
    case Index(d) =>
      SameBut(s, Do(s, Replay));
    case Delete(id) =>
      var mid := s.(mem := s.mem.(hidden := s.mem.hidden + {id}), phase := Replaying(s.phase.todo[1..]));
      SameBut(s, mid);
      MarkKeeps(mid, id);
      HeldIsSafe(Do(s, Replay));
  }

  lemma FinishReplayKeeps(s: State)
    requires Inv(s) && Enabled(s, FinishReplay)
    ensures Inv(Do(s, FinishReplay))
  {
    SameBut(s, Do(s, FinishReplay));
    hide DiskOk, ListOk, Held, Safe;
  }
}
