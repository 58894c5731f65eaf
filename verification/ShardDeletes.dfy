/** What a delete leaves on disk, and exactly when a deleted id comes back after a crash. */
module ShardDeletes {
  import opened Base
  import opened Documents
  import opened Recovery
  import opened SegmentLists
  import opened ShardModel
  import opened ShardRuns
  import opened ShardSafety
  import opened ShardSteps
  import opened ShardUpdates
  import Swaps
  import opened Wal
  import opened WriteBuffers

  // ---- what the map points at is alive on disk -------------------------------------------

  ghost predicate MapLive(list: SegList, dirs: map<nat, Dir>) {
    forall key :: key in list.locs ==> LocLive(list.locs[key], dirs)
  }

  ghost predicate LocLive(loc: Loc, dirs: map<nat, Dir>) {
    loc.seg in dirs && loc.slot !in dirs[loc.seg].dead
  }

  ghost predicate MapLiveUp(s: State) {
    s.phase != Down ==> MapLive(s.mem.list, s.disk.dirs)
  }

  lemma LiveElsewhere(list: SegList, dirs: map<nat, Dir>, dirs': map<nat, Dir>, touched: set<nat>)
    requires MapLive(list, dirs) && LocsTrue(list) && touched !! Ids(list.segs)
    requires forall i :: i in dirs && i !in touched ==> i in dirs' && dirs'[i] == dirs[i]
    ensures MapLive(list, dirs')
  {
    forall key | key in list.locs
      ensures LocLive(list.locs[key], dirs')
    {
      assert LocLive(list.locs[key], dirs);
      LocIsListed(list, key);
    }
  }

  lemma LocIsListed(list: SegList, key: u64)
    requires LocsTrue(list) && key in list.locs
    ensures list.locs[key].seg in Ids(list.segs)
  {
    assert Points(list.segs, list.locs[key], key);
  }

  /** A segment whose bitmap its reader knows keeps the map alive. */
  lemma LiveAdded(list: SegList, dirs: map<nat, Dir>, e: Entry)
    requires MapLive(list, dirs) && e.id in dirs && dirs[e.id].dead <= e.dead
    ensures MapLive(Added(list, e), dirs)
  {
    MappedIs(list.locs, e, |e.docs|);
    forall key | key in Added(list, e).locs
      ensures LocLive(Added(list, e).locs[key], dirs)
    {
      if key in list.locs && Added(list, e).locs[key] == list.locs[key] {
        assert LocLive(list.locs[key], dirs);
      }
    }
  }

  lemma LiveReplaced(list: SegList, dirs: map<nat, Dir>, group: set<nat>, e: Entry)
    requires MapLive(list, dirs) && e.id in dirs && dirs[e.id].dead == {}
    ensures MapLive(Replaced(list, group, e), dirs)
  {
    var mid := SegList(Without(list.segs, group), Unmapped(list.locs, group));
    hide Without;
    LiveAdded(mid, dirs, e);
  }

  /** Marking one id leaves the other ids' slots alone. */
  lemma LiveMarked(s: State, id: u64)
    requires ListOk(s) && MapLive(s.mem.list, s.disk.dirs)
    ensures var s' := MarkDeleted(s, id); MapLive(s'.mem.list, s'.disk.dirs)
  {
    hide AllBacked, LocsFull, DistinctIds;
    var s' := MarkDeleted(s, id);
    if id in s.mem.list.locs {
      MarkedSlot(s, id);
      forall key | key in s'.mem.list.locs
        ensures LocLive(s'.mem.list.locs[key], s'.disk.dirs)
      {
        MarkedSlot(s, key);
        assert LocLive(s.mem.list.locs[key], s.disk.dirs);
      }
    }
  }

  lemma {:induction false} LiveOpened(dirs: map<nat, Dir>, order: seq<nat>)
    requires forall i :: i in order ==> i in dirs
    ensures MapLive(OpenList(dirs, order), dirs)
  {
    if order == [] {
      OpenNone(dirs, {});
    } else {
      var front, last := order[..|order| - 1], order[|order| - 1];
      assert order == front + [last];
      LiveOpened(dirs, front);
      OpenSnoc(dirs, front, last);
      hide *;
      if dirs[last].complete {
        LiveAdded(OpenList(dirs, front), dirs, Entry(last, dirs[last].docs, dirs[last].dead));
      }
    }
  }

  lemma DirStepLive(s: State, s': State, touched: set<nat>)
    requires Inv(s) && s.phase != Down && MapLive(s.mem.list, s.disk.dirs) && touched !! Ids(s.mem.list.segs)
    requires s'.mem.list == s.mem.list
    requires forall i :: i in s.disk.dirs && i !in touched ==> i in s'.disk.dirs && s'.disk.dirs[i] == s.disk.dirs[i]
    ensures MapLive(s'.mem.list, s'.disk.dirs)
  {
    hide DiskOk, Safe, Held, PhaseOk, MapLive, AllBacked, LocsFull, DistinctIds, Ids;
    LiveElsewhere(s.mem.list, s.disk.dirs, s'.disk.dirs, touched);
  }

  lemma CreateLive(s: State)
    requires Inv(s) && Enabled(s, CreateDir) && MapLiveUp(s)
    ensures MapLiveUp(Do(s, CreateDir))
  {
    hide Safe, Held, MapTrue, IndexDocs, DeadOk, MapLive;
    ListedIds(s.disk.dirs, s.mem.list.segs);
    DirStepLive(s, Do(s, CreateDir), {s.phase.id});
  }

  lemma CompleteLive(s: State)
    requires Inv(s) && Enabled(s, CompleteDir) && MapLiveUp(s)
    ensures MapLiveUp(Do(s, CompleteDir))
  {
    hide Safe, Held, MapTrue, IndexDocs, DeadOk, MapLive;
    DirStepLive(s, Do(s, CompleteDir), {s.phase.id});
  }

  lemma RemovalLive(s: State, a: Action)
    requires Inv(s) && Enabled(s, a) && (a.Spoil? || a.RemoveDir?) && MapLiveUp(s)
    ensures MapLiveUp(Do(s, a))
  {
    hide Safe, Held, ListOk, IndexDocs, DeadOk, MapLive;
    DirStepLive(s, Do(s, a), {a.dir});
  }

  lemma InstallLive(s: State)
    requires Inv(s) && Enabled(s, Install) && MapLiveUp(s)
    ensures MapLiveUp(Do(s, Install))
  {
    hide DiskOk, Safe, Held, ListOk, IndexDocs, LiveOf, MapLive, Added, Replaced;
    var e := Entry(s.phase.id, s.phase.docs, {});
    if s.phase.job.Flushing? {
      LiveAdded(s.mem.list, s.disk.dirs, e);
    } else {
      LiveReplaced(s.mem.list, s.disk.dirs, s.phase.job.group, e);
    }
  }

  lemma FinishDeleteLive(s: State)
    requires Inv(s) && Enabled(s, FinishDelete) && MapLiveUp(s)
    ensures MapLiveUp(Do(s, FinishDelete))
  {
    hide DiskOk, Safe, Held, PhaseOk, MapTrue, AllBacked, MapLive, MarkDeleted;
    LiveMarked(s.(mem := s.mem.(hidden := s.mem.hidden + {s.phase.target})), s.phase.target);
  }

  lemma ReplayLive(s: State)
    requires Inv(s) && Enabled(s, Replay) && MapLiveUp(s)
    ensures MapLiveUp(Do(s, Replay))
  {
    hide DiskOk, Safe, Held, PhaseOk, MapTrue, AllBacked, MapLive, MarkDeleted, IndexDocs;
    if s.phase.todo[0].Delete? {
      var id := s.phase.todo[0].id;
      LiveMarked(s.(mem := s.mem.(hidden := s.mem.hidden + {id}), phase := Replaying(s.phase.todo[1..])), id);
    }
  }

  lemma ReopenLive(s: State, order: seq<nat>)
    requires Enabled(s, Reopen(order))
    ensures MapLiveUp(Do(s, Reopen(order)))
  {
    hide OpenList, MapLive;
    LiveOpened(s.disk.dirs, order);
  }

  lemma AsideLive(s: State, a: Action)
    requires Enabled(s, a) && MapLiveUp(s)
    requires !a.FinishDelete? && !a.CreateDir? && !a.CompleteDir? && !a.Install? && !a.Spoil? && !a.RemoveDir?
             && !a.Reopen? && !a.Replay?
    ensures MapLiveUp(Do(s, a))
  {
    hide MapLive, Ids, LiveOf;
  }

  /** Every step keeps it: whatever the map points at is not marked on disk. */
  lemma StepKeepsMapLive(s: State, a: Action)
    requires Inv(s) && Enabled(s, a) && MapLiveUp(s)
    ensures MapLiveUp(Do(s, a))
  {
    hide *;
    match a
    case FinishDelete => FinishDeleteLive(s);
    case CreateDir => CreateLive(s);
    case CompleteDir => CompleteLive(s);
    case Install => InstallLive(s);
    case Spoil(_, _, _) => RemovalLive(s, a);
    case RemoveDir(_) => RemovalLive(s, a);
    case Reopen(order) => ReopenLive(s, order);
    case Replay => ReplayLive(s);
    case _ => AsideLive(s, a);
  }

  lemma {:induction false} RunKeepsMapLive(run: seq<Action>)
    requires Legal(run)
    ensures MapLiveUp(Exec(run))
  {
    hide *;
    if run == [] {
      NoMap();
    } else {
      var front, a := run[..|run| - 1], run[|run| - 1];
      assert run == front + [a];
      LegalSnoc(front, a);
      RunKeepsMapLive(front);
      RunKeepsInv(front);
      StepKeepsMapLive(Exec(front), a);
    }
  }

  lemma NoMap()
    ensures Legal([]) && MapLiveUp(Exec([]))
  {
  }

  // ---- one delete ------------------------------------------------------------------------

  lemma LiveNone(e: Entry)
    ensures LiveUpTo(e, 0) == []
  {
  }

  lemma LiveNext(id: nat, docs: seq<Document>, dead: set<nat>, n: nat, d: Document)
    requires n < |docs|
    ensures multiset(LiveUpTo(Entry(id, docs, dead), n + 1))[d] ==
              multiset(LiveUpTo(Entry(id, docs, dead), n))[d] + if n !in dead && docs[n] == d then 1 else 0
  {
    assert Entry(id, docs, dead).Live(n) <==> n !in dead;
  }

  /** Marking a live slot takes exactly its document out of the live ones. */
  lemma {:induction false} MarkOne(id: nat, docs: seq<Document>, dead: set<nat>, slot: nat, n: nat, d: Document)
    requires slot < |docs| && slot !in dead && n <= |docs|
    ensures multiset(LiveUpTo(Entry(id, docs, dead), n))[d] ==
              multiset(LiveUpTo(Entry(id, docs, dead + {slot}), n))[d] + if slot < n && docs[slot] == d then 1 else 0
  {
    hide LiveUpTo;
    LiveNone(Entry(id, docs, dead));
    LiveNone(Entry(id, docs, dead + {slot}));
    if n > 0 {
      MarkOne(id, docs, dead, slot, n - 1, d);
      LiveNext(id, docs, dead, n - 1, d);
      LiveNext(id, docs, dead + {slot}, n - 1, d);
    }
  }

  ghost function Served(list: SegList, id: u64): multiset<Document> {
    var found := GetDoc(list, id);
    if found.Some? then multiset{found.value} else multiset{}
  }

  /** A lookup reads the slot on disk. */
  lemma ServedFromDisk(s: State, id: u64)
    requires ListOk(s) && id in s.mem.list.locs
    ensures var loc := s.mem.list.locs[id];
            && loc.seg in s.disk.dirs && s.disk.dirs[loc.seg].complete && loc.slot < |s.disk.dirs[loc.seg].docs|
            && GetDoc(s.mem.list, id) == Some(s.disk.dirs[loc.seg].docs[loc.slot])
  {
    hide LocsFull;
    var loc, segs := s.mem.list.locs[id], s.mem.list.segs;
    assert Points(segs, loc, id);
    var i :| 0 <= i < |segs| && segs[i].id == loc.seg && segs[i].Live(loc.slot) && segs[i].docs[loc.slot].id == id;
    FindIs(segs, i);
    assert Backed(s.disk.dirs, segs[i]);
  }

  /** The state after a delete call, from the one before. */
  ghost function AfterDelete(s: State, id: u64): State
    requires s.phase == Idle
  {
    Do(Do(s, StartDelete(id)), FinishDelete)
  }

  lemma DeleteIs(s: State, id: u64) returns (s': State)
    requires Inv(s) && s.phase == Idle
    ensures s' == AfterDelete(s, id) && s'.phase == Idle && Inv(s')
    ensures s'.disk.wal == s.disk.wal + [WalEntry.Delete(id)] && s'.mem.hidden == s.mem.hidden + {id}
    ensures s'.mem.buffer == s.mem.buffer && s'.mem.nextSeg == s.mem.nextSeg
    ensures s'.mem.list == SegList(s.mem.list.segs, s.mem.list.locs - {id})
    ensures id !in s.mem.list.locs ==> s'.disk.dirs == s.disk.dirs
    ensures id in s.mem.list.locs ==>
              var loc := s.mem.list.locs[id];
              loc.seg in s.disk.dirs && s'.disk.dirs ==
                s.disk.dirs[loc.seg := s.disk.dirs[loc.seg].(dead := s.disk.dirs[loc.seg].dead + {loc.slot})]
  {
    hide DiskOk, Safe, Held, IndexDocs, AllBacked, LocsFull, LocsTrue, DistinctIds;
    s' := AfterDelete(s, id);
    StepKeepsInv(s, StartDelete(id));
    StepKeepsInv(Do(s, StartDelete(id)), FinishDelete);
    if id in s.mem.list.locs {
      MarkedSlot(s, id);
    } else {
      assert s.mem.list.locs - {id} == s.mem.list.locs;
    }
  }

  lemma MarkedDirLive(s: State, dirs': map<nat, Dir>, id: u64)
    requires ListOk(s) && MapLive(s.mem.list, s.disk.dirs) && id in s.mem.list.locs
    requires var loc := s.mem.list.locs[id];
             loc.seg in s.disk.dirs
             && dirs' == s.disk.dirs[loc.seg := s.disk.dirs[loc.seg].(dead := s.disk.dirs[loc.seg].dead + {loc.slot})]
    ensures var i := s.mem.list.locs[id].seg;
            DirLive(s.disk.dirs, i) == DirLive(dirs', i) + Served(s.mem.list, id)
  {
    var loc := s.mem.list.locs[id];
    assert LocLive(loc, s.disk.dirs);
    hide MapTrue, AllBacked, GetDoc, LiveUpTo, MapLive;
    ServedFromDisk(s, id);
    var dir := s.disk.dirs[loc.seg];
    forall d
      ensures DirLive(s.disk.dirs, loc.seg)[d] == (DirLive(dirs', loc.seg) + Served(s.mem.list, id))[d]
    {
      MarkOne(loc.seg, dir.docs, dir.dead, loc.slot, |dir.docs|, d);
    }
  }

  /** A delete is in the log, and for a mapped id in the bitmap on disk: of the live documents on disk
      exactly the one that was served is gone. */
  lemma DeleteMarksDisk(s: State, id: u64, n: nat)
    requires Inv(s) && s.phase == Idle && MapLiveUp(s) && Recovery.Below(s.disk.dirs, n)
    ensures var s' := AfterDelete(s, id);
            && s'.disk.wal == s.disk.wal + [WalEntry.Delete(id)]
            && (id in s.mem.list.locs ==>
                  var loc := s.mem.list.locs[id];
                  loc.seg in s'.disk.dirs && loc.slot in s'.disk.dirs[loc.seg].dead)
            && DiskLive(s.disk.dirs, n) == DiskLive(s'.disk.dirs, n) + Served(s.mem.list, id)
  {
    hide AfterDelete, DirLive, DiskOk, Safe, Held, PhaseOk, AllBacked, MapTrue, DiskLive, Served;
    var s' := DeleteIs(s, id);
    if id in s.mem.list.locs {
      var i := s.mem.list.locs[id].seg;
      MarkedDirLive(s, s'.disk.dirs, id);
      forall k: nat | k < n && k != i
        ensures DirLive(s.disk.dirs, k) == DirLive(s'.disk.dirs, k)
      {
        SameDirLive(s.disk.dirs, s'.disk.dirs, k);
      }
      DiskLiveChange(s.disk.dirs, s'.disk.dirs, i, n);
      TakeOut(DiskLive(s.disk.dirs, n), DiskLive(s'.disk.dirs, n), DirLive(s.disk.dirs, i), DirLive(s'.disk.dirs, i),
              Served(s.mem.list, id));
    } else {
      NothingServed(s.mem.list, id);
    }
  }

  lemma NothingServed(list: SegList, id: u64)
    requires id !in list.locs
    ensures Served(list, id) == multiset{}
  {
  }

  lemma SameDirLive(dirs: map<nat, Dir>, dirs': map<nat, Dir>, k: nat)
    requires (k in dirs <==> k in dirs') && (k in dirs ==> dirs[k] == dirs'[k])
    ensures DirLive(dirs, k) == DirLive(dirs', k)
  {
  }

  lemma TakeOut(a: multiset<Document>, b: multiset<Document>, x: multiset<Document>, y: multiset<Document>,
                e: multiset<Document>)
    requires b + x == a + y && x == y + e
    ensures a == b + e
  {
    assert (b + e) + y == a + y;
    assert a == (a + y) - y;
    assert b + e == ((b + e) + y) - y;
  }

  // ---- what searches and lookups see afterwards ------------------------------------------

  /** What a search can see: the open segments, and the buffer without its marked documents. */
  ghost function Shown(mem: Mem): multiset<Document> {
    multiset(Visible(mem.list.segs)) + multiset(Unhidden(mem.buffer, mem.hidden))
  }

  /** Searches lose the buffered documents of the id and go on showing those of open segments. */
  lemma DeleteShows(s: State, id: u64, d: Document)
    requires Inv(s) && s.phase == Idle
    ensures Shown(AfterDelete(s, id).mem)[d] ==
            if d.id == id then multiset(Visible(s.mem.list.segs))[d] else Shown(s.mem)[d]
  {
    hide Inv, AfterDelete, Visible, Unhidden;
    var s' := DeleteIs(s, id);
    UnhiddenCounts(s.mem.buffer, s.mem.hidden, d);
    UnhiddenCounts(s.mem.buffer, s.mem.hidden + {id}, d);
  }

  /** After a delete returns, searches no longer show the id if and only if no open segment does. */
  lemma DeleteSearchesIff(s: State, id: u64)
    requires Inv(s) && s.phase == Idle
    ensures (forall d :: d in Shown(AfterDelete(s, id).mem) ==> d.id != id) <==>
              forall d :: d in Visible(s.mem.list.segs) ==> d.id != id
  {
    hide Inv, Visible, Shown, AfterDelete;
    forall d: Document
      ensures d.id == id ==>
                (d in Shown(AfterDelete(s, id).mem) <==> d in Visible(s.mem.list.segs))
    {
      DeleteShows(s, id, d);
      assert d in multiset(Visible(s.mem.list.segs)) <==> d in Visible(s.mem.list.segs);
    }
  }

  // ---- what comes back after a crash -----------------------------------------------------

  lemma {:induction false} ReplayedKeeps(s: State)
    requires Inv(s) && s.phase.Replaying?
    ensures Inv(Replayed(s))
    ensures forall id :: id in Replayed(s).mem.list.locs <==>
              id in s.mem.list.locs && WalEntry.Delete(id) !in s.phase.todo
    ensures forall id :: id in Replayed(s).mem.hidden <==> id in s.mem.hidden || WalEntry.Delete(id) in s.phase.todo
    decreases |s.phase.todo|
  {
    hide Inv, Do, Enabled;
    if s.phase.todo == [] {
      DoFinishReplay(s);
      StepKeepsInv(s, FinishReplay);
    } else {
      DoReplay(s);
      StepKeepsInv(s, Replay);
      var next, e, rest := Do(s, Replay), s.phase.todo[0], s.phase.todo[1..];
      assert s.phase.todo == [e] + rest;
      ReplayedKeeps(next);
      ReplayUnmaps(s);
    }
  }

  lemma ReplayUnmaps(s: State)
    requires Inv(s) && s.phase.Replaying? && s.phase.todo != []
    ensures var s', e := Do(s, Replay), s.phase.todo[0];
            && Enabled(s, Replay) && s'.phase == Replaying(s.phase.todo[1..])
            && (forall id :: id in s'.mem.list.locs <==> id in s.mem.list.locs && e != WalEntry.Delete(id))
            && (forall id :: id in s'.mem.hidden <==> id in s.mem.hidden || e == WalEntry.Delete(id))
  {
    hide DiskOk, Safe, Held, PhaseOk, MapTrue, AllBacked;
    DoReplay(s);
    if s.phase.todo[0].Delete? && s.phase.todo[0].id in s.mem.list.locs {
      MarkedSlot(s, s.phase.todo[0].id);
    }
  }

  /** An id is mapped on opening if and only if a complete directory holds a live document of it. */
  lemma OpenedMapsIff(dirs: map<nat, Dir>, order: seq<nat>, id: u64)
    requires Lists(order, dirs)
    ensures id in OpenList(dirs, order).locs <==> exists d :: OnDisk(dirs, d) && d.id == id
  {
    hide OpenList;
    var list := OpenList(dirs, order);
    if exists d :: OnDisk(dirs, d) && d.id == id {
      var d :| OnDisk(dirs, d) && d.id == id;
      KeptOpened(dirs, order, d);
    }
    if id in list.locs {
      OpenIsTrue(dirs, order, {});
      OpenedIsUpToDate(dirs, order);
      var loc := list.locs[id];
      assert Points(list.segs, loc, id);
      var i :| 0 <= i < |list.segs| && list.segs[i].id == loc.seg && list.segs[i].Live(loc.slot)
               && list.segs[i].docs[loc.slot].id == id;
      assert Backed(dirs, list.segs[i]);
      assert OnDisk(dirs, list.segs[i].docs[loc.slot]);
    }
  }

  lemma RecoveredIs(s: State, order: seq<nat>) returns (up: State)
    requires Inv(s) && s.phase != Down && Lists(order, s.disk.dirs)
    ensures Inv(up) && up.phase == Replaying(s.disk.wal) && Recovered(s, order) == Replayed(up)
    ensures up.mem == Mem([], {}, OpenList(s.disk.dirs, order), MaxOf(order) + 1) && up.disk == s.disk
  {
    hide Inv, Lists, Replayed;
    var down := s.(phase := Down);
    assert Enabled(s, Crash) && Do(s, Crash) == down;
    StepKeepsInv(s, Crash);
    DoReopen(down, order);
    StepKeepsInv(down, Reopen(order));
    up := Do(down, Reopen(order));
  }

  /** After a crash, reopening and a full replay a lookup finds the id if and only if the log still
      holds a document of it, or it holds no delete of it and a complete directory holds a live one. */
  lemma RecoveredFindsIff(s: State, order: seq<nat>, id: u64)
    requires Inv(s) && s.phase != Down && Lists(order, s.disk.dirs)
    ensures GetOne(Recovered(s, order).mem, id).Some? <==>
              || (exists d :: d in IndexDocs(s.disk.wal) && d.id == id)
              || (WalEntry.Delete(id) !in s.disk.wal && exists d :: OnDisk(s.disk.dirs, d) && d.id == id)
  {
    hide Inv, Lists, Replayed, Recovered, OnDisk, OpenList, IndexDocs, GetOne;
    var up := RecoveredIs(s, order);
    var r := Recovered(s, order);
    ReplayedKeeps(up);
    ReplayedIs(up);
    OpenedMapsIff(s.disk.dirs, order, id);
    FindsIff(r, id);
    assert [] + IndexDocs(s.disk.wal) == IndexDocs(s.disk.wal);
  }

  lemma FindsIff(s: State, id: u64)
    requires Inv(s) && s.phase == Idle
    ensures GetOne(s.mem, id).Some? <==> id in s.mem.list.locs || exists d :: d in s.mem.buffer && d.id == id
  {
    hide DiskOk, Safe, Held, PhaseOk, AllBacked, LocsFull, FirstWithId, GetDoc;
    GetDocIsTrue(s.mem.list, id);
    FirstIs(s.mem.buffer, id);
  }

  /** Among the live documents on disk are those in live slots of complete directories. */
  lemma {:induction false} DiskLiveHas(dirs: map<nat, Dir>, n: nat, d: Document)
    ensures d in DiskLive(dirs, n) <==> exists i: nat :: i < n && d in DirLive(dirs, i)
  {
    hide DirLive;
    if n > 0 {
      DiskLiveHas(dirs, n - 1, d);
      if exists i: nat :: i < n && d in DirLive(dirs, i) {
        var i: nat :| i < n && d in DirLive(dirs, i);
        assert i == n - 1 || i < n - 1;
      }
    }
  }

  lemma DirLiveHas(dirs: map<nat, Dir>, i: nat, d: Document)
    ensures d in DirLive(dirs, i) <==>
              i in dirs && dirs[i].complete
              && exists slot :: 0 <= slot < |dirs[i].docs| && slot !in dirs[i].dead && dirs[i].docs[slot] == d
  {
    if i in dirs && dirs[i].complete {
      var e := Entry(i, dirs[i].docs, dirs[i].dead);
      LiveDocsAre(e, d);
      hide LiveDocs;
      assert d in multiset(LiveDocs(e)) <==> d in LiveDocs(e);
      if Shows(e, d) {
        var slot :| e.Live(slot) && e.docs[slot] == d;
      }
      if exists slot :: 0 <= slot < |dirs[i].docs| && slot !in dirs[i].dead && dirs[i].docs[slot] == d {
        var slot :| 0 <= slot < |dirs[i].docs| && slot !in dirs[i].dead && dirs[i].docs[slot] == d;
        assert e.Live(slot);
      }
    }
  }

  lemma DiskLiveIs(dirs: map<nat, Dir>, n: nat, d: Document)
    requires Recovery.Below(dirs, n)
    ensures d in DiskLive(dirs, n) <==> OnDisk(dirs, d)
  {
    hide DirLive, DiskLive;
    DiskLiveHas(dirs, n, d);
    if d in DiskLive(dirs, n) {
      var i: nat :| i < n && d in DirLive(dirs, i);
      DirLiveHas(dirs, i, d);
    }
    if OnDisk(dirs, d) {
      var i, slot :| i in dirs && dirs[i].complete && 0 <= slot < |dirs[i].docs| && slot !in dirs[i].dead
                     && dirs[i].docs[slot] == d;
      DirLiveHas(dirs, i, d);
    }
  }

  /** After recovery searches show exactly the live documents of complete directories, and the logged
      ones no delete of which is in the log. */
  lemma RecoveredShowsIff(s: State, order: seq<nat>, d: Document)
    requires Inv(s) && s.phase != Down && Lists(order, s.disk.dirs)
    ensures d in Shown(Recovered(s, order).mem) <==>
              OnDisk(s.disk.dirs, d) || (d in IndexDocs(s.disk.wal) && WalEntry.Delete(d.id) !in s.disk.wal)
  {
    hide Inv, Lists, Replayed, Recovered, OnDisk, OpenList, IndexDocs, Visible, Unhidden, DiskLive;
    var up := RecoveredIs(s, order);
    var r, n := Recovered(s, order), s.top + 1;
    ReplayedKeeps(up);
    ReplayedIs(up);
    BelowTop(s);
    OpenedShowsDisk(s.disk.dirs, order, n);
    DiskLiveIs(s.disk.dirs, n, d);
    UnhiddenCounts(r.mem.buffer, r.mem.hidden, d);
    assert [] + IndexDocs(s.disk.wal) == IndexDocs(s.disk.wal);
    assert d in multiset(r.mem.buffer) <==> d in r.mem.buffer;
  }

  /** A delete outlives a crash: right after it, crash, reopening and replay do not find the id if and
      only if it was not buffered, and searches then show of it only what is live on disk. */
  lemma DeleteOutlivesCrash(s: State, id: u64, order: seq<nat>)
    requires Inv(s) && s.phase == Idle && Lists(order, AfterDelete(s, id).disk.dirs)
    ensures var r := Recovered(AfterDelete(s, id), order);
            GetOne(r.mem, id).None? <==> forall d :: d in s.mem.buffer ==> d.id != id
    ensures var s' := AfterDelete(s, id);
            forall d: Document :: d.id == id ==> (d in Shown(Recovered(s', order).mem) <==> OnDisk(s'.disk.dirs, d))
  {
    hide AfterDelete, Lists, OnDisk, Recovered, IndexDocs, GetOne, Shown;
    var s' := DeleteIs(s, id);
    RestingLogged(s');
    assert WalEntry.Delete(id) in s'.disk.wal;
    hide Inv;
    RecoveredFindsIff(s', order, id);
    forall d: Document | d.id == id
      ensures d in Shown(Recovered(s', order).mem) <==> OnDisk(s'.disk.dirs, d)
    {
      RecoveredShowsIff(s', order, d);
    }
  }

  lemma RestingLogged(s: State)
    requires Inv(s) && s.phase == Idle
    ensures IndexDocs(s.disk.wal) == s.mem.buffer
  {
    hide DiskOk, Safe, ListOk, Held, IndexDocs;
  }

  // ---- over runs -------------------------------------------------------------------------

  ghost predicate NoneOf(docs: seq<Document>, id: u64) {
    forall d :: d in docs ==> d.id != id
  }

  /** No document of the id is live on disk, logged, buffered, mapped or about to be written. */
  ghost predicate Gone(s: State, id: u64) {
    && (forall d :: OnDisk(s.disk.dirs, d) ==> d.id != id)
    && NoneOf(IndexDocs(s.disk.wal), id)
    && (s.phase != Down ==> id !in s.mem.list.locs && NoneOf(s.mem.buffer, id))
    && match s.phase
       case Creating(_, docs, _) => NoneOf(docs, id)
       case Filling(_, docs, _) => NoneOf(docs, id)
       case Filled(_, docs, _) => NoneOf(docs, id)
       case Replaying(todo) => NoneOf(IndexDocs(todo), id)
       case _ => true
  }

  /** The ways back: indexing the id, a merge or reindex that rewrites a document of it some stale
      reader still shows, and a removed directory that lost its bitmap before the rest. */
  ghost predicate Brings(s: State, a: Action, id: u64)
    requires Enabled(s, a)
  {
    match a
    case AppendRecord => s.phase.rest[0].id == id
    case StartMerge(group) => !NoneOf(LiveOf(s.mem.list.segs, group), id)
    case StartReindex => !NoneOf(LiveOf(s.mem.list.segs, Ids(s.mem.list.segs)), id)
    case Spoil(i, complete, dead) => complete && HoldsLive(Dir(s.disk.dirs[i].docs, complete, dead), id)
    case _ => false
  }

  ghost predicate HoldsLive(dir: Dir, id: u64) {
    exists slot :: 0 <= slot < |dir.docs| && slot !in dir.dead && dir.docs[slot].id == id
  }

  lemma OnDiskIff(dirs: map<nat, Dir>, id: u64)
    ensures (forall d :: OnDisk(dirs, d) ==> d.id != id) <==>
              forall i :: i in dirs && dirs[i].complete ==> !HoldsLive(dirs[i], id)
  {
    forall i | i in dirs && dirs[i].complete && HoldsLive(dirs[i], id)
      ensures exists d :: OnDisk(dirs, d) && d.id == id
    {
      var slot :| 0 <= slot < |dirs[i].docs| && slot !in dirs[i].dead && dirs[i].docs[slot].id == id;
      assert OnDisk(dirs, dirs[i].docs[slot]);
    }
    forall d | OnDisk(dirs, d) && (forall i :: i in dirs && dirs[i].complete ==> !HoldsLive(dirs[i], id))
      ensures d.id != id
    {
      var i, slot :| i in dirs && dirs[i].complete && 0 <= slot < |dirs[i].docs| && slot !in dirs[i].dead
                     && dirs[i].docs[slot] == d;
    }
  }

  lemma NoneHeld(docs: seq<Document>, dead: set<nat>, id: u64)
    requires NoneOf(docs, id)
    ensures !HoldsLive(Dir(docs, true, dead), id)
  {
  }

  lemma JoinNone(a: seq<Document>, b: seq<Document>, id: u64)
    ensures NoneOf(a + b, id) <==> NoneOf(a, id) && NoneOf(b, id)
  {
    if NoneOf(a + b, id) {
      assert forall d :: d in a || d in b ==> d in a + b;
    }
  }

  /** Each step keeps a gone id gone if and only if it is none of the ways back. */
  lemma StepKeepsGoneIff(s: State, a: Action, id: u64)
    requires Inv(s) && Enabled(s, a) && Gone(s, id)
    ensures Gone(Do(s, a), id) <==> !Brings(s, a, id)
  {
    hide Inv, Gone, Brings, Do, Enabled;
    match a
    case AppendRecord => AppendGone(s, id);
    case StartDelete(del) => StartDeleteGone(s, del, id);
    case FinishDelete => FinishDeleteGone(s, id);
    case CreateDir => WriteGone(s, a, id);
    case CompleteDir => WriteGone(s, a, id);
    case Install => InstallGone(s, id);
    case Truncate => TruncateGone(s, id);
    case Spoil(i, complete, dead) => SpoilGone(s, i, complete, dead, id);
    case RemoveDir(i) => RemoveGone(s, i, id);
    case Reopen(order) => ReopenGone(s, order, id);
    case Replay => ReplayGone(s, id);
    case _ => AsideGone(s, a, id);
  }

  lemma AppendGone(s: State, id: u64)
    requires Enabled(s, AppendRecord) && Gone(s, id)
    ensures Gone(Do(s, AppendRecord), id) <==> !Brings(s, AppendRecord, id)
  {
    hide IndexDocs, OnDisk;
    var d := s.phase.rest[0];
    IndexDocsSnoc(s.disk.wal, Index(d));
    JoinNone(IndexDocs(s.disk.wal), [d], id);
    assert d in [d];
  }

  lemma StartDeleteGone(s: State, del: u64, id: u64)
    requires Enabled(s, StartDelete(del)) && Gone(s, id)
    ensures Gone(Do(s, StartDelete(del)), id) && !Brings(s, StartDelete(del), id)
  {
    hide IndexDocs, OnDisk;
    IndexDocsSnoc(s.disk.wal, Delete(del));
    assert IndexDocs(s.disk.wal) + [] == IndexDocs(s.disk.wal);
  }

  /** Marking takes documents away and adds none. */
  lemma MarkedGone(s: State, del: u64, id: u64)
    requires forall d :: OnDisk(s.disk.dirs, d) ==> d.id != id
    ensures forall d :: OnDisk(MarkDeleted(s, del).disk.dirs, d) ==> d.id != id
    ensures MarkDeleted(s, del).mem.list.locs.Keys <= s.mem.list.locs.Keys
  {
    var dirs' := MarkDeleted(s, del).disk.dirs;
    OnDiskIff(s.disk.dirs, id);
    OnDiskIff(dirs', id);
    hide OnDisk;
    forall i | i in dirs' && dirs'[i].complete
      ensures !HoldsLive(dirs'[i], id)
    {
      assert i in s.disk.dirs && !HoldsLive(s.disk.dirs[i], id);
    }
  }

  lemma FinishDeleteGone(s: State, id: u64)
    requires Enabled(s, FinishDelete) && Gone(s, id)
    ensures Gone(Do(s, FinishDelete), id) && !Brings(s, FinishDelete, id)
  {
    hide IndexDocs, OnDisk, MarkDeleted;
    var mid := s.(mem := s.mem.(hidden := s.mem.hidden + {s.phase.target}));
    MarkedGone(mid, s.phase.target, id);
    MarkTouches(mid, s.phase.target);
  }

  lemma MarkTouches(s: State, del: u64)
    ensures var s' := MarkDeleted(s, del);
            s'.disk.wal == s.disk.wal && s'.mem.buffer == s.mem.buffer && s'.phase == s.phase
  {
  }

  lemma WriteGone(s: State, a: Action, id: u64)
    requires Inv(s) && Enabled(s, a) && (a.CreateDir? || a.CompleteDir?) && Gone(s, id)
    ensures Gone(Do(s, a), id) && !Brings(s, a, id)
  {
    hide Inv, IndexDocs;
    var s' := Do(s, a);
    OnDiskIff(s.disk.dirs, id);
    OnDiskIff(s'.disk.dirs, id);
    NoneHeld(s.phase.docs, {}, id);
    hide OnDisk;
    forall i | i in s'.disk.dirs && s'.disk.dirs[i].complete
      ensures !HoldsLive(s'.disk.dirs[i], id)
    {
      if i != s.phase.id {
        assert !HoldsLive(s.disk.dirs[i], id);
      }
    }
  }

  lemma MappedNone(locs: map<u64, Loc>, e: Entry, id: u64)
    requires id !in locs && NoneOf(e.docs, id)
    ensures id !in Mapped(locs, e, |e.docs|)
  {
    MappedIs(locs, e, |e.docs|);
    assert forall slot :: 0 <= slot < |e.docs| ==> e.docs[slot].id != id;
  }

  lemma InstallGone(s: State, id: u64)
    requires Enabled(s, Install) && Gone(s, id)
    ensures Gone(Do(s, Install), id) && !Brings(s, Install, id)
  {
    hide IndexDocs, OnDisk, Mapped, Without;
    var e := Entry(s.phase.id, s.phase.docs, {});
    MappedNone(s.mem.list.locs, e, id);
    if s.phase.job.Merging? {
      MappedNone(Unmapped(s.mem.list.locs, s.phase.job.group), e, id);
    }
  }

  lemma TruncateGone(s: State, id: u64)
    requires Enabled(s, Truncate) && Gone(s, id)
    ensures Gone(Do(s, Truncate), id) && !Brings(s, Truncate, id)
  {
    IndexDocsNone();
    hide IndexDocs, OnDisk;
  }

  lemma SpoilGone(s: State, k: nat, complete: bool, dead: set<nat>, id: u64)
    requires Enabled(s, Spoil(k, complete, dead)) && Gone(s, id)
    ensures Gone(Do(s, Spoil(k, complete, dead)), id) <==> !Brings(s, Spoil(k, complete, dead), id)
  {
    hide IndexDocs, HoldsLive;
    var s' := Do(s, Spoil(k, complete, dead));
    OnDiskIff(s.disk.dirs, id);
    OnDiskIff(s'.disk.dirs, id);
    hide OnDisk;
    forall i | i in s'.disk.dirs && i != k
      ensures s'.disk.dirs[i] == s.disk.dirs[i]
    {
    }
    assert s'.disk.dirs[k] == Dir(s.disk.dirs[k].docs, complete, dead);
  }

  lemma RemoveGone(s: State, k: nat, id: u64)
    requires Enabled(s, RemoveDir(k)) && Gone(s, id)
    ensures Gone(Do(s, RemoveDir(k)), id) && !Brings(s, RemoveDir(k), id)
  {
    hide IndexDocs, HoldsLive;
    OnDiskIff(s.disk.dirs, id);
    OnDiskIff(s.disk.dirs - {k}, id);
    hide OnDisk;
  }

  lemma ReopenGone(s: State, order: seq<nat>, id: u64)
    requires Enabled(s, Reopen(order)) && Gone(s, id)
    ensures Gone(Do(s, Reopen(order)), id) && !Brings(s, Reopen(order), id)
  {
    hide IndexDocs, OnDisk, OpenList, MaxOf;
    OpenedMapsIff(s.disk.dirs, order, id);
  }

  lemma ReplayGone(s: State, id: u64)
    requires Enabled(s, Replay) && Gone(s, id)
    ensures Gone(Do(s, Replay), id) && !Brings(s, Replay, id)
  {
    hide IndexDocs, OnDisk, MarkDeleted;
    IndexDocsCons(s.phase.todo);
    var e, rest := s.phase.todo[0], s.phase.todo[1..];
    JoinNone(DocOf(e), IndexDocs(rest), id);
    match e
    case Index(d) =>
      assert d in DocOf(e);
      JoinNone(s.mem.buffer, [d], id);
    case Delete(del) =>
      var mid := s.(mem := s.mem.(hidden := s.mem.hidden + {del}), phase := Replaying(rest));
      MarkedGone(mid, del, id);
      MarkTouches(mid, del);
  }

  lemma AsideGone(s: State, a: Action, id: u64)
    requires Inv(s) && Enabled(s, a) && Gone(s, id)
    requires a.StartIndex? || a.FinishIndex? || a.StartFlush? || a.StartMerge? || a.StartReindex? || a.GiveUp?
             || a.FinishRemoving? || a.Crash? || a.FinishReplay?
    ensures Gone(Do(s, a), id) <==> !Brings(s, a, id)
  {
    hide DiskOk, Safe, Held, ListOk, IndexDocs, OnDisk, LiveOf, Ids;
    if a.FinishIndex? {
      JoinNone(s.mem.buffer, s.phase.done, id);
    }
  }

  /** A gone id is not found. */
  lemma GoneIsNotFound(s: State, id: u64)
    requires Gone(s, id) && s.phase == Idle
    ensures GetOne(s.mem, id).None?
  {
    hide OnDisk, IndexDocs, FirstWithId;
    FirstIs(s.mem.buffer, id);
  }

  /** Right after a delete the id is gone if and only if it is not buffered and the disk held no live
      document of it but the one that was served. */
  lemma DeleteLeavesGoneIff(s: State, id: u64, n: nat)
    requires Inv(s) && s.phase == Idle && MapLiveUp(s) && Recovery.Below(s.disk.dirs, n)
    ensures Gone(AfterDelete(s, id), id) <==>
              && NoneOf(s.mem.buffer, id)
              && forall d :: d in DiskLive(s.disk.dirs, n) - Served(s.mem.list, id) ==> d.id != id
  {
    hide AfterDelete, OnDisk, IndexDocs, DiskLive, Served, MapLiveUp, DiskOk, Safe, Held, PhaseOk, ListOk;
    var s' := DeleteIs(s, id);
    RestingLogged(s');
    DeleteMarksDisk(s, id, n);
    assert DiskLive(s.disk.dirs, n) - Served(s.mem.list, id) == DiskLive(s'.disk.dirs, n);
    assert Recovery.Below(s'.disk.dirs, n);
    forall d
      ensures d in DiskLive(s'.disk.dirs, n) <==> OnDisk(s'.disk.dirs, d)
    {
      DiskLiveIs(s'.disk.dirs, n, d);
    }
  }

  /** No step of `more` is a way back. */
  ghost predicate NeverBrings(run: seq<Action>, more: seq<Action>, id: u64)
    requires Legal(run + more)
    decreases |more|
  {
    more == [] ||
      var front, a := more[..|more| - 1], more[|more| - 1];
      assert run + more == (run + front) + [a];
      LegalSnoc(run + front, a);
      NeverBrings(run, front, id) && !Brings(Exec(run + front), a, id)
  }

  lemma NeverBringsSnoc(run: seq<Action>, front: seq<Action>, a: Action, id: u64)
    requires Legal(run + (front + [a])) && NeverBrings(run, front + [a], id)
    ensures Legal(run + front) && Enabled(Exec(run + front), a) && Exec(run + (front + [a])) == Do(Exec(run + front), a)
    ensures NeverBrings(run, front, id) && !Brings(Exec(run + front), a, id)
  {
    hide Brings, Do, Enabled;
    assert (front + [a])[..|front|] == front;
    assert run + (front + [a]) == (run + front) + [a];
    LegalSnoc(run + front, a);
  }

  /** Over every run, crashes included: an id that is gone stays gone and is never found, until a step
      brings it back. */
  lemma {:induction false} DeletedStaysGone(run: seq<Action>, more: seq<Action>, id: u64)
    requires Legal(run) && Gone(Exec(run), id) && Legal(run + more) && NeverBrings(run, more, id)
    ensures Gone(Exec(run + more), id)
    ensures Exec(run + more).phase == Idle ==> GetOne(Exec(run + more).mem, id).None?
  {
    hide *;
    if more == [] {
      assert run + more == run;
    } else {
      var front, a := more[..|more| - 1], more[|more| - 1];
      assert more == front + [a];
      NeverBringsSnoc(run, front, a, id);
      DeletedStaysGone(run, front, id);
      RunKeepsInv(run + front);
      StepKeepsGoneIff(Exec(run + front), a, id);
    }
    if Exec(run + more).phase == Idle {
      GoneIsNotFound(Exec(run + more), id);
    }
  }
}
