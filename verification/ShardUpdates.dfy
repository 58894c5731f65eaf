/** Deleting an id and indexing it again, the ordinary update: over every run, what was acknowledged
    since the last request to delete its id is kept. */
module ShardUpdates {
  import opened Base
  import opened Documents
  import opened SegmentLists
  import opened ShardModel
  import opened ShardRuns
  import opened ShardSafety
  import opened ShardSteps
  import opened Wal

  /** The documents acknowledged since the last request to delete this id. */
  ghost function AckedSince(run: seq<Action>, id: u64): seq<Document>
    requires Legal(run)
  {
    if run == [] || run[|run| - 1] == StartDelete(id) then [] else
      AckedSince(run[..|run| - 1], id) +
      if run[|run| - 1] == FinishIndex then Exec(run[..|run| - 1]).phase.done else []
  }

  /** The documents logged, and not asked to be deleted since. */
  function StandingNext(standing: set<Document>, s: State, a: Action): set<Document> {
    match a
    case AppendRecord => if s.phase.Appending? && s.phase.rest != [] then standing + {s.phase.rest[0]} else standing
    case StartDelete(id) => set d | d in standing && d.id != id
    case _ => standing
  }

  ghost function Standing(run: seq<Action>): set<Document>
    requires Legal(run)
  {
    if run == [] then {} else StandingNext(Standing(run[..|run| - 1]), Exec(run[..|run| - 1]), run[|run| - 1])
  }

  /** An open reader shows d in a slot that is not marked on disk either. */
  ghost predicate LiveListed(dirs: map<nat, Dir>, segs: seq<Entry>, d: Document) {
    exists i, slot :: 0 <= i < |segs| && LiveIn(dirs, segs[i], slot, d)
  }

  ghost predicate LiveIn(dirs: map<nat, Dir>, e: Entry, slot: int, d: Document) {
    e.Live(slot) && e.docs[slot] == d && e.id in dirs && slot !in dirs[e.id].dead
  }

  ghost predicate Kept(list: SegList, dirs: map<nat, Dir>, d: Document) {
    LiveListed(dirs, list.segs, d) && d.id in list.locs
  }

  /** Where standing documents are.  A Delete in the log can only mark a standing document while the
      log still holds that document too. */
  ghost predicate StandOk(s: State, standing: set<Document>) {
    && (forall d :: d in standing && Delete(d.id) in s.disk.wal ==> d in IndexDocs(s.disk.wal))
    && (forall d :: d in standing ==> d in IndexDocs(s.disk.wal) || Somewhere(s, d))
    && match s.phase
       case Appending(done, _) => forall d :: d in done ==> d in standing
       case Deleting(target) => forall d :: d in standing ==> d.id != target
       case Truncating => forall d :: d in standing ==> Kept(s.mem.list, s.disk.dirs, d)
       case Replaying(todo) => forall id :: Delete(id) in todo ==> Delete(id) in s.disk.wal
       case _ => true
  }

  ghost predicate Somewhere(s: State, d: Document) {
    if s.phase == Down then OnDisk(s.disk.dirs, d) else Kept(s.mem.list, s.disk.dirs, d)
  }

  // ---- what keeps a document kept --------------------------------------------------------

  lemma LiveIsOnDisk(dirs: map<nat, Dir>, segs: seq<Entry>, d: Document)
    requires AllBacked(dirs, segs) && LiveListed(dirs, segs, d)
    ensures OnDisk(dirs, d)
  {
    var i, slot :| 0 <= i < |segs| && LiveIn(dirs, segs[i], slot, d);
    assert Backed(dirs, segs[i]);
  }

  lemma KeptElsewhere(list: SegList, dirs: map<nat, Dir>, dirs': map<nat, Dir>, touched: set<nat>, d: Document)
    requires Kept(list, dirs, d) && touched !! Ids(list.segs)
    requires forall i :: i in dirs && i !in touched ==> i in dirs' && dirs'[i] == dirs[i]
    ensures Kept(list, dirs', d)
  {
    var i, slot :| 0 <= i < |list.segs| && LiveIn(dirs, list.segs[i], slot, d);
    assert list.segs[i].id in Ids(list.segs);
    assert LiveIn(dirs', list.segs[i], slot, d);
  }

  lemma LiveSnoc(dirs: map<nat, Dir>, segs: seq<Entry>, e: Entry, d: Document)
    ensures LiveListed(dirs, segs, d) ==> LiveListed(dirs, segs + [e], d)
    ensures (exists slot :: LiveIn(dirs, e, slot, d)) ==> LiveListed(dirs, segs + [e], d)
  {
    hide LiveIn;
    var all := segs + [e];
    assert all[|segs|] == e;
    if LiveListed(dirs, segs, d) {
      var i, slot :| 0 <= i < |segs| && LiveIn(dirs, segs[i], slot, d);
      assert all[i] == segs[i];
    }
  }

  lemma KeptAdded(list: SegList, dirs: map<nat, Dir>, e: Entry, d: Document)
    requires Kept(list, dirs, d)
    ensures Kept(Added(list, e), dirs, d)
  {
    hide LiveListed;
    LiveSnoc(dirs, list.segs, e, d);
    MappedIs(list.locs, e, |e.docs|);
  }

  /** A freshly written segment keeps what it holds. */
  lemma KeptFresh(list: SegList, dirs: map<nat, Dir>, id: nat, docs: seq<Document>, d: Document)
    requires id in dirs && dirs[id] == Dir(docs, true, {}) && d in docs
    ensures Kept(Added(list, Entry(id, docs, {})), dirs, d)
  {
    hide LiveListed;
    var e := Entry(id, docs, {});
    var slot :| 0 <= slot < |docs| && docs[slot] == d;
    assert LiveIn(dirs, e, slot, d);
    LiveSnoc(dirs, list.segs, e, d);
    MappedIs(list.locs, e, |docs|);
    assert e.Live(slot);
  }

  lemma LiveWithout(dirs: map<nat, Dir>, segs: seq<Entry>, group: set<nat>, d: Document)
    requires LiveListed(dirs, segs, d)
    ensures LiveListed(dirs, Without(segs, group), d) || d in LiveOf(segs, group)
  {
    hide LiveOf, Without;
    var i, slot :| 0 <= i < |segs| && LiveIn(dirs, segs[i], slot, d);
    if segs[i].id in group {
      LiveOfIs(segs, group, d);
      assert Shows(segs[i], d);
      assert GroupShows(segs, group, d);
    } else {
      WithoutIs(segs, group);
      var k :| 0 <= k < |Without(segs, group)| && Without(segs, group)[k] == segs[i];
      assert LiveIn(dirs, Without(segs, group)[k], slot, d);
    }
  }

  /** The id of a kept document is mapped again after its segment was replaced. */
  lemma MappedAfterSwap(list: SegList, group: set<nat>, id: nat, key: u64)
    requires LocsTrue(list) && key in list.locs
    ensures key in Replaced(list, group, Entry(id, LiveOf(list.segs, group), {})).locs
  {
    hide LiveOf, LocsTrue, Without;
    var e := Entry(id, LiveOf(list.segs, group), {});
    MappedIs(Unmapped(list.locs, group), e, |e.docs|);
    if list.locs[key].seg in group {
      MergedInherits(list.segs, group, id);
      InheritedId(list, group, e, key);
      var slot :| e.Live(slot) && e.docs[slot].id == key;
    }
  }

  lemma KeptReplaced(list: SegList, dirs: map<nat, Dir>, group: set<nat>, id: nat, docs: seq<Document>, d: Document)
    requires Kept(list, dirs, d) && LocsTrue(list) && docs == LiveOf(list.segs, group)
    requires id in dirs && dirs[id] == Dir(docs, true, {})
    ensures Kept(Replaced(list, group, Entry(id, docs, {})), dirs, d)
  {
    hide LiveListed, LocsTrue, LiveOf, Without, Mapped;
    var e := Entry(id, docs, {});
    MappedAfterSwap(list, group, id, d.id);
    LiveWithout(dirs, list.segs, group, d);
    LiveSnoc(dirs, Without(list.segs, group), e, d);
    if d in docs {
      var slot :| 0 <= slot < |docs| && docs[slot] == d;
      assert LiveIn(dirs, e, slot, d);
    }
  }

  /** Deleting one id leaves documents with other ids kept. */
  lemma KeptMarked(s: State, id: u64, d: Document)
    requires ListOk(s) && Kept(s.mem.list, s.disk.dirs, d) && d.id != id
    ensures var s' := MarkDeleted(s, id);
            Kept(s'.mem.list, s'.disk.dirs, d) && s'.disk.wal == s.disk.wal
  {
    hide MapTrue;
    var s' := MarkDeleted(s, id);
    if id in s.mem.list.locs {
      var loc := s.mem.list.locs[id];
      MarkedSlot(s, id);
      var segs := s.mem.list.segs;
      var i, slot :| 0 <= i < |segs| && LiveIn(s.disk.dirs, segs[i], slot, d);
      assert Backed(s.disk.dirs, segs[i]);
      assert LiveIn(s'.disk.dirs, segs[i], slot, d);
    }
  }

  lemma KeptOpened(dirs: map<nat, Dir>, order: seq<nat>, d: Document)
    requires Lists(order, dirs) && OnDisk(dirs, d)
    ensures Kept(OpenList(dirs, order), dirs, d)
  {
    hide OpenList;
    var list := OpenList(dirs, order);
    var i, slot :| i in dirs && dirs[i].complete && 0 <= slot < |dirs[i].docs| && slot !in dirs[i].dead
                   && dirs[i].docs[slot] == d;
    OpenIsTrue(dirs, order, {});
    var k := OpenedAt(dirs, order, i);
    assert LiveIn(dirs, list.segs[k], slot, d);
    assert list.segs[k].docs[slot].id in list.locs;
  }

  /** Where the opened list has a complete directory. */
  lemma {:induction false} OpenedAt(dirs: map<nat, Dir>, order: seq<nat>, i: nat) returns (k: nat)
    requires (forall j :: j in order ==> j in dirs) && i in order && dirs[i].complete
    ensures k < |OpenList(dirs, order).segs| && OpenList(dirs, order).segs[k] == Entry(i, dirs[i].docs, dirs[i].dead)
  {
    hide *;
    var front, last := order[..|order| - 1], order[|order| - 1];
    assert order == front + [last];
    OpenSnoc(dirs, front, last);
    var list := OpenList(dirs, front);
    if dirs[last].complete {
      AddedSegs(list, Entry(last, dirs[last].docs, dirs[last].dead));
    }
    if last == i {
      k := |list.segs|;
    } else {
      k := OpenedAt(dirs, front, i);
    }
  }

  // ---- one lemma per kind of step --------------------------------------------------------

  /** Steps that change neither the log nor what is open. */
  lemma AsideStands(s: State, s': State, standing: set<Document>)
    requires StandOk(s, standing) && s.phase != Down && s'.phase != Down
    requires s'.disk == s.disk && s'.mem.list == s.mem.list
    requires s'.phase.Appending? ==> forall d :: d in s'.phase.done ==> d in standing
    requires !s'.phase.Deleting? && s'.phase != Truncating && !s'.phase.Replaying?
    ensures StandOk(s', standing)
  {
    hide Kept, IndexDocs;
  }

  lemma AppendStands(s: State, standing: set<Document>)
    requires Inv(s) && StandOk(s, standing) && Enabled(s, AppendRecord)
    ensures StandOk(Do(s, AppendRecord), StandingNext(standing, s, AppendRecord))
  {
    hide Kept, IndexDocs, Inv;
    IndexDocsSnoc(s.disk.wal, Index(s.phase.rest[0]));
  }

  lemma StartDeleteStands(s: State, standing: set<Document>, id: u64)
    requires Inv(s) && StandOk(s, standing) && Enabled(s, StartDelete(id))
    ensures StandOk(Do(s, StartDelete(id)), StandingNext(standing, s, StartDelete(id)))
  {
    hide Kept, IndexDocs, Inv;
    IndexDocsSnoc(s.disk.wal, Delete(id));
    assert IndexDocs(s.disk.wal + [Delete(id)]) == IndexDocs(s.disk.wal);
  }

  lemma FinishDeleteStands(s: State, standing: set<Document>)
    requires Inv(s) && StandOk(s, standing) && Enabled(s, FinishDelete)
    ensures StandOk(Do(s, FinishDelete), standing)
  {
    hide Kept, IndexDocs, DiskOk, Safe, Held, PhaseOk, AllBacked, MapTrue, MarkDeleted;
    var mid := s.(mem := s.mem.(hidden := s.mem.hidden + {s.phase.target}));
    var s' := MarkDeleted(mid, s.phase.target);
    MarkKeepsLog(mid, s.phase.target);
    forall d | d in standing && Kept(s.mem.list, s.disk.dirs, d)
      ensures Kept(s'.mem.list, s'.disk.dirs, d)
    {
      KeptMarked(mid, s.phase.target, d);
    }
  }

  lemma MarkKeepsLog(s: State, id: u64)
    ensures MarkDeleted(s, id) == s.(disk := MarkDeleted(s, id).disk, mem := MarkDeleted(s, id).mem)
    ensures MarkDeleted(s, id).disk.wal == s.disk.wal
  {
  }

  /** Steps on directories no reader is open on. */
  lemma ElsewhereStands(s: State, s': State, standing: set<Document>, touched: set<nat>)
    requires StandOk(s, standing) && s.phase != Down && touched !! Ids(s.mem.list.segs)
    requires s'.disk.wal == s.disk.wal && s'.mem.list == s.mem.list
    requires s'.phase.Filling? || s'.phase.Filled? || s'.phase.Removing?
    requires forall i :: i in s.disk.dirs && i !in touched ==> i in s'.disk.dirs && s'.disk.dirs[i] == s.disk.dirs[i]
    ensures StandOk(s', standing)
  {
    hide Kept, IndexDocs;
    forall d | d in standing && Kept(s.mem.list, s.disk.dirs, d)
      ensures Kept(s.mem.list, s'.disk.dirs, d)
    {
      KeptElsewhere(s.mem.list, s.disk.dirs, s'.disk.dirs, touched, d);
    }
  }

  lemma CreateDirStands(s: State, standing: set<Document>)
    requires Inv(s) && StandOk(s, standing) && Enabled(s, CreateDir)
    ensures StandOk(Do(s, CreateDir), standing)
  {
    hide StandOk, Safe, Held, MapTrue, IndexDocs, DeadOk;
    ListedIds(s.disk.dirs, s.mem.list.segs);
    ElsewhereStands(s, Do(s, CreateDir), standing, {s.phase.id});
  }

  lemma CompleteDirStands(s: State, standing: set<Document>)
    requires Inv(s) && StandOk(s, standing) && Enabled(s, CompleteDir)
    ensures StandOk(Do(s, CompleteDir), standing)
  {
    hide StandOk, Safe, Held, MapTrue, IndexDocs, DeadOk;
    ElsewhereStands(s, Do(s, CompleteDir), standing, {s.phase.id});
  }

  lemma SpoilStands(s: State, standing: set<Document>, i: nat, complete: bool, dead: set<nat>)
    requires Inv(s) && StandOk(s, standing) && Enabled(s, Spoil(i, complete, dead))
    ensures StandOk(Do(s, Spoil(i, complete, dead)), standing)
  {
    hide StandOk, Safe, Held, ListOk, IndexDocs, DeadOk;
    ElsewhereStands(s, Do(s, Spoil(i, complete, dead)), standing, {i});
  }

  lemma RemoveDirStands(s: State, standing: set<Document>, i: nat)
    requires Inv(s) && StandOk(s, standing) && Enabled(s, RemoveDir(i))
    ensures StandOk(Do(s, RemoveDir(i)), standing)
  {
    hide StandOk, Safe, Held, ListOk, IndexDocs, DeadOk;
    ElsewhereStands(s, Do(s, RemoveDir(i)), standing, {i});
  }

  lemma InstallFlushStands(s: State, standing: set<Document>)
    requires Inv(s) && StandOk(s, standing) && Enabled(s, Install) && s.phase.job.Flushing?
    ensures StandOk(Do(s, Install), standing)
  {
    hide DiskOk, Safe, Held, ListOk, Kept, IndexDocs, Added;
    var e := Entry(s.phase.id, s.phase.docs, {});
    forall d | d in standing
      ensures Kept(Added(s.mem.list, e), s.disk.dirs, d)
    {
      if d in s.phase.docs {
        KeptFresh(s.mem.list, s.disk.dirs, e.id, e.docs, d);
      } else {
        KeptAdded(s.mem.list, s.disk.dirs, e, d);
      }
    }
  }

  lemma InstallMergeStands(s: State, standing: set<Document>)
    requires Inv(s) && StandOk(s, standing) && Enabled(s, Install) && s.phase.job.Merging?
    ensures StandOk(Do(s, Install), standing)
  {
    hide DiskOk, Safe, Held, AllBacked, Kept, IndexDocs, Replaced, LocsTrue, LocsFull, DistinctIds, LiveOf;
    var e := Entry(s.phase.id, s.phase.docs, {});
    forall d | d in standing && Kept(s.mem.list, s.disk.dirs, d)
      ensures Kept(Replaced(s.mem.list, s.phase.job.group, e), s.disk.dirs, d)
    {
      KeptReplaced(s.mem.list, s.disk.dirs, s.phase.job.group, e.id, e.docs, d);
    }
  }

  lemma TruncateStands(s: State, standing: set<Document>)
    requires Inv(s) && StandOk(s, standing) && Enabled(s, Truncate)
    ensures StandOk(Do(s, Truncate), standing)
  {
    hide Kept, IndexDocs, Inv;
  }

  lemma FinishRemovingStands(s: State, standing: set<Document>)
    requires Inv(s) && StandOk(s, standing) && Enabled(s, FinishRemoving)
    ensures StandOk(Do(s, FinishRemoving), standing)
  {
    hide Kept, IndexDocs, DiskOk, Safe, Held, ListOk;
  }

  lemma CrashStands(s: State, standing: set<Document>)
    requires Inv(s) && StandOk(s, standing) && Enabled(s, Crash)
    ensures StandOk(Do(s, Crash), standing)
  {
    hide LiveListed, OnDisk, IndexDocs, DiskOk, Safe, Held, PhaseOk, MapTrue, AllBacked;
    forall d | d in standing && Kept(s.mem.list, s.disk.dirs, d)
      ensures OnDisk(s.disk.dirs, d)
    {
      LiveIsOnDisk(s.disk.dirs, s.mem.list.segs, d);
    }
  }

  lemma ReopenStands(s: State, standing: set<Document>, order: seq<nat>)
    requires Inv(s) && StandOk(s, standing) && Enabled(s, Reopen(order))
    ensures StandOk(Do(s, Reopen(order)), standing)
  {
    hide Kept, OnDisk, IndexDocs, Inv, OpenList, MaxOf, Lists;
    DoReopen(s, order);
    hide Do, Enabled;
    forall d | d in standing && OnDisk(s.disk.dirs, d)
      ensures Kept(OpenList(s.disk.dirs, order), s.disk.dirs, d)
    {
      KeptOpened(s.disk.dirs, order, d);
    }
  }

  lemma ReplayStands(s: State, standing: set<Document>)
    requires Inv(s) && StandOk(s, standing) && Enabled(s, Replay)
    ensures StandOk(Do(s, Replay), standing)
  {
    hide Kept, IndexDocs, DiskOk, Safe, Held, PhaseOk, AllBacked, MapTrue, MarkDeleted;
    assert forall e :: e in s.phase.todo[1..] ==> e in s.phase.todo;
    if s.phase.todo[0].Delete? {
      var id := s.phase.todo[0].id;
      var mid := s.(mem := s.mem.(hidden := s.mem.hidden + {id}), phase := Replaying(s.phase.todo[1..]));
      var s' := MarkDeleted(mid, id);
      MarkKeepsLog(mid, id);
      assert Delete(id) in s.disk.wal;
      forall d | d in standing && d !in IndexDocs(s.disk.wal)
        ensures Kept(s'.mem.list, s'.disk.dirs, d)
      {
        KeptMarked(mid, id, d);
      }
    }
  }

  lemma StepStands(s: State, standing: set<Document>, a: Action)
    requires Inv(s) && StandOk(s, standing) && Enabled(s, a)
    ensures StandOk(Do(s, a), StandingNext(standing, s, a))
  {
    hide Inv, StandOk, Do, IndexDocs;
    match a
    case AppendRecord => AppendStands(s, standing);
    case StartDelete(id) => StartDeleteStands(s, standing, id);
    case FinishDelete => FinishDeleteStands(s, standing);
    case CreateDir => CreateDirStands(s, standing);
    case CompleteDir => CompleteDirStands(s, standing);
    case Install =>
      if s.phase.job.Flushing? {
        InstallFlushStands(s, standing);
      } else {
        InstallMergeStands(s, standing);
      }
    case Truncate => TruncateStands(s, standing);
    case Spoil(i, complete, dead) => SpoilStands(s, standing, i, complete, dead);
    case RemoveDir(i) => RemoveDirStands(s, standing, i);
    case FinishRemoving => FinishRemovingStands(s, standing);
    case Crash => CrashStands(s, standing);
    case Reopen(order) => ReopenStands(s, standing, order);
    case Replay => ReplayStands(s, standing);
    case _ => OtherStands(s, standing, a);
  }

  lemma OtherStands(s: State, standing: set<Document>, a: Action)
    requires Inv(s) && StandOk(s, standing) && Enabled(s, a)
    requires a.StartIndex? || a.FinishIndex? || a.StartFlush? || a.StartMerge? || a.StartReindex? || a.GiveUp?
             || a.FinishReplay?
    ensures StandOk(Do(s, a), standing)
  {
    hide StandOk, Inv, LiveOf, Ids;
    AsideStands(s, Do(s, a), standing);
  }

  // ---- whole runs ------------------------------------------------------------------------

  lemma StandingSnoc(front: seq<Action>, a: Action)
    requires Legal(front + [a]) && Legal(front) && Enabled(Exec(front), a)
    ensures Standing(front + [a]) == StandingNext(Standing(front), Exec(front), a)
    ensures forall id :: AckedSince(front + [a], id) ==
              if a == StartDelete(id) then []
              else AckedSince(front, id) + if a == FinishIndex then Exec(front).phase.done else []
  {
    hide Exec, Do, Enabled, StandingNext;
    assert (front + [a])[..|front|] == front;
  }

  lemma {:induction false} RunStands(run: seq<Action>)
    requires Legal(run)
    ensures StandOk(Exec(run), Standing(run))
  {
    hide *;
    if run == [] {
      NothingStands();
    } else {
      var front, a := run[..|run| - 1], run[|run| - 1];
      assert run == front + [a];
      LegalSnoc(front, a);
      StandingSnoc(front, a);
      RunStands(front);
      RunKeepsInv(front);
      StepStands(Exec(front), Standing(front), a);
    }
  }

  lemma NothingStands()
    ensures Legal([]) && StandOk(Exec([]), Standing([]))
  {
  }

  lemma StandsOn(standing: set<Document>, s: State, a: Action, d: Document)
    requires d in standing && a != StartDelete(d.id)
    ensures d in StandingNext(standing, s, a)
  {
  }

  lemma DoneStands(s: State, standing: set<Document>)
    requires StandOk(s, standing) && s.phase.Appending?
    ensures forall d :: d in s.phase.done ==> d in standing
  {
    hide Somewhere, IndexDocs;
  }

  lemma FinishAppends(s: State)
    requires Enabled(s, FinishIndex)
    ensures s.phase.Appending?
  {
  }

  lemma {:induction false} AckedStands(run: seq<Action>, d: Document)
    requires Legal(run) && d in AckedSince(run, d.id)
    ensures d in Standing(run)
  {
    hide *;
    if run != [] {
      var front, a := run[..|run| - 1], run[|run| - 1];
      assert run == front + [a];
      LegalSnoc(front, a);
      StandingSnoc(front, a);
      if d in AckedSince(front, d.id) {
        AckedStands(front, d);
      } else {
        FinishAppends(Exec(front));
        RunStands(front);
        DoneStands(Exec(front), Standing(front));
      }
      StandsOn(Standing(front), Exec(front), a, d);
    } else {
      NothingSince(d.id);
    }
  }

  lemma NothingSince(id: u64)
    ensures Legal([]) && AckedSince([], id) == []
  {
  }

  lemma StandingIsHeld(s: State, standing: set<Document>, d: Document)
    requires Inv(s) && StandOk(s, standing) && d in standing
    ensures d in IndexDocs(s.disk.wal) || OnDisk(s.disk.dirs, d)
    ensures s.phase == Idle ==> d in s.mem.buffer || d.id in s.mem.list.locs
  {
    hide LiveListed, OnDisk, IndexDocs, DiskOk, Safe, Held, MapTrue, AllBacked;
    if s.phase != Down && d !in IndexDocs(s.disk.wal) {
      LiveIsOnDisk(s.disk.dirs, s.mem.list.segs, d);
    }
  }

  lemma HeldIsFound(s: State, d: Document)
    requires Inv(s) && s.phase == Idle && (d in s.mem.buffer || d.id in s.mem.list.locs)
    ensures GetOne(s.mem, d.id).Some?
  {
    hide Safe, Held, DiskOk, IndexDocs, FirstWithId, GetDoc, AllBacked, LocsFull;
    GetDocIsTrue(s.mem.list, d.id);
    FirstIs(s.mem.buffer, d.id);
  }

  /** No update is lost: over every run, crashes between any two steps included, a document
      acknowledged since the last request to delete its id is in the log or live in a complete
      segment, and whenever the engine is ready its id is found. */
  lemma NoUpdateLost(run: seq<Action>, d: Document)
    requires Legal(run) && d in AckedSince(run, d.id)
    ensures var s := Exec(run);
            && (d in IndexDocs(s.disk.wal) || OnDisk(s.disk.dirs, d))
            && (s.phase == Idle ==>
                  var found := GetOne(s.mem, d.id);
                  found.Some? && found.value.id == d.id && found.value in s.logged)
  {
    hide *;
    var s := Exec(run);
    AckedStands(run, d);
    RunStands(run);
    RunKeepsInv(run);
    StandingIsHeld(s, Standing(run), d);
    if s.phase == Idle {
      HeldIsFound(s, d);
      GetOneIsLogged(s, d.id);
    }
  }

  /** An id that was never asked to be deleted counts every acknowledged document. */
  lemma {:induction false} NeverDeleted(run: seq<Action>, id: u64)
    requires Legal(run) && StartDelete(id) !in run
    ensures AckedSince(run, id) == Acked(run)
  {
    if run != [] {
      NeverDeleted(run[..|run| - 1], id);
    }
  }
}
