/** Whole runs of the storage protocol, crashes included, and exactly where it forgets a delete
    or serves an old version. */
module ShardRuns {
  import opened Base
  import opened Documents
  import opened SegmentLists
  import opened ShardModel
  import opened ShardSafety
  import opened Wal

  ghost predicate Legal(run: seq<Action>)
    decreases |run|, 0
  {
    run == [] || (Legal(run[..|run| - 1]) && Enabled(Exec(run[..|run| - 1]), run[|run| - 1]))
  }

  /** The state a run reaches from an empty data directory. */
  ghost function Exec(run: seq<Action>): State
    requires Legal(run)
    decreases |run|, 1
  {
    if run == [] then Fresh else Do(Exec(run[..|run| - 1]), run[|run| - 1])
  }

  lemma LegalSnoc(front: seq<Action>, a: Action)
    requires Legal(front + [a])
    ensures Legal(front) && Enabled(Exec(front), a) && Exec(front + [a]) == Do(Exec(front), a)
  {
    assert (front + [a])[..|front|] == front;
  }

  lemma InstallKeeps(s: State)
    requires Inv(s) && Enabled(s, Install)
    ensures Inv(Do(s, Install))
  {
    hide Inv, Do;
    if s.phase.job.Flushing? {
      InstallFlushKeeps(s);
    } else {
      InstallMergeKeeps(s);
    }
  }

  lemma StepKeepsInv(s: State, a: Action)
    requires Inv(s) && Enabled(s, a)
    ensures Inv(Do(s, a))
  {
    hide *;
    match a
    case StartIndex(docs) => StartIndexKeeps(s, docs);
    case AppendRecord => AppendRecordKeeps(s);
    case FinishIndex => FinishIndexKeeps(s);
    case StartDelete(id) => StartDeleteKeeps(s, id);
    case FinishDelete => FinishDeleteKeeps(s);
    case StartFlush => StartFlushKeeps(s);
    case StartMerge(group) => StartMergeKeeps(s, group);
    case StartReindex => StartReindexKeeps(s);
    case CreateDir => CreateDirKeeps(s);
    case CompleteDir => CompleteDirKeeps(s);
    case Install => InstallKeeps(s);
    case Truncate => TruncateKeeps(s);
    case Spoil(i, complete, dead) => SpoilKeeps(s, i, complete, dead);
    case RemoveDir(i) => RemoveDirKeeps(s, i);
    case GiveUp(i) => GiveUpKeeps(s, i);
    case FinishRemoving => FinishRemovingKeeps(s);
    case Crash => CrashKeeps(s);
    case Reopen(order) => ReopenKeeps(s, order);
    case Replay => ReplayKeeps(s);
    case FinishReplay => FinishReplayKeeps(s);
  }

  lemma FreshInv()
    ensures Inv(Fresh)
  {
  }

  lemma ExecNone()
    ensures Legal([]) && Exec([]) == Fresh
  {
  }

  lemma {:induction false} RunKeepsInv(run: seq<Action>)
    requires Legal(run)
    ensures Inv(Exec(run))
  {
    hide *;
    if run == [] {
      ExecNone();
      FreshInv();
    } else {
      var front, a := run[..|run| - 1], run[|run| - 1];
      assert run == front + [a];
      LegalSnoc(front, a);
      RunKeepsInv(front);
      StepKeepsInv(Exec(front), a);
    }
  }

  /** The documents of every index call that returned. */
  ghost function Acked(run: seq<Action>): seq<Document>
    requires Legal(run)
  {
    if run == [] then [] else
      Acked(run[..|run| - 1]) +
      if run[|run| - 1] == FinishIndex then Exec(run[..|run| - 1]).phase.done else []
  }

  lemma AckedSnoc(front: seq<Action>, a: Action)
    requires Legal(front + [a]) && Legal(front) && Enabled(Exec(front), a)
    ensures Acked(front + [a]) == Acked(front) + if a == FinishIndex then Exec(front).phase.done else []
  {
    assert (front + [a])[..|front|] == front;
  }

  lemma DoneLogged(s: State)
    requires Inv(s) && s.phase.Appending?
    ensures forall d :: d in s.phase.done ==> d in s.logged
  {
    hide Safe, ListOk, Held, IndexDocs, DeadOk;
    forall d | d in s.phase.done
      ensures d in s.logged
    {
      assert d in s.mem.buffer + s.phase.done;
    }
  }

  lemma HistoryGrows(s: State, a: Action)
    requires Enabled(s, a)
    ensures s.logged <= Do(s, a).logged
    ensures Do(s, a).deleted == s.deleted + if a.StartDelete? then {a.id} else {}
    ensures a != CreateDir ==> Do(s, a).top == s.top
  {
    hide Added, Replaced, LiveOf, OpenList;
  }

  lemma {:induction false} AckedIsLogged(run: seq<Action>, d: Document)
    requires Legal(run) && d in Acked(run)
    ensures d in Exec(run).logged
  {
    hide Do, Inv, Fresh;
    if run != [] {
      var front, a := run[..|run| - 1], run[|run| - 1];
      assert run == front + [a];
      LegalSnoc(front, a);
      AckedSnoc(front, a);
      HistoryGrows(Exec(front), a);
      if d in Acked(front) {
        AckedIsLogged(front, d);
      } else {
        RunKeepsInv(front);
        DoneLogged(Exec(front));
      }
    }
  }

  lemma {:induction false} DeletedIsRequested(run: seq<Action>, id: u64)
    requires Legal(run)
    ensures id in Exec(run).deleted <==> StartDelete(id) in run
  {
    hide Do, Enabled;
    if run != [] {
      var front, a := run[..|run| - 1], run[|run| - 1];
      assert run == front + [a];
      LegalSnoc(front, a);
      HistoryGrows(Exec(front), a);
      DeletedIsRequested(front, id);
    }
  }

  lemma {:induction false} FirstIs(docs: seq<Document>, id: u64)
    ensures FirstWithId(docs, id).Some? ==> FirstWithId(docs, id).value in docs && FirstWithId(docs, id).value.id == id
    ensures FirstWithId(docs, id).None? ==> forall d :: d in docs ==> d.id != id
  {
    if docs != [] {
      FirstIs(docs[1..], id);
      if docs[0].id != id {
        forall d | d in docs
          ensures d == docs[0] || d in docs[1..]
        {
          var k :| 0 <= k < |docs| && docs[k] == d;
          assert k > 0 ==> docs[1..][k - 1] == d;
        }
      }
    }
  }

  /** Whatever a running engine returns for an id is a logged document with that id. */
  lemma GetOneIsLogged(s: State, id: u64)
    requires Inv(s) && s.phase == Idle && GetOne(s.mem, id).Some?
    ensures GetOne(s.mem, id).value.id == id && GetOne(s.mem, id).value in s.logged
  {
    hide Safe, Held, IndexDocs, DeadOk, LocsFull, FirstWithId, GetDoc, Shows, Listed;
    GetDocIsTrue(s.mem.list, id);
    FirstIs(s.mem.buffer, id);
    if GetDoc(s.mem.list, id).Some? {
      ShownIsLogged(s, GetDoc(s.mem.list, id).value);
    }
  }

  lemma ShownIsLogged(s: State, d: Document)
    requires DiskOk(s) && ListOk(s) && Listed(s.mem.list.segs, d)
    ensures d in s.logged
  {
    hide MapTrue, DeadOk, IndexDocs;
    var i :| 0 <= i < |s.mem.list.segs| && Shows(s.mem.list.segs[i], d);
    assert Backed(s.disk.dirs, s.mem.list.segs[i]);
    assert d in s.mem.list.segs[i].docs;
  }

  /** A running engine finds every logged, never-deleted id. */
  lemma GetOneFinds(s: State, d: Document)
    requires Inv(s) && s.phase == Idle && d in s.logged && d.id !in s.deleted
    ensures GetOne(s.mem, d.id).Some?
  {
    hide Safe, DiskOk, IndexDocs, FirstWithId, GetDoc, AllBacked;
    GetDocIsTrue(s.mem.list, d.id);
    FirstIs(s.mem.buffer, d.id);
    if d !in s.mem.buffer {
      assert Listed(s.mem.list.segs, d);
      var i :| 0 <= i < |s.mem.list.segs| && Shows(s.mem.list.segs[i], d);
      var slot :| s.mem.list.segs[i].Live(slot) && s.mem.list.segs[i].docs[slot] == d;
      assert d.id in s.mem.list.locs;
    }
  }

  /** No acknowledged write is lost: over every run, crashes between any two steps included, an
      acknowledged document whose id nobody asked to delete is in the log or in a complete segment,
      and whenever the engine is ready its id is found. */
  lemma NoAckedWriteLost(run: seq<Action>, d: Document)
    requires Legal(run) && d in Acked(run) && StartDelete(d.id) !in run
    ensures var s := Exec(run);
            && (d in IndexDocs(s.disk.wal) || OnDisk(s.disk.dirs, d))
            && (s.phase == Idle ==>
                  var found := GetOne(s.mem, d.id);
                  found.Some? && found.value.id == d.id && found.value in s.logged)
  {
    hide Do, OnDisk, IndexDocs, DiskOk, Running, GetOne, Enabled;
    var s := Exec(run);
    RunKeepsInv(run);
    AckedIsLogged(run, d);
    DeletedIsRequested(run, d.id);
    if s.phase == Idle {
      GetOneFinds(s, d);
      GetOneIsLogged(s, d.id);
    }
  }

  // ---- segment ids -----------------------------------------------------------------------

  /** The segment ids a run created directories for, in order. */
  ghost function Created(run: seq<Action>): seq<nat>
    requires Legal(run)
  {
    if run == [] then [] else
      Created(run[..|run| - 1]) + if run[|run| - 1] == CreateDir then [Exec(run[..|run| - 1]).phase.id] else []
  }

  lemma CreatesAbove(s: State)
    requires Inv(s) && Enabled(s, CreateDir)
    ensures s.top < s.phase.id == Do(s, CreateDir).top
  {
  }

  lemma CreatedSnoc(front: seq<Action>, a: Action)
    requires Legal(front + [a]) && Legal(front) && Enabled(Exec(front), a)
    ensures Created(front + [a]) == Created(front) + if a == CreateDir then [Exec(front).phase.id] else []
  {
    assert (front + [a])[..|front|] == front;
  }

  /** No segment id is ever used twice, whatever was removed or half removed in between. */
  lemma {:induction false} SegmentIdsNeverReused(run: seq<Action>)
    requires Legal(run)
    ensures forall i, j :: 0 <= i < j < |Created(run)| ==> Created(run)[i] < Created(run)[j]
    ensures forall i :: 0 <= i < |Created(run)| ==> Created(run)[i] <= Exec(run).top
  {
    if run != [] {
      var front, a := run[..|run| - 1], run[|run| - 1];
      assert run == front + [a];
      LegalSnoc(front, a);
      CreatedSnoc(front, a);
      hide *;
      SegmentIdsNeverReused(front);
      RunKeepsInv(front);
      HistoryGrows(Exec(front), a);
      if a == CreateDir {
        CreatesAbove(Exec(front));
      }
    }
  }

  // ---- where deletes and updates are not what they seem ----------------------------------

  /** After a delete returns, `get_docs` no longer finds the id if and only if the write buffer
      holds no document with it: the buffer's delete set is not consulted. */
  lemma DeleteHidesIff(s: State, id: u64)
    requires Inv(s) && s.phase == Idle
    ensures var s' := Do(Do(s, StartDelete(id)), FinishDelete);
            GetOne(s'.mem, id).None? <==> forall d :: d in s.mem.buffer ==> d.id != id
  {
    var mid := Do(s, StartDelete(id));
    StartDeleteKeeps(s, id);
    FirstIs(s.mem.buffer, id);
    DeleteUnmaps(mid);
    hide *;
  }

  lemma DeleteUnmaps(s: State)
    requires Inv(s) && s.phase.Deleting?
    ensures var s' := Do(s, FinishDelete);
            s'.mem.list == SegList(s.mem.list.segs, s.mem.list.locs - {s.phase.target}) && s'.mem.buffer == s.mem.buffer
  {
    hide DiskOk, Safe, Held, IndexDocs;
    if s.phase.target in s.mem.list.locs {
      MarkedSlot(s, s.phase.target);
    } else {
      assert s.mem.list.locs - {s.phase.target} == s.mem.list.locs;
    }
  }

  lemma {:induction false} FirstSnoc(docs: seq<Document>, d: Document)
    ensures FirstWithId(docs + [d], d.id) ==
            if FirstWithId(docs, d.id).Some? then FirstWithId(docs, d.id) else Some(d)
  {
    if docs != [] {
      FirstSnoc(docs[1..], d);
      assert (docs + [d])[1..] == docs[1..] + [d];
    }
  }

  /** After indexing d without a flush, `get_docs` serves d under its id if and only if it served
      nothing, or already d, before: an older version in a segment or in the buffer is preferred. */
  lemma IndexServesNewIff(s: State, d: Document)
    requires s.phase == Idle
    ensures var s' := Do(Do(Do(s, StartIndex([d])), AppendRecord), FinishIndex);
            GetOne(s'.mem, d.id) == Some(d) <==> GetOne(s.mem, d.id) == None || GetOne(s.mem, d.id) == Some(d)
  {
    var s' := Do(Do(Do(s, StartIndex([d])), AppendRecord), FinishIndex);
    assert [] + [d] == [d];
    assert s'.mem.buffer == s.mem.buffer + [d] && s'.mem.list == s.mem.list;
    FirstSnoc(s.mem.buffer, d);
    hide *;
    ServedBySegmentsOrBuffer(s.mem, d.id);
    ServedBySegmentsOrBuffer(s'.mem, d.id);
  }

  lemma ServedBySegmentsOrBuffer(mem: Mem, id: u64)
    ensures GetOne(mem, id) == if GetDoc(mem.list, id).Some? then GetDoc(mem.list, id) else FirstWithId(mem.buffer, id)
  {
  }

  /** The open segments as readers opened now would show them. */
  ghost function Refreshed(dirs: map<nat, Dir>, segs: seq<Entry>): seq<Entry>
    requires AllBacked(dirs, segs)
  {
    seq(|segs|, i requires 0 <= i < |segs| => Now(dirs, segs[i]))
  }

  function Now(dirs: map<nat, Dir>, e: Entry): Entry {
    if e.id in dirs then e.(dead := dirs[e.id].dead) else e
  }

  /** No slot of the segment was marked since its reader was opened. */
  ghost predicate Current(dirs: map<nat, Dir>, e: Entry) {
    forall slot :: 0 <= slot < |e.docs| && slot in Now(dirs, e).dead ==> slot in e.dead
  }

  lemma {:induction false} LiveNow(e: Entry, e': Entry, n: nat)
    requires e'.docs == e.docs && e.dead <= e'.dead && n <= |e.docs|
    ensures |LiveUpTo(e', n)| <= |LiveUpTo(e, n)|
    ensures |LiveUpTo(e', n)| == |LiveUpTo(e, n)| <==>
              forall slot :: 0 <= slot < n && slot in e'.dead ==> slot in e.dead
    ensures |LiveUpTo(e', n)| == |LiveUpTo(e, n)| ==> LiveUpTo(e', n) == LiveUpTo(e, n)
  {
    if n > 0 {
      LiveNow(e, e', n - 1);
    }
  }

  lemma LiveDocsNow(dirs: map<nat, Dir>, e: Entry)
    requires Backed(dirs, e)
    ensures |LiveDocs(Now(dirs, e))| <= |LiveDocs(e)|
    ensures |LiveDocs(Now(dirs, e))| == |LiveDocs(e)| <==> Current(dirs, e)
    ensures Current(dirs, e) ==> LiveDocs(Now(dirs, e)) == LiveDocs(e)
  {
    LiveNow(e, Now(dirs, e), |e.docs|);
  }

  ghost predicate GroupCurrent(dirs: map<nat, Dir>, segs: seq<Entry>, group: set<nat>) {
    forall i :: 0 <= i < |segs| && segs[i].id in group ==> Current(dirs, segs[i])
  }

  lemma CurrentSnoc(dirs: map<nat, Dir>, segs: seq<Entry>, e: Entry, group: set<nat>)
    ensures GroupCurrent(dirs, segs + [e], group) <==>
              GroupCurrent(dirs, segs, group) && (e.id in group ==> Current(dirs, e))
  {
    hide Current;
    var all := segs + [e];
    assert all[|segs|] == e;
    if GroupCurrent(dirs, all, group) {
      forall i | 0 <= i < |segs| && segs[i].id in group
        ensures Current(dirs, segs[i])
      {
        assert all[i] == segs[i];
      }
    }
  }

  lemma RefreshedSnoc(dirs: map<nat, Dir>, segs: seq<Entry>, e: Entry)
    requires AllBacked(dirs, segs + [e])
    ensures AllBacked(dirs, segs) && Backed(dirs, e)
    ensures Refreshed(dirs, segs + [e]) == Refreshed(dirs, segs) + [Now(dirs, e)] && Now(dirs, e).id == e.id
  {
    hide Backed;
    var all := segs + [e];
    assert all[|segs|] == e;
    forall i | 0 <= i < |segs|
      ensures Backed(dirs, segs[i])
    {
      assert all[i] == segs[i];
    }
    forall i | 0 <= i < |segs|
      ensures Refreshed(dirs, all)[i] == Refreshed(dirs, segs)[i]
    {
      assert all[i] == segs[i];
    }
  }

  lemma NothingRefreshed(dirs: map<nat, Dir>, group: set<nat>)
    ensures Refreshed(dirs, []) == [] && LiveOf([], group) == [] && GroupCurrent(dirs, [], group)
  {
  }

  lemma {:induction false} LiveOfNow(dirs: map<nat, Dir>, segs: seq<Entry>, group: set<nat>)
    requires AllBacked(dirs, segs)
    ensures |LiveOf(Refreshed(dirs, segs), group)| <= |LiveOf(segs, group)|
    ensures |LiveOf(Refreshed(dirs, segs), group)| == |LiveOf(segs, group)| <==> GroupCurrent(dirs, segs, group)
    ensures GroupCurrent(dirs, segs, group) ==> LiveOf(Refreshed(dirs, segs), group) == LiveOf(segs, group)
  {
    if segs == [] {
      NothingRefreshed(dirs, group);
    } else {
      hide *;
      var front, last := segs[..|segs| - 1], segs[|segs| - 1];
      assert segs == front + [last];
      RefreshedSnoc(dirs, front, last);
      LiveOfNow(dirs, front, group);
      CurrentSnoc(dirs, front, last, group);
      LiveDocsNow(dirs, last);
      SplitSnoc(front, last, group);
      SplitSnoc(Refreshed(dirs, front), Now(dirs, last), group);
    }
  }

  /** A merge or a reindex writes exactly the documents the bitmaps on disk leave alive if and only
      if none of its segments was marked since its reader was opened; otherwise it brings deleted
      documents back. */
  lemma MergeHonoursDeletesIff(s: State, group: set<nat>)
    requires Inv(s) && s.phase != Down
    ensures LiveOf(s.mem.list.segs, group) == LiveOf(Refreshed(s.disk.dirs, s.mem.list.segs), group)
            <==> GroupCurrent(s.disk.dirs, s.mem.list.segs, group)
  {
    hide DiskOk, Safe, Held, PhaseOk, MapTrue, AllBacked, LiveOf, GroupCurrent, Refreshed;
    LiveOfNow(s.disk.dirs, s.mem.list.segs, group);
  }

  /** The swap maps an unmapped, hence possibly deleted, id again if and only if some document it
      rewrote carries it. */
  lemma SwapRevivesIff(s: State, id: u64)
    requires Inv(s) && Enabled(s, Install) && id !in s.mem.list.locs
    ensures id in Do(s, Install).mem.list.locs <==> exists d :: d in s.phase.docs && d.id == id
  {
    hide Inv, Without, LiveOf;
    var e := Entry(s.phase.id, s.phase.docs, {});
    MappedIs(s.mem.list.locs, e, |e.docs|);
    if s.phase.job.Merging? {
      MappedIs(Unmapped(s.mem.list.locs, s.phase.job.group), e, |e.docs|);
    }
    if id in Do(s, Install).mem.list.locs {
      assert e.docs[Do(s, Install).mem.list.locs[id].slot] in s.phase.docs;
    }
    if exists d :: d in s.phase.docs && d.id == id {
      var d :| d in s.phase.docs && d.id == id;
      var slot :| 0 <= slot < |e.docs| && e.docs[slot] == d;
      assert e.Live(slot);
    }
  }

  // ---- what every run keeps --------------------------------------------------------------

  /** In every run, whenever the engine is up, each map entry names a listed segment and a live
      slot holding that id, and each id a reader shows that was never deleted is in the map. */
  lemma MapStaysTruthful(run: seq<Action>)
    requires Legal(run) && Exec(run).phase != Down
    ensures MapTrue(Exec(run).mem.list, Exec(run).deleted)
  {
    RunKeepsInv(run);
    hide Do, DiskOk, Held, MapTrue, PhaseOk;
  }

  /** The swap at the end of a merge or reindex leaves what searches see unchanged, as a multiset. */
  lemma SwapConserves(s: State)
    requires Inv(s) && Enabled(s, Install) && s.phase.job.Merging?
    ensures multiset(Visible(Do(s, Install).mem.list.segs)) == multiset(Visible(s.mem.list.segs))
  {
    hide *;
    SwapIs(s);
    ReplaceConserves(s.mem.list, s.phase.job.group, s.phase.id);
  }

  lemma SwapIs(s: State)
    requires Inv(s) && Enabled(s, Install) && s.phase.job.Merging?
    ensures s.phase.Filled? && Do(s, Install).mem.list ==
            Replaced(s.mem.list, s.phase.job.group, Entry(s.phase.id, LiveOf(s.mem.list.segs, s.phase.job.group), {}))
  {
    hide DiskOk, Held, MapTrue, LiveOf, Safe, AllBacked, Replaced;
  }

  /** A crash after a flushed segment is complete but before the log is truncated leaves every one
      of its documents both in the reopened segments and in the log to be replayed. */
  lemma CrashBeforeTruncateDoubles(s: State, order: seq<nat>, d: Document)
    requires Inv(s) && s.phase.Filled? && s.phase.job.Flushing? && d in s.phase.docs
    requires Lists(order, s.disk.dirs)
    ensures var s' := Do(Do(s, Crash), Reopen(order));
            Listed(s'.mem.list.segs, d) && d in IndexDocs(s'.phase.todo)
  {
    hide DiskOk, Held, Safe, ListOk, IndexDocs, Listed, OpenList;
    var dir := s.disk.dirs[s.phase.id];
    var slot :| 0 <= slot < |dir.docs| && dir.docs[slot] == d;
    OpenShows(s.disk.dirs, order, s.phase.id, slot);
  }
}
