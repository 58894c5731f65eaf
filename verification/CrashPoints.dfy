/** A crash at each step of a flush and of a merge (crates/shard/src/shard.rs): where recovery
    gives back exactly what was held live, and where it gives back some of it twice, or what was
    deleted. */
module CrashPoints {
  import opened Base
  import opened Documents
  import opened Recovery
  import opened SegmentLists
  import opened ShardModel
  import opened ShardRuns
  import opened ShardSafety
  import opened ShardSteps
  import opened Wal

  /** A shard at rest with nothing left over from earlier crashes: no directory outside the list holds
      live documents. */
  ghost predicate Settled(s: State) {
    && Inv(s) && s.phase == Idle
    && forall i :: i in s.disk.dirs ==> !Stray(s, i)
  }

  // ---- flush -----------------------------------------------------------------------------

  /** The first n of a flush's five steps: start, make the directory, complete it, install the
      reader, truncate the log. */
  ghost function FlushStage(s: State, n: nat): (t: State)
    requires s.phase == Idle && s.mem.buffer != [] && n <= 5
    ensures t.phase != Down
  {
    if n == 0 then s
    else
      DoFlush(s);
      var begun := Do(s, StartFlush);
      if n == 1 then begun
      else
        DoWrite(begun);
        var made := Do(begun, CreateDir);
        if n == 2 then made
        else
          var full := Do(made, CompleteDir);
          if n == 3 then full
          else
            DoInstallFlush(full);
            if n == 4 then Do(full, Install) else Do(Do(full, Install), Truncate)
  }

  lemma FlushStageInv(s: State, n: nat)
    requires Inv(s) && s.phase == Idle && s.mem.buffer != [] && n <= 5
    ensures Inv(FlushStage(s, n))
  {
    hide Inv, Do, Enabled;
    if n > 0 {
      DoFlush(s);
      StepKeepsInv(s, StartFlush);
      var begun := Do(s, StartFlush);
      DoWrite(begun);
      StepKeepsInv(begun, CreateDir);
      var made := Do(begun, CreateDir);
      StepKeepsInv(made, CompleteDir);
      var full := Do(made, CompleteDir);
      DoInstallFlush(full);
      StepKeepsInv(full, Install);
      StepKeepsInv(Do(full, Install), Truncate);
    }
  }

  /** The stages, spelled out. */
  lemma FlushStageIs(s: State, n: nat)
    requires s.phase == Idle && s.mem.buffer != [] && n <= 5
    ensures var t, id, docs := FlushStage(s, n), s.mem.nextSeg, s.mem.buffer;
            var e := Entry(id, docs, {});
            && t.disk.dirs == (if n < 2 then s.disk.dirs else s.disk.dirs[id := Dir(docs, n >= 3, {})])
            && t.disk.wal == (if n == 5 then [] else s.disk.wal)
            && t.mem.list.segs == (if n < 4 then s.mem.list.segs else s.mem.list.segs + [e])
            && t.mem.buffer == (if n == 0 then docs else [])
            && t.phase == (if n == 0 || n == 5 then Idle
                           else if n == 1 then Creating(Flushing, docs, id)
                           else if n == 2 then Filling(Flushing, docs, id)
                           else if n == 3 then Filled(Flushing, docs, id)
                           else Truncating)
  {
    hide Do, Enabled, Mapped;
    if n > 0 {
      DoFlush(s);
      var begun := Do(s, StartFlush);
      DoWrite(begun);
      var made := Do(begun, CreateDir);
      DoInstallFlush(Do(made, CompleteDir));
    }
  }

  lemma FreshShows(id: nat, docs: seq<Document>)
    ensures LiveDocs(Entry(id, docs, {})) == docs
  {
    FreshLive(id, docs, |docs|);
    assert docs[..|docs|] == docs;
  }

  lemma NewNumber(s: State)
    requires Inv(s) && s.phase == Idle
    ensures s.mem.nextSeg !in s.disk.dirs && s.mem.nextSeg !in Ids(s.mem.list.segs)
  {
    hide Safe, Held, Ids, MapTrue, DeadOk, IndexDocs;
    ListedIds(s.disk.dirs, s.mem.list.segs);
  }

  /** Only the directory being written can become a stray before it is listed. */
  lemma WrittenStray(s: State, t: State, id: nat, docs: seq<Document>, complete: bool)
    requires Settled(s) && id !in s.disk.dirs && id !in Ids(s.mem.list.segs) && t.mem.list.segs == s.mem.list.segs
    requires t.disk.dirs == s.disk.dirs[id := Dir(docs, complete, {})]
    ensures (forall i :: i in t.disk.dirs ==> !Stray(t, i)) <==> !complete || docs == []
  {
    hide Inv, Ids, LiveDocs;
    FreshShows(id, docs);
    forall i | i in s.disk.dirs
      ensures !Stray(t, i)
    {
      assert !Stray(s, i);
    }
    assert Stray(t, id) <==> complete && docs != [];
  }

  lemma IdListed(segs: seq<Entry>, i: nat)
    requires i < |segs|
    ensures segs[i].id in Ids(segs)
  {
  }

  /** Once listed, it no longer is one. */
  lemma ListedNoStray(s: State, t: State, id: nat, docs: seq<Document>)
    requires Settled(s) && id !in s.disk.dirs && id !in Ids(s.mem.list.segs)
    requires t.mem.list.segs == s.mem.list.segs + [Entry(id, docs, {})]
    requires t.disk.dirs == s.disk.dirs[id := Dir(docs, true, {})]
    ensures forall i :: i in t.disk.dirs ==> !Stray(t, i)
  {
    hide Inv, Ids, LiveDocs;
    IdsSnoc(s.mem.list.segs, Entry(id, docs, {}));
    forall i | i in t.disk.dirs
      ensures !Stray(t, i)
    {
      if i != id {
        assert !Stray(s, i);
      }
    }
  }

  lemma UnchangedDisk(s: State, t: State)
    requires Settled(s) && t.mem.list.segs == s.mem.list.segs && t.disk.dirs == s.disk.dirs
    ensures forall i :: i in t.disk.dirs ==> !Stray(t, i)
  {
    hide Inv, Ids, LiveDocs;
    forall i | i in t.disk.dirs
      ensures !Stray(t, i)
    {
      assert !Stray(s, i);
    }
  }

  /** Directories that no listed reader is open on do not matter. */
  lemma RefreshedSame(dirs: map<nat, Dir>, dirs': map<nat, Dir>, segs: seq<Entry>)
    requires AllBacked(dirs, segs) && AllBacked(dirs', segs)
    requires forall i :: i in Ids(segs) && i in dirs && i in dirs' ==> dirs'[i] == dirs[i]
    ensures Refreshed(dirs', segs) == Refreshed(dirs, segs)
  {
    hide Ids;
    forall i | 0 <= i < |segs|
      ensures Refreshed(dirs', segs)[i] == Refreshed(dirs, segs)[i]
    {
      IdListed(segs, i);
      assert Backed(dirs, segs[i]) && Backed(dirs', segs[i]);
    }
  }

  lemma NewIsNow(dirs: map<nat, Dir>, e: Entry)
    requires e.id in dirs && e.dead == dirs[e.id].dead
    ensures Now(dirs, e) == e
  {
  }

  /** The list with a freshly written segment, as readers opened now would show it. */
  lemma RefreshedWithNew(dirs: map<nat, Dir>, dirs': map<nat, Dir>, segs: seq<Entry>, e: Entry)
    requires AllBacked(dirs, segs) && AllBacked(dirs', segs + [e]) && e.id in dirs' && e.dead == dirs'[e.id].dead
    requires forall i :: i in Ids(segs) && i in dirs && i in dirs' ==> dirs'[i] == dirs[i]
    ensures Visible(Refreshed(dirs', segs + [e])) == Visible(Refreshed(dirs, segs)) + LiveDocs(e)
  {
    hide *;
    RefreshedSnoc(dirs', segs, e);
    RefreshedSame(dirs, dirs', segs);
    NewIsNow(dirs', e);
    VisibleSnoc(Refreshed(dirs', segs), e);
  }

  lemma HoldsAs(t: State, visible: seq<Document>, buffer: seq<Document>, pending: seq<Document>)
    requires AllBacked(t.disk.dirs, t.mem.list.segs)
    requires Visible(Refreshed(t.disk.dirs, t.mem.list.segs)) == visible && t.mem.buffer == buffer
             && Pending(t) == pending
    ensures HoldingNow(t) == multiset(visible + buffer + pending)
  {
    hide Visible, Pending, Refreshed;
    JoinedMultiset(visible, buffer);
    JoinedMultiset(visible + buffer, pending);
  }

  lemma PendingInFlush(t: State, docs: seq<Document>, id: nat)
    ensures t.phase == Creating(Flushing, docs, id) || t.phase == Filling(Flushing, docs, id)
            || t.phase == Filled(Flushing, docs, id) ==>
              Pending(t) == docs
    ensures t.phase == Idle || t.phase == Truncating ==> Pending(t) == []
  {
  }

  /** A flush touches no directory a reader is open on. */
  lemma FlushedElsewhere(s: State, n: nat)
    requires Inv(s) && s.phase == Idle && s.mem.buffer != [] && n <= 5
    ensures forall i :: i in Ids(s.mem.list.segs) && i in s.disk.dirs && i in FlushStage(s, n).disk.dirs ==>
              FlushStage(s, n).disk.dirs[i] == s.disk.dirs[i]
  {
    hide Inv, FlushStage, Ids;
    NewNumber(s);
    FlushStageIs(s, n);
  }

  /** What is held live is the same all the way through a flush. */
  lemma FlushHolds(s: State, n: nat)
    requires Inv(s) && s.phase == Idle && s.mem.buffer != [] && n <= 5
    ensures AllBacked(s.disk.dirs, s.mem.list.segs)
            && AllBacked(FlushStage(s, n).disk.dirs, FlushStage(s, n).mem.list.segs)
    ensures HoldingNow(FlushStage(s, n)) == HoldingNow(s)
  {
    hide *;
    var t, e, segs := FlushStage(s, n), Entry(s.mem.nextSeg, s.mem.buffer, {}), s.mem.list.segs;
    FlushStageInv(s, n);
    RunningList(s);
    RunningList(t);
    FlushStageIs(s, n);
    FlushedElsewhere(s, n);
    PendingInFlush(t, e.docs, e.id);
    PendingInFlush(s, e.docs, e.id);
    var visible := Visible(Refreshed(s.disk.dirs, segs));
    HoldsAs(s, visible, e.docs, []);
    if n < 4 {
      RefreshedSame(s.disk.dirs, t.disk.dirs, segs);
      HoldsAs(t, visible, if n == 0 then e.docs else [], if n == 0 then [] else e.docs);
      assert visible + [] + e.docs == visible + e.docs + [];
    } else {
      RefreshedWithNew(s.disk.dirs, t.disk.dirs, segs, e);
      FreshShows(e.id, e.docs);
      HoldsAs(t, visible + e.docs, [], []);
      assert visible + e.docs + [] + [] == visible + e.docs + [];
    }
  }

  /** A crash after n steps of a flush, then recovery, gives back exactly what the shard held live if
      and only if the new segment was not yet complete or the log was already truncated. */
  lemma FlushCrashConservesIff(s: State, n: nat, order: seq<nat>)
    requires Settled(s) && s.mem.buffer != [] && n <= 5 && Lists(order, FlushStage(s, n).disk.dirs)
    ensures AllBacked(s.disk.dirs, s.mem.list.segs)
    ensures Contents(Recovered(FlushStage(s, n), order).mem) == HoldingNow(s) <==> n <= 2 || n == 5
  {
    var t, id, docs := FlushStage(s, n), s.mem.nextSeg, s.mem.buffer;
    FlushStageInv(s, n);
    FlushStageIs(s, n);
    FlushHolds(s, n);
    NewNumber(s);
    hide FlushStage, Settled, Contents, Recovered, HoldingNow, Inv, Stray, IndexDocs, Lists;
    if n < 2 {
      UnchangedDisk(s, t);
    } else if n < 4 {
      WrittenStray(s, t, id, docs, n >= 3);
    } else {
      ListedNoStray(s, t, id, docs);
    }
    RestingLog(s);
    IndexDocsNone();
    CrashConservesIff(t, order);
  }

  /** At rest and with no reader lagging, what is held live is all that is held. */
  lemma RestingHolds(s: State)
    requires Inv(s) && s.phase == Idle && AllCurrent(s)
    ensures AllBacked(s.disk.dirs, s.mem.list.segs) && HoldingNow(s) == Contents(s.mem)
  {
    hide Inv, Visible, Refreshed, Current;
    RunningList(s);
    CurrentShows(s.disk.dirs, s.mem.list.segs);
    EmptyMultiset(Pending(s));
  }

  lemma RestingLog(s: State)
    requires Settled(s)
    ensures IndexDocs(s.disk.wal) == s.mem.buffer && s.phase == Idle
  {
    hide DiskOk, Safe, ListOk, Held, IndexDocs, Stray;
  }

  // ---- merge -----------------------------------------------------------------------------

  /** Removing directories one after the other. */
  ghost function RemovedAll(s: State, gone: seq<nat>): (t: State)
    requires s.phase.Removing? && Named(gone) <= s.phase.ids
             && forall i, j :: 0 <= i < j < |gone| ==> gone[i] != gone[j]
    ensures t.phase.Removing?
    decreases |gone|
  {
    if gone == [] then s
    else
      NamedTail(gone);
      DoRemove(s, gone[0]);
      RemovedAll(Do(s, RemoveDir(gone[0])), gone[1..])
  }

  lemma NamedTail(gone: seq<nat>)
    requires gone != [] && forall i, j :: 0 <= i < j < |gone| ==> gone[i] != gone[j]
    ensures gone[0] in Named(gone) && Named(gone[1..]) == Named(gone) - {gone[0]}
  {
    assert gone == [gone[0]] + gone[1..];
  }

  lemma {:induction false} RemovedAllIs(s: State, gone: seq<nat>)
    requires Inv(s) && s.phase.Removing? && Named(gone) <= s.phase.ids
             && forall i, j :: 0 <= i < j < |gone| ==> gone[i] != gone[j]
    ensures var t := RemovedAll(s, gone);
            && Inv(t) && t == s.(disk := s.disk.(dirs := s.disk.dirs - Named(gone)),
                                 phase := Removing(s.phase.ids - Named(gone), s.phase.thenTruncate))
    decreases |gone|
  {
    hide Inv, Do, Enabled, Named;
    if gone == [] {
      NamedNothing();
      assert s.disk.dirs - {} == s.disk.dirs && s.phase.ids - {} == s.phase.ids;
    } else {
      NamedTail(gone);
      DoRemove(s, gone[0]);
      StepKeepsInv(s, RemoveDir(gone[0]));
      RemovedAllIs(Do(s, RemoveDir(gone[0])), gone[1..]);
      var rest := Named(gone) - {gone[0]};
      assert s.disk.dirs - {gone[0]} - rest == s.disk.dirs - Named(gone);
      assert s.phase.ids - {gone[0]} - rest == s.phase.ids - Named(gone);
    }
  }

  lemma NamedNothing()
    ensures Named([]) == {}
  {
  }

  /** The first n of a merge's steps: start, make the directory, complete it, swap; and after the
      swap, the old directories removed so far. */
  ghost function MergeStage(s: State, group: set<nat>, n: nat, gone: seq<nat>): (t: State)
    requires s.phase == Idle && group <= Ids(s.mem.list.segs) && n <= 4
    requires Named(gone) <= group && forall i, j :: 0 <= i < j < |gone| ==> gone[i] != gone[j]
    ensures t.phase != Down
  {
    if n == 0 then s
    else
      DoStartMerge(s, group);
      var begun := Do(s, StartMerge(group));
      if n == 1 then begun
      else
        DoWrite(begun);
        var made := Do(begun, CreateDir);
        if n == 2 then made
        else
          var full := Do(made, CompleteDir);
          if n == 3 then full
          else
            DoInstallMerge(full);
            RemovedAll(Do(full, Install), gone)
  }

  lemma MergeStageIs(s: State, group: set<nat>, n: nat, gone: seq<nat>)
    requires Inv(s) && s.phase == Idle && group <= Ids(s.mem.list.segs) && n <= 4
    requires Named(gone) <= group && forall i, j :: 0 <= i < j < |gone| ==> gone[i] != gone[j]
    ensures var t, id, docs := MergeStage(s, group, n, gone), s.mem.nextSeg, LiveOf(s.mem.list.segs, group);
            var e := Entry(id, docs, {});
            && Inv(t) && t.disk.wal == s.disk.wal && t.mem.buffer == s.mem.buffer
            && t.disk.dirs == (if n < 2 then s.disk.dirs
                               else if n < 4 then s.disk.dirs[id := Dir(docs, n >= 3, {})]
                               else s.disk.dirs[id := Dir(docs, true, {})] - Named(gone))
            && t.mem.list.segs == (if n < 4 then s.mem.list.segs else Without(s.mem.list.segs, group) + [e])
            && (n == 0 ==> t.phase == Idle)
            && (n == 1 ==> t.phase == Creating(Merging(group, false), docs, id))
            && (n == 2 ==> t.phase == Filling(Merging(group, false), docs, id))
            && (n == 3 ==> t.phase == Filled(Merging(group, false), docs, id))
            && (n == 4 ==> t.phase == Removing(group - Named(gone), false))
  {
    hide Inv, Do, Enabled, Mapped, LiveOf, Without, Named, RemovedAll, Ids;
    if n > 0 {
      DoStartMerge(s, group);
      StepKeepsInv(s, StartMerge(group));
      var begun := Do(s, StartMerge(group));
      DoWrite(begun);
      StepKeepsInv(begun, CreateDir);
      var made := Do(begun, CreateDir);
      StepKeepsInv(made, CompleteDir);
      var full := Do(made, CompleteDir);
      DoInstallMerge(full);
      StepKeepsInv(full, Install);
      RemovedAllIs(Do(full, Install), gone);
    }
  }

  lemma {:induction false} NothingLive(segs: seq<Entry>, group: set<nat>)
    ensures LiveOf(segs, group) == [] <==>
              forall i :: 0 <= i < |segs| && segs[i].id in group ==> LiveDocs(segs[i]) == []
  {
    hide LiveDocs;
    if segs != [] {
      var front, last := segs[..|segs| - 1], segs[|segs| - 1];
      assert segs == front + [last];
      NothingLive(front, group);
      SplitSnoc(front, last, group);
    }
  }

  /** Some old directory not yet removed still shows a document. */
  ghost predicate StillHeld(segs: seq<Entry>, group: set<nat>, gone: set<nat>) {
    exists i :: 0 <= i < |segs| && segs[i].id in group && segs[i].id !in gone && LiveDocs(segs[i]) != []
  }

  /** After the swap of a group no reader of which lags, the strays are the old directories that are
      still there. */
  lemma OldStrays(s: State, t: State, group: set<nat>, gone: set<nat>, id: nat)
    requires Settled(s) && id !in s.disk.dirs && id !in Ids(s.mem.list.segs) && gone <= group <= Ids(s.mem.list.segs)
    requires t.disk.dirs == s.disk.dirs[id := Dir(LiveOf(s.mem.list.segs, group), true, {})] - gone
    requires t.mem.list.segs == Without(s.mem.list.segs, group) + [Entry(id, LiveOf(s.mem.list.segs, group), {})]
    requires GroupCurrent(s.disk.dirs, s.mem.list.segs, group)
    ensures (forall i :: i in t.disk.dirs ==> !Stray(t, i)) <==> !StillHeld(s.mem.list.segs, group, gone)
  {
    hide Inv, Ids, LiveDocs, LiveOf, Without, Current;
    var segs := s.mem.list.segs;
    KeptIds(segs, group, Entry(id, LiveOf(segs, group), {}));
    if StillHeld(segs, group, gone) {
      var i :| 0 <= i < |segs| && segs[i].id in group && segs[i].id !in gone && LiveDocs(segs[i]) != [];
      ListedDir(s, i);
      assert Stray(t, segs[i].id);
    }
    forall k | k in t.disk.dirs && Stray(t, k)
      ensures StillHeld(segs, group, gone)
    {
      assert !Stray(s, k);
      var i := IdAt(segs, k);
      ListedDir(s, i);
    }
  }

  lemma IdAt(segs: seq<Entry>, id: nat) returns (i: nat)
    requires id in Ids(segs)
    ensures i < |segs| && segs[i].id == id
  {
    i :| 0 <= i < |segs| && segs[i].id == id;
  }

  lemma ListedDir(s: State, i: nat)
    requires Settled(s) && i < |s.mem.list.segs| && Current(s.disk.dirs, s.mem.list.segs[i])
    ensures var e := s.mem.list.segs[i];
            && e.id in Ids(s.mem.list.segs) && e.id in s.disk.dirs && s.disk.dirs[e.id].complete
            && LiveDocs(Entry(e.id, s.disk.dirs[e.id].docs, s.disk.dirs[e.id].dead)) == LiveDocs(e)
  {
    hide DiskOk, Safe, Held, PhaseOk, MapTrue, LiveDocs, Stray, Current;
    var e := s.mem.list.segs[i];
    assert Backed(s.disk.dirs, e);
    LiveDocsNow(s.disk.dirs, e);
  }

  lemma KeptIds(segs: seq<Entry>, group: set<nat>, e: Entry)
    ensures Ids(Without(segs, group) + [e]) == Ids(segs) - group + {e.id}
  {
    var kept := Without(segs, group);
    WithoutIs(segs, group);
    IdsSnoc(kept, e);
    forall id | id in Ids(kept)
      ensures id in Ids(segs) - group
    {
      var i :| 0 <= i < |kept| && kept[i].id == id;
      assert kept[i] in segs;
      var k :| 0 <= k < |segs| && segs[k] == kept[i];
    }
    forall id | id in Ids(segs) - group
      ensures id in Ids(kept)
    {
      var i :| 0 <= i < |segs| && segs[i].id == id;
      assert segs[i] in kept;
      var k :| 0 <= k < |kept| && kept[k] == segs[i];
    }
  }

  lemma PendingInMerge(t: State, group: set<nat>, docs: seq<Document>, id: nat)
    requires || t.phase == Idle
             || t.phase == Creating(Merging(group, false), docs, id)
             || t.phase == Filling(Merging(group, false), docs, id)
             || t.phase == Filled(Merging(group, false), docs, id)
             || t.phase.Removing?
    ensures Pending(t) == []
  {
  }

  lemma {:induction false} RefreshedWithout(dirs: map<nat, Dir>, segs: seq<Entry>, group: set<nat>)
    requires AllBacked(dirs, segs)
    ensures AllBacked(dirs, Without(segs, group))
    ensures Without(Refreshed(dirs, segs), group) == Refreshed(dirs, Without(segs, group))
  {
    hide *;
    if segs == [] {
      NothingRefreshed(dirs, group);
      NothingVisible(group);
    } else {
      var front, last := segs[..|segs| - 1], segs[|segs| - 1];
      assert segs == front + [last];
      RefreshedSnoc(dirs, front, last);
      RefreshedWithout(dirs, front, group);
      SplitSnoc(front, last, group);
      SplitSnoc(Refreshed(dirs, front), Now(dirs, last), group);
      if last.id !in group {
        BackedSnoc(dirs, Without(front, group), last);
        RefreshedSnoc(dirs, Without(front, group), last);
      } else {
        assert Without(segs, group) == Without(front, group);
        assert Without(Refreshed(dirs, segs), group) == Without(Refreshed(dirs, front), group);
      }
    }
  }

  /** What the merged list shows now, against what the list showed: the documents the stale readers of
      the group show instead of those the bitmaps on disk leave alive. */
  lemma SwapShows(s: State, t: State, group: set<nat>, gone: set<nat>, id: nat)
    requires AllBacked(s.disk.dirs, s.mem.list.segs) && AllBacked(t.disk.dirs, t.mem.list.segs)
    requires id !in s.disk.dirs && id !in Ids(s.mem.list.segs) && gone <= group
    requires t.disk.dirs == s.disk.dirs[id := Dir(LiveOf(s.mem.list.segs, group), true, {})] - gone
    requires t.mem.list.segs == Without(s.mem.list.segs, group) + [Entry(id, LiveOf(s.mem.list.segs, group), {})]
    ensures multiset(Visible(Refreshed(t.disk.dirs, t.mem.list.segs)))
            + multiset(LiveOf(Refreshed(s.disk.dirs, s.mem.list.segs), group)) ==
            multiset(Visible(Refreshed(s.disk.dirs, s.mem.list.segs))) + multiset(LiveOf(s.mem.list.segs, group))
  {
    hide *;
    var segs, stale := s.mem.list.segs, LiveOf(s.mem.list.segs, group);
    var kept, e := Without(segs, group), Entry(id, stale, {});
    RefreshedWithout(s.disk.dirs, segs, group);
    SwapElsewhere(s, t, group, gone, id);
    RefreshedWithNew(s.disk.dirs, t.disk.dirs, kept, e);
    FreshShows(id, stale);
    VisibleSplits(Refreshed(s.disk.dirs, segs), group);
    var rest, live := Visible(Refreshed(s.disk.dirs, kept)), LiveOf(Refreshed(s.disk.dirs, segs), group);
    JoinedMultiset(rest, stale);
    JoinedMultiset(rest, live);
    Exchange(multiset(rest), multiset(stale), multiset(live));
  }

  lemma Exchange(a: multiset<Document>, b: multiset<Document>, c: multiset<Document>)
    ensures (a + b) + c == (a + c) + b
  {
  }

  lemma SwapElsewhere(s: State, t: State, group: set<nat>, gone: set<nat>, id: nat)
    requires AllBacked(t.disk.dirs, t.mem.list.segs) && id !in s.disk.dirs && gone <= group
    requires t.disk.dirs == s.disk.dirs[id := Dir(LiveOf(s.mem.list.segs, group), true, {})] - gone
    requires t.mem.list.segs == Without(s.mem.list.segs, group) + [Entry(id, LiveOf(s.mem.list.segs, group), {})]
    ensures id in t.disk.dirs && t.disk.dirs[id].dead == {}
    ensures forall i :: i in s.disk.dirs && i in t.disk.dirs ==> t.disk.dirs[i] == s.disk.dirs[i]
  {
    hide LiveOf, Without;
    assert t.mem.list.segs[|t.mem.list.segs| - 1].id == id;
    assert Backed(t.disk.dirs, t.mem.list.segs[|t.mem.list.segs| - 1]);
  }

  lemma HoldingNowWith(t: State, visible: multiset<Document>, buffer: seq<Document>)
    requires AllBacked(t.disk.dirs, t.mem.list.segs) && Pending(t) == [] && t.mem.buffer == buffer
    requires multiset(Visible(Refreshed(t.disk.dirs, t.mem.list.segs))) == visible
    ensures HoldingNow(t) == visible + multiset(buffer)
  {
    hide Visible, Refreshed, Pending;
    EmptyMultiset(Pending(t));
  }

  lemma MoreShown(now: multiset<Document>, live: multiset<Document>, before: multiset<Document>,
                  stale: multiset<Document>, buffer: multiset<Document>)
    requires now + live == before + stale
    ensures live == stale ==> now + buffer == before + buffer
    ensures |live| < |stale| ==> |now + buffer| > |before + buffer|
  {
    if live == stale {
      assert now == (now + live) - live;
      assert before == (before + stale) - stale;
    }
    assert |now + live| == |now| + |live|;
    assert |before + stale| == |before| + |stale|;
    assert |now + buffer| == |now| + |buffer|;
    assert |before + buffer| == |before| + |buffer|;
  }

  /** Through a merge what is held live stays the same, unless a stale reader's documents were written. */
  lemma MergeHolds(s: State, group: set<nat>, n: nat, gone: seq<nat>)
    requires Inv(s) && s.phase == Idle && group <= Ids(s.mem.list.segs) && n <= 4
    requires Named(gone) <= group && forall i, j :: 0 <= i < j < |gone| ==> gone[i] != gone[j]
    ensures var t := MergeStage(s, group, n, gone);
            && AllBacked(s.disk.dirs, s.mem.list.segs) && AllBacked(t.disk.dirs, t.mem.list.segs)
            && (n < 4 || GroupCurrent(s.disk.dirs, s.mem.list.segs, group) ==> HoldingNow(t) == HoldingNow(s))
            && (n == 4 && !GroupCurrent(s.disk.dirs, s.mem.list.segs, group) ==> |HoldingNow(t)| > |HoldingNow(s)|)
  {
    hide *;
    var t, id, segs := MergeStage(s, group, n, gone), s.mem.nextSeg, s.mem.list.segs;
    var stale := LiveOf(segs, group);
    MergeStageIs(s, group, n, gone);
    NewNumber(s);
    RunningList(s);
    RunningList(t);
    PendingInMerge(s, group, stale, id);
    PendingInMerge(t, group, stale, id);
    var before := multiset(Visible(Refreshed(s.disk.dirs, segs)));
    HoldingNowWith(s, before, s.mem.buffer);
    if n < 4 {
      RefreshedSame(s.disk.dirs, t.disk.dirs, segs);
      HoldingNowWith(t, before, s.mem.buffer);
    } else {
      var now := multiset(Visible(Refreshed(t.disk.dirs, t.mem.list.segs)));
      HoldingNowWith(t, now, s.mem.buffer);
      SwapShows(s, t, group, Named(gone), id);
      LiveOfNow(s.disk.dirs, segs, group);
      var live := LiveOf(Refreshed(s.disk.dirs, segs), group);
      MoreShown(now, multiset(live), before, multiset(stale), multiset(s.mem.buffer));
    }
  }

  /** The strays at each stage of a merge. */
  lemma MergeStrays(s: State, group: set<nat>, n: nat, gone: seq<nat>)
    requires Settled(s) && group <= Ids(s.mem.list.segs) && n <= 4 && (n < 4 ==> gone == [])
    requires Named(gone) <= group && forall i, j :: 0 <= i < j < |gone| ==> gone[i] != gone[j]
    ensures var t := MergeStage(s, group, n, gone);
            && Inv(t) && t.phase != Truncating
            && (n < 4 || GroupCurrent(s.disk.dirs, s.mem.list.segs, group) ==>
                  ((forall i :: i in t.disk.dirs ==> !Stray(t, i))
                   <==> n <= 2 || !StillHeld(s.mem.list.segs, group, Named(gone))))
  {
    hide *;
    SettledIs(s);
    var t, id, docs := MergeStage(s, group, n, gone), s.mem.nextSeg, LiveOf(s.mem.list.segs, group);
    MergeStageIs(s, group, n, gone);
    NewNumber(s);
    if n < 2 {
      UnchangedDisk(s, t);
    } else if n < 4 {
      NamedNothing();
      WrittenStray(s, t, id, docs, n >= 3);
      HeldIffLive(s.mem.list.segs, group);
    } else if GroupCurrent(s.disk.dirs, s.mem.list.segs, group) {
      OldStrays(s, t, group, Named(gone), id);
    }
  }

  lemma SettledIs(s: State)
    requires Settled(s)
    ensures Inv(s) && s.phase == Idle
  {
  }

  lemma HeldIffLive(segs: seq<Entry>, group: set<nat>)
    ensures LiveOf(segs, group) != [] <==> StillHeld(segs, group, {})
  {
    hide LiveOf, LiveDocs;
    NothingLive(segs, group);
  }

  /** Where the group shows nothing, no reader of it lags. */
  lemma NothingLags(s: State, group: set<nat>)
    requires AllBacked(s.disk.dirs, s.mem.list.segs) && !StillHeld(s.mem.list.segs, group, {})
    ensures GroupCurrent(s.disk.dirs, s.mem.list.segs, group)
  {
    hide *;
    HeldIffLive(s.mem.list.segs, group);
    LiveOfNow(s.disk.dirs, s.mem.list.segs, group);
  }

  /** A crash after n steps of a merge, with the old directories in `gone` already removed, gives back
      exactly what the shard held live if and only if the new segment was not yet complete, or no
      segment of the group was marked since it was opened and no old directory still there shows a
      document. */
  lemma MergeCrashConservesIff(s: State, group: set<nat>, n: nat, gone: seq<nat>, order: seq<nat>)
    requires Settled(s) && group <= Ids(s.mem.list.segs) && n <= 4 && (n < 4 ==> gone == [])
    requires Named(gone) <= group && forall i, j :: 0 <= i < j < |gone| ==> gone[i] != gone[j]
    requires Lists(order, MergeStage(s, group, n, gone).disk.dirs)
    ensures AllBacked(s.disk.dirs, s.mem.list.segs)
    ensures Contents(Recovered(MergeStage(s, group, n, gone), order).mem) == HoldingNow(s) <==>
              n <= 2 || (GroupCurrent(s.disk.dirs, s.mem.list.segs, group)
                         && !StillHeld(s.mem.list.segs, group, Named(gone)))
  {
    hide *;
    SettledIs(s);
    MergeStrays(s, group, n, gone);
    MergeHolds(s, group, n, gone);
    CrashConservesIff(MergeStage(s, group, n, gone), order);
    NamedNothing();
    if n < 4 && !StillHeld(s.mem.list.segs, group, {}) {
      NothingLags(s, group);
    }
    Grows(HoldingNow(MergeStage(s, group, n, gone)), Contents(Recovered(MergeStage(s, group, n, gone), order).mem));
  }

  lemma Grows(a: multiset<Document>, b: multiset<Document>)
    ensures a <= b ==> |a| <= |b|
  {
    if a <= b {
      assert b == a + (b - a);
      assert |b| == |a| + |b - a|;
    }
  }
}
