/** Runs from an empty data directory on which the shard does not do what one would expect. */
module ShardExamples {
  import opened Base
  import opened CrashPoints
  import opened Documents
  import opened Recovery
  import opened SegmentLists
  import opened Serving
  import opened ShardDeletes
  import opened ShardModel
  import opened ShardRuns
  import opened ShardSafety
  import opened ShardSteps
  import opened Swaps
  import opened Wal
  import opened WriteBuffers

  // ---- stretches of steps ----------------------------------------------------------------

  const OPEN: seq<Action> := [Reopen([]), FinishReplay]

  function IndexOne(d: Document): seq<Action> {
    [StartIndex([d]), AppendRecord, FinishIndex]
  }

  function DeleteOne(id: u64): seq<Action> {
    [StartDelete(id), FinishDelete]
  }

  const FLUSH: seq<Action> := [StartFlush, CreateDir, CompleteDir, Install, Truncate]

  /** Reindexing when segment 1 is the only one. */
  const REINDEX: seq<Action> := [StartReindex, CreateDir, CompleteDir, Install, RemoveDir(1), FinishRemoving, Truncate]

  const EMPTY: State := State(Disk([], map[]), Mem([], {}, SegList([], map[]), 1), Idle, {}, {}, 0)

  lemma Two(run: seq<Action>, a: Action, b: Action)
    ensures run + [a] + [b] == run + [a, b]
  {
  }

  lemma OpensEmpty()
    ensures Reach(OPEN, EMPTY)
  {
    var down := Fresh;
    ExecNone();
    DoReopen(down, []);
    Extend([], down, Reopen([]));
    DoFinishReplay(Do(down, Reopen([])));
    Extend([] + [Reopen([])], Do(down, Reopen([])), FinishReplay);
    assert [] + [Reopen([])] + [FinishReplay] == OPEN;
  }

  lemma Indexes(run: seq<Action>, s: State, d: Document)
    requires Reach(run, s) && s.phase == Idle
    ensures Reach(run + IndexOne(d),
                  s.(disk := s.disk.(wal := s.disk.wal + [Index(d)]), mem := s.mem.(buffer := s.mem.buffer + [d]),
                                        logged := s.logged + {d}))
  {
    hide Reach, Do, Enabled;
    DoStartIndex(s, [d]);
    var s1 := Do(s, StartIndex([d]));
    Extend(run, s, StartIndex([d]));
    DoAppend(s1);
    var s2 := Do(s1, AppendRecord);
    Extend(run + [StartIndex([d])], s1, AppendRecord);
    assert [] + [d] == [d] && [d][1..] == [];
    DoFinishIndex(s2);
    Extend(run + [StartIndex([d])] + [AppendRecord], s2, FinishIndex);
    assert run + [StartIndex([d])] + [AppendRecord] + [FinishIndex] == run + IndexOne(d);
  }

  lemma Deletes(run: seq<Action>, s: State, id: u64)
    requires Reach(run, s) && s.phase == Idle
    ensures var marked := Marked(s.mem.list, s.disk.dirs, id);
            Reach(run + DeleteOne(id), s.(disk := Disk(s.disk.wal + [Delete(id)], marked.1),
                                          deleted := s.deleted + {id},
                                          mem := s.mem.(hidden := s.mem.hidden + {id}, list := marked.0)))
  {
    hide Reach, Enabled, Marked;
    DoDelete(s, id);
    Extend(run, s, StartDelete(id));
    Extend(run + [StartDelete(id)], Do(s, StartDelete(id)), FinishDelete);
    Two(run, StartDelete(id), FinishDelete);
  }

  lemma Flushes(run: seq<Action>, s: State)
    requires Reach(run, s) && s.phase == Idle && s.mem.buffer != []
    ensures var id := s.mem.nextSeg;
            Reach(run + FLUSH, s.(disk := Disk([], s.disk.dirs[id := Dir(s.mem.buffer, true, {})]),
                                  mem := Mem([], {}, Flushed(s.mem), id + 1), top := id))
  {
    hide Reach, Do, Enabled, Added;
    DoFlush(s);
    var s1 := Do(s, StartFlush);
    Extend(run, s, StartFlush);
    DoWrite(s1);
    var s2 := Do(s1, CreateDir);
    Extend(run + [StartFlush], s1, CreateDir);
    var s3 := Do(s2, CompleteDir);
    Extend(run + [StartFlush] + [CreateDir], s2, CompleteDir);
    DoInstallFlush(s3);
    Extend(run + [StartFlush] + [CreateDir] + [CompleteDir], s3, Install);
    Extend(run + [StartFlush] + [CreateDir] + [CompleteDir] + [Install], Do(s3, Install), Truncate);
    FlushSteps(run);
  }

  lemma FlushSteps(run: seq<Action>)
    ensures run + [StartFlush] + [CreateDir] + [CompleteDir] + [Install] + [Truncate] == run + FLUSH
  {
  }

  /** The first half of a reindex of segment 1: the new segment is written and swapped in. */
  lemma SwapsIn(run: seq<Action>, s: State) returns (t: State)
    requires Reach(run, s) && s.phase == Idle && s.mem.buffer == [] && Ids(s.mem.list.segs) == {1}
    requires LiveOf(s.mem.list.segs, {1}) != []
    ensures Reach(run + [StartReindex] + [CreateDir] + [CompleteDir] + [Install], t)
    ensures t.phase == Removing({1}, true) && t.mem.buffer == [] && t.mem.list == Merged(s.mem.list, [1], s.mem.nextSeg)
  {
    hide Reach, Do, Enabled, LiveOf, Replaced, Ids;
    NamedOne(1);
    DoStartReindex(s);
    var s1 := Do(s, StartReindex);
    Extend(run, s, StartReindex);
    DoWrite(s1);
    var s2 := Do(s1, CreateDir);
    Extend(run + [StartReindex], s1, CreateDir);
    var s3 := Do(s2, CompleteDir);
    Extend(run + [StartReindex] + [CreateDir], s2, CompleteDir);
    DoInstallMerge(s3);
    t := Do(s3, Install);
    Extend(run + [StartReindex] + [CreateDir] + [CompleteDir], s3, Install);
  }

  lemma Reindexes(run: seq<Action>, s: State) returns (t: State)
    requires Reach(run, s) && s.phase == Idle && s.mem.buffer == [] && Ids(s.mem.list.segs) == {1}
    requires LiveOf(s.mem.list.segs, {1}) != []
    ensures Reach(run + REINDEX, t) && t.phase == Idle && t.mem.buffer == []
    ensures t.mem.list == Merged(s.mem.list, [1], s.mem.nextSeg)
  {
    var s4 := SwapsIn(run, s);
    hide *;
    var run4 := run + [StartReindex] + [CreateDir] + [CompleteDir] + [Install];
    DoRemove(s4, 1);
    var s5 := Do(s4, RemoveDir(1));
    Extend(run4, s4, RemoveDir(1));
    DoFinishRemoving(s5);
    var s6 := Do(s5, FinishRemoving);
    Extend(run4 + [RemoveDir(1)], s5, FinishRemoving);
    DoTruncate(s6);
    t := Do(s6, Truncate);
    Extend(run4 + [RemoveDir(1)] + [FinishRemoving], s6, Truncate);
    ReindexSteps(run);
  }

  lemma ReindexSteps(run: seq<Action>)
    ensures run + [StartReindex] + [CreateDir] + [CompleteDir] + [Install] + [RemoveDir(1)] + [FinishRemoving]
            + [Truncate]
            == run + REINDEX
  {
  }

  lemma NamedOne(id: nat)
    ensures Named([id]) == {id}
  {
  }

  lemma ReachIs(run: seq<Action>, s: State)
    requires Reach(run, s)
    ensures Legal(run) && Exec(run) == s
  {
  }

  // ---- the runs --------------------------------------------------------------------------

  /** A document deleted while it is buffered is still served. */
  lemma DeletedStillServed(d: Document)
    ensures var run := OPEN + IndexOne(d) + DeleteOne(d.id);
            Legal(run) && Exec(run).phase == Idle && GetOne(Exec(run).mem, d.id) == Some(d)
  {
    hide Reach, Legal, Exec;
    OpensEmpty();
    Indexes(OPEN, EMPTY, d);
    var s := EMPTY.(disk := Disk([Index(d)], map[]), mem := EMPTY.mem.(buffer := [d]), logged := {d});
    assert [] + [Index(d)] == [Index(d)] && [] + [d] == [d] && {} + {d} == {d};
    assert Reach(OPEN + IndexOne(d), s);
    Deletes(OPEN + IndexOne(d), s, d.id);
    var run := OPEN + IndexOne(d) + DeleteOne(d.id);
    var t := s.(disk := Disk([Index(d)] + [Delete(d.id)], map[]), deleted := {} + {d.id},
                mem := s.mem.(hidden := {} + {d.id}));
    assert Reach(run, t);
    ReachIs(run, t);
  }

  /** It is hidden from searches, until a flush shows it again. */
  lemma FlushShowsDeleted(d: Document)
    ensures var run := OPEN + IndexOne(d) + DeleteOne(d.id);
            && Legal(run) && Legal(run + FLUSH) && Exec(run + FLUSH).phase == Idle
            && Visible(Exec(run).mem.list.segs) + Unhidden(Exec(run).mem.buffer, Exec(run).mem.hidden) == []
            && Visible(Exec(run + FLUSH).mem.list.segs) == [d]
  {
    hide Reach, Legal, Exec, Mapped;
    OpensEmpty();
    Indexes(OPEN, EMPTY, d);
    var s := EMPTY.(disk := Disk([Index(d)], map[]), mem := EMPTY.mem.(buffer := [d]), logged := {d});
    assert [] + [Index(d)] == [Index(d)] && [] + [d] == [d] && {} + {d} == {d};
    assert Reach(OPEN + IndexOne(d), s);
    Deletes(OPEN + IndexOne(d), s, d.id);
    var run := OPEN + IndexOne(d) + DeleteOne(d.id);
    var t := s.(disk := Disk([Index(d)] + [Delete(d.id)], map[]), deleted := {} + {d.id},
                mem := s.mem.(hidden := {} + {d.id}));
    assert Reach(run, t);
    ReachIs(run, t);
    UnhiddenSnoc([], d, {d.id});
    assert [] + [d] == [d];
    Flushes(run, t);
    ReachIs(run + FLUSH, t.(disk := Disk([], t.disk.dirs[1 := Dir([d], true, {})]),
                            mem := Mem([], {}, Flushed(t.mem), 2), top := 1));
    AddedContents(t.mem.list, 1, [d]);
  }

  /** The state after indexing and flushing one document. */
  function OneSegment(d: Document): State {
    State(Disk([], map[1 := Dir([d], true, {})]), Mem([], {}, SegList([Entry(1, [d], {})], map[d.id := Loc(1, 0)]), 2),
          Idle, {d}, {}, 1)
  }

  lemma OneFlushed(d: Document)
    ensures Reach(OPEN + IndexOne(d) + FLUSH, OneSegment(d))
  {
    hide Reach;
    OpensEmpty();
    Indexes(OPEN, EMPTY, d);
    var s := EMPTY.(disk := Disk([Index(d)], map[]), mem := EMPTY.mem.(buffer := [d]), logged := {d});
    assert [] + [Index(d)] == [Index(d)] && [] + [d] == [d] && {} + {d} == {d};
    assert Reach(OPEN + IndexOne(d), s);
    Flushes(OPEN + IndexOne(d), s);
    OneMapped(d);
  }

  lemma OneMapped(d: Document)
    ensures Added(SegList([], map[]), Entry(1, [d], {})) == SegList([Entry(1, [d], {})], map[d.id := Loc(1, 0)])
  {
    assert Mapped(map[], Entry(1, [d], {}), 0) == map[];
    assert Entry(1, [d], {}).Live(0);
  }

  /** A document indexed, flushed and deleted is no longer served, until a reindex brings it back. */
  lemma ReindexRevivesDeleted(d: Document)
    ensures var run := OPEN + IndexOne(d) + FLUSH + DeleteOne(d.id);
            && Legal(run) && GetOne(Exec(run).mem, d.id) == None
            && Legal(run + REINDEX) && Exec(run + REINDEX).phase == Idle
               && GetOne(Exec(run + REINDEX).mem, d.id) == Some(d)
  {
    hide Reach, Legal, Exec;
    var t := DeletedOne(d);
    var run := OPEN + IndexOne(d) + FLUSH + DeleteOne(d.id);
    var list := SegList([Entry(1, [d], {})], map[]);
    OneId(d);
    ReachIs(run, t);
    OneLive(d);
    var after := Reindexes(run, t);
    ReachIs(run + REINDEX, after);
    MergedIsAdded(list, [1], 2);
    NamedOne(1);
    RevivedServes(d);
  }

  lemma Restarts(run: seq<Action>, s: State, order: seq<nat>)
    requires Reach(run, s) && s.phase == Idle && s.disk.wal == [] && Lists(order, s.disk.dirs)
    ensures Reach(run + [Crash, Reopen(order), FinishReplay], Recovered(s, order))
  {
    hide Reach, Lists, OpenList, MaxOf;
    var down := s.(phase := Down);
    assert Enabled(s, Crash) && Do(s, Crash) == down;
    Extend(run, s, Crash);
    DoReopen(down, order);
    var up := Do(down, Reopen(order));
    Extend(run + [Crash], down, Reopen(order));
    DoFinishReplay(up);
    Extend(run + [Crash] + [Reopen(order)], up, FinishReplay);
    assert run + [Crash] + [Reopen(order)] + [FinishReplay] == run + [Crash, Reopen(order), FinishReplay];
  }

  /** One document flushed and deleted, then another one flushed. */
  function DeletedThenFlushed(d: Document, e: Document): seq<Action> {
    OPEN + IndexOne(d) + FLUSH + DeleteOne(d.id) + IndexOne(e) + FLUSH
  }

  lemma DeletedOne(d: Document) returns (t: State)
    ensures Reach(OPEN + IndexOne(d) + FLUSH + DeleteOne(d.id), t) && t.phase == Idle
    ensures t.disk == Disk([Delete(d.id)], map[1 := Dir([d], true, {0})])
    ensures t.mem == Mem([], {d.id}, SegList([Entry(1, [d], {})], map[]), 2)
  {
    hide Reach;
    OneFlushed(d);
    var s := OneSegment(d);
    Deletes(OPEN + IndexOne(d) + FLUSH, s, d.id);
    OneId(d);
    assert s.mem.list.locs - {d.id} == map[];
    var dead: set<nat> := {} + {0};
    assert dead == {0};
    assert s.disk.dirs[1 := Dir([d], true, dead)] == map[1 := Dir([d], true, dead)];
    assert [] + [Delete(d.id)] == [Delete(d.id)] && {} + {d.id} == {d.id};
    t := s.(disk := Disk([Delete(d.id)], map[1 := Dir([d], true, {0})]), deleted := {d.id},
            mem := s.mem.(hidden := {d.id}, list := SegList([Entry(1, [d], {})], map[])));
  }

  lemma DeletedAndFlushed(d: Document, e: Document) returns (v: State)
    ensures Reach(DeletedThenFlushed(d, e), v) && v.phase == Idle
    ensures v.disk == Disk([], map[1 := Dir([d], true, {0}), 2 := Dir([e], true, {})])
  {
    hide Reach, Added;
    var run := OPEN + IndexOne(d) + FLUSH + DeleteOne(d.id);
    var t := DeletedOne(d);
    Indexes(run, t, e);
    assert [] + [e] == [e];
    var u := t.(disk := t.disk.(wal := t.disk.wal + [Index(e)]), mem := t.mem.(buffer := [e]),
                logged := t.logged + {e});
    Flushes(run + IndexOne(e), u);
    v := u.(disk := Disk([], u.disk.dirs[2 := Dir([e], true, {})]), mem := Mem([], {}, Flushed(u.mem), 3), top := 2);
  }

  /** A document flushed and deleted stays deleted when another one is indexed and flushed, which empties
      the log, and the process then crashes: the bitmap is what remembers. */
  lemma DeleteOutlivesRestart(d: Document, e: Document)
    requires e.id != d.id
    ensures var run := DeletedThenFlushed(d, e) + [Crash, Reopen([1, 2]), FinishReplay];
            Legal(run) && Exec(run).phase == Idle && GetOne(Exec(run).mem, d.id) == None
  {
    hide Reach, Legal, Exec, Recovered, GetOne, Inv, DeletedThenFlushed;
    var v := DeletedAndFlushed(d, e);
    assert Lists([1, 2], v.disk.dirs);
    Restarts(DeletedThenFlushed(d, e), v, [1, 2]);
    ReachInv(DeletedThenFlushed(d, e), v);
    RecoveredFindsIff(v, [1, 2], d.id);
    IndexDocsNone();
    assert forall x :: OnDisk(v.disk.dirs, x) ==> x == e;
    ReachIs(DeletedThenFlushed(d, e) + [Crash, Reopen([1, 2]), FinishReplay], Recovered(v, [1, 2]));
    RecoveryHolds(v, [1, 2], 3);
  }

  lemma OneId(d: Document)
    ensures Ids([Entry(1, [d], {})]) == {1}
  {
    IdsSnoc([], Entry(1, [d], {}));
    assert [] + [Entry(1, [d], {})] == [Entry(1, [d], {})];
    assert Ids([]) == {};
  }

  lemma OneLive(d: Document)
    ensures LiveOf([Entry(1, [d], {})], {1}) == [d]
  {
    var e := Entry(1, [d], {});
    SplitSnoc([], e, {1});
    assert [] + [e] == [e];
    FreshShows(1, [d]);
  }

  lemma RevivedServes(d: Document)
    ensures GetOne(Mem([], {}, Merged(SegList([Entry(1, [d], {})], map[]), [1], 2), 3), d.id) == Some(d)
    ensures GetDoc(Merged(SegList([Entry(1, [d], {})], map[]), [1], 2), d.id) == Some(d)
  {
    var list := SegList([Entry(1, [d], {})], map[]);
    OneId(d);
    OneLive(d);
    NamedOne(1);
    MergedServes(list, [1], 2, d.id);
    LastSnoc([], d, d.id);
    assert [] + [d] == [d];
  }

  /** With an older version in a segment, a new version indexed below capacity is not served. */
  lemma OldVersionServed(v1: Document, v2: Document)
    requires v1.id == v2.id
    ensures var run := OPEN + IndexOne(v1) + FLUSH + IndexOne(v2);
            Legal(run) && Exec(run).phase == Idle && GetOne(Exec(run).mem, v2.id) == Some(v1)
  {
    hide Reach, Legal, Exec;
    OneFlushed(v1);
    var s := OneSegment(v1);
    Indexes(OPEN + IndexOne(v1) + FLUSH, s, v2);
    var run := OPEN + IndexOne(v1) + FLUSH + IndexOne(v2);
    var t := s.(disk := s.disk.(wal := [] + [Index(v2)]), mem := s.mem.(buffer := [] + [v2]),
                logged := s.logged + {v2});
    assert Reach(run, t);
    ReachIs(run, t);
    assert Entry(1, [v1], {}).Live(0);
  }

  /** A crash right after the flushed segment is complete leaves the one document twice. */
  lemma CrashDoublesFlushed(d: Document)
    ensures var s := EMPTY.(disk := Disk([Index(d)], map[]), mem := EMPTY.mem.(buffer := [d]), logged := {d});
            && Reach(OPEN + IndexOne(d), s)
            && Lists([1], FlushStage(s, 3).disk.dirs)
            && Contents(s.mem) == multiset{d} < Contents(Recovered(FlushStage(s, 3), [1]).mem)
  {
    hide Reach, Legal, Exec, Inv, Recovered, FlushStage;
    OpensEmpty();
    Indexes(OPEN, EMPTY, d);
    var s := EMPTY.(disk := Disk([Index(d)], map[]), mem := EMPTY.mem.(buffer := [d]), logged := {d});
    assert [] + [Index(d)] == [Index(d)] && [] + [d] == [d] && {} + {d} == {d};
    assert Reach(OPEN + IndexOne(d), s);
    ReachInv(OPEN + IndexOne(d), s);
    assert Settled(s);
    FlushStageIs(s, 3);
    FlushStageInv(s, 3);
    FlushHolds(s, 3);
    FlushCrashConservesIff(s, 3, [1]);
    NewNumber(s);
    WrittenStray(s, FlushStage(s, 3), 1, [d], true);
    CrashConservesIff(FlushStage(s, 3), [1]);
    RestingHolds(s);
  }
}
