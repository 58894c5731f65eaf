/** The storage protocol step by step: what each step does where it is taken, and stretches of
    steps that neither acknowledge a write nor request a delete. */
module ShardSteps {
  import opened Base
  import opened Documents
  import opened SegmentLists
  import opened ShardModel
  import opened ShardRuns
  import opened ShardSafety
  import opened Wal

  function Replays(n: nat): seq<Action> {
    seq(n, _ => Replay)
  }

  ghost predicate Reach(run: seq<Action>, s: State) {
    Legal(run) && Exec(run) == s
  }

  lemma Extend(run: seq<Action>, s: State, a: Action)
    requires Reach(run, s) && Enabled(s, a)
    ensures Reach(run + [a], Do(s, a))
    ensures Acked(run + [a]) == Acked(run) + if a == FinishIndex then s.phase.done else []
  {
    hide Do, Enabled;
    assert (run + [a])[..|run|] == run;
  }

  lemma ReachInv(run: seq<Action>, s: State)
    requires Reach(run, s)
    ensures Inv(s)
  {
    hide Inv, Do, Enabled;
    RunKeepsInv(run);
  }

  lemma QuietlyNone(run: seq<Action>)
    ensures Quietly(run, run)
  {
  }

  /** Steps that neither acknowledge a write nor request a delete. */
  ghost predicate Quiet(a: Action) {
    !a.FinishIndex? && !a.StartDelete?
  }

  ghost predicate Quietly(before: seq<Action>, after: seq<Action>) {
    && before <= after
    && forall i :: |before| <= i < |after| ==> Quiet(after[i])
  }

  lemma QuietlyStep(run: seq<Action>, a: Action)
    requires Quiet(a)
    ensures Quietly(run, run + [a])
  {
  }

  lemma QuietlySteps(run: seq<Action>, a: Action, b: Action)
    requires Quiet(a) && Quiet(b)
    ensures Quietly(run, run + [a] + [b])
  {
  }

  lemma QuietlyJoin(a: seq<Action>, b: seq<Action>, c: seq<Action>)
    requires Quietly(a, b) && Quietly(b, c)
    ensures Quietly(a, c)
  {
    forall i | |a| <= i < |c|
      ensures Quiet(c[i])
    {
      assert i < |b| ==> c[i] == b[i];
    }
  }

  /** Quiet steps change neither what was acknowledged nor what was asked to be deleted. */
  lemma {:induction false} QuietlyKeeps(before: seq<Action>, after: seq<Action>)
    requires Legal(before) && Legal(after) && Quietly(before, after)
    ensures Acked(after) == Acked(before)
    ensures forall id :: StartDelete(id) in after <==> StartDelete(id) in before
  {
    if |before| < |after| {
      var front, a := after[..|after| - 1], after[|after| - 1];
      assert after == front + [a] && Quiet(a);
      LegalSnoc(front, a);
      AckedSnoc(front, a);
      QuietlyKeeps(before, front);
    } else {
      assert after == before;
    }
  }

  function Appends(n: nat): seq<Action> {
    seq(n, _ => AppendRecord)
  }

  /** The steps of one index call. */
  function Indexing(docs: seq<Document>): seq<Action> {
    [StartIndex(docs)] + Appends(|docs|) + [FinishIndex]
  }

  // ---- the steps, one by one -------------------------------------------------------------

  lemma DoDelete(s: State, id: u64)
    requires s.phase == Idle
    ensures Enabled(s, StartDelete(id))
    ensures var mid := Do(s, StartDelete(id));
            var marked := Marked(s.mem.list, s.disk.dirs, id);
            && mid.disk == s.disk.(wal := s.disk.wal + [WalEntry.Delete(id)]) && mid.mem == s.mem
            && Enabled(mid, FinishDelete)
            && Do(mid, FinishDelete) ==
               mid.(mem := s.mem.(hidden := s.mem.hidden + {id}, list := marked.0), disk := mid.disk.(dirs := marked.1),
                    phase := Idle)
  {
    hide Marked;
  }

  lemma DoStartIndex(s: State, docs: seq<Document>)
    requires s.phase == Idle
    ensures Enabled(s, StartIndex(docs)) && Do(s, StartIndex(docs)) == s.(phase := Appending([], docs))
  {
  }

  lemma DoAppend(s: State)
    requires s.phase.Appending? && s.phase.rest != []
    ensures Enabled(s, AppendRecord)
    ensures var d := s.phase.rest[0];
            Do(s, AppendRecord) == s.(disk := s.disk.(wal := s.disk.wal + [Index(d)]), logged := s.logged + {d},
                                      phase := Appending(s.phase.done + [d], s.phase.rest[1..]))
  {
  }

  lemma DoFinishIndex(s: State)
    requires s.phase.Appending? && s.phase.rest == []
    ensures Enabled(s, FinishIndex)
    ensures Do(s, FinishIndex) == s.(mem := s.mem.(buffer := s.mem.buffer + s.phase.done), phase := Idle)
  {
  }

  lemma DoFlushNothing(s: State)
    requires s.phase == Idle && s.mem.buffer == []
    ensures Enabled(s, StartFlush) && Do(s, StartFlush) == s.(mem := s.mem.(hidden := {}))
  {
  }

  lemma DoFlush(s: State)
    requires s.phase == Idle && s.mem.buffer != []
    ensures Enabled(s, StartFlush)
    ensures Do(s, StartFlush) ==
            s.(mem := Mem([], {}, s.mem.list, s.mem.nextSeg + 1),
               phase := Creating(Flushing, s.mem.buffer, s.mem.nextSeg))
  {
  }

  lemma DoStartMerge(s: State, group: set<nat>)
    requires s.phase == Idle && group <= Ids(s.mem.list.segs)
    ensures Enabled(s, StartMerge(group))
    ensures Do(s, StartMerge(group)) ==
            s.(mem := s.mem.(nextSeg := s.mem.nextSeg + 1),
               phase := Creating(Merging(group, false), LiveOf(s.mem.list.segs, group), s.mem.nextSeg))
  {
    hide Ids, LiveOf;
  }

  lemma DoStartReindex(s: State)
    requires s.phase == Idle && s.mem.buffer == [] && LiveOf(s.mem.list.segs, Ids(s.mem.list.segs)) != []
    ensures Enabled(s, StartReindex)
    ensures var all := Ids(s.mem.list.segs);
            Do(s, StartReindex) ==
            s.(mem := s.mem.(nextSeg := s.mem.nextSeg + 1),
               phase := Creating(Merging(all, true), LiveOf(s.mem.list.segs, all), s.mem.nextSeg))
  {
    hide Ids, LiveOf;
  }

  lemma DoWrite(s: State)
    requires s.phase.Creating?
    ensures var mid := Do(s, CreateDir);
            && Enabled(s, CreateDir)
            && mid == s.(disk := s.disk.(dirs := s.disk.dirs[s.phase.id := Dir(s.phase.docs, false, {})]),
                         top := s.phase.id, phase := Filling(s.phase.job, s.phase.docs, s.phase.id))
            && Enabled(mid, CompleteDir)
            && Do(mid, CompleteDir) ==
               mid.(disk := s.disk.(dirs := s.disk.dirs[s.phase.id := Dir(s.phase.docs, true, {})]),
                    phase := Filled(s.phase.job, s.phase.docs, s.phase.id))
  {
    var docs, id := s.phase.docs, s.phase.id;
    assert s.disk.dirs[id := Dir(docs, false, {})][id := Dir(docs, true, {})] == s.disk.dirs[id := Dir(docs, true, {})];
  }

  lemma DoInstallFlush(s: State)
    requires s.phase.Filled? && s.phase.job.Flushing?
    ensures var mid := Do(s, Install);
            && Enabled(s, Install)
            && mid == s.(mem := s.mem.(list := Added(s.mem.list, Entry(s.phase.id, s.phase.docs, {}))),
                         phase := Truncating)
            && Enabled(mid, Truncate)
            && Do(mid, Truncate) == mid.(disk := s.disk.(wal := []), phase := Idle)
  {
    hide Added;
  }

  lemma DoInstallMerge(s: State)
    requires s.phase.Filled? && s.phase.job.Merging?
    ensures var job := s.phase.job;
            && Enabled(s, Install)
            && Do(s, Install) ==
               s.(mem := s.mem.(list := Replaced(s.mem.list, job.group, Entry(s.phase.id, s.phase.docs, {}))),
                  phase := Removing(job.group, job.thenTruncate))
  {
    hide Replaced;
  }

  lemma DoTruncate(s: State)
    requires s.phase == Truncating
    ensures Enabled(s, Truncate) && Do(s, Truncate) == s.(disk := s.disk.(wal := []), phase := Idle)
  {
  }

  lemma DoRemove(s: State, i: nat)
    requires s.phase.Removing? && i in s.phase.ids
    ensures Enabled(s, RemoveDir(i))
    ensures Do(s, RemoveDir(i)) ==
            s.(disk := s.disk.(dirs := s.disk.dirs - {i}), phase := Removing(s.phase.ids - {i}, s.phase.thenTruncate))
  {
  }

  lemma DoFinishRemoving(s: State)
    requires s.phase.Removing? && s.phase.ids == {}
    ensures Enabled(s, FinishRemoving)
    ensures Do(s, FinishRemoving) == s.(phase := if s.phase.thenTruncate then Truncating else Idle)
  {
  }

  lemma DoReopen(s: State, order: seq<nat>)
    requires s.phase == Down && Lists(order, s.disk.dirs)
    ensures Enabled(s, Reopen(order)) && forall i :: i in order ==> i in s.disk.dirs
    ensures Do(s, Reopen(order)) ==
            s.(mem := Mem([], {}, OpenList(s.disk.dirs, order), MaxOf(order) + 1), phase := Replaying(s.disk.wal))
  {
    hide OpenList, MaxOf;
  }

  lemma DoFinishReplay(s: State)
    requires s.phase == Replaying([])
    ensures Enabled(s, FinishReplay) && Do(s, FinishReplay) == s.(phase := Idle)
  {
  }

  lemma DoReplay(s: State)
    requires s.phase.Replaying? && s.phase.todo != []
    ensures var marked := Marked(s.mem.list, s.disk.dirs, if s.phase.todo[0].Delete? then s.phase.todo[0].id else 0);
            && Enabled(s, Replay)
            && Do(s, Replay) ==
               match s.phase.todo[0]
               case Index(d) => s.(mem := s.mem.(buffer := s.mem.buffer + [d]), phase := Replaying(s.phase.todo[1..]))
               case Delete(id) =>
                 s.(mem := s.mem.(hidden := s.mem.hidden + {id}, list := marked.0), disk := s.disk.(dirs := marked.1),
                    phase := Replaying(s.phase.todo[1..]))
  {
    hide Marked;
  }

  lemma OpenOnDisk(s: State)
    requires Inv(s) && s.phase != Down
    ensures forall i :: i in Ids(s.mem.list.segs) ==> i in s.disk.dirs
    ensures DistinctIds(s.mem.list.segs)
  {
    hide DiskOk, Held, Safe, PhaseOk, Ids, LocsTrue, LocsFull;
    ListedIds(s.disk.dirs, s.mem.list.segs);
  }
}
