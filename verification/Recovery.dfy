/** What a crash and the recovery from it leave of the shard's contents
    (crates/shard/src/shard.rs, crates/shard/src/segment_list.rs). */
module Recovery {
  import opened Base
  import opened Documents
  import opened SegmentLists
  import opened ShardModel
  import opened ShardRuns
  import opened ShardSafety
  import opened ShardSteps
  import Swaps
  import opened Wal

  // ---- the live documents on disk --------------------------------------------------------

  ghost function DirLive(dirs: map<nat, Dir>, i: nat): multiset<Document> {
    if i in dirs && dirs[i].complete then multiset(LiveDocs(Entry(i, dirs[i].docs, dirs[i].dead))) else multiset{}
  }

  /** The live documents of the complete directories numbered below n. */
  ghost function DiskLive(dirs: map<nat, Dir>, n: nat): multiset<Document> {
    if n == 0 then multiset{} else DiskLive(dirs, n - 1) + DirLive(dirs, n - 1)
  }

  ghost predicate Below(dirs: map<nat, Dir>, n: nat) {
    forall i :: i in dirs ==> i < n
  }

  function Only(dirs: map<nat, Dir>, ids: set<nat>): map<nat, Dir> {
    map i | i in dirs && i in ids :: dirs[i]
  }

  function Except(dirs: map<nat, Dir>, ids: set<nat>): map<nat, Dir> {
    map i | i in dirs && i !in ids :: dirs[i]
  }

  lemma {:induction false} DiskLiveSame(dirs: map<nat, Dir>, dirs': map<nat, Dir>, n: nat)
    requires forall i: nat :: i < n ==> DirLive(dirs, i) == DirLive(dirs', i)
    ensures DiskLive(dirs, n) == DiskLive(dirs', n)
  {
    hide DirLive;
    if n > 0 {
      DiskLiveSame(dirs, dirs', n - 1);
    }
  }

  lemma Swap(a: multiset<Document>, b: multiset<Document>, x: multiset<Document>, y: multiset<Document>,
             p: multiset<Document>)
    requires a + x == b + y
    ensures (a + p) + x == (b + p) + y
  {
    assert (a + p) + x == (a + x) + p;
    assert (b + p) + y == (b + y) + p;
  }

  /** Changing one directory changes its own part only. */
  lemma {:induction false} DiskLiveChange(dirs: map<nat, Dir>, dirs': map<nat, Dir>, k: nat, n: nat)
    requires k < n && forall i: nat :: i < n && i != k ==> DirLive(dirs, i) == DirLive(dirs', i)
    ensures DiskLive(dirs', n) + DirLive(dirs, k) == DiskLive(dirs, n) + DirLive(dirs', k)
  {
    hide DirLive;
    if k == n - 1 {
      DiskLiveSame(dirs, dirs', n - 1);
    } else {
      DiskLiveChange(dirs, dirs', k, n - 1);
      Swap(DiskLive(dirs', n - 1), DiskLive(dirs, n - 1), DirLive(dirs, k), DirLive(dirs', k), DirLive(dirs, n - 1));
    }
  }

  lemma DiskLiveZero(dirs: map<nat, Dir>)
    ensures DiskLive(dirs, 0) == multiset{}
  {
  }

  lemma DiskLiveNext(dirs: map<nat, Dir>, n: nat)
    ensures DiskLive(dirs, n + 1) == DiskLive(dirs, n) + DirLive(dirs, n)
  {
  }

  lemma {:induction false} DiskLiveSplit(dirs: map<nat, Dir>, ids: set<nat>, n: nat)
    ensures DiskLive(dirs, n) == DiskLive(Only(dirs, ids), n) + DiskLive(Except(dirs, ids), n)
  {
    hide *;
    DiskLiveZero(dirs);
    DiskLiveZero(Only(dirs, ids));
    DiskLiveZero(Except(dirs, ids));
    if n > 0 {
      DiskLiveNext(dirs, n - 1);
      DiskLiveNext(Only(dirs, ids), n - 1);
      DiskLiveNext(Except(dirs, ids), n - 1);
      DiskLiveSplit(dirs, ids, n - 1);
      DirLiveSplit(dirs, ids, n - 1);
      Rearrange(DiskLive(Only(dirs, ids), n - 1), DiskLive(Except(dirs, ids), n - 1), DirLive(Only(dirs, ids), n - 1),
                DirLive(Except(dirs, ids), n - 1));
    }
  }

  lemma DirLiveSplit(dirs: map<nat, Dir>, ids: set<nat>, i: nat)
    ensures DirLive(dirs, i) == DirLive(Only(dirs, ids), i) + DirLive(Except(dirs, ids), i)
  {
  }

  lemma Rearrange(a: multiset<Document>, b: multiset<Document>, x: multiset<Document>, y: multiset<Document>)
    ensures (a + b) + (x + y) == (a + x) + (b + y)
  {
  }

  lemma {:induction false} DiskLiveEmpty(dirs: map<nat, Dir>, n: nat)
    ensures DiskLive(dirs, n) == multiset{} <==> forall i: nat :: i < n ==> DirLive(dirs, i) == multiset{}
  {
    hide DirLive;
    if n > 0 {
      DiskLiveEmpty(dirs, n - 1);
      BothEmpty(DiskLive(dirs, n - 1), DirLive(dirs, n - 1));
    }
  }

  lemma BothEmpty(a: multiset<Document>, b: multiset<Document>)
    ensures a + b == multiset{} <==> a == multiset{} && b == multiset{}
  {
    assert |a + b| == |a| + |b|;
  }

  // ---- the listed directories ------------------------------------------------------------

  lemma NewPart(dirs: map<nat, Dir>, ids: set<nat>, e: Entry)
    requires Backed(dirs, e) && e.id !in ids
    ensures DirLive(Only(dirs, ids), e.id) == multiset{}
    ensures DirLive(Only(dirs, ids + {e.id}), e.id) == multiset(LiveDocs(Now(dirs, e)))
    ensures forall i: nat :: i != e.id ==> DirLive(Only(dirs, ids), i) == DirLive(Only(dirs, ids + {e.id}), i)
  {
    hide LiveDocs;
    assert Now(dirs, e) == Entry(e.id, dirs[e.id].docs, dirs[e.id].dead);
  }

  /** The live documents of listed directories are what readers opened now would show. */
  lemma {:induction false} ListedLive(dirs: map<nat, Dir>, segs: seq<Entry>, n: nat)
    requires AllBacked(dirs, segs) && DistinctIds(segs) && Below(dirs, n)
    ensures DiskLive(Only(dirs, Ids(segs)), n) == multiset(Visible(Refreshed(dirs, segs)))
  {
    if segs == [] {
      NoneListed(dirs, n);
    } else {
      hide *;
      var front, last := segs[..|segs| - 1], segs[|segs| - 1];
      assert segs == front + [last];
      RefreshedSnoc(dirs, front, last);
      Swaps.DistinctSnoc(front, last);
      ListedLive(dirs, front, n);
      IdsSnoc(front, last);
      NewPart(dirs, Ids(front), last);
      BackedBelow(dirs, last, n);
      DiskLiveChange(Only(dirs, Ids(front)), Only(dirs, Ids(segs)), last.id, n);
      VisibleSnoc(Refreshed(dirs, front), Now(dirs, last));
      JoinedMultiset(Visible(Refreshed(dirs, front)), LiveDocs(Now(dirs, last)));
    }
  }

  lemma JoinedMultiset(a: seq<Document>, b: seq<Document>)
    ensures multiset(a + b) == multiset(a) + multiset(b)
  {
  }

  lemma BackedBelow(dirs: map<nat, Dir>, e: Entry, n: nat)
    requires Backed(dirs, e) && Below(dirs, n)
    ensures e.id < n
  {
  }

  lemma NoneListed(dirs: map<nat, Dir>, n: nat)
    ensures DiskLive(Only(dirs, Ids([])), n) == multiset{} && multiset(Visible(Refreshed(dirs, []))) == multiset{}
  {
    DiskLiveEmpty(Only(dirs, Ids([])), n);
    assert Refreshed(dirs, []) == [];
  }

  // ---- reopening -------------------------------------------------------------------------

  ghost predicate UpToDate(dirs: map<nat, Dir>, segs: seq<Entry>) {
    forall i :: 0 <= i < |segs| ==> segs[i].id in dirs && segs[i].dead == dirs[segs[i].id].dead
  }

  lemma {:induction false} OpenedIsUpToDate(dirs: map<nat, Dir>, order: seq<nat>)
    requires forall i :: i in order ==> i in dirs
    ensures UpToDate(dirs, OpenList(dirs, order).segs)
    ensures forall i :: i in order && dirs[i].complete ==> i in Ids(OpenList(dirs, order).segs)
  {
    if order != [] {
      var front, last := order[..|order| - 1], order[|order| - 1];
      assert order == front + [last];
      OpenedIsUpToDate(dirs, front);
      OpenSnoc(dirs, front, last);
      if dirs[last].complete {
        var e := Entry(last, dirs[last].docs, dirs[last].dead);
        AddedSegs(OpenList(dirs, front), e);
        IdsSnoc(OpenList(dirs, front).segs, e);
        hide *;
        UpToDateSnoc(dirs, OpenList(dirs, front).segs, e);
      }
    }
  }

  lemma UpToDateSnoc(dirs: map<nat, Dir>, segs: seq<Entry>, e: Entry)
    requires UpToDate(dirs, segs) && e.id in dirs && e.dead == dirs[e.id].dead
    ensures UpToDate(dirs, segs + [e])
  {
  }

  lemma UpToDateIsRefreshed(dirs: map<nat, Dir>, segs: seq<Entry>)
    requires AllBacked(dirs, segs) && UpToDate(dirs, segs)
    ensures Refreshed(dirs, segs) == segs
  {
    forall i | 0 <= i < |segs|
      ensures Refreshed(dirs, segs)[i] == segs[i]
    {
      assert segs[i].id in dirs;
    }
  }

  /** The opened list shows exactly the live documents on disk, whatever the order. */
  lemma OpenedShowsDisk(dirs: map<nat, Dir>, order: seq<nat>, n: nat)
    requires Lists(order, dirs) && Below(dirs, n)
    ensures multiset(Visible(OpenList(dirs, order).segs)) == DiskLive(dirs, n)
  {
    var segs := OpenList(dirs, order).segs;
    OpenIsTrue(dirs, order, {});
    OpenedIsUpToDate(dirs, order);
    UpToDateIsRefreshed(dirs, segs);
    ListedLive(dirs, segs, n);
    DiskLiveSplit(dirs, Ids(segs), n);
    DiskLiveEmpty(Except(dirs, Ids(segs)), n);
    hide OpenList, Visible, DiskLive, Refreshed, LiveDocs;
    forall i: nat | i < n
      ensures DirLive(Except(dirs, Ids(segs)), i) == multiset{}
    {
    }
  }

  // ---- crash, reopen, replay -------------------------------------------------------------

  /** Replaying to the end of the log. */
  ghost function Replayed(s: State): State
    requires s.phase.Replaying?
    decreases |s.phase.todo|
  {
    if s.phase.todo == [] then Do(s, FinishReplay)
    else
      DoReplay(s);
      Replayed(Do(s, Replay))
  }

  /** Crash now, reopen and replay. */
  ghost function Recovered(s: State, order: seq<nat>): State
    requires s.phase != Down && Lists(order, s.disk.dirs)
  {
    Replayed(Do(Do(s, Crash), Reopen(order)))
  }

  lemma {:induction false} ReplayedIs(s: State)
    requires s.phase.Replaying?
    ensures Replayed(s).phase == Idle && Replayed(s).mem.list.segs == s.mem.list.segs
    ensures Replayed(s).mem.buffer == s.mem.buffer + IndexDocs(s.phase.todo)
    decreases |s.phase.todo|
  {
    hide Do, Enabled, Marked, IndexDocs;
    if s.phase.todo == [] {
      DoFinishReplay(s);
      IndexDocsNone();
    } else {
      DoReplay(s);
      ReplayedIs(Do(s, Replay));
      IndexDocsCons(s.phase.todo);
      MarkKeepsSegs(s.mem.list, s.disk.dirs, if s.phase.todo[0].Delete? then s.phase.todo[0].id else 0);
    }
  }

  lemma MarkKeepsSegs(list: SegList, dirs: map<nat, Dir>, id: u64)
    ensures Marked(list, dirs, id).0.segs == list.segs
  {
  }

  /** Everything an engine at rest holds, marked or not. */
  ghost function Contents(mem: Mem): multiset<Document> {
    multiset(Visible(mem.list.segs)) + multiset(mem.buffer)
  }

  /** What recovery holds is the live documents on disk and the log. */
  lemma RecoveryHolds(s: State, order: seq<nat>, n: nat)
    requires s.phase != Down && Lists(order, s.disk.dirs) && Below(s.disk.dirs, n)
    ensures Recovered(s, order).phase == Idle
    ensures Contents(Recovered(s, order).mem) == DiskLive(s.disk.dirs, n) + multiset(IndexDocs(s.disk.wal))
  {
    hide IndexDocs, Visible, DiskLive, OpenList, Replayed;
    var crashed := s.(phase := Down);
    assert Do(s, Crash) == crashed;
    DoReopen(crashed, order);
    var up := Do(crashed, Reopen(order));
    ReplayedIs(up);
    assert up.mem.buffer + IndexDocs(s.disk.wal) == IndexDocs(s.disk.wal);
    OpenedShowsDisk(s.disk.dirs, order, n);
  }

  // ---- when recovery conserves -----------------------------------------------------------

  /** Documents on their way between the log and the segments. */
  function Pending(s: State): seq<Document> {
    match s.phase
    case Appending(done, _) => done
    case Creating(job, docs, _) => if job.Flushing? then docs else []
    case Filling(job, docs, _) => if job.Flushing? then docs else []
    case Filled(job, docs, _) => if job.Flushing? then docs else []
    case Replaying(todo) => IndexDocs(todo)
    case _ => []
  }

  /** What the engine holds in the middle of an operation. */
  ghost function Holding(s: State): multiset<Document> {
    Contents(s.mem) + multiset(Pending(s))
  }

  /** The same, but of the open segments only what the bitmaps on disk leave alive: a reader goes on
      showing what was marked after it was opened. */
  ghost function HoldingNow(s: State): multiset<Document>
    requires AllBacked(s.disk.dirs, s.mem.list.segs)
  {
    multiset(Visible(Refreshed(s.disk.dirs, s.mem.list.segs))) + multiset(s.mem.buffer) + multiset(Pending(s))
  }

  /** No reader lags behind its bitmap. */
  ghost predicate AllCurrent(s: State) {
    forall i :: 0 <= i < |s.mem.list.segs| ==> Current(s.disk.dirs, s.mem.list.segs[i])
  }

  /** A complete directory that no reader is open on still holds live documents. */
  ghost predicate Stray(s: State, i: nat) {
    && i in s.disk.dirs && s.disk.dirs[i].complete && i !in Ids(s.mem.list.segs)
    && LiveDocs(Entry(i, s.disk.dirs[i].docs, s.disk.dirs[i].dead)) != []
  }

  lemma LoggedIsPending(s: State)
    requires Inv(s) && s.phase != Down && s.phase != Truncating
    ensures IndexDocs(s.disk.wal) == s.mem.buffer + Pending(s)
  {
    hide DiskOk, Safe, ListOk, Held, IndexDocs;
  }

  lemma {:induction false} CurrentShows(dirs: map<nat, Dir>, segs: seq<Entry>)
    requires AllBacked(dirs, segs) && forall i :: 0 <= i < |segs| ==> Current(dirs, segs[i])
    ensures Visible(Refreshed(dirs, segs)) == Visible(segs)
  {
    if segs == [] {
      NothingRefreshed(dirs, {});
    } else {
      var front, last := segs[..|segs| - 1], segs[|segs| - 1];
      assert segs == front + [last];
      assert forall i :: 0 <= i < |front| ==> front[i] == segs[i];
      assert Current(dirs, last);
      hide *;
      RefreshedSnoc(dirs, front, last);
      CurrentShows(dirs, front);
      LiveDocsNow(dirs, last);
      VisibleSnoc(front, last);
      VisibleSnoc(Refreshed(dirs, front), Now(dirs, last));
    }
  }

  lemma StraysAre(s: State, n: nat)
    requires Below(s.disk.dirs, n)
    ensures DiskLive(Except(s.disk.dirs, Ids(s.mem.list.segs)), n) == multiset{} <==>
              forall i :: i in s.disk.dirs ==> !Stray(s, i)
  {
    hide LiveDocs, Ids;
    var rest := Except(s.disk.dirs, Ids(s.mem.list.segs));
    DiskLiveEmpty(rest, n);
    forall i: nat | i < n
      ensures DirLive(rest, i) == multiset{} <==> !Stray(s, i)
    {
      if i in rest && rest[i].complete {
        EmptyMultiset(LiveDocs(Entry(i, rest[i].docs, rest[i].dead)));
      }
    }
  }

  lemma EmptyMultiset(docs: seq<Document>)
    ensures multiset(docs) == multiset{} <==> docs == []
  {
    assert |multiset(docs)| == |docs|;
  }

  lemma DiskHolds(s: State, n: nat)
    requires Inv(s) && s.phase != Down && Below(s.disk.dirs, n)
    ensures DiskLive(s.disk.dirs, n) ==
            multiset(Visible(Refreshed(s.disk.dirs, s.mem.list.segs)))
              + DiskLive(Except(s.disk.dirs, Ids(s.mem.list.segs)), n)
  {
    hide DiskOk, Safe, Held, PhaseOk, AllBacked, DistinctIds, LocsTrue, LocsFull, DiskLive, Visible, Refreshed, Ids;
    ListedLive(s.disk.dirs, s.mem.list.segs, n);
    DiskLiveSplit(s.disk.dirs, Ids(s.mem.list.segs), n);
  }

  /** A crash, followed by a reopening in any order and a full replay, conserves what the engine held
      live if and only if no unlisted complete directory holds live documents and, once a flushed
      segment is listed, the log has been truncated.  Nothing is ever lost; what is not conserved is
      held twice. */
  lemma CrashConservesIff(s: State, order: seq<nat>)
    requires Inv(s) && s.phase != Down && Lists(order, s.disk.dirs)
    ensures AllBacked(s.disk.dirs, s.mem.list.segs)
    ensures HoldingNow(s) <= Contents(Recovered(s, order).mem)
    ensures Contents(Recovered(s, order).mem) == HoldingNow(s) <==>
              (forall i :: i in s.disk.dirs ==> !Stray(s, i)) && (s.phase == Truncating ==> IndexDocs(s.disk.wal) == [])
  {
    var n := s.top + 1;
    BelowTop(s);
    RunningList(s);
    RecoveryHolds(s, order, n);
    DiskHolds(s, n);
    StraysAre(s, n);
    var strays := DiskLive(Except(s.disk.dirs, Ids(s.mem.list.segs)), n);
    var logged := IndexDocs(s.disk.wal);
    if s.phase == Truncating {
      AtTruncating(s);
    } else {
      LoggedIsPending(s);
      JoinedMultiset(s.mem.buffer, Pending(s));
    }
    hide *;
    EmptyMultiset(logged);
    EmptyMultiset(Pending(s));
    EmptyMultiset(s.mem.buffer);
    Extra(multiset(Visible(Refreshed(s.disk.dirs, s.mem.list.segs))), strays, multiset(logged));
    HoldingNowIs(s);
  }

  lemma HoldingNowIs(s: State)
    requires AllBacked(s.disk.dirs, s.mem.list.segs)
    ensures HoldingNow(s) ==
            multiset(Visible(Refreshed(s.disk.dirs, s.mem.list.segs))) + multiset(s.mem.buffer) + multiset(Pending(s))
  {
  }

  /** When no reader lags, that is all the engine held. */
  lemma CrashConservesAllIff(s: State, order: seq<nat>)
    requires Inv(s) && s.phase != Down && Lists(order, s.disk.dirs) && AllCurrent(s)
    ensures Holding(s) <= Contents(Recovered(s, order).mem)
    ensures Contents(Recovered(s, order).mem) == Holding(s) <==>
              (forall i :: i in s.disk.dirs ==> !Stray(s, i)) && (s.phase == Truncating ==> IndexDocs(s.disk.wal) == [])
  {
    hide Inv, Stray, Recovered, Lists, Current, Visible, Refreshed, IndexDocs, Pending;
    CrashConservesIff(s, order);
    CurrentShows(s.disk.dirs, s.mem.list.segs);
  }

  lemma Extra(a: multiset<Document>, x: multiset<Document>, b: multiset<Document>)
    ensures a + b <= a + x + b
    ensures a + x + b == a + b <==> x == multiset{}
    ensures a <= a + x + b
    ensures a + x + b == a <==> x == multiset{} && b == multiset{}
  {
    assert |a + x + b| == |a| + |x| + |b|;
    assert |a + b| == |a| + |b|;
  }

  lemma BelowTop(s: State)
    requires Inv(s)
    ensures Below(s.disk.dirs, s.top + 1)
  {
    hide Safe, Running, DeadOk, IndexDocs;
  }

  lemma RunningList(s: State)
    requires Inv(s) && s.phase != Down
    ensures AllBacked(s.disk.dirs, s.mem.list.segs)
  {
    hide DiskOk, Safe, Held, PhaseOk, MapTrue;
  }

  lemma AtTruncating(s: State)
    requires Inv(s) && s.phase == Truncating
    ensures s.mem.buffer == [] && Pending(s) == []
  {
    hide DiskOk, Safe, Held, ListOk, IndexDocs, Listed;
  }
}
