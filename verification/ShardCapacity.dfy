/** A run to ten segments, on which an index call that fills the buffer does not serve the version it
    indexed.  A flush that reaches three segments merges them, so the ten rounds each end in a crash
    between the flush and the merge. */
module ShardCapacity {
  import opened Base
  import opened Documents
  import opened MergePolicy
  import opened SegmentLists
  import opened Serving
  import opened ShardExamples
  import opened ShardModel
  import opened ShardRuns
  import opened ShardSafety
  import opened ShardSteps
  import opened Swaps
  import opened Wal

  // ---- one document a segment ------------------------------------------------------------

  function SegmentOf(docs: seq<Document>, i: nat): Entry
    requires i < |docs|
  {
    Entry(i + 1, [docs[i]], {})
  }

  /** The segments 1 to n, one document each. */
  function Singles(docs: seq<Document>): seq<Entry> {
    seq(|docs|, i requires 0 <= i < |docs| => SegmentOf(docs, i))
  }

  function Order(n: nat): (order: seq<nat>)
    ensures forall i :: i in order <==> 1 <= i <= n
    ensures |order| == n && forall i :: 0 <= i < n ==> order[i] == i + 1
  {
    if n == 0 then [] else Order(n - 1) + [n]
  }

  function Dirs(docs: seq<Document>): map<nat, Dir> {
    map i | i in Order(|docs|) :: Dir([docs[i - 1]], true, {})
  }

  lemma OrderIs(docs: seq<Document>)
    ensures Lists(Order(|docs|), Dirs(docs))
  {
  }

  lemma {:induction false} OrderMax(n: nat)
    ensures MaxOf(Order(n)) == n
  {
    if n > 0 {
      OrderMax(n - 1);
      assert Order(n)[..n - 1] == Order(n - 1);
    }
  }

  lemma SinglesSnoc(docs: seq<Document>, n: nat)
    requires 0 < n <= |docs|
    ensures |Singles(docs)| == |docs| && Singles(docs)[..n] == Singles(docs)[..n - 1] + [SegmentOf(docs, n - 1)]
  {
  }

  lemma DirAt(docs: seq<Document>, n: nat)
    requires 0 < n <= |docs|
    ensures n in Dirs(docs) && Dirs(docs)[n] == Dir([docs[n - 1]], true, {})
  {
  }

  lemma OrderSnoc(n: nat)
    requires n > 0
    ensures Order(n) == Order(n - 1) + [n]
  {
  }

  lemma NoneOpened(docs: seq<Document>)
    ensures Order(0) == [] && |Singles(docs)| == |docs| && Singles(docs)[..0] == []
  {
  }

  /** Opening the first n of them. */
  lemma {:induction false} OpensSingles(docs: seq<Document>, n: nat)
    requires n <= |docs| && forall i :: i in Order(n) ==> i in Dirs(docs)
    ensures |Singles(docs)| == |docs| && OpenList(Dirs(docs), Order(n)).segs == Singles(docs)[..n]
  {
    hide *;
    var dirs := Dirs(docs);
    NoneOpened(docs);
    if n == 0 {
      OpenNone(dirs, {});
    } else {
      var front := Order(n - 1);
      OrderSnoc(n);
      OpensSingles(docs, n - 1);
      DirAt(docs, n);
      OpenSnoc(dirs, front, n);
      AddedSegs(OpenList(dirs, front), Entry(n, [docs[n - 1]], {}));
      SinglesSnoc(docs, n);
      SegmentIs(docs, n - 1);
    }
  }

  lemma SegmentIs(docs: seq<Document>, i: nat)
    requires i < |docs|
    ensures SegmentOf(docs, i) == Entry(i + 1, [docs[i]], {}) && LiveDocs(SegmentOf(docs, i)) == [docs[i]]
  {
    FreshLive(i + 1, [docs[i]], 1);
    assert [docs[i]][..1] == [docs[i]];
  }

  // ---- the rounds ------------------------------------------------------------------------

  /** Index and flush a document, crash before the merge, and reopen. */
  function Round(d: Document, n: nat): seq<Action> {
    IndexOne(d) + FLUSH + [Crash, Reopen(Order(n)), FinishReplay]
  }

  function Rounds(docs: seq<Document>): seq<Action> {
    if docs == [] then OPEN else Rounds(docs[..|docs| - 1]) + Round(docs[|docs| - 1], |docs|)
  }

  /** At rest with nothing buffered or logged and one segment a document. */
  ghost predicate HasSingles(s: State, docs: seq<Document>) {
    && s.phase == Idle && s.disk == Disk([], Dirs(docs))
    && s.mem.buffer == [] && s.mem.list.segs == Singles(docs) && s.mem.nextSeg == |docs| + 1
  }

  lemma Reopens(run: seq<Action>, s: State, docs: seq<Document>) returns (t: State)
    requires Reach(run, s) && s.phase == Idle && s.disk == Disk([], Dirs(docs))
    ensures Reach(run + [Crash, Reopen(Order(|docs|)), FinishReplay], t) && HasSingles(t, docs)
  {
    SinglesCount(docs);
    hide Reach, Do, Enabled, OpenList, Lists, Dirs, Singles, Order, MaxOf;
    var order := Order(|docs|);
    DoCrash(s);
    var down := Do(s, Crash);
    Extend(run, s, Crash);
    OrderIs(docs);
    OrderMax(|docs|);
    DoReopen(down, order);
    var up := Do(down, Reopen(order));
    Extend(run + [Crash], down, Reopen(order));
    DoFinishReplay(up);
    t := Do(up, FinishReplay);
    Extend(run + [Crash] + [Reopen(order)], up, FinishReplay);
    assert run + [Crash] + [Reopen(order)] + [FinishReplay] == run + [Crash, Reopen(order), FinishReplay];
    OpensSingles(docs, |docs|);
    assert Singles(docs)[..|docs|] == Singles(docs);
  }

  lemma DoCrash(s: State)
    requires s.phase != Down
    ensures Enabled(s, Crash) && Do(s, Crash) == s.(phase := Down)
  {
  }

  lemma {:induction false} RoundsReach(docs: seq<Document>) returns (s: State)
    ensures Reach(Rounds(docs), s) && HasSingles(s, docs)
  {
    hide Reach, Dirs, Singles;
    if docs == [] {
      OpensEmpty();
      s := EMPTY;
      NoSingles();
    } else {
      var front, d := docs[..|docs| - 1], docs[|docs| - 1];
      var s0 := RoundsReach(front);
      var run := Rounds(front);
      Indexes(run, s0, d);
      var s1 := s0.(disk := s0.disk.(wal := s0.disk.wal + [Index(d)]), mem := s0.mem.(buffer := s0.mem.buffer + [d]),
                    logged := s0.logged + {d});
      Flushes(run + IndexOne(d), s1);
      assert [] + [d] == [d];
      OneMoreDir(front, d);
      var s2 := s1.(disk := Disk([], s1.disk.dirs[|docs| := Dir([d], true, {})]),
                    mem := Mem([], {}, Flushed(s1.mem), |docs| + 1), top := |docs|);
      assert front + [d] == docs;
      s := Reopens(run + IndexOne(d) + FLUSH, s2, docs);
      assert run + IndexOne(d) + FLUSH + [Crash, Reopen(Order(|docs|)), FinishReplay] == run + Round(d, |docs|);
    }
  }

  lemma NoSingles()
    ensures HasSingles(EMPTY, [])
  {
  }

  lemma OneMoreDir(front: seq<Document>, d: Document)
    ensures Dirs(front + [d]) == Dirs(front)[|front| + 1 := Dir([d], true, {})]
  {
  }

  // ---- the call that fills the buffer ----------------------------------------------------

  lemma {:induction false} AllNoLarger(docs: seq<Document>, n: nat)
    requires n <= |docs|
    ensures NoLarger(Singles(docs)[..n], 1) == n
  {
    if n > 0 {
      AllNoLarger(docs, n - 1);
      assert Singles(docs)[..n][..n - 1] == Singles(docs)[..n - 1];
    }
  }

  lemma {:induction false} LiveOfSingles(docs: seq<Document>, group: set<nat>, n: nat)
    requires n <= |docs| == |Singles(docs)| && Ids(Singles(docs)) <= group
    ensures LiveOf(Singles(docs)[..n], group) == docs[..n]
  {
    hide *;
    if n == 0 {
      NothingVisible(group);
    } else {
      var e := SegmentOf(docs, n - 1);
      LiveOfSingles(docs, group, n - 1);
      SinglesSnoc(docs, n);
      SplitSnoc(Singles(docs)[..n - 1], e, group);
      SegmentIs(docs, n - 1);
      SegmentListed(docs, n - 1);
      assert docs[..n] == docs[..n - 1] + [docs[n - 1]];
    }
  }

  lemma SegmentListed(docs: seq<Document>, i: nat)
    requires i < |docs|
    ensures SegmentOf(docs, i).id in Ids(Singles(docs))
  {
    assert Singles(docs)[i].id == SegmentOf(docs, i).id;
  }

  lemma SinglesDistinct(docs: seq<Document>)
    ensures DistinctIds(Singles(docs))
  {
  }

  /** Ten one-document segments leave no room in a merge for an eleventh. */
  lemma TenAreAllPicked(docs: seq<Document>)
    requires |docs| == MAX_AT_ONCE
    ensures LiveOf(Singles(docs), Named(Picked(Singles(docs)))) == docs
  {
    var segs := Singles(docs);
    SinglesDistinct(docs);
    PickedFit(segs);
    hide Picked, Singles, Named, Ids;
    NamedSize(Picked(segs));
    IdsSize(segs);
    assert |segs| == |docs| by { SinglesCount(docs); }
    SameSizeSet(Named(Picked(segs)), Ids(segs));
    LiveOfSingles(docs, Named(Picked(segs)), |docs|);
    assert segs[..|docs|] == segs && docs[..|docs|] == docs;
  }

  lemma SinglesCount(docs: seq<Document>)
    ensures |Singles(docs)| == |docs|
  {
  }

  lemma SameSizeSet(a: set<nat>, b: set<nat>)
    requires a <= b && |a| == |b|
    ensures a == b
  {
    assert b == a + (b - a);
  }

  // ---- the merge, step by step -----------------------------------------------------------

  function Removals(group: seq<nat>): seq<Action> {
    seq(|group|, i requires 0 <= i < |group| => RemoveDir(group[i]))
  }

  function Merge(group: seq<nat>): seq<Action> {
    [StartMerge(Named(group)), CreateDir, CompleteDir, Install] + Removals(group) + [FinishRemoving]
  }

  lemma {:induction false} Removes(run: seq<Action>, s: State, group: seq<nat>) returns (t: State)
    requires Reach(run, s) && s.phase == Removing(Named(group), false) && Unrepeated(group)
    ensures Reach(run + Removals(group) + [FinishRemoving], t) && t.phase == Idle && t.mem == s.mem
    decreases |group|
  {
    hide Reach, Do, Enabled, Named, Unrepeated;
    NamedFrom(group);
    if group == [] {
      DoFinishRemoving(s);
      Extend(run, s, FinishRemoving);
      t := Do(s, FinishRemoving);
      assert run + [FinishRemoving] == run + Removals(group) + [FinishRemoving];
    } else {
      NamedRest(group, 0);
      UnrepeatedRest(group);
      DoRemove(s, group[0]);
      Extend(run, s, RemoveDir(group[0]));
      t := Removes(run + [RemoveDir(group[0])], Do(s, RemoveDir(group[0])), group[1..]);
      assert Removals(group) == [RemoveDir(group[0])] + Removals(group[1..]);
      assert run + [RemoveDir(group[0])] + Removals(group[1..]) == run + Removals(group);
    }
  }

  lemma UnrepeatedRest(group: seq<nat>)
    requires group != [] && Unrepeated(group)
    ensures Unrepeated(group[1..])
  {
  }

  lemma Merges(run: seq<Action>, s: State, group: seq<nat>) returns (t: State)
    requires Reach(run, s) && s.phase == Idle && Named(group) <= Ids(s.mem.list.segs) && Unrepeated(group)
    ensures Reach(run + Merge(group), t) && t.phase == Idle && t.mem.buffer == s.mem.buffer
    ensures t.mem.list == Merged(s.mem.list, group, s.mem.nextSeg)
  {
    hide Reach, Do, Enabled, LiveOf, Replaced, Ids, Named, Unrepeated;
    DoStartMerge(s, Named(group));
    var s1 := Do(s, StartMerge(Named(group)));
    Extend(run, s, StartMerge(Named(group)));
    DoWrite(s1);
    var s2 := Do(s1, CreateDir);
    Extend(run + [StartMerge(Named(group))], s1, CreateDir);
    var s3 := Do(s2, CompleteDir);
    Extend(run + [StartMerge(Named(group))] + [CreateDir], s2, CompleteDir);
    DoInstallMerge(s3);
    Extend(run + [StartMerge(Named(group))] + [CreateDir] + [CompleteDir], s3, Install);
    var run4 := run + [StartMerge(Named(group))] + [CreateDir] + [CompleteDir] + [Install];
    t := Removes(run4, Do(s3, Install), group);
    assert run4 + Removals(group) + [FinishRemoving] == run + Merge(group);
  }

  // ---- the call that fills the buffer ----------------------------------------------------

  /** The steps of an index call that fills the buffer, from ten segments on. */
  ghost function IndexAndMerge(mem: Mem, d: Document): seq<Action> {
    IndexOne(d) + FLUSH + Merge(Picked(Flushed(mem.(buffer := mem.buffer + [d])).segs))
  }

  /** The state in which such a call returns. */
  lemma CallReaches(run: seq<Action>, s: State, d: Document) returns (t: State)
    requires Reach(run, s) && s.phase == Idle && |s.mem.list.segs| >= MIN_SEGMENTS
    ensures Reach(run + IndexAndMerge(s.mem, d), t) && t.phase == Idle && t.mem.buffer == []
    ensures t.mem.list == FlushedList(s.mem.(buffer := s.mem.buffer + [d]))
  {
    hide Reach, Picked, Added, Merged, Merge;
    Indexes(run, s, d);
    var full := s.mem.(buffer := s.mem.buffer + [d]);
    var s1 := s.(disk := s.disk.(wal := s.disk.wal + [Index(d)]), mem := full, logged := s.logged + {d});
    Flushes(run + IndexOne(d), s1);
    var s2 := s1.(disk := Disk([], s1.disk.dirs[full.nextSeg := Dir(full.buffer, true, {})]),
                  mem := Mem([], {}, Flushed(full), full.nextSeg + 1), top := full.nextSeg);
    var run2 := run + IndexOne(d) + FLUSH;
    FlushedIs(full);
    ReachInv(run2, s2);
    OpenOnDisk(s2);
    PickedFit(s2.mem.list.segs);
    t := Merges(run2, s2, Picked(s2.mem.list.segs));
    assert run2 + Merge(Picked(s2.mem.list.segs)) == run + IndexAndMerge(s.mem, d);
  }

  /** After ten rounds in which this id was last given another version, a new version that fills a
      buffer of one is not served when the call that indexed it returns. */
  lemma OldVersionAtCapacity(docs: seq<Document>, d: Document)
    requires |docs| == MAX_AT_ONCE && LastWithId(docs, d.id).Some? && LastWithId(docs, d.id) != Some(d)
    ensures var run := Rounds(docs);
            && Legal(run) && Exec(run).phase == Idle && Exec(run).mem.buffer == []
            && !ServedAtCapacity(Exec(run).mem, d)
            && var after := run + IndexAndMerge(Exec(run).mem, d);
               Legal(after) && Exec(after).phase == Idle && GetOne(Exec(after).mem, d.id) == LastWithId(docs, d.id)
  {
    hide Reach, Legal, Exec, Inv, Singles, Picked, NoLarger, LiveOf, LastWithId, FlushedList, GetDoc, Rewritten, Dirs,
         DistinctIds, LocsTrue, Unnumbered, IndexAndMerge;
    var s := RoundsReach(docs);
    ReachIs(Rounds(docs), s);
    ReachInv(Rounds(docs), s);
    NextIsUnnumbered(s);
    SinglesCount(docs);
    AllNoLarger(docs, |docs|);
    assert Singles(docs)[..|docs|] == Singles(docs);
    TenAreAllPicked(docs);
    assert [] + [d] == [d];
    var full := s.mem.(buffer := [d]);
    UnnumberedIs(s.mem, full);
    FlushServes(full, d.id);
    RewrittenWithoutOwn(full);
    var t := CallReaches(Rounds(docs), s, d);
    ReachIs(Rounds(docs) + IndexAndMerge(s.mem, d), t);
  }

  lemma UnnumberedIs(mem: Mem, mem': Mem)
    requires Unnumbered(mem) && mem'.list == mem.list && mem'.nextSeg == mem.nextSeg
    ensures Unnumbered(mem') && mem'.nextSeg !in Ids(mem'.list.segs)
  {
  }
}
