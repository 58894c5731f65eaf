/** The shard engine (crates/shard/src/shard.rs): its methods change the log, the buffer, the
    segment list and the directories in place, each durable write one step of the protocol. */
module Shard {
  import opened Base
  import opened Bytes
  import opened Documents
  import opened MergePolicy
  import opened SegmentLists
  import opened SegmentStore
  import opened Serving
  import opened ShardDeletes
  import opened ShardModel
  import Recovery
  import opened ShardRuns
  import opened ShardSafety
  import opened ShardSteps
  import opened ShardUpdates
  import opened Swaps
  import opened Wal
  import opened WriteBuffers

  function EntriesOf(rs: seq<WalRecord>): seq<WalEntry> {
    seq(|rs|, i requires 0 <= i < |rs| => rs[i].entry)
  }

  function Logged(docs: seq<Document>): seq<WalEntry> {
    seq(|docs|, i requires 0 <= i < |docs| => Index(docs[i]))
  }

  lemma EntriesAppend(rs: seq<WalRecord>, es: seq<WalEntry>, from: nat)
    ensures EntriesOf(rs + Stamp(es, from)) == EntriesOf(rs) + es
  {
  }

  class ShardEngine {
    const log: WriteAheadLog
    const buffer: WriteBuffer
    const segments: SegmentList
    const disk: DataDir
    /** The steps taken since the data directory was empty, and the state they reach. */
    ghost var run: seq<Action>
    ghost var at: State

    /** The objects hold exactly the state the steps reach. */
    ghost predicate Tracks()
      reads this, log, buffer, segments, disk
    {
      && segments.disk == disk
      && log.Valid() && Inverse(log.c) && buffer.Valid()
      && Reach(run, at)
      && at.disk == Disk(EntriesOf(log.records), disk.dirs)
      && at.mem == Mem(buffer.docs, buffer.hidden, segments.List(), segments.nextSeg)
    }

    ghost predicate Valid()
      reads this, log, buffer, segments, disk
    {
      Tracks() && at.phase == Idle
    }

    /** Opens the log and the directories as a crash left them and replays the log.  `before` are the
        steps taken so far; the log file holds whole records. */
    constructor Open(c: RecordSerde, file: seq<byte>, disk: DataDir, order: seq<nat>, capacity: nat,
                     ghost before: seq<Action>, ghost rs: seq<WalRecord>, ghost next: nat)
      requires Legal(before) && Exec(before).phase == Down
      requires Exec(before).disk == Disk(EntriesOf(rs), disk.dirs) && Lists(order, disk.dirs)
      requires Inverse(c) && file == LogBytes(c, rs) && Fits(c, rs) && Consecutive(rs, next)
      modifies disk
      ensures Valid() && fresh(log) && fresh(buffer) && fresh(segments) && this.disk == disk
      ensures run == before + [Reopen(order)] + Replays(|rs|) + [FinishReplay]
    {
      hide Inv, Legal, Exec, Marked, OpenList, ReadFrom, LogBytes, FrameAt, At, Consecutive, Inverse, Fits, Do, Enabled,
           MaxOf, Replays, SegmentLists.Ids, WriteBuffer.Valid;
      this.disk := disk;
      log := new WriteAheadLog(c, file);
      segments := new SegmentList(disk, order);
      buffer := new WriteBuffer(capacity);
      run, at := before, Exec(before);
      new;
      ReopenIsValid(log, rs, next);
      DoReopen(at, order);
      Step(Reopen(order));
      var entries := log.ReadAll();
      assert entries == EntriesOf(rs);
      ReplayAll(entries);
      DoFinishReplay(at);
      Step(FinishReplay);
    }

    method ReplayAll(entries: seq<WalEntry>)
      requires Tracks() && at.phase == Replaying(entries)
      modifies this`run, this`at, buffer, segments, disk
      ensures Tracks() && at.phase == Replaying([]) && run == old(run) + Replays(|entries|)
    {
      hide Tracks;
      assert entries[0..] == entries;
      for i := 0 to |entries|
        invariant Tracks() && at.phase == Replaying(entries[i..]) && run == old(run) + Replays(i)
      {
        ReplayOne(entries[i]);
        assert entries[i..][1..] == entries[i + 1..];
        assert Replays(i) + [Replay] == Replays(i + 1);
      }
    }

    method ReplayOne(entry: WalEntry)
      requires Tracks() && at.phase.Replaying? && at.phase.todo != [] && at.phase.todo[0] == entry
      modifies this`run, this`at, buffer, segments, disk
      ensures Tracks() && at.phase == Replaying(old(at.phase.todo)[1..]) && run == old(run) + [Replay]
    {
      hide Reach, Do, Enabled, Marked, Inv, Inverse, EntriesOf, WriteAheadLog.Valid, WriteBuffer.Valid, Ids,
           DistinctIds, Added, Fits;
      ReachInv(run, at);
      OpenOnDisk(at);
      DoReplay(at);
      match entry {
        case Index(d) =>
          var _ := buffer.Add(d);
        case Delete(id) =>
          buffer.MarkDeleted(id);
          var _ := segments.MarkDeleted(id);
      }
      Step(Replay);
    }

    ghost method Step(a: Action)
      requires Reach(run, at) && Enabled(at, a)
      modifies this`run, this`at
      ensures Reach(run, at) && run == old(run) + [a] && at == Do(old(at), a)
      ensures Acked(run) == old(Acked(run)) + if a == FinishIndex then old(at).phase.done else []
    {
      hide *;
      Extend(run, at, a);
      run, at := run + [a], Do(at, a);
    }

    /** `delete`.  The request is logged; for a mapped id the slot is marked in the bitmap on disk, and of
        the live documents there exactly the one served is gone.  Lookups still find the id if and only
        if it is buffered; searches lose its buffered documents only. */
    method Delete(id: u64)
      requires Valid() && Fits(log.c, Stamp([WalEntry.Delete(id)], log.nextSeq))
      modifies this`run, this`at, log, buffer, segments, disk
      ensures Valid() && run == old(run) + [StartDelete(id), FinishDelete]
      ensures log.records == old(log.records) + [WalRecord(old(log.nextSeq), WalEntry.Delete(id))]
      ensures buffer.docs == old(buffer.docs) && buffer.hidden == old(buffer.hidden) + {id}
      ensures segments.segs == old(segments.segs) && segments.locs == old(segments.locs) - {id}
      ensures id in old(segments.locs) ==>
                var loc := old(segments.locs)[id];
                loc.seg in disk.dirs && loc.slot in disk.dirs[loc.seg].dead
      ensures forall n :: Recovery.Below(old(disk.dirs), n) ==>
                Recovery.DiskLive(old(disk.dirs), n) ==
                  Recovery.DiskLive(disk.dirs, n) + old(Served(segments.List(), id))
      ensures GetOne(at.mem, id).None? <==> forall d :: d in buffer.docs ==> d.id != id
      ensures forall d :: Searched()[d] ==
                if d.id == id then multiset(Visible(segments.segs))[d] else old(Searched())[d]
    {
      hide Inv, Reach, Marked, Do, Enabled, Fits, Inverse, EntriesOf, WriteAheadLog.Valid, WriteBuffer.Valid, Stamp,
           Ids, DistinctIds, Added, Visible, Unhidden, Recovery.DiskLive, GetOne, Served, Legal, Exec;
      ReachInv(run, at);
      OpenOnDisk(at);
      DeleteReaches(id);
      DoDelete(at, id);
      var _ := log.AppendBatch([WalEntry.Delete(id)]);
      EntriesAppend(old(log.records), [WalEntry.Delete(id)], old(log.nextSeq));
      OneStamped(WalEntry.Delete(id), old(log.nextSeq));
      Step(StartDelete(id));
      buffer.MarkDeleted(id);
      var _ := segments.MarkDeleted(id);
      Step(FinishDelete);
      assert old(run) + [StartDelete(id)] + [FinishDelete] == old(run) + [StartDelete(id), FinishDelete];
    }

    /** What the state after a delete is like, told of the state before. */
    lemma DeleteReaches(id: u64)
      requires Valid()
      ensures var s' := AfterDelete(at, id);
              && s'.mem.list == SegList(segments.segs, segments.locs - {id})
              && s'.mem.buffer == buffer.docs && s'.mem.hidden == buffer.hidden + {id}
              && (id in segments.locs ==>
                    var loc := segments.locs[id];
                    loc.seg in s'.disk.dirs && loc.slot in s'.disk.dirs[loc.seg].dead)
              && (forall n :: Recovery.Below(disk.dirs, n) ==>
                    Recovery.DiskLive(disk.dirs, n) ==
                      Recovery.DiskLive(s'.disk.dirs, n) + Served(segments.List(), id))
              && (GetOne(s'.mem, id).None? <==> forall d :: d in buffer.docs ==> d.id != id)
              && (forall d :: (multiset(Visible(segments.segs))
                               + multiset(Unhidden(buffer.docs, buffer.hidden + {id})))[d] ==
                    if d.id == id then multiset(Visible(segments.segs))[d] else Searched()[d])
    {
      hide Inv, AfterDelete, Do, Enabled, Visible, Unhidden, Recovery.DiskLive, GetOne, Served, Inverse, EntriesOf,
           WriteAheadLog.Valid, WriteBuffer.Valid, Legal, Exec, MapLiveUp, Recovery.Below;
      ReachInv(run, at);
      ReachMapLive(run, at);
      var s' := DeleteIs(at, id);
      assert GetOne(s'.mem, id).None? <==> forall d :: d in buffer.docs ==> d.id != id by {
        FindsIff(s', id);
      }
      forall n | Recovery.Below(disk.dirs, n)
        ensures Recovery.DiskLive(disk.dirs, n) ==
                  Recovery.DiskLive(s'.disk.dirs, n) + Served(segments.List(), id)
      {
        DeleteMarksDisk(at, id, n);
      }
      forall d
        ensures (multiset(Visible(segments.segs)) + multiset(Unhidden(buffer.docs, buffer.hidden + {id})))[d] ==
                  if d.id == id then multiset(Visible(segments.segs))[d] else Searched()[d]
      {
        DeleteShows(at, id, d);
      }
    }

    // ---- indexing ------------------------------------------------------------------------

    /** Appends the whole batch to the log, then buffers it. */
    method LogAndBuffer(docs: seq<Document>) returns (full: bool)
      requires Valid() && Fits(log.c, Stamp(Logged(docs), log.nextSeq))
      modifies this`run, this`at, log, buffer
      ensures Valid() && run == old(run) + Indexing(docs) && Acked(run) == old(Acked(run)) + docs
      ensures buffer.docs == old(buffer.docs) + docs && buffer.hidden == old(buffer.hidden)
      ensures full <==> docs != [] && SizeOf(buffer.docs) >= buffer.capacity
    {
      hide Inv, Legal, Exec, Do, Enabled, Fits, Inverse, Acked, SizeOf, EntriesOf, WriteAheadLog.Valid,
           WriteBuffer.Valid, Stamp, Logged, Appends;
      DoStartIndex(at, docs);
      var _ := log.AppendBatch(Logged(docs));
      EntriesAppend(old(log.records), Logged(docs), old(log.nextSeq));
      Step(StartIndex(docs));
      AppendSteps(docs);
      full := BufferAll(docs);
      DoFinishIndex(at);
      Step(FinishIndex);
      assert old(run) + [StartIndex(docs)] + Appends(|docs|) + [FinishIndex] == old(run) + Indexing(docs);
    }

    method BufferAll(docs: seq<Document>) returns (full: bool)
      requires buffer.Valid()
      modifies buffer
      ensures buffer.Valid() && buffer.docs == old(buffer.docs) + docs && buffer.hidden == old(buffer.hidden)
      ensures full <==> docs != [] && SizeOf(buffer.docs) >= buffer.capacity
    {
      hide SizeOf, WriteBuffer.Valid;
      full := false;
      for i := 0 to |docs|
        invariant buffer.Valid() && buffer.docs == old(buffer.docs) + docs[..i] && buffer.hidden == old(buffer.hidden)
        invariant full <==> i > 0 && SizeOf(buffer.docs) >= buffer.capacity
      {
        SizeGrows(buffer.docs, docs[i]);
        var now := buffer.Add(docs[i]);
        if now {
          full := true;
        }
      }
    }

    /** The durable appends of a batch, one step a record. */
    ghost method AppendSteps(docs: seq<Document>)
      requires Reach(run, at) && at.phase == Appending([], docs)
      modifies this`run, this`at
      ensures Reach(run, at) && at.phase == Appending(docs, []) && run == old(run) + Appends(|docs|)
      ensures at.disk == old(at).disk.(wal := old(at).disk.wal + Logged(docs)) && at.mem == old(at).mem
      ensures Acked(run) == old(Acked(run))
    {
      hide Legal, Exec, Do, Enabled, Acked;
      for i := 0 to |docs|
        invariant Reach(run, at) && at.phase == Appending(docs[..i], docs[i..]) && run == old(run) + Appends(i)
        invariant at.disk == old(at).disk.(wal := old(at).disk.wal + Logged(docs[..i])) && at.mem == old(at).mem
        invariant Acked(run) == old(Acked(run))
      {
        DoAppend(at);
        Step(AppendRecord);
        assert docs[..i] + [docs[i]] == docs[..i + 1];
        assert Logged(docs[..i]) + [WalEntry.Index(docs[i])] == Logged(docs[..i + 1]);
      }
      assert docs[..|docs|] == docs;
    }

    // ---- flushing and merging ------------------------------------------------------------

    /** What the open segments and the buffer hold between them. */
    ghost function Contents(): multiset<Document>
      reads buffer, segments
    {
      multiset(Visible(segments.segs)) + multiset(buffer.docs)
    }

    /** Writes a segment: a directory is made, filled and, with its last file, complete. */
    method WriteSegment(id: nat, docs: seq<Document>) returns (e: Entry)
      requires Tracks() && at.phase.Creating? && at.phase.id == id && at.phase.docs == docs
      modifies this`run, this`at, disk
      ensures Tracks() && Quietly(old(run), run) && at.phase == Filled(old(at).phase.job, docs, id)
      ensures disk.dirs == old(disk.dirs)[id := Dir(docs, true, {})] && e == Entry(id, docs, {})
    {
      hide Legal, Exec, Do, Enabled, Inverse, EntriesOf, WriteAheadLog.Valid, WriteBuffer.Valid, Quietly, Acked;
      DoWrite(at);
      QuietlySteps(run, CreateDir, CompleteDir);
      disk.dirs := disk.dirs[id := Dir(docs, false, {})];
      Step(CreateDir);
      disk.dirs := disk.dirs[id := Dir(docs, true, {})];
      Step(CompleteDir);
      e := Entry(id, docs, {});
    }

    /** Moves the buffer to a new segment, truncates the log and merges if there are enough
        segments.  Nothing held is lost or doubled. */
    method Flush()
      requires Valid()
      modifies this`run, this`at, log, buffer, segments, disk
      ensures Valid() && Quietly(old(run), run)
      ensures buffer.docs == [] && buffer.hidden == {} && Contents() == old(Contents())
      ensures log.records == if old(buffer.docs) == [] then old(log.records) else []
      ensures segments.List() == if old(buffer.docs) == [] then old(segments.List()) else FlushedList(old(at.mem))
      ensures |segments.segs| == if old(buffer.docs) == [] then old(|segments.segs|)
              else AfterMerge(old(|segments.segs|) + 1)
    {
      hide Legal, Exec, Do, Enabled, Inverse, EntriesOf, WriteAheadLog.Valid, WriteBuffer.Valid, Quietly, Acked,
           Visible, Added, Flushed, Tidied;
      if buffer.docs == [] {
        DoFlushNothing(at);
        var _, _ := buffer.Drain();
        QuietlyStep(run, StartFlush);
        Step(StartFlush);
      } else {
        FlushBuffer();
        ghost var sofar := run;
        MaybeMerge();
        QuietlyJoin(old(run), sofar, run);
      }
    }

    method FlushBuffer()
      requires Valid() && buffer.docs != []
      modifies this`run, this`at, log, buffer, segments, disk
      ensures Valid() && Quietly(old(run), run)
      ensures buffer.docs == [] && buffer.hidden == {} && log.records == [] && Contents() == old(Contents())
      ensures segments.List() == Flushed(old(at.mem)) && segments.nextSeg == old(segments.nextSeg) + 1
      ensures |segments.segs| == old(|segments.segs|) + 1
    {
      hide Legal, Exec, Do, Enabled, Inverse, EntriesOf, WriteAheadLog.Valid, WriteBuffer.Valid, Quietly, Acked,
           Visible, Added;
      DoFlush(at);
      var docs, _ := buffer.Drain();
      var id := segments.NextSegmentId();
      QuietlyStep(run, StartFlush);
      Step(StartFlush);
      var e := WriteSegment(id, docs);
      QuietlyJoin(old(run), old(run) + [StartFlush], run);
      AddedContents(old(segments.List()), id, docs);
      QuietlySteps(run, Install, Truncate);
      QuietlyJoin(old(run), run, run + [Install] + [Truncate]);
      InstallFlush(e);
      OneMoreSegment(old(segments.List()), e);
    }

    /** The reader joins the list and the log is truncated. */
    method InstallFlush(e: Entry)
      requires Tracks() && at.phase == Filled(Flushing, e.docs, e.id) && e.dead == {}
      modifies this`run, this`at, log, segments
      ensures Valid() && run == old(run) + [Install] + [Truncate]
      ensures segments.List() == Added(old(segments.List()), e) && segments.nextSeg == old(segments.nextSeg)
              && log.records == []
    {
      hide Legal, Exec, Do, Enabled, Inverse, WriteAheadLog.Valid, WriteBuffer.Valid, Acked, Added;
      DoInstallFlush(at);
      segments.AddSegment(e);
      Step(Install);
      log.Truncate();
      Step(Truncate);
    }

    /** Merges the group the policy picks, if any. */
    method MaybeMerge()
      requires Valid()
      modifies this`run, this`at, segments, disk
      ensures Valid() && Quietly(old(run), run)
      ensures multiset(Visible(segments.segs)) == multiset(old(Visible(segments.segs)))
      ensures segments.List() == Tidied(old(segments.List()), old(segments.nextSeg))
      ensures old(|segments.segs|) < MIN_SEGMENTS ==> run == old(run)
      ensures |segments.segs| == AfterMerge(old(|segments.segs|))
    {
      hide Legal, Exec, Do, Enabled, Inverse, EntriesOf, WriteAheadLog.Valid, WriteBuffer.Valid, Quietly, Acked, Inv,
           Visible, DistinctIds, Merged, Picked, Named, Ids, Unrepeated;
      ReachInv(run, at);
      OpenOnDisk(at);
      QuietlyNone(run);
      var groups := FindMerges(segments.segs);
      if |groups| == 1 {
        PickedFit(segments.segs);
        RunMerge(groups[0]);
        MergedCount(old(segments.List()), groups[0], old(segments.nextSeg));
      }
    }

    /** Rewrites the live documents of a group as one segment and swaps it in. */
    method RunMerge(group: seq<nat>)
      requires Valid() && Named(group) <= Ids(segments.segs) && Unrepeated(group)
      modifies this`run, this`at, segments, disk
      ensures Valid() && Quietly(old(run), run)
      ensures segments.List() == Merged(old(segments.List()), group, old(segments.nextSeg))
      ensures segments.nextSeg == old(segments.nextSeg) + 1 && disk.dirs.Keys !! Named(group)
      ensures multiset(Visible(segments.segs)) == multiset(old(Visible(segments.segs)))
    {
      hide Legal, Exec, Do, Enabled, Inverse, EntriesOf, WriteAheadLog.Valid, WriteBuffer.Valid, Quietly, Acked,
           Visible, Replaced, LiveOf, Ids, Named, Unrepeated;
      DoStartMerge(at, Named(group));
      var id := segments.NextSegmentId();
      var docs := CollectLive(segments.segs, group);
      QuietlyStep(run, StartMerge(Named(group)));
      Step(StartMerge(Named(group)));
      SwapIn(group, id, docs);
      ReplaceConserves(old(segments.List()), Named(group), id);
      QuietlyJoin(old(run), old(run) + [StartMerge(Named(group))], run);
      DoFinishRemoving(at);
      QuietlyStep(run, FinishRemoving);
      QuietlyJoin(old(run), run, run + [FinishRemoving]);
      Step(FinishRemoving);
    }

    /** The part a merge and a reindex share: write the new segment, replace, remove the old
        directories. */
    method SwapIn(group: seq<nat>, id: nat, docs: seq<Document>)
      requires Tracks() && at.phase.Creating? && at.phase.job.Merging? && at.phase.job.group == Named(group)
      requires at.phase.id == id && at.phase.docs == docs == LiveOf(segments.segs, Named(group)) && Unrepeated(group)
      modifies this`run, this`at, segments, disk
      ensures Tracks() && Quietly(old(run), run) && at.phase == Removing({}, old(at).phase.job.thenTruncate)
      ensures segments.List() == Replaced(old(segments.List()), Named(group), Entry(id, docs, {}))
      ensures segments.nextSeg == old(segments.nextSeg)
              && disk.dirs == old(disk.dirs)[id := Dir(docs, true, {})] - Named(group)
    {
      hide Legal, Exec, Do, Enabled, Inverse, EntriesOf, WriteAheadLog.Valid, WriteBuffer.Valid, Quietly, Acked,
           Replaced, LiveOf, Named, Unrepeated;
      var e := WriteSegment(id, docs);
      DoInstallMerge(at);
      segments.ReplaceSegments(group, e);
      QuietlyStep(run, Install);
      QuietlyJoin(old(run), run, run + [Install]);
      Step(Install);
      ghost var sofar := run;
      RemoveDirs(group);
      QuietlyJoin(old(run), sofar, run);
    }

    method RemoveDirs(group: seq<nat>)
      requires Tracks() && at.phase.Removing? && at.phase.ids == Named(group) && Unrepeated(group)
      modifies this`run, this`at, disk
      ensures Tracks() && Quietly(old(run), run) && at.phase == Removing({}, old(at).phase.thenTruncate)
      ensures disk.dirs == old(disk.dirs) - Named(group)
    {
      hide Legal, Exec, Do, Enabled, Inverse, EntriesOf, WriteAheadLog.Valid, WriteBuffer.Valid, Quietly, Acked, Named,
           Unrepeated;
      QuietlyNone(run);
      NamedFrom(group);
      assert disk.dirs - (Named(group) - Named(group)) == disk.dirs;
      for i := 0 to |group|
        invariant Tracks() && Quietly(old(run), run)
                  && at.phase == Removing(Named(group[i..]), old(at).phase.thenTruncate)
        invariant disk.dirs == old(disk.dirs) - (Named(group) - Named(group[i..])) && Named(group[i..]) <= Named(group)
      {
        NamedRest(group, i);
        RemoveOne(old(disk.dirs), Named(group), Named(group[i..]), group[i]);
        DoRemove(at, group[i]);
        QuietlyStep(run, RemoveDir(group[i]));
        QuietlyJoin(old(run), run, run + [RemoveDir(group[i])]);
        disk.dirs := disk.dirs - {group[i]};
        Step(RemoveDir(group[i]));
      }
    }

    // ---- the public operations -----------------------------------------------------------

    /** The batch makes the buffer reach its capacity. */
    ghost predicate Fills(docs: seq<Document>)
      reads this, buffer
    {
      docs != [] && SizeOf(buffer.docs + docs) >= buffer.capacity
    }

    /** `index_batch`.  When it returns the whole batch is acknowledged, and the contents grew by
        exactly the batch, flushed or not. */
    method IndexBatch(docs: seq<Document>)
      requires Valid() && Fits(log.c, Stamp(Logged(docs), log.nextSeq))
      modifies this`run, this`at, log, buffer, segments, disk
      ensures Valid() && Quietly(old(run) + Indexing(docs), run)
      ensures Acked(run) == old(Acked(run)) + docs
      ensures Contents() == old(Contents()) + multiset(docs)
      ensures !old(Fills(docs)) ==>
                && run == old(run) + Indexing(docs) && segments.List() == old(segments.List())
                && buffer.docs == old(buffer.docs) + docs && buffer.hidden == old(buffer.hidden)
      ensures old(Fills(docs)) ==>
                var full := old(at.mem).(buffer := old(buffer.docs) + docs);
                && buffer.docs == [] && buffer.hidden == {} && log.records == []
                && segments.List() == FlushedList(full)
    {
      hide Legal, Exec, Do, Enabled, Inverse, EntriesOf, WriteAheadLog.Valid, WriteBuffer.Valid, Quietly, Acked,
           Indexing, Visible, Stamp, Logged, SizeOf, Flushed, FlushedList;
      var full := LogAndBuffer(docs);
      QuietlyNone(run);
      if full {
        ghost var sofar := run;
        Flush();
        FlushAcks(sofar);
      }
    }

    lemma FlushAcks(before: seq<Action>)
      requires Tracks() && Legal(before) && Quietly(before, run)
      ensures Acked(run) == Acked(before)
    {
      hide Do, Enabled, Quietly;
      QuietlyKeeps(before, run);
    }

    /** What searches see: the open segments, and the buffer without its marked documents. */
    ghost function Searched(): multiset<Document>
      reads buffer, segments
    {
      multiset(Visible(segments.segs)) + multiset(Unhidden(buffer.docs, buffer.hidden))
    }

    /** `index`, a batch of one.  Below capacity the document is served under its id if and only if
        nothing, or it itself, was served before, and searches gain it if and only if its id is not
        marked in the buffer.  At capacity everything held becomes visible, and it is served as
        `CapacityServesIff` says. */
    method Index(doc: Document)
      requires Valid() && Fits(log.c, Stamp(Logged([doc]), log.nextSeq))
      modifies this`run, this`at, log, buffer, segments, disk
      ensures Valid() && Acked(run) == old(Acked(run)) + [doc]
      ensures Contents() == old(Contents()) + multiset{doc}
      ensures !old(Fills([doc])) ==>
                && run == old(run) + Indexing([doc])
                && (GetOne(at.mem, doc.id) == Some(doc)
                    <==> old(GetOne(at.mem, doc.id)) == None || old(GetOne(at.mem, doc.id)) == Some(doc))
                && Searched() == old(Searched()) + if doc.id in old(buffer.hidden) then multiset{} else multiset{doc}
      ensures old(Fills([doc])) ==>
                && buffer.docs == [] && log.records == [] && Searched() == Contents()
                && segments.List() == FlushedList(old(at.mem).(buffer := old(buffer.docs) + [doc]))
                && (GetOne(at.mem, doc.id) == Some(doc) <==> ServedAtCapacity(old(at.mem), doc))
      ensures old(Fills([doc])) && old(|segments.segs|) < MAX_AT_ONCE ==> GetOne(at.mem, doc.id) == Some(doc)
    {
      hide Legal, Exec, Do, Enabled, Inverse, EntriesOf, WriteAheadLog.Valid, WriteBuffer.Valid, Quietly, Acked,
           Indexing, Visible, Stamp, Logged,
           SizeOf, Flushed, FlushedList, ServedAtCapacity, Unhidden, Inv, GetDoc, FirstWithId, Find;
      ReachInv(run, at);
      IndexBatch([doc]);
      if !old(Fills([doc])) {
        AppendServesIff(old(at.mem), doc);
        AppendSearched(old(buffer.docs), doc, buffer.hidden, Visible(segments.segs));
      } else {
        NothingHidden();
        FullServes(old(at), doc, at.mem);
      }
    }

    method ReindexSelf() returns (count: nat)
      requires Valid()
      modifies this`run, this`at, log, buffer, segments, disk
      ensures Valid() && Quietly(old(run), run)
      ensures Contents() == old(Contents()) && count == |Contents()|
      ensures count > 0 ==> |segments.segs| == 1 && log.records == []
    {
      hide Legal, Exec, Do, Enabled, Inverse, EntriesOf, WriteAheadLog.Valid, WriteBuffer.Valid, Quietly,
           Acked, Visible;
      Flush();
      ghost var sofar := run;
      count := RewriteAll();
      QuietlyJoin(old(run), sofar, run);
    }

    method RewriteAll() returns (count: nat)
      requires Valid() && buffer.docs == []
      modifies this`run, this`at, log, segments, disk
      ensures Valid() && Quietly(old(run), run)
      ensures Visible(segments.segs) == old(Visible(segments.segs)) && count == |Visible(segments.segs)|
      ensures count > 0 ==> |segments.segs| == 1 && log.records == []
    {
      hide Legal, Exec, Do, Enabled, Inverse, EntriesOf, WriteAheadLog.Valid, WriteBuffer.Valid, Quietly, Acked,
           Visible, Replaced, LiveOf, Ids, Named, Unrepeated, Inv, DistinctIds;
      ReachInv(run, at);
      OpenOnDisk(at);
      QuietlyNone(run);
      ghost var list := segments.List();
      var all := AllIds();
      var docs := CollectLive(segments.segs, all);
      LiveOfWide(segments.segs, Ids(segments.segs));
      count := |docs|;
      if docs != [] {
        DoStartReindex(at);
        var id := segments.NextSegmentId();
        QuietlyStep(run, StartReindex);
        Step(StartReindex);
        ghost var sofar := run;
        SwapIn(all, id, docs);
        ReindexedContents(list, id, docs);
        QuietlyJoin(old(run), sofar, run);
        sofar := run;
        FinishReindex();
        QuietlyJoin(old(run), sofar, run);
      }
    }

    method AllIds() returns (all: seq<nat>)
      requires DistinctIds(segments.segs)
      ensures Named(all) == Ids(segments.segs) && Unrepeated(all)
    {
      var segs := segments.segs;
      all := [];
      for i := 0 to |segs|
        invariant |all| == i && forall k :: 0 <= k < i ==> all[k] == segs[k].id
      {
        all := all + [segs[i].id];
      }
    }

    method FinishReindex()
      requires Tracks() && at.phase == Removing({}, true)
      modifies this`run, this`at, log
      ensures Valid() && Quietly(old(run), run) && log.records == []
    {
      hide Legal, Exec, Do, Enabled, Inverse, WriteAheadLog.Valid, WriteBuffer.Valid, Quietly, Acked;
      DoFinishRemoving(at);
      QuietlySteps(run, FinishRemoving, Truncate);
      Step(FinishRemoving);
      DoTruncate(at);
      log.Truncate();
      Step(Truncate);
    }

    /** `get_docs`: for each id the segments first, then the first buffered document.  Every id is
        answered under which a document was acknowledged since the last request to delete it. */
    method GetDocs(ids: seq<u64>) returns (docs: seq<Document>)
      requires Valid()
      ensures docs == GetAll(at.mem, ids)
      ensures forall d :: d in Acked(run) && StartDelete(d.id) !in run && d.id in ids ==>
                exists r :: r in docs && r.id == d.id
      ensures forall d: Document :: d in AckedSince(run, d.id) && d.id in ids ==> exists r :: r in docs && r.id == d.id
    {
      hide Legal, Exec, Do, Enabled, Inverse, EntriesOf, WriteAheadLog.Valid, WriteBuffer.Valid, Quietly, Acked,
           AckedSince, GetDoc, FirstWithId;
      docs := [];
      GetAllNone(at.mem);
      for i := 0 to |ids|
        invariant docs == GetAll(at.mem, ids[..i])
      {
        GetAllSnoc(at.mem, ids[..i], ids[i]);
        assert ids[..i + 1] == ids[..i] + [ids[i]];
        var found := segments.Get(ids[i]);
        if found.None? {
          found := BufferedWithId(ids[i]);
        }
        docs := docs + if found.Some? then [found.value] else [];
      }
      assert ids[..|ids|] == ids;
      NothingMissing(ids);
    }

    method BufferedWithId(id: u64) returns (d: Option<Document>)
      ensures d == FirstWithId(buffer.docs, id)
    {
      var docs := buffer.docs;
      for i := 0 to |docs|
        invariant FirstWithId(docs, id) == FirstWithId(docs[i..], id)
      {
        if docs[i].id == id {
          return Some(docs[i]);
        }
      }
      d := None;
    }

    lemma NothingMissing(ids: seq<u64>)
      requires Valid()
      ensures forall d :: d in Acked(run) && StartDelete(d.id) !in run ==> d in AckedSince(run, d.id)
      ensures forall d: Document :: d in AckedSince(run, d.id) && d.id in ids ==>
                exists r :: r in GetAll(at.mem, ids) && r.id == d.id
    {
      hide Legal, Exec, Do, Enabled, Inverse, EntriesOf, WriteAheadLog.Valid, WriteBuffer.Valid, Quietly, Acked,
           AckedSince, GetAll;
      forall d | d in Acked(run) && StartDelete(d.id) !in run
        ensures d in AckedSince(run, d.id)
      {
        NeverDeleted(run, d.id);
      }
      forall d: Document | d in AckedSince(run, d.id) && d.id in ids
        ensures exists r :: r in GetAll(at.mem, ids) && r.id == d.id
      {
        AckedIsServed(run, d);
        GetAllHas(at.mem, ids, d.id);
      }
    }

    /** What a search is handed: one reader a segment, then the buffer's if it shows anything. */
    method ReadersForSearch() returns (readers: seq<seq<Document>>)
      requires Valid()
      modifies buffer
      ensures Valid() && buffer.docs == old(buffer.docs) && buffer.hidden == old(buffer.hidden)
      ensures Concat(readers) == Visible(segments.segs) + Unhidden(buffer.docs, buffer.hidden)
    {
      hide Legal, Exec, Do, Enabled, Inverse, EntriesOf, WriteAheadLog.Valid, WriteBuffer.Valid, Quietly, Acked,
           Visible, LiveDocs, Unhidden;
      readers := [];
      NothingShown();
      for i := 0 to |segments.segs|
        invariant unchanged(buffer) && Concat(readers) == Visible(segments.segs[..i])
      {
        assert segments.segs[..i + 1] == segments.segs[..i] + [segments.segs[i]];
        VisibleSnoc(segments.segs[..i], segments.segs[i]);
        var live := ReadLive(segments.segs[i]);
        ConcatSnoc(readers, live);
        readers := readers + [live];
      }
      assert segments.segs[..|segments.segs|] == segments.segs;
      var buffered := buffer.ReaderForSearch();
      if buffered.Some? {
        ConcatSnoc(readers, buffered.value);
        readers := readers + [buffered.value];
      } else {
        assert Concat(readers) == Visible(segments.segs) + [];
      }
    }
  }

  lemma OneStamped(e: WalEntry, from: nat)
    ensures Stamp([e], from) == [WalRecord(from, e)]
  {
  }

  lemma ReachMapLive(run: seq<Action>, s: State)
    requires Reach(run, s)
    ensures MapLiveUp(s)
  {
    hide MapLiveUp, Do, Enabled;
    RunKeepsMapLive(run);
  }

  /** An engine over an empty data directory. */
  method OpenEmpty(c: RecordSerde, disk: DataDir, capacity: nat) returns (engine: ShardEngine)
    requires Inverse(c) && disk.dirs == map[]
    modifies disk
    ensures fresh(engine) && engine.Valid() && engine.disk == disk && engine.run == [Reopen([]), FinishReplay]
  {
    hide Inverse;
    ExecNone();
    EmptyLog(c);
    engine := new ShardEngine.Open(c, [], disk, [], capacity, [], [], 0);
    assert [] + [Reopen([])] + Replays(0) + [FinishReplay] == [Reopen([]), FinishReplay];
  }

  lemma EmptyLog(c: RecordSerde)
    ensures LogBytes(c, []) == [] && Fits(c, []) && Consecutive([], 0) && EntriesOf([]) == []
  {
  }

  lemma AppendServesIff(mem: Mem, d: Document)
    ensures var mem' := mem.(buffer := mem.buffer + [d]);
            GetOne(mem', d.id) == Some(d) <==> GetOne(mem, d.id) == None || GetOne(mem, d.id) == Some(d)
  {
    hide GetDoc, FirstWithId;
    FirstSnoc(mem.buffer, d);
  }

  lemma AppendSearched(docs: seq<Document>, d: Document, hidden: set<u64>, visible: seq<Document>)
    ensures multiset(visible) + multiset(Unhidden(docs + [d], hidden)) ==
            multiset(visible) + multiset(Unhidden(docs, hidden)) + if d.id in hidden then multiset{} else multiset{d}
  {
    hide Unhidden;
    UnhiddenSnoc(docs, d, hidden);
    if d.id in hidden {
      assert Unhidden(docs, hidden) + [] == Unhidden(docs, hidden);
    }
  }

  lemma NothingHidden()
    ensures Unhidden([], {}) == []
  {
  }

  /** `CapacityServesIff` for a running engine that ended with the buffer empty. */
  lemma FullServes(s: State, d: Document, after: Mem)
    requires Inv(s) && s.phase == Idle
    requires after.list == FlushedList(s.mem.(buffer := s.mem.buffer + [d])) && after.buffer == []
    ensures GetOne(after, d.id) == Some(d) <==> ServedAtCapacity(s.mem, d)
    ensures |s.mem.list.segs| < MAX_AT_ONCE ==> GetOne(after, d.id) == Some(d)
  {
    hide DiskOk, Safe, Held, PhaseOk, FlushedList, Flushed, GetDoc, LocsFull, LocsTrue, DistinctIds, AllBacked,
         ServedAtCapacity;
    NextIsUnnumbered(s);
    CapacityServesIff(s.mem, d);
    if |s.mem.list.segs| < MAX_AT_ONCE {
      FewServe(s.mem, d);
    }
  }

  lemma NothingShown()
    ensures Visible([]) == [] && Concat<Document>([]) == []
  {
  }

  /** The lookups of a request, one an id. */
  function Lookups(mem: Mem, ids: seq<u64>): (found: seq<Option<Document>>)
    ensures |found| == |ids| && forall i :: 0 <= i < |ids| ==> found[i] == GetOne(mem, ids[i])
  {
    seq(|ids|, i requires 0 <= i < |ids| => GetOne(mem, ids[i]))
  }

  /** What they find, in the order of the request. */
  function GetAll(mem: Mem, ids: seq<u64>): seq<Document> {
    Answers(Lookups(mem, ids))
  }

  lemma GetAllSnoc(mem: Mem, ids: seq<u64>, id: u64)
    ensures GetAll(mem, ids + [id]) ==
            GetAll(mem, ids) + if GetOne(mem, id).Some? then [GetOne(mem, id).value] else []
  {
    hide GetOne;
    assert Lookups(mem, ids + [id]) == Lookups(mem, ids) + [GetOne(mem, id)];
    AnswersSnoc(Lookups(mem, ids), GetOne(mem, id));
  }

  lemma GetAllNone(mem: Mem)
    ensures GetAll(mem, []) == []
  {
  }

  lemma {:induction false} GetAllHas(mem: Mem, ids: seq<u64>, id: u64)
    requires id in ids && GetOne(mem, id).Some?
    ensures GetOne(mem, id).value in GetAll(mem, ids)
  {
    hide GetOne, GetAll;
    var front, last := ids[..|ids| - 1], ids[|ids| - 1];
    assert ids == front + [last];
    GetAllSnoc(mem, front, last);
    if last != id {
      GetAllHas(mem, front, id);
    }
  }

  lemma AckedIsServed(run: seq<Action>, d: Document)
    requires Legal(run) && Exec(run).phase == Idle && d in AckedSince(run, d.id)
    ensures GetOne(Exec(run).mem, d.id).Some? && GetOne(Exec(run).mem, d.id).value.id == d.id
  {
    hide *;
    NoUpdateLost(run, d);
  }
}
