/** The shard's storage protocol (crates/shard/src/shard.rs) as a state machine: every durable
    write is a step of its own, and the process may crash between any two steps, recovery
    included.  Files that were written completely are durable; a crash falls between whole log
    records. */
module ShardModel {
  import opened Base
  import opened Documents
  import opened SegmentLists
  import opened Wal

  datatype Disk = Disk(wal: seq<WalEntry>, dirs: map<nat, Dir>)

  /** `hidden` is the write buffer's delete set. */
  datatype Mem = Mem(buffer: seq<Document>, hidden: set<u64>, list: SegList, nextSeg: nat)

  datatype Job =
    | Flushing
    | Merging(group: set<nat>, thenTruncate: bool)

  /** What the engine is in the middle of. */
  datatype Phase =
    | Down
    | Idle
    | Appending(done: seq<Document>, rest: seq<Document>)
    | Deleting(target: u64)
    | Creating(job: Job, docs: seq<Document>, id: nat)
    | Filling(job: Job, docs: seq<Document>, id: nat)
    | Filled(job: Job, docs: seq<Document>, id: nat)
    | Truncating
    | Removing(ids: set<nat>, thenTruncate: bool)
    | Replaying(todo: seq<WalEntry>)

  /** The last three fields only record history: documents whose log append completed, ids whose
      deletion was requested, and the highest segment id a directory was created for. */
  datatype State = State(disk: Disk, mem: Mem, phase: Phase, logged: set<Document>, deleted: set<u64>, top: nat)

  datatype Action =
    | StartIndex(docs: seq<Document>)
    | AppendRecord
    | FinishIndex
    | StartDelete(id: u64)
    | FinishDelete
    | StartFlush
    | StartMerge(group: set<nat>)
    | StartReindex
    | CreateDir
    | CompleteDir
    | Install
    | Truncate
    | Spoil(dir: nat, complete: bool, dead: set<nat>)
    | RemoveDir(dir: nat)
    | GiveUp(dir: nat)
    | FinishRemoving
    | Crash
    | Reopen(order: seq<nat>)
    | Replay
    | FinishReplay

  function IndexDocs(wal: seq<WalEntry>): seq<Document> {
    if wal == [] then [] else
      IndexDocs(wal[..|wal| - 1]) + if wal[|wal| - 1].Index? then [wal[|wal| - 1].doc] else []
  }

  /** `SegmentList::mark_deleted`: the bitmap on disk gains the slot and the map loses the id; the
      open reader's bitmap stays as it was. */
  function Marked(list: SegList, dirs: map<nat, Dir>, id: u64): (SegList, map<nat, Dir>) {
    if id !in list.locs then (list, dirs)
    else
      var loc := list.locs[id];
      if loc.seg !in Ids(list.segs) || loc.seg !in dirs then (list, dirs)
      else
        var dir := dirs[loc.seg];
        (SegList(list.segs, list.locs - {id}), dirs[loc.seg := dir.(dead := dir.dead + {loc.slot})])
  }

  function MarkDeleted(s: State, id: u64): State {
    var (list, dirs) := Marked(s.mem.list, s.disk.dirs, id);
    s.(disk := s.disk.(dirs := dirs), mem := s.mem.(list := list))
  }

  /** Opening the directories in the given order; an incomplete one is skipped. */
  function OpenList(dirs: map<nat, Dir>, order: seq<nat>): SegList
    requires forall i :: i in order ==> i in dirs
  {
    if order == [] then SegList([], map[])
    else
      var last := order[|order| - 1];
      var front := OpenList(dirs, order[..|order| - 1]);
      assert last in order;
      if dirs[last].complete then Added(front, Entry(last, dirs[last].docs, dirs[last].dead)) else front
  }

  function MaxOf(order: seq<nat>): nat {
    if order == [] then 0 else Max(MaxOf(order[..|order| - 1]), order[|order| - 1])
  }

  /** `order` names every directory once. */
  ghost predicate Lists(order: seq<nat>, dirs: map<nat, Dir>) {
    && (forall i :: i in order <==> i in dirs)
    && (forall i, j :: 0 <= i < j < |order| ==> order[i] != order[j])
  }

  ghost predicate Enabled(s: State, a: Action) {
    match a
    case StartIndex(_) => s.phase == Idle
    case AppendRecord => s.phase.Appending? && s.phase.rest != []
    case FinishIndex => s.phase.Appending? && s.phase.rest == []
    case StartDelete(_) => s.phase == Idle
    case FinishDelete => s.phase.Deleting?
    case StartFlush => s.phase == Idle
    case StartMerge(group) => s.phase == Idle && group <= Ids(s.mem.list.segs)
    case StartReindex => s.phase == Idle && s.mem.buffer == [] && LiveOf(s.mem.list.segs, Ids(s.mem.list.segs)) != []
    case CreateDir => s.phase.Creating?
    case CompleteDir => s.phase.Filling?
    case Install => s.phase.Filled?
    case Truncate => s.phase == Truncating
    case Spoil(i, complete, dead) =>
      s.phase.Removing? && i in s.phase.ids && i in s.disk.dirs && dead <= s.disk.dirs[i].dead
        && (complete ==> s.disk.dirs[i].complete)
    case RemoveDir(i) => s.phase.Removing? && i in s.phase.ids
    case GiveUp(i) => s.phase.Removing? && i in s.phase.ids
    case FinishRemoving => s.phase.Removing? && s.phase.ids == {}
    case Crash => s.phase != Down
    case Reopen(order) => s.phase == Down && Lists(order, s.disk.dirs)
    case Replay => s.phase.Replaying? && s.phase.todo != []
    case FinishReplay => s.phase.Replaying? && s.phase.todo == []
  }

  ghost function Do(s: State, a: Action): State
    requires Enabled(s, a)
  {
    match a
    case StartIndex(docs) => s.(phase := Appending([], docs))
    case AppendRecord =>
      var d := s.phase.rest[0];
      s.(disk := s.disk.(wal := s.disk.wal + [Index(d)]), logged := s.logged + {d},
         phase := Appending(s.phase.done + [d], s.phase.rest[1..]))
    case FinishIndex => s.(mem := s.mem.(buffer := s.mem.buffer + s.phase.done), phase := Idle)
    case StartDelete(id) =>
      s.(disk := s.disk.(wal := s.disk.wal + [Delete(id)]), deleted := s.deleted + {id}, phase := Deleting(id))
    case FinishDelete =>
      MarkDeleted(s.(mem := s.mem.(hidden := s.mem.hidden + {s.phase.target})), s.phase.target).(phase := Idle)
    case StartFlush =>
      var drained := s.mem.(buffer := [], hidden := {});
      if s.mem.buffer == [] then s.(mem := drained)
      else s.(mem := drained.(nextSeg := s.mem.nextSeg + 1), phase := Creating(Flushing, s.mem.buffer, s.mem.nextSeg))
    case StartMerge(group) =>
      s.(mem := s.mem.(nextSeg := s.mem.nextSeg + 1),
         phase := Creating(Merging(group, false), LiveOf(s.mem.list.segs, group), s.mem.nextSeg))
    case StartReindex =>
      var all := Ids(s.mem.list.segs);
      s.(mem := s.mem.(nextSeg := s.mem.nextSeg + 1),
         phase := Creating(Merging(all, true), LiveOf(s.mem.list.segs, all), s.mem.nextSeg))
    case CreateDir =>
      s.(disk := s.disk.(dirs := s.disk.dirs[s.phase.id := Dir(s.phase.docs, false, {})]), top := s.phase.id,
         phase := Filling(s.phase.job, s.phase.docs, s.phase.id))
    case CompleteDir =>
      s.(disk := s.disk.(dirs := s.disk.dirs[s.phase.id := Dir(s.phase.docs, true, {})]),
         phase := Filled(s.phase.job, s.phase.docs, s.phase.id))
    case Install =>
      var e := Entry(s.phase.id, s.phase.docs, {});
      (match s.phase.job
       case Flushing => s.(mem := s.mem.(list := Added(s.mem.list, e)), phase := Truncating)
       case Merging(group, t) => s.(mem := s.mem.(list := Replaced(s.mem.list, group, e)), phase := Removing(group, t)))
    case Truncate => s.(disk := s.disk.(wal := []), phase := Idle)
    case Spoil(i, complete, dead) =>
      s.(disk := s.disk.(dirs := s.disk.dirs[i := Dir(s.disk.dirs[i].docs, complete, dead)]))
    case RemoveDir(i) =>
      s.(disk := s.disk.(dirs := s.disk.dirs - {i}), phase := s.phase.(ids := s.phase.ids - {i}))
    case GiveUp(i) => s.(phase := s.phase.(ids := s.phase.ids - {i}))
    case FinishRemoving => s.(phase := if s.phase.thenTruncate then Truncating else Idle)
    case Crash => s.(phase := Down)
    case Reopen(order) =>
      s.(mem := Mem([], {}, OpenList(s.disk.dirs, order), MaxOf(order) + 1), phase := Replaying(s.disk.wal))
    case Replay =>
      var next := s.(phase := Replaying(s.phase.todo[1..]));
      (match s.phase.todo[0]
       case Index(d) => next.(mem := s.mem.(buffer := s.mem.buffer + [d]))
       case Delete(id) => MarkDeleted(next.(mem := s.mem.(hidden := s.mem.hidden + {id})), id))
    case FinishReplay => s.(phase := Idle)
  }

  function FirstWithId(docs: seq<Document>, id: u64): Option<Document> {
    if docs == [] then None else if docs[0].id == id then Some(docs[0]) else FirstWithId(docs[1..], id)
  }

  /** One id of a `get_docs` request: the segments first, then the buffer, its delete set unread. */
  function GetOne(mem: Mem, id: u64): Option<Document> {
    var found := GetDoc(mem.list, id);
    if found.Some? then found else FirstWithId(mem.buffer, id)
  }

  /** An empty data directory, not yet opened. */
  const Fresh: State := State(Disk([], map[]), Mem([], {}, SegList([], map[]), 1), Down, {}, {}, 0)

  // ---- the invariant ---------------------------------------------------------------------

  ghost predicate OnDisk(dirs: map<nat, Dir>, d: Document) {
    exists i, slot :: i in dirs && dirs[i].complete && 0 <= slot < |dirs[i].docs| && slot !in dirs[i].dead
           && dirs[i].docs[slot] == d
  }

  /** Every logged document that nobody asked to delete is in the log or in a complete segment. */
  ghost predicate Safe(s: State) {
    forall d :: d in s.logged && d.id !in s.deleted ==> d in IndexDocs(s.disk.wal) || OnDisk(s.disk.dirs, d)
  }

  /** Only deleted ids are ever marked in a bitmap. */
  ghost predicate DeadOk(dir: Dir, deleted: set<u64>) {
    forall slot :: slot in dir.dead && slot < |dir.docs| ==> dir.docs[slot].id in deleted
  }

  ghost predicate DiskOk(s: State) {
    && (forall i :: i in s.disk.dirs ==> DeadOk(s.disk.dirs[i], s.deleted))
    && (forall i, d :: i in s.disk.dirs && d in s.disk.dirs[i].docs ==> d in s.logged)
    && (forall d :: d in IndexDocs(s.disk.wal) ==> d in s.logged)
    && (forall id :: Delete(id) in s.disk.wal ==> id in s.deleted)
    && (forall i :: i in s.disk.dirs ==> 1 <= i <= s.top)
    && (s.top > 0 ==> s.top in s.disk.dirs)
  }

  /** An open segment is a complete directory; its reader has seen some of the bitmap. */
  ghost predicate Backed(dirs: map<nat, Dir>, e: Entry) {
    e.id in dirs && dirs[e.id].complete && dirs[e.id].docs == e.docs && e.dead <= dirs[e.id].dead
  }

  ghost predicate AllBacked(dirs: map<nat, Dir>, segs: seq<Entry>) {
    forall i :: 0 <= i < |segs| ==> Backed(dirs, segs[i])
  }

  ghost predicate ListOk(s: State) {
    && AllBacked(s.disk.dirs, s.mem.list.segs)
    && MapTrue(s.mem.list, s.deleted)
    && s.top < s.mem.nextSeg
  }

  ghost predicate Held(s: State) {
    forall d :: d in s.logged && d.id !in s.deleted ==> d in IndexDocs(s.disk.wal) || Listed(s.mem.list.segs, d)
  }

  ghost predicate JobOk(s: State, job: Job, docs: seq<Document>) {
    && (forall d :: d in docs ==> d in s.logged)
    && match job
       case Flushing => s.mem.buffer == [] && IndexDocs(s.disk.wal) == docs
       case Merging(group, t) =>
         && IndexDocs(s.disk.wal) == s.mem.buffer && (t ==> s.mem.buffer == [])
         && docs == LiveOf(s.mem.list.segs, group) && group <= Ids(s.mem.list.segs)
  }

  /** How the log and the buffer relate in each phase, and what the job in hand relies on. */
  ghost predicate PhaseOk(s: State) {
    match s.phase
    case Down => true
    case Idle => IndexDocs(s.disk.wal) == s.mem.buffer
    case Appending(done, _) => IndexDocs(s.disk.wal) == s.mem.buffer + done
    case Deleting(id) => IndexDocs(s.disk.wal) == s.mem.buffer && id in s.deleted
    case Creating(job, docs, id) => s.top < id < s.mem.nextSeg && JobOk(s, job, docs)
    case Filling(job, docs, id) =>
      s.top == id && id in s.disk.dirs && id !in Ids(s.mem.list.segs) && JobOk(s, job, docs)
    case Filled(job, docs, id) =>
      s.top == id && id in s.disk.dirs && id !in Ids(s.mem.list.segs) && JobOk(s, job, docs)
      && s.disk.dirs[id] == Dir(docs, true, {})
    case Truncating =>
      s.mem.buffer == [] && forall d :: d in IndexDocs(s.disk.wal) && d.id !in s.deleted ==> Listed(s.mem.list.segs, d)
    case Removing(ids, t) =>
      IndexDocs(s.disk.wal) == s.mem.buffer && (t ==> s.mem.buffer == []) && ids !! Ids(s.mem.list.segs)
        && s.top !in ids
    case Replaying(todo) =>
      IndexDocs(s.disk.wal) == s.mem.buffer + IndexDocs(todo) && forall id :: Delete(id) in todo ==> id in s.deleted
  }

  ghost predicate Running(s: State) {
    ListOk(s) && Held(s) && PhaseOk(s)
  }

  ghost predicate Inv(s: State) {
    DiskOk(s) && Safe(s) && (s.phase != Down ==> Running(s))
  }
}
