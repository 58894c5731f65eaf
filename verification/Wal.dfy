/** The write-ahead log (crates/shard/src/wal.rs), down to its bytes: framed records, reading with
    a torn tail, sequence numbers, truncation and reopening. */
module Wal {
  import opened Base
  import opened Bytes
  import opened Documents

  datatype WalEntry = Index(doc: Document) | Delete(id: u64)

  datatype WalRecord = WalRecord(seqNo: nat, entry: WalEntry)

  type RecordSerde = Serde<WalRecord>

  function LogBytes(c: RecordSerde, rs: seq<WalRecord>): seq<byte> {
    if rs == [] then [] else LogBytes(c, rs[..|rs| - 1]) + Frame(c.encode(rs[|rs| - 1]))
  }

  /** The length prefix is a `u32`. */
  ghost predicate Fits(c: RecordSerde, rs: seq<WalRecord>) {
    forall i :: 0 <= i < |rs| ==> |c.encode(rs[i])| < U32_END
  }

  /** Reading from `off`: stop at the first record that is cut short or does not decode. */
  function ReadFrom(c: RecordSerde, file: seq<byte>, off: nat): seq<WalRecord>
    decreases |file| - off
  {
    match FrameAt(file, off)
    case None => []
    case Some(body) =>
      match c.decode(body)
      case None => []
      case Some(r) => [r] + ReadFrom(c, file, off + 4 + |body|)
  }

  /** The bytes at `off` as the reader takes them apart. */
  lemma ReadStep(c: RecordSerde, file: seq<byte>, off: nat)
    requires off <= |file|
    ensures off + 4 > |file| ==> ReadFrom(c, file, off) == []
    ensures off + 4 <= |file| ==>
              var len := FromLe(file[off..off + 4]);
              && (off + 4 + len > |file| ==> ReadFrom(c, file, off) == [])
              && (off + 4 + len <= |file| ==>
                    var record := c.decode(file[off + 4..off + 4 + len]);
                    ReadFrom(c, file, off) == if record.None? then []
                      else [record.value] + ReadFrom(c, file, off + 4 + len))
  {
  }

  lemma Shift<T>(a: seq<T>, x: T, b: seq<T>)
    ensures a + ([x] + b) == (a + [x]) + b
  {
  }

  method ReadRecords(c: RecordSerde, file: seq<byte>) returns (records: seq<WalRecord>)
    ensures records == ReadFrom(c, file, 0)
  {
    hide *;
    records := [];
    var off := 0;
    while true
      invariant off <= |file|
      invariant records + ReadFrom(c, file, off) == ReadFrom(c, file, 0)
      decreases |file| - off
    {
      ReadStep(c, file, off);
      if off + 4 > |file| {
        break;
      }
      var len := FromLe(file[off..off + 4]);
      if off + 4 + len > |file| {
        break;
      }
      var record := c.decode(file[off + 4..off + 4 + len]);
      if record.None? {
        break;
      }
      Shift(records, record.value, ReadFrom(c, file, off + 4 + len));
      records := records + [record.value];
      off := off + 4 + len;
    }
  }

  // ---- torn tails ------------------------------------------------------------------------

  /** How many records lie wholly within the first n bytes. */
  function Whole(c: RecordSerde, rs: seq<WalRecord>, n: nat): (k: nat)
    ensures k <= |rs|
  {
    if rs == [] || |LogBytes(c, rs)| <= n then |rs| else Whole(c, rs[..|rs| - 1], n)
  }

  lemma {:induction false} WholeIs(c: RecordSerde, rs: seq<WalRecord>, n: nat)
    ensures |LogBytes(c, rs[..Whole(c, rs, n)])| <= n
    ensures Whole(c, rs, n) < |rs| ==> |LogBytes(c, rs[..Whole(c, rs, n) + 1])| > n
  {
    assert LogBytes(c, []) == [];
    hide LogBytes;
    if rs == [] || |LogBytes(c, rs)| <= n {
      assert rs[..|rs|] == rs;
    } else {
      var front := rs[..|rs| - 1];
      WholeIs(c, front, n);
      var k := Whole(c, front, n);
      assert front[..k] == rs[..k];
      if k < |front| {
        assert front[..k + 1] == rs[..k + 1];
      } else {
        assert rs[..k + 1] == rs;
      }
    }
  }

  lemma {:induction false} RecordAt(c: RecordSerde, rs: seq<WalRecord>, k: nat)
    requires k < |rs|
    ensures At(LogBytes(c, rs), |LogBytes(c, rs[..k])|, Frame(c.encode(rs[k])))
    ensures |LogBytes(c, rs[..k + 1])| == |LogBytes(c, rs[..k])| + 4 + |c.encode(rs[k])| <= |LogBytes(c, rs)|
  {
    var front, last := rs[..|rs| - 1], Frame(c.encode(rs[|rs| - 1]));
    assert rs[..k + 1][..k] == rs[..k];
    if k < |front| {
      RecordAt(c, front, k);
      assert front[..k] == rs[..k] && front[..k + 1] == rs[..k + 1];
      AtGrow(LogBytes(c, front), last, |LogBytes(c, rs[..k])|, Frame(c.encode(rs[k])));
    } else {
      assert rs[..k + 1] == rs;
      AtEnd(LogBytes(c, front), last);
    }
  }

  /** A frame cut short reads as nothing. */
  lemma CutFrame(data: seq<byte>, n: nat, off: nat, body: seq<byte>)
    requires |body| < U32_END && At(data, off, Frame(body)) && off <= n < off + 4 + |body| && n <= |data|
    ensures FrameAt(data[..n], off) == None
  {
    if off + 4 <= n {
      AtSplit(data, off, LeBytes(|body|, 4), body);
      AtSlice(data, off, LeBytes(|body|, 4));
      Le32(|body|);
      assert data[..n][off..off + 4] == data[off..off + 4];
    }
  }

  lemma WholeFrame(data: seq<byte>, n: nat, off: nat, body: seq<byte>)
    requires |body| < U32_END && At(data, off, Frame(body)) && off + 4 + |body| <= n <= |data|
    ensures FrameAt(data[..n], off) == Some(body)
  {
    forall i | 0 <= i < |Frame(body)|
      ensures Frame(body)[i] == data[..n][off + i]
    {
      assert Frame(body)[i] == data[off + i];
    }
    FrameRoundTrip(data[..n], off, body);
  }

  /** From any byte prefix of a well-formed log, reading returns exactly the records that lie
      wholly within it. */
  lemma ReadPrefix(c: RecordSerde, rs: seq<WalRecord>, n: nat)
    requires Inverse(c) && Fits(c, rs) && n <= |LogBytes(c, rs)|
    ensures ReadFrom(c, LogBytes(c, rs)[..n], 0) == rs[..Whole(c, rs, n)]
  {
    WholeIs(c, rs, n);
    assert rs[..0] == [];
    ReadPrefixFrom(c, rs, n, 0);
  }

  lemma {:induction false} ReadPrefixFrom(c: RecordSerde, rs: seq<WalRecord>, n: nat, k: nat)
    requires Inverse(c) && Fits(c, rs) && n <= |LogBytes(c, rs)| && k <= Whole(c, rs, n)
    ensures ReadFrom(c, LogBytes(c, rs)[..n], |LogBytes(c, rs[..k])|) == rs[k..Whole(c, rs, n)]
    decreases Whole(c, rs, n) - k
  {
    hide LogBytes, Whole, At, FrameAt, Frame;
    var w, log := Whole(c, rs, n), LogBytes(c, rs);
    WholeIs(c, rs, n);
    if k < w {
      RecordAt(c, rs, k);
      LogGrows(c, rs, k + 1, w);
      WholeFrame(log, n, |LogBytes(c, rs[..k])|, c.encode(rs[k]));
      ReadPrefixFrom(c, rs, n, k + 1);
      assert [rs[k]] + rs[k + 1..w] == rs[k..w];
    } else if k < |rs| {
      RecordAt(c, rs, k);
      CutFrame(log, n, |LogBytes(c, rs[..k])|, c.encode(rs[k]));
    } else {
      assert rs[..k] == rs;
      EndOfFile(log[..n], |log|);
    }
  }

  lemma EndOfFile(file: seq<byte>, off: nat)
    requires off >= |file|
    ensures FrameAt(file, off) == None
  {
  }

  lemma {:induction false} LogGrows(c: RecordSerde, rs: seq<WalRecord>, j: nat, k: nat)
    requires j <= k <= |rs|
    ensures |LogBytes(c, rs[..j])| <= |LogBytes(c, rs[..k])|
  {
    if j < k {
      LogGrows(c, rs, j, k - 1);
      assert rs[..k][..k - 1] == rs[..k - 1];
    }
  }

  /** A whole log reads back in full. */
  lemma ReadWhole(c: RecordSerde, rs: seq<WalRecord>)
    requires Inverse(c) && Fits(c, rs)
    ensures ReadFrom(c, LogBytes(c, rs), 0) == rs
  {
    var log := LogBytes(c, rs);
    assert log[..|log|] == log;
    ReadPrefix(c, rs, |log|);
    assert rs[..|rs|] == rs;
  }

  lemma FrameInFront(file: seq<byte>, log: seq<byte>, off: nat, body: seq<byte>)
    requires |log| <= |file| && file[..|log|] == log && At(log, off, Frame(body)) && |body| < U32_END
    ensures FrameAt(file, off) == Some(body)
  {
    forall i | 0 <= i < |Frame(body)|
      ensures Frame(body)[i] == file[off + i]
    {
      assert Frame(body)[i] == log[off + i] == file[..|log|][off + i];
    }
    FrameRoundTrip(file, off, body);
  }

  // ---- the log object --------------------------------------------------------------------

  /** Records numbered one after the other, the next number following the last. */
  ghost predicate Consecutive(rs: seq<WalRecord>, next: nat) {
    |rs| <= next && forall i :: 0 <= i < |rs| ==> rs[i].seqNo == next - |rs| + i
  }

  /** How many of n consecutively numbered records come before number `from`. */
  function Before(n: nat, next: nat, from: nat): (cut: nat)
    requires n <= next
    ensures cut <= n
  {
    Min(n, Max(0, from - (next - n)))
  }

  /** The suffix of consecutively numbered records from number `from` on. */
  function Since(rs: seq<WalRecord>, next: nat, from: nat): seq<WalRecord>
    requires |rs| <= next
  {
    rs[Before(|rs|, next, from)..]
  }

  lemma BeforeIs(read: seq<WalRecord>, next: nat, from: nat, i: nat)
    requires Consecutive(read, next) && i < |read|
    ensures read[i].seqNo >= from <==> i >= Before(|read|, next, from)
  {
  }

  lemma SliceSnoc<T>(s: seq<T>, lo: nat, i: nat)
    requires lo <= i < |s|
    ensures s[lo..i] + [s[i]] == s[lo..i + 1]
  {
  }

  method FilterSince(read: seq<WalRecord>, from: nat, ghost next: nat) returns (rs: seq<WalRecord>)
    requires Consecutive(read, next) && |read| <= next
    ensures rs == Since(read, next, from)
  {
    hide Consecutive, Before;
    ghost var cut := Before(|read|, next, from);
    rs := [];
    for i := 0 to |read|
      invariant rs == if i <= cut then [] else read[cut..i]
    {
      BeforeIs(read, next, from, i);
      if read[i].seqNo >= from {
        SliceSnoc(read, cut, i);
        rs := rs + [read[i]];
      }
    }
    assert read[cut..|read|] == read[cut..];
  }

  function Stamp(entries: seq<WalEntry>, from: nat): (rs: seq<WalRecord>)
    ensures |rs| == |entries|
  {
    seq(|entries|, i requires 0 <= i < |entries| => WalRecord(from + i, entries[i]))
  }

  class WriteAheadLog {
    const c: RecordSerde
    var file: seq<byte>
    var nextSeq: nat
    ghost var records: seq<WalRecord>

    ghost predicate Valid()
      reads this
    {
      && file == LogBytes(c, records) && Fits(c, records)
      && Consecutive(records, nextSeq)
    }

    /** Opening keeps the file as it is; the next number is one past the last readable record. */
    constructor (c: RecordSerde, file: seq<byte>)
      ensures this.c == c && this.file == file && records == ReadFrom(c, file, 0)
      ensures nextSeq == if records == [] then 0 else records[|records| - 1].seqNo + 1
    {
      var read := ReadRecords(c, file);
      this.c := c;
      this.file := file;
      nextSeq := if read == [] then 0 else read[|read| - 1].seqNo + 1;
      records := read;
    }

    method AppendBatch(entries: seq<WalEntry>) returns (seqs: seq<nat>)
      requires Valid() && Fits(c, Stamp(entries, nextSeq))
      modifies this
      ensures Valid() && records == old(records) + Stamp(entries, old(nextSeq))
      ensures nextSeq == old(nextSeq) + |entries|
      ensures |seqs| == |entries| && forall i :: 0 <= i < |seqs| ==> seqs[i] == old(nextSeq) + i
    {
      ghost var stamped := Stamp(entries, nextSeq);
      seqs := [];
      for i := 0 to |entries|
        invariant Valid() && records == old(records) + stamped[..i] && nextSeq == old(nextSeq) + i
        invariant |seqs| == i && forall j :: 0 <= j < i ==> seqs[j] == old(nextSeq) + j
      {
        assert stamped[i] == WalRecord(nextSeq, entries[i]);
        AppendOne(entries[i]);
        seqs := seqs + [nextSeq - 1];
        assert stamped[..i + 1] == stamped[..i] + [stamped[i]];
      }
      assert stamped[..|entries|] == stamped;
    }

    method AppendOne(entry: WalEntry)
      requires Valid() && |c.encode(WalRecord(nextSeq, entry))| < U32_END
      modifies this
      ensures Valid() && records == old(records) + [WalRecord(old(nextSeq), entry)] && nextSeq == old(nextSeq) + 1
    {
      var record := WalRecord(nextSeq, entry);
      nextSeq := nextSeq + 1;
      file := file + Frame(c.encode(record));
      assert (records + [record])[..|records|] == records;
      records := records + [record];
    }

    /** All entries, for recovery. */
    method ReadAll() returns (entries: seq<WalEntry>)
      requires Valid() && Inverse(c)
      ensures |entries| == |records| && forall i :: 0 <= i < |entries| ==> entries[i] == records[i].entry
    {
      var read := ReadRecords(c, file);
      ReadWhole(c, records);
      entries := [];
      for i := 0 to |read|
        invariant |entries| == i && forall j :: 0 <= j < i ==> entries[j] == read[j].entry
      {
        entries := entries + [read[i].entry];
      }
    }

    /** The records numbered `from` and later are exactly a suffix of the log. */
    method ReadSince(from: nat) returns (rs: seq<WalRecord>)
      requires Valid() && Inverse(c)
      ensures rs == Since(records, nextSeq, from)
    {
      var read := ReadRecords(c, file);
      ReadWhole(c, records);
      rs := FilterSince(read, from, nextSeq);
    }

    /** Truncation forgets the records but not the numbering. */
    method Truncate()
      requires Valid()
      modifies this
      ensures Valid() && records == [] && nextSeq == old(nextSeq)
    {
      file := [];
      records := [];
    }
  }

  /** A log of whole records reopens as it was, and only its numbering can differ. */
  lemma ReopenIsValid(w: WriteAheadLog, rs: seq<WalRecord>, next: nat)
    requires Inverse(w.c) && w.file == LogBytes(w.c, rs) && Fits(w.c, rs) && Consecutive(rs, next)
    requires w.records == ReadFrom(w.c, w.file, 0)
    requires w.nextSeq == if w.records == [] then 0 else w.records[|w.records| - 1].seqNo + 1
    ensures w.Valid() && w.records == rs
    ensures w.nextSeq == next <==> rs != [] || next == 0
  {
    ReadWhole(w.c, rs);
  }

  lemma {:induction false} LogStartsWith(c: RecordSerde, rs: seq<WalRecord>, k: nat)
    requires k <= |rs|
    ensures |LogBytes(c, rs[..k])| <= |LogBytes(c, rs)|
    ensures LogBytes(c, rs)[..|LogBytes(c, rs[..k])|] == LogBytes(c, rs[..k])
  {
    if k < |rs| {
      LogStartsWith(c, rs[..|rs| - 1], k);
      assert rs[..|rs| - 1][..k] == rs[..k];
    } else {
      assert rs[..k] == rs;
    }
  }

  /** Opening what a crash left of a log, any byte prefix of it, gives an object whose file is exactly
      its records if and only if the crash fell between whole records. */
  lemma ReopenUsableIff(w: WriteAheadLog, rs: seq<WalRecord>, next: nat, n: nat)
    requires Inverse(w.c) && Fits(w.c, rs) && Consecutive(rs, next)
    requires n <= |LogBytes(w.c, rs)| && w.file == LogBytes(w.c, rs)[..n]
    requires w.records == ReadFrom(w.c, w.file, 0)
    requires w.nextSeq == if w.records == [] then 0 else w.records[|w.records| - 1].seqNo + 1
    ensures w.Valid() <==> |LogBytes(w.c, rs[..Whole(w.c, rs, n)])| == n
  {
    hide LogBytes, ReadFrom, Whole;
    var k := Whole(w.c, rs, n);
    ReadPrefix(w.c, rs, n);
    LogStartsWith(w.c, rs, k);
  }
}
