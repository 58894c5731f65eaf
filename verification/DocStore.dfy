/** The document store file (crates/index/src/docstore.rs): a count, a table of offsets, and the
    framed documents. */
module DocStore {
  import opened Base
  import opened Bytes

  ghost predicate Fits<D>(c: Serde<D>, docs: seq<D>) {
    && |docs| < U32_END
    && (forall i :: 0 <= i < |docs| ==> |c.encode(docs[i])| < U32_END)
    && |DataBytes(c, docs)| < 0x1_0000_0000_0000_0000
  }

  function DataBytes<D>(c: Serde<D>, docs: seq<D>): seq<byte> {
    if docs == [] then [] else DataBytes(c, docs[..|docs| - 1]) + Frame(c.encode(docs[|docs| - 1]))
  }

  /** Entry i of the table: how many bytes of framed documents come before document i. */
  function TableBytes<D>(c: Serde<D>, docs: seq<D>): (r: seq<byte>)
    ensures |r| == 8 * |docs|
  {
    if docs == [] then [] else
      var front := docs[..|docs| - 1];
      TableBytes(c, front) + LeBytes(|DataBytes(c, front)|, 8)
  }

  function FileBytes<D>(c: Serde<D>, docs: seq<D>): seq<byte> {
    LeBytes(|docs| % U32_END, 4) + TableBytes(c, docs) + DataBytes(c, docs)
  }

  class DocStoreWriter<D> {
    var docs: seq<D>

    constructor ()
      ensures docs == []
    {
      docs := [];
    }

    method Add(doc: D)
      modifies this
      ensures docs == old(docs) + [doc]
    {
      docs := docs + [doc];
    }

    method Write(c: Serde<D>) returns (file: seq<byte>)
      ensures file == FileBytes(c, docs)
    {
      var docData, offsets := Frames(c);
      file := WriteTable(c, offsets, LeBytes(|docs| % U32_END, 4));
      file := file + docData;
    }

    method Frames(c: Serde<D>) returns (docData: seq<byte>, offsets: seq<nat>)
      ensures docData == DataBytes(c, docs)
      ensures |offsets| == |docs| && forall j :: 0 <= j < |docs| ==> offsets[j] == |DataBytes(c, docs[..j])|
    {
      hide Frame;
      docData, offsets := [], [];
      for i := 0 to |docs|
        invariant docData == DataBytes(c, docs[..i])
        invariant |offsets| == i && forall j :: 0 <= j < i ==> offsets[j] == |DataBytes(c, docs[..j])|
      {
        assert docs[..i + 1][..i] == docs[..i];
        offsets := offsets + [|docData|];
        docData := docData + Frame(c.encode(docs[i]));
      }
      assert docs[..|docs|] == docs;
    }

    method WriteTable(c: Serde<D>, offsets: seq<nat>, head: seq<byte>) returns (file: seq<byte>)
      requires |offsets| == |docs| && forall j :: 0 <= j < |docs| ==> offsets[j] == |DataBytes(c, docs[..j])|
      ensures file == head + TableBytes(c, docs)
    {
      hide LeBytes, DataBytes;
      file := head;
      for i := 0 to |offsets|
        invariant file == head + TableBytes(c, docs[..i])
      {
        assert docs[..i + 1][..i] == docs[..i];
        file := file + LeBytes(offsets[i], 8);
      }
      assert docs[..|docs|] == docs;
    }
  }

  /** `DocStoreReader::get` on the bytes of a file: None for a deleted or unknown number, and
      also where the source would panic on a malformed file. */
  function Get<D>(c: Serde<D>, file: seq<byte>, deleted: set<nat>, i: nat): Option<D> {
    if |file| < 4 then None else
      var docCount := FromLe(file[0..4]);
      if i >= docCount || i in deleted then None else
        var at := 4 + 8 * i;
        if at + 8 > |file| then None else
          match FrameAt(file, 4 + 8 * docCount + FromLe(file[at..at + 8]))
          case None => None
          case Some(body) => c.decode(body)
  }

  lemma {:induction false} TableEntry<D>(c: Serde<D>, docs: seq<D>, i: nat)
    requires i < |docs|
    ensures At(TableBytes(c, docs), 8 * i, LeBytes(|DataBytes(c, docs[..i])|, 8))
  {
    var front := docs[..|docs| - 1];
    var entry := LeBytes(|DataBytes(c, front)|, 8);
    if i < |front| {
      TableEntry(c, front, i);
      assert front[..i] == docs[..i];
      AtGrow(TableBytes(c, front), entry, 8 * i, LeBytes(|DataBytes(c, docs[..i])|, 8));
    } else {
      AtEnd(TableBytes(c, front), entry);
    }
  }

  lemma {:induction false} DataEntry<D>(c: Serde<D>, docs: seq<D>, i: nat)
    requires i < |docs|
    ensures At(DataBytes(c, docs), |DataBytes(c, docs[..i])|, Frame(c.encode(docs[i])))
  {
    var front := docs[..|docs| - 1];
    var last := Frame(c.encode(docs[|docs| - 1]));
    if i < |front| {
      DataEntry(c, front, i);
      assert front[..i] == docs[..i];
      AtGrow(DataBytes(c, front), last, |DataBytes(c, docs[..i])|, Frame(c.encode(docs[i])));
    } else {
      AtEnd(DataBytes(c, front), last);
    }
  }

  /** Where the parts of the file lie. */
  lemma FileParts<D>(c: Serde<D>, docs: seq<D>, i: nat)
    requires i < |docs|
    ensures var off := |DataBytes(c, docs[..i])|;
            && At(FileBytes(c, docs), 0, LeBytes(|docs| % U32_END, 4))
            && At(FileBytes(c, docs), 4 + 8 * i, LeBytes(off, 8))
            && At(FileBytes(c, docs), 4 + 8 * |docs| + off, Frame(c.encode(docs[i])))
  {
    hide LeBytes, Frame, At;
    var n, table, data := LeBytes(|docs| % U32_END, 4), TableBytes(c, docs), DataBytes(c, docs);
    TableEntry(c, docs, i);
    DataEntry(c, docs, i);
    AtEnd([], n);
    assert [] + n == n;
    AtShift([], n, table + data, 0, n);
    assert [] + n + (table + data) == n + table + data;
    AtShift(n, table, data, 8 * i, LeBytes(|DataBytes(c, docs[..i])|, 8));
    AtShift(n + table, data, [], |DataBytes(c, docs[..i])|, Frame(c.encode(docs[i])));
    assert n + table + data + [] == n + table + data;
  }

  /** The i-th document added is the i-th document read, whatever the sizes of its neighbours;
      exactly the deleted numbers and those past the end read as nothing. */
  lemma GetReturnsAdded<D(!new)>(c: Serde<D>, docs: seq<D>, deleted: set<nat>, i: nat)
    requires Inverse(c) && Fits(c, docs)
    ensures Get(c, FileBytes(c, docs), deleted, i) == if i < |docs| && i !in deleted then Some(docs[i]) else None
  {
    hide LeBytes, FromLe, At, Frame, FrameAt, TableBytes, DataBytes, FileBytes;
    var file := FileBytes(c, docs);
    CountReads(c, docs);
    if i < |docs| && i !in deleted {
      FileParts(c, docs, i);
      var off := |DataBytes(c, docs[..i])|;
      OffsetFits(c, docs, i);
      AtSlice(file, 4 + 8 * i, LeBytes(off, 8));
      Le64(off);
      FrameRoundTrip(file, 4 + 8 * |docs| + off, c.encode(docs[i]));
    }
  }

  lemma CountReads<D>(c: Serde<D>, docs: seq<D>)
    requires |docs| < U32_END
    ensures |FileBytes(c, docs)| >= 4 && FromLe(FileBytes(c, docs)[0..4]) == |docs|
  {
    assert FileBytes(c, docs)[0..4] == LeBytes(|docs|, 4);
    Le32(|docs|);
  }

  lemma OffsetFits<D>(c: Serde<D>, docs: seq<D>, i: nat)
    requires Fits(c, docs) && i < |docs|
    ensures |DataBytes(c, docs[..i])| < 0x1_0000_0000_0000_0000
    ensures |FileBytes(c, docs)| >= 4 + 8 * i + 8
  {
    DataEntry(c, docs, i);
  }
}
