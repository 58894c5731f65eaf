/** The inverted index (crates/index/src/inverted.rs): term-by-term construction in memory, and a
    file of framed posting lists found through stored offsets.  The FST dictionary is a finite
    map from terms to offsets. */
module InvertedIndex {
  import opened Base
  import opened Bytes
  import opened Postings
  import opened PostingCodec

  type Index = map<string, seq<Posting>>

  datatype IndexFile = IndexFile(offsets: map<string, nat>, data: seq<byte>)

  /** How an `f32` header becomes four bytes. */
  type BitsOf = real -> u32

  function Headers(blocks: seq<PostingBlock>, bits: BitsOf): (hs: seq<u32>)
    ensures |hs| == |blocks|
  {
    seq(|blocks|, i requires 0 <= i < |blocks| => bits(blocks[i].maxImpact))
  }

  /** One more occurrence in document `doc`, at the end of a list. */
  function Occurs(ps: seq<Posting>, doc: u32, docLen: u16): (r: seq<Posting>)
    ensures r != []
  {
    if ps != [] && ps[|ps| - 1].docId == doc then
      var last := ps[|ps| - 1];
      ps[..|ps| - 1] + [last.(termFreq := Min(255, last.termFreq + 1))]
    else
      ps + [Posting(doc, 1, docLen)]
  }

  /** One occurrence of `term` in document `doc`. */
  function WithTerm(terms: Index, term: string, doc: u32, docLen: u16): Index {
    terms[term := Occurs(if term in terms then terms[term] else [], doc, docLen)]
  }

  class InvertedIndexWriter {
    var terms: Index

    constructor ()
      ensures terms == map[]
    {
      terms := map[];
    }

    method AddTerm(term: string, doc: u32, docLen: u16)
      modifies this
      ensures terms == WithTerm(old(terms), term, doc, docLen)
    {
      if term !in terms {
        terms := terms[term := []];
      }
      var ps := terms[term];
      if ps != [] && ps[|ps| - 1].docId == doc {
        var last := ps[|ps| - 1];
        ps := ps[..|ps| - 1] + [last.(termFreq := Min(255, last.termFreq + 1))];
      } else {
        ps := ps + [Posting(doc, 1, docLen)];
      }
      terms := terms[term := ps];
    }

    /** Every list is written behind the ones before it; the order of the terms does not matter. */
    method Write(avgdl: real, bits: BitsOf) returns (file: IndexFile)
      requires Encodable(terms)
      ensures file.offsets.Keys == terms.Keys
      ensures forall t :: t in terms ==> Stored(file, t, terms[t], avgdl, bits)
    {
      file := IndexFile(map[], []);
      var todo := terms.Keys;
      while todo != {}
        invariant todo <= terms.Keys && file.offsets.Keys == terms.Keys - todo
        invariant forall t :: t in file.offsets ==> Stored(file, t, terms[t], avgdl, bits)
        decreases |todo|
      {
        var t :| t in todo;
        todo := todo - {t};
        var blocks := RebuildBlocks(terms[t], avgdl);
        var list := StoredList(Headers(blocks, bits), terms[t]);
        var encoded := Encode(list);
        ghost var before := file;
        file := IndexFile(file.offsets[t := |file.data|], file.data + Frame(encoded));
        StoreOne(before, t, encoded, blocks, terms[t], avgdl, bits);
        forall u | u in before.offsets
          ensures Stored(file, u, terms[u], avgdl, bits)
        {
          StoredStays(before, t, encoded, u, terms[u], avgdl, bits);
        }
      }
    }
  }

  /** Lists in document order whose blocks and postings can be counted in 64 bits. */
  ghost predicate Encodable(terms: Index) {
    forall t :: t in terms ==> ByDoc(terms[t]) && |terms[t]| + BLOCK_SIZE < U64_END
  }

  /** What the file holds for a term: framed at its offset, the encoded list with fitting blocks. */
  ghost predicate Stored(file: IndexFile, t: string, ps: seq<Posting>, avgdl: real, bits: BitsOf) {
    t in file.offsets && exists blocks :: StoredAs(file, file.offsets[t], blocks, ps, avgdl, bits)
  }

  ghost predicate StoredAs(file: IndexFile, off: nat, blocks: seq<PostingBlock>, ps: seq<Posting>, avgdl: real,
                           bits: BitsOf) {
    && BlocksFit(ps, blocks, avgdl)
    && ByDoc(ps) && Countable(StoredList(Headers(blocks, bits), ps))
    && At(file.data, off, Frame(EncodedList(StoredList(Headers(blocks, bits), ps))))
  }

  lemma StoreOne(file: IndexFile, t: string, encoded: seq<byte>, blocks: seq<PostingBlock>, ps: seq<Posting>,
                 avgdl: real, bits: BitsOf)
    requires BlocksFit(ps, blocks, avgdl) && ByDoc(ps) && Countable(StoredList(Headers(blocks, bits), ps))
    requires encoded == EncodedList(StoredList(Headers(blocks, bits), ps))
    ensures Stored(IndexFile(file.offsets[t := |file.data|], file.data + Frame(encoded)), t, ps, avgdl, bits)
  {
    hide At, Frame, EncodedList, BlocksFit;
    AtEnd(file.data, Frame(encoded));
    assert StoredAs(IndexFile(file.offsets[t := |file.data|], file.data + Frame(encoded)), |file.data|, blocks, ps,
                    avgdl, bits);
  }

  lemma StoredStays(file: IndexFile, t: string, encoded: seq<byte>, u: string, ps: seq<Posting>, avgdl: real,
                    bits: BitsOf)
    requires Stored(file, u, ps, avgdl, bits) && u != t
    ensures Stored(IndexFile(file.offsets[t := |file.data|], file.data + Frame(encoded)), u, ps, avgdl, bits)
  {
    hide At, Frame, EncodedList, BlocksFit;
    var blocks :| StoredAs(file, file.offsets[u], blocks, ps, avgdl, bits);
    AtGrow(file.data, Frame(encoded), file.offsets[u], Frame(EncodedList(StoredList(Headers(blocks, bits), ps))));
    assert StoredAs(IndexFile(file.offsets[t := |file.data|], file.data + Frame(encoded)), file.offsets[u], blocks, ps,
                    avgdl, bits);
  }

  /** `read_at`: the framed list at an offset. */
  function ReadAt(file: IndexFile, off: nat): Option<StoredList> {
    match FrameAt(file.data, off)
    case None => None
    case Some(body) => DecodedList(body)
  }

  function GetPostings(file: IndexFile, term: string): Option<StoredList> {
    if term in file.offsets then ReadAt(file, file.offsets[term]) else None
  }

  /** How many bytes a list takes; the headers count through the number of blocks only. */
  function EncodedSize(ps: seq<Posting>): nat
    requires ByDoc(ps)
  {
    var blocks := (|ps| + BLOCK_SIZE - 1) / BLOCK_SIZE;
    |Varint(blocks)| + 4 * blocks + |Varint(|ps|)| + |PostingBytes(ps)|
  }

  lemma {:induction false} HeaderBytesSize(hs: seq<u32>)
    ensures |HeaderBytes(hs)| == 4 * |hs|
  {
    if hs != [] {
      HeaderBytesSize(hs[..|hs| - 1]);
    }
  }

  lemma SizeIs(blocks: seq<PostingBlock>, ps: seq<Posting>, avgdl: real, bits: BitsOf)
    requires ByDoc(ps) && BlocksFit(ps, blocks, avgdl)
    ensures |EncodedList(StoredList(Headers(blocks, bits), ps))| == EncodedSize(ps)
  {
    HeaderBytesSize(Headers(blocks, bits));
  }

  /** Looking a term up in the written file returns its own list, with block headers that fit it.
      The frame length is a `u32`, so the encoded list must stay below 4 GiB. */
  lemma LookupReturnsOwn(file: IndexFile, t: string, ps: seq<Posting>, avgdl: real, bits: BitsOf)
    requires Stored(file, t, ps, avgdl, bits) && ByDoc(ps) && EncodedSize(ps) < U32_END
    ensures GetPostings(file, t).Some? && GetPostings(file, t).value.postings == ps
    ensures exists blocks :: BlocksFit(ps, blocks, avgdl) && GetPostings(file, t).value.headers == Headers(blocks, bits)
  {
    hide At, Frame, FrameAt, EncodedList, DecodedList, BlocksFit, EncodedSize;
    var blocks :| StoredAs(file, file.offsets[t], blocks, ps, avgdl, bits);
    var list := StoredList(Headers(blocks, bits), ps);
    SizeIs(blocks, ps, avgdl, bits);
    FrameRoundTrip(file.data, file.offsets[t], EncodedList(list));
    ListRoundTrip(list, []);
    assert EncodedList(list) + [] == EncodedList(list);
  }
}
