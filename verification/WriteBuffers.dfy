/** The write buffer (crates/shard/src/write_buffer.rs): buffered documents, the delete set, the
    running size, and the cached temporary segment behind a dirty flag. */
module WriteBuffers {
  import opened Base
  import opened Documents

  /** The documents whose ids are not marked deleted, in order. */
  function Unhidden(docs: seq<Document>, hidden: set<u64>): seq<Document> {
    if docs == [] then [] else
      Unhidden(docs[..|docs| - 1], hidden) + if docs[|docs| - 1].id in hidden then [] else [docs[|docs| - 1]]
  }

  lemma UnhiddenSnoc(docs: seq<Document>, d: Document, hidden: set<u64>)
    ensures Unhidden(docs + [d], hidden) == Unhidden(docs, hidden) + if d.id in hidden then [] else [d]
  {
    assert (docs + [d])[..|docs|] == docs;
  }

  /** Each unmarked document is shown as often as it was buffered, a marked one never. */
  lemma {:induction false} UnhiddenCounts(docs: seq<Document>, hidden: set<u64>, d: Document)
    ensures multiset(Unhidden(docs, hidden))[d] == if d.id in hidden then 0 else multiset(docs)[d]
  {
    if docs != [] {
      var front, last := docs[..|docs| - 1], docs[|docs| - 1];
      assert docs == front + [last];
      hide Unhidden;
      UnhiddenSnoc(front, last, hidden);
      UnhiddenCounts(front, hidden, d);
    }
  }

  /** Each document, if it is not marked. */
  function Unmarked(docs: seq<Document>, hidden: set<u64>): seq<Option<Document>> {
    seq(|docs|, i requires 0 <= i < |docs| => if docs[i].id in hidden then None else Some(docs[i]))
  }

  lemma {:induction false} UnhiddenInOrder(docs: seq<Document>, hidden: set<u64>)
    ensures Unhidden(docs, hidden) == Answers(Unmarked(docs, hidden))
  {
    if docs != [] {
      UnhiddenInOrder(docs[..|docs| - 1], hidden);
      assert Unmarked(docs, hidden)[..|docs| - 1] == Unmarked(docs[..|docs| - 1], hidden);
    }
  }

  /** What a search over the buffer can see; no segment is built when nothing is live. */
  function Searchable(docs: seq<Document>, hidden: set<u64>): Option<seq<Document>> {
    var live := Unhidden(docs, hidden);
    if live == [] then None else Some(live)
  }

  function SizeOf(docs: seq<Document>): nat {
    if docs == [] then 0 else SizeOf(docs[..|docs| - 1]) + Footprint(docs[|docs| - 1])
  }

  lemma SizeGrows(docs: seq<Document>, d: Document)
    ensures SizeOf(docs + [d]) >= SizeOf(docs)
  {
    assert (docs + [d])[..|docs|] == docs;
  }

  function Footprint(d: Document): nat {
    |d.title| + |d.description| + |d.category| + 64
  }

  function Texts(docs: seq<Document>): seq<string> {
    seq(3 * |docs|, i requires 0 <= i < 3 * |docs| =>
      if i % 3 == 0 then docs[i / 3].title else if i % 3 == 1 then docs[i / 3].description else docs[i / 3].category)
  }

  lemma TextsSnoc(front: seq<Document>, d: Document)
    ensures Texts(front + [d]) == Texts(front) + [d.title] + [d.description] + [d.category]
    ensures SizeOf(front + [d]) == SizeOf(front) + Footprint(d)
  {
    assert (front + [d])[..|front|] == front;
  }

  lemma NoSize()
    ensures SizeOf([]) == 0 && Concat(Texts([])) == []
  {
  }

  lemma FootprintIs(d: Document)
    ensures Footprint(d) == |d.title| + |d.description| + |d.category| + 64
  {
  }

  /** The size is that of the titles, descriptions and categories, and 64 a document. */
  lemma {:induction false} SizeIs(docs: seq<Document>)
    ensures SizeOf(docs) == |Concat(Texts(docs))| + 64 * |docs|
  {
    hide *;
    if docs == [] {
      NoSize();
    } else {
      var front, d := docs[..|docs| - 1], docs[|docs| - 1];
      assert docs == front + [d];
      SizeIs(front);
      TextsSnoc(front, d);
      FootprintIs(d);
      ConcatSnoc(Texts(front) + [d.title] + [d.description], d.category);
      ConcatSnoc(Texts(front) + [d.title], d.description);
      ConcatSnoc(Texts(front), d.title);
    }
  }

  class WriteBuffer {
    const capacity: nat
    var docs: seq<Document>
    var hidden: set<u64>
    var size: nat
    /** The documents of the temporary segment, if one is open. */
    var reader: Option<seq<Document>>
    var dirty: bool

    /** A clean cache is up to date. */
    ghost predicate Valid()
      reads this
    {
      && size == SizeOf(docs)
      && (docs != [] && !dirty ==> reader == Searchable(docs, hidden))
    }

    constructor (capacity: nat)
      ensures Valid() && this.capacity == capacity && docs == [] && hidden == {}
    {
      this.capacity := capacity;
      docs, hidden, size, reader, dirty := [], {}, 0, None, false;
    }

    method Add(d: Document) returns (full: bool)
      requires Valid()
      modifies this
      ensures Valid() && docs == old(docs) + [d] && hidden == old(hidden)
      ensures full <==> SizeOf(docs) >= capacity
    {
      size := size + |d.title| + |d.description| + |d.category| + 64;
      assert (docs + [d])[..|docs|] == docs;
      docs := docs + [d];
      dirty := true;
      full := size >= capacity;
    }

    method MarkDeleted(id: u64)
      requires Valid()
      modifies this
      ensures Valid() && docs == old(docs) && hidden == old(hidden) + {id}
    {
      hidden := hidden + {id};
      dirty := true;
    }

    /** Whatever was added, marked or drained before, the segment handed to a search shows exactly
        the buffered documents that are not marked. */
    method ReaderForSearch() returns (r: Option<seq<Document>>)
      requires Valid()
      modifies this
      ensures Valid() && docs == old(docs) && hidden == old(hidden)
      ensures r == Searchable(docs, hidden)
    {
      if docs == [] {
        return None;
      }
      if dirty {
        Rebuild();
        dirty := false;
      }
      r := reader;
    }

    method Rebuild()
      requires size == SizeOf(docs)
      modifies this`reader
      ensures reader == Searchable(docs, hidden)
    {
      reader := None;
      var live := AllDocs();
      if live == [] {
        return;
      }
      reader := Some(live);
    }

    method AllDocs() returns (live: seq<Document>)
      ensures live == Unhidden(docs, hidden)
    {
      live := [];
      for i := 0 to |docs|
        invariant live == Unhidden(docs[..i], hidden)
      {
        assert docs[..i + 1] == docs[..i] + [docs[i]];
        UnhiddenSnoc(docs[..i], docs[i], hidden);
        if docs[i].id !in hidden {
          live := live + [docs[i]];
        }
      }
      assert docs[..|docs|] == docs;
    }

    /** Hands everything out, marked documents included, and starts over. */
    method Drain() returns (drained: seq<Document>, ids: set<u64>)
      requires Valid()
      modifies this
      ensures Valid() && docs == [] && hidden == {} && drained == old(docs) && ids == old(hidden)
    {
      reader, dirty, size := None, false, 0;
      drained, ids := docs, hidden;
      docs, hidden := [], {};
    }
  }
}
