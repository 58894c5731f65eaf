/** From documents to an index and back: the indexing loop of crates/index/src/segment.rs, its
    deletion-aware prefix lookup, and the AND query of crates/query/src/executor.rs (with typo
    tolerance off).  The reference is a scan over the tokens of every live document. */
module Retrieval {
  import opened Base
  import opened Bytes
  import opened Postings
  import opened InvertedIndex
  import opened PostingCodec
  import opened Wand

  /** A document as the analyzers see it: the tokens of its indexed text fields, in field order. */
  type Tokens = seq<string>

  function Count(t: string, toks: Tokens): nat {
    if toks == [] then 0 else Count(t, toks[..|toks| - 1]) + if toks[|toks| - 1] == t then 1 else 0
  }

  /** The combined length, cut to 16 bits by saturation. */
  function DocLen(toks: Tokens): u16 {
    Min(0xFFFF, |toks|)
  }

  function PostingsFor(n: nat, c: nat, len: u16): seq<Posting>
    requires n < 0x1_0000_0000
  {
    if c == 0 then [] else [Posting(n, Min(255, c), len)]
  }

  /** The reference posting list of a term: one posting for each document that has it. */
  function PostingsOf(t: string, docs: seq<Tokens>): (ps: seq<Posting>)
    requires |docs| <= 0xFFFF_FFFF
  {
    if docs == [] then [] else
      var n := |docs| - 1;
      PostingsOf(t, docs[..n]) + PostingsFor(n, Count(t, docs[n]), DocLen(docs[n]))
  }

  /** A posting list of the term over the documents: in document order one posting for each document
      with the term, how often it occurs, up to 255, and the document's length, up to 65535. */
  ghost predicate Describes(ps: seq<Posting>, t: string, docs: seq<Tokens>) {
    && Sorted(ps)
    && (forall d: nat :: d < |docs| && t in docs[d] ==> Contains(ps, d))
    && (forall p :: p in ps ==>
          && p.docId < |docs| && t in docs[p.docId]
          && p.termFreq == Min(255, multiset(docs[p.docId])[t]) && p.docLen == Min(65535, |docs[p.docId]|))
  }

  lemma SortedNext(ps: seq<Posting>, p: Posting)
    requires Sorted(ps) && forall q :: q in ps ==> q.docId < p.docId
    ensures Sorted(ps + [p])
  {
    var all := ps + [p];
    forall i, j | 0 <= i < j < |all|
      ensures all[i].docId < all[j].docId
    {
      assert all[i] == ps[i];
      assert ps[i] in ps;
    }
  }

  lemma ContainsNext(ps: seq<Posting>, p: Posting)
    ensures forall d: nat :: Contains(ps, d) ==> Contains(ps + [p], d)
    ensures Contains(ps + [p], p.docId)
  {
    var all := ps + [p];
    assert all[|ps|] == p;
    forall d: nat | Contains(ps, d)
      ensures Contains(all, d)
    {
      var i :| 0 <= i < |ps| && ps[i].docId == d;
      assert all[i].docId == d;
    }
  }

  lemma DescribesNext(ps: seq<Posting>, t: string, docs: seq<Tokens>, last: Tokens)
    requires Describes(ps, t, docs) && |docs| < 0xFFFF_FFFF
    ensures Describes(ps + PostingsFor(|docs|, multiset(last)[t], DocLen(last)), t, docs + [last])
  {
    assert t in last <==> t in multiset(last);
    hide Sorted, Contains;
    if t in last {
      var p := Posting(|docs|, Min(255, multiset(last)[t]), DocLen(last));
      SortedNext(ps, p);
      ContainsNext(ps, p);
    } else {
      assert ps + [] == ps;
    }
  }

  lemma PostingsSnoc(t: string, docs: seq<Tokens>)
    requires 0 < |docs| <= 0xFFFF_FFFF
    ensures var n := |docs| - 1;
            PostingsOf(t, docs) == PostingsOf(t, docs[..n]) + PostingsFor(n, Count(t, docs[n]), DocLen(docs[n]))
  {
  }

  /** The reference list is just that. */
  lemma {:induction false} PostingsAre(t: string, docs: seq<Tokens>)
    requires |docs| <= 0xFFFF_FFFF
    ensures Describes(PostingsOf(t, docs), t, docs)
  {
    if docs != [] {
      hide *;
      var front, last := docs[..|docs| - 1], docs[|docs| - 1];
      assert docs == front + [last];
      PostingsAre(t, front);
      CountIs(t, last);
      DescribesNext(PostingsOf(t, front), t, front, last);
      PostingsSnoc(t, docs);
    }
  }

  function Lookup(terms: Index, t: string): seq<Posting> {
    if t in terms then terms[t] else []
  }

  /** The index of `docs`, part-way through a last document of which `part` has been read; `len`
      is that document's full length. */
  ghost predicate Indexes(terms: Index, docs: seq<Tokens>, part: Tokens, len: u16)
    requires |docs| < 0xFFFF_FFFF
  {
    forall t :: Lookup(terms, t) == PostingsOf(t, docs) + PostingsFor(|docs|, Count(t, part), len)
                && (t in terms ==> Lookup(terms, t) != [])
  }

  ghost predicate IndexOf(terms: Index, docs: seq<Tokens>)
    requires |docs| <= 0xFFFF_FFFF
  {
    forall t :: Lookup(terms, t) == PostingsOf(t, docs) && (t in terms ==> Lookup(terms, t) != [])
  }

  /** `add_term` counts one more occurrence, saturating at 255. */
  lemma AddTermIndexes(terms: Index, docs: seq<Tokens>, part: Tokens, len: u16, tok: string)
    requires |docs| < 0xFFFF_FFFF && Indexes(terms, docs, part, len)
    ensures Indexes(WithTerm(terms, tok, |docs|, len), docs, part + [tok], len)
  {
    hide WithTerm, PostingsOf, PostingsFor, Count, Lookup;
    forall t
      ensures Lookup(WithTerm(terms, tok, |docs|, len), t) ==
                PostingsOf(t, docs) + PostingsFor(|docs|, Count(t, part + [tok]), len)
              && (t in WithTerm(terms, tok, |docs|, len) ==> Lookup(WithTerm(terms, tok, |docs|, len), t) != [])
    {
      AddTermAt(terms, docs, part, len, tok, t);
    }
  }

  lemma AddTermAt(terms: Index, docs: seq<Tokens>, part: Tokens, len: u16, tok: string, t: string)
    requires |docs| < 0xFFFF_FFFF && Lookup(terms, t) == PostingsOf(t, docs) + PostingsFor(|docs|, Count(t, part), len)
    requires t in terms ==> Lookup(terms, t) != []
    ensures var terms' := WithTerm(terms, tok, |docs|, len);
            && Lookup(terms', t) == PostingsOf(t, docs) + PostingsFor(|docs|, Count(t, part + [tok]), len)
            && (t in terms' ==> Lookup(terms', t) != [])
  {
    hide *;
    WithTermLooksUp(terms, tok, |docs|, len, t);
    CountSnoc(t, part, tok);
    if t == tok {
      AddTermOwn(Lookup(terms, t), docs, Count(t, part), len, t);
    }
  }

  lemma AddTermOwn(ps: seq<Posting>, docs: seq<Tokens>, c: nat, len: u16, t: string)
    requires |docs| < 0xFFFF_FFFF && ps == PostingsOf(t, docs) + PostingsFor(|docs|, c, len)
    ensures Occurs(ps, |docs|, len) == PostingsOf(t, docs) + PostingsFor(|docs|, c + 1, len) != []
  {
    hide *;
    PostingsBelow(t, docs);
    OccursCounts(ps, PostingsOf(t, docs), |docs|, c, len);
  }

  lemma CountSnoc(t: string, part: Tokens, tok: string)
    ensures Count(t, part + [tok]) == Count(t, part) + if t == tok then 1 else 0
  {
    assert (part + [tok])[..|part|] == part;
  }

  lemma WithTermLooksUp(terms: Index, tok: string, doc: u32, len: u16, t: string)
    ensures Lookup(WithTerm(terms, tok, doc, len), t) == if t == tok then Occurs(Lookup(terms, t), doc, len)
            else Lookup(terms, t)
    ensures t in WithTerm(terms, tok, doc, len) <==> t == tok || t in terms
  {
  }

  lemma {:induction false} PostingsBelow(t: string, docs: seq<Tokens>)
    requires |docs| <= 0xFFFF_FFFF
    ensures var ps := PostingsOf(t, docs); Sorted(ps) && forall i :: 0 <= i < |ps| ==> ps[i].docId < |docs|
  {
    if docs != [] {
      PostingsBelow(t, docs[..|docs| - 1]);
    }
  }

  lemma OccursCounts(ps: seq<Posting>, front: seq<Posting>, d: nat, c: nat, len: u16)
    requires d < 0xFFFF_FFFF && forall i :: 0 <= i < |front| ==> front[i].docId < d
    requires ps == front + PostingsFor(d, c, len)
    ensures Occurs(ps, d, len) == front + PostingsFor(d, c + 1, len) != []
  {
    if c == 0 {
      assert ps == front;
    } else {
      assert ps[..|ps| - 1] == front;
    }
  }

  /** One document's turn of the indexing loop. */
  method IndexDoc(w: InvertedIndexWriter, toks: Tokens, doc: u32, ghost before: seq<Tokens>)
    requires |before| == doc < 0xFFFF_FFFF && IndexOf(w.terms, before)
    modifies w
    ensures IndexOf(w.terms, before + [toks])
  {
    hide WithTerm, PostingsOf;
    var len := DocLen(toks);
    StartsDoc(w.terms, before, len);
    for i := 0 to |toks|
      invariant Indexes(w.terms, before, toks[..i], len)
    {
      AddTermIndexes(w.terms, before, toks[..i], len, toks[i]);
      w.AddTerm(toks[i], doc, len);
      assert toks[..i + 1] == toks[..i] + [toks[i]];
    }
    assert toks[..|toks|] == toks;
    EndsDoc(w.terms, before, toks);
  }

  lemma StartsDoc(terms: Index, docs: seq<Tokens>, len: u16)
    requires |docs| < 0xFFFF_FFFF && IndexOf(terms, docs)
    ensures Indexes(terms, docs, [], len)
  {
    forall t
      ensures Lookup(terms, t) == PostingsOf(t, docs) + PostingsFor(|docs|, Count(t, []), len)
    {
      assert PostingsOf(t, docs) + [] == PostingsOf(t, docs);
    }
  }

  lemma EndsDoc(terms: Index, docs: seq<Tokens>, toks: Tokens)
    requires |docs| < 0xFFFF_FFFF && Indexes(terms, docs, toks, DocLen(toks))
    ensures IndexOf(terms, docs + [toks])
  {
    assert (docs + [toks])[..|docs|] == docs;
  }

  /** The indexing loop of `SegmentWriter::write`. */
  method IndexDocs(w: InvertedIndexWriter, docs: seq<Tokens>)
    requires |docs| <= 0xFFFF_FFFF && w.terms == map[]
    modifies w
    ensures IndexOf(w.terms, docs)
  {
    hide IndexOf;
    EmptyIndex(w.terms);
    for d := 0 to |docs|
      invariant IndexOf(w.terms, docs[..d])
    {
      IndexDoc(w, docs[d], d, docs[..d]);
      assert docs[..d + 1] == docs[..d] + [docs[d]];
    }
    assert docs[..|docs|] == docs;
  }

  lemma EmptyIndex(terms: Index)
    requires terms == map[]
    ensures IndexOf(terms, [])
  {
  }

  // ---- prefix lookup ---------------------------------------------------------------------

  function InTerms(s: set<string>, toks: Tokens): nat {
    if toks == [] then 0 else InTerms(s, toks[..|toks| - 1]) + if toks[|toks| - 1] in s then 1 else 0
  }

  /** How many tokens of a document start with `prefix` (`<=` on sequences is "is a prefix of"). */
  function PrefixCount(prefix: string, toks: Tokens): nat {
    if toks == [] then 0 else PrefixCount(prefix, toks[..|toks| - 1]) + if prefix <= toks[|toks| - 1] then 1 else 0
  }

  /** Counting is over positions. */
  lemma {:induction false} CountIs(t: string, toks: Tokens)
    ensures Count(t, toks) == multiset(toks)[t]
  {
    if toks != [] {
      CountIs(t, toks[..|toks| - 1]);
      assert toks == toks[..|toks| - 1] + [toks[|toks| - 1]];
    }
  }

  lemma {:induction false} PrefixCountIs(prefix: string, toks: Tokens)
    ensures PrefixCount(prefix, toks) == |set i | 0 <= i < |toks| && prefix <= toks[i]|
  {
    var all := set i | 0 <= i < |toks| && prefix <= toks[i];
    if toks == [] {
      assert all == {};
    } else {
      var front := toks[..|toks| - 1];
      PrefixCountIs(prefix, front);
      var some := set i | 0 <= i < |front| && prefix <= front[i];
      assert all == some + if prefix <= toks[|front|] then {|front|} else {};
    }
  }

  lemma {:induction false} InTermsAdd(s: set<string>, t: string, toks: Tokens)
    requires t !in s
    ensures InTerms(s + {t}, toks) == InTerms(s, toks) + Count(t, toks)
  {
    if toks != [] {
      InTermsAdd(s, t, toks[..|toks| - 1]);
    }
  }

  lemma {:induction false} InTermsIsPrefix(s: set<string>, prefix: string, toks: Tokens)
    requires forall t :: t in toks ==> (t in s <==> prefix <= t)
    ensures InTerms(s, toks) == PrefixCount(prefix, toks)
  {
    if toks != [] {
      InTermsIsPrefix(s, prefix, toks[..|toks| - 1]);
    }
  }

  lemma {:induction false} PrefixCountPositive(prefix: string, toks: Tokens)
    ensures PrefixCount(prefix, toks) > 0 <==> exists t :: t in toks && prefix <= t
  {
    if toks != [] {
      var front, last := toks[..|toks| - 1], toks[|toks| - 1];
      PrefixCountPositive(prefix, front);
      assert toks == front + [last];
      if prefix <= last {
        assert last in toks;
      } else if PrefixCount(prefix, front) > 0 {
        var t :| t in front && prefix <= t;
        assert t in toks;
      }
    }
  }

  lemma {:induction false} CountPositive(t: string, toks: Tokens)
    ensures Count(t, toks) > 0 <==> t in toks
  {
    if toks != [] {
      CountPositive(t, toks[..|toks| - 1]);
      assert toks == toks[..|toks| - 1] + [toks[|toks| - 1]];
    }
  }

  /** `retain(|p| !deletions.contains(p.doc_id))` */
  function Live(ps: seq<Posting>, deleted: set<nat>): seq<Posting> {
    if ps == [] then [] else
      Live(ps[..|ps| - 1], deleted) + if ps[|ps| - 1].docId in deleted then [] else [ps[|ps| - 1]]
  }

  lemma {:induction false} LiveAppend(a: seq<Posting>, b: seq<Posting>, deleted: set<nat>)
    ensures Live(a + b, deleted) == Live(a, deleted) + Live(b, deleted)
  {
    if b == [] {
      assert a + b == a;
    } else {
      assert (a + b)[..|a + b| - 1] == a + b[..|b| - 1];
      LiveAppend(a, b[..|b| - 1], deleted);
    }
  }

  lemma LiveOne(n: nat, c: nat, len: u16, deleted: set<nat>)
    requires n < 0x1_0000_0000
    ensures Live(PostingsFor(n, c, len), deleted) == if n in deleted then [] else PostingsFor(n, c, len)
    ensures forall d :: TfSum(PostingsFor(n, c, len), d) == if d == n then Min(255, c) else 0
  {
    if c > 0 {
      assert PostingsFor(n, c, len)[..0] == [];
    }
  }

  /** Occurrences a list records for d: those of the reference, unless d is deleted. */
  lemma {:induction false} LiveTf(t: string, docs: seq<Tokens>, deleted: set<nat>, d: nat)
    requires |docs| <= 0xFFFF_FFFF
    ensures TfSum(Live(PostingsOf(t, docs), deleted), d)
         == if d < |docs| && d !in deleted then Min(255, Count(t, docs[d])) else 0
  {
    if docs != [] {
      var n := |docs| - 1;
      var front, mine := PostingsOf(t, docs[..n]), PostingsFor(n, Count(t, docs[n]), DocLen(docs[n]));
      hide Live, TfSum, PostingsFor, Count;
      LiveTf(t, docs[..n], deleted, d);
      LiveAppend(front, mine, deleted);
      LiveOne(n, Count(t, docs[n]), DocLen(docs[n]), deleted);
      TfSumAppend(Live(front, deleted), Live(mine, deleted), d);
    }
  }

  /** Every surviving posting is of a live document and carries its length. */
  lemma {:induction false} LiveLen(t: string, docs: seq<Tokens>, deleted: set<nat>, p: Posting)
    requires |docs| <= 0xFFFF_FFFF && p in Live(PostingsOf(t, docs), deleted)
    ensures p.docId < |docs| && p.docId !in deleted && p.docLen == DocLen(docs[p.docId]) && p.termFreq > 0
  {
    if docs != [] {
      var n := |docs| - 1;
      var front, mine := PostingsOf(t, docs[..n]), PostingsFor(n, Count(t, docs[n]), DocLen(docs[n]));
      LiveAppend(front, mine, deleted);
      LiveOne(n, Count(t, docs[n]), DocLen(docs[n]), deleted);
      if p in Live(front, deleted) {
        LiveLen(t, docs[..n], deleted, p);
      }
    }
  }

  /** What the lists gathered for a set of terms record, flattened. */
  ghost predicate Covers(flat: seq<Posting>, docs: seq<Tokens>, deleted: set<nat>, s: set<string>)
    requires |docs| <= 0xFFFF_FFFF
  {
    && (forall d: nat :: Min(255, TfSum(flat, d)) == LiveCount(docs, deleted, s, d))
    && (forall p :: p in flat ==> OfLiveDoc(p, docs, deleted))
  }

  function LiveCount(docs: seq<Tokens>, deleted: set<nat>, s: set<string>, d: nat): nat {
    if d < |docs| && d !in deleted then Min(255, InTerms(s, docs[d])) else 0
  }

  predicate OfLiveDoc(p: Posting, docs: seq<Tokens>, deleted: set<nat>) {
    p.docId < |docs| && p.docId !in deleted && p.docLen == DocLen(docs[p.docId]) && p.termFreq > 0
  }

  lemma CoversNone(docs: seq<Tokens>, deleted: set<nat>)
    requires |docs| <= 0xFFFF_FFFF
    ensures Covers([], docs, deleted, {})
  {
    forall d: nat | d < |docs|
      ensures InTerms({}, docs[d]) == 0
    {
      InTermsEmpty(docs[d]);
    }
  }

  lemma {:induction false} InTermsEmpty(toks: Tokens)
    ensures InTerms({}, toks) == 0
  {
    if toks != [] {
      InTermsEmpty(toks[..|toks| - 1]);
    }
  }

  lemma CoversMore(flat: seq<Posting>, docs: seq<Tokens>, deleted: set<nat>, s: set<string>, t: string)
    requires |docs| <= 0xFFFF_FFFF && Covers(flat, docs, deleted, s) && t !in s
    ensures Covers(flat + Live(PostingsOf(t, docs), deleted), docs, deleted, s + {t})
  {
    hide Live, PostingsOf, TfSum;
    var more := Live(PostingsOf(t, docs), deleted);
    forall d: nat
      ensures Min(255, TfSum(flat + more, d)) == LiveCount(docs, deleted, s + {t}, d)
    {
      TfSumAppend(flat, more, d);
      LiveTf(t, docs, deleted, d);
      assert Min(255, TfSum(flat, d)) == LiveCount(docs, deleted, s, d);
      if d < |docs| {
        InTermsAdd(s, t, docs[d]);
      }
    }
    forall p | p in flat + more
      ensures OfLiveDoc(p, docs, deleted)
    {
      if p in more {
        LiveLen(t, docs, deleted, p);
      }
    }
  }

  lemma {:induction false} TfPositive(flat: seq<Posting>, d: int)
    requires forall p :: p in flat ==> p.termFreq > 0
    ensures Contains(flat, d) <==> TfSum(flat, d) > 0
  {
    if flat != [] {
      var front, last := flat[..|flat| - 1], flat[|flat| - 1];
      TfPositive(front, d);
      assert flat == front + [last];
      ContainsSnoc(front, last);
    }
  }

  /** The term dictionary holds every token of every document. */
  lemma TokensIndexed(terms: Index, docs: seq<Tokens>, d: nat, t: string)
    requires |docs| <= 0xFFFF_FFFF && IndexOf(terms, docs) && d < |docs| && t in docs[d]
    ensures t in terms
  {
    LiveTf(t, docs, {}, d);
    CountPositive(t, docs[d]);
    assert Lookup(terms, t) == PostingsOf(t, docs);
  }

  /** Document d is live and some token of it starts with `prefix`. */
  ghost predicate Hit(docs: seq<Tokens>, deleted: set<nat>, prefix: string, d: int) {
    0 <= d < |docs| && d !in deleted && exists t :: t in docs[d] && prefix <= t
  }

  /** A merged list means what the reference scan sees. */
  ghost predicate Faithful(ps: seq<Posting>, docs: seq<Tokens>, deleted: set<nat>, prefix: string) {
    && Sorted(ps)
    && (forall d :: Contains(ps, d) <==> Hit(docs, deleted, prefix, d))
    && (forall p :: p in ps ==>
          && p.docId < |docs| && p.docLen == DocLen(docs[p.docId])
          && p.termFreq == Min(255, PrefixCount(prefix, docs[p.docId])))
  }

  /** The dictionary's terms that start with `prefix`. */
  function Expansions(terms: Index, prefix: string): set<string> {
    set t | t in terms && prefix <= t
  }

  function Present(s: set<string>, toks: Tokens): set<string> {
    set t | t in s && t in toks
  }

  /** Over the live documents, how many different terms of `s` each one has, added up. */
  function Pairs(s: set<string>, docs: seq<Tokens>, deleted: set<nat>): nat {
    if docs == [] then 0 else
      var n := |docs| - 1;
      Pairs(s, docs[..n], deleted) + if n in deleted then 0 else |Present(s, docs[n])|
  }

  /** The document frequency the executor uses for a query token: it adds up the lengths of the
      lists of all terms that start with the token, so a document counts once for each of them. */
  function PrefixPairs(prefix: string, docs: seq<Tokens>, deleted: set<nat>): nat {
    if docs == [] then 0 else
      var n := |docs| - 1;
      PrefixPairs(prefix, docs[..n], deleted) + if n in deleted then 0 else |set t | t in docs[n] && prefix <= t|
  }

  lemma {:induction false} PairsNone(docs: seq<Tokens>, deleted: set<nat>)
    ensures Pairs({}, docs, deleted) == 0
  {
    if docs != [] {
      PairsNone(docs[..|docs| - 1], deleted);
      assert Present({}, docs[|docs| - 1]) == {};
    }
  }

  lemma {:induction false} PairsAdd(s: set<string>, t: string, docs: seq<Tokens>, deleted: set<nat>)
    requires |docs| <= 0xFFFF_FFFF && t !in s
    ensures Pairs(s + {t}, docs, deleted) == Pairs(s, docs, deleted) + |Live(PostingsOf(t, docs), deleted)|
  {
    if docs != [] {
      var n := |docs| - 1;
      PairsAdd(s, t, docs[..n], deleted);
      var front, mine := PostingsOf(t, docs[..n]), PostingsFor(n, Count(t, docs[n]), DocLen(docs[n]));
      LiveAppend(front, mine, deleted);
      LiveOne(n, Count(t, docs[n]), DocLen(docs[n]), deleted);
      CountPositive(t, docs[n]);
      OneMore(s, t, docs[n]);
    }
  }

  lemma OneMore(s: set<string>, t: string, toks: Tokens)
    requires t !in s
    ensures |Present(s + {t}, toks)| == |Present(s, toks)| + if t in toks then 1 else 0
  {
    assert Present(s + {t}, toks) == if t in toks then Present(s, toks) + {t} else Present(s, toks);
  }

  lemma {:induction false} PairsArePrefixPairs(s: set<string>, prefix: string, docs: seq<Tokens>, deleted: set<nat>)
    requires forall d, t :: 0 <= d < |docs| && t in docs[d] ==> (t in s <==> prefix <= t)
    ensures Pairs(s, docs, deleted) == PrefixPairs(prefix, docs, deleted)
  {
    if docs != [] {
      var n := |docs| - 1;
      PairsArePrefixPairs(s, prefix, docs[..n], deleted);
      assert Present(s, docs[n]) == (set t | t in docs[n] && prefix <= t);
    }
  }

  lemma ExpansionPairs(terms: Index, prefix: string, docs: seq<Tokens>, deleted: set<nat>)
    requires |docs| <= 0xFFFF_FFFF && IndexOf(terms, docs)
    ensures Pairs(Expansions(terms, prefix), docs, deleted) == PrefixPairs(prefix, docs, deleted)
  {
    forall d, t | 0 <= d < |docs| && t in docs[d]
      ensures t in Expansions(terms, prefix) <==> prefix <= t
    {
      TokensIndexed(terms, docs, d, t);
    }
    PairsArePrefixPairs(Expansions(terms, prefix), prefix, docs, deleted);
  }

  // ---- the segment's posting file --------------------------------------------------------

  /** Every term reads back its own list, and no other term is found. */
  ghost predicate Readable(file: IndexFile, terms: Index) {
    && file.offsets.Keys == terms.Keys
    && forall t :: t in terms ==> GetPostings(file, t).Some? && GetPostings(file, t).value.postings == terms[t]
  }

  /** The file reads back the index of these documents. */
  ghost predicate HoldsIndex(file: IndexFile, docs: seq<Tokens>)
    requires |docs| <= 0xFFFF_FFFF
  {
    exists terms :: IndexOf(terms, docs) && Readable(file, terms)
  }

  /** Every term's list fits a frame. */
  ghost predicate AllFit(docs: seq<Tokens>)
    requires |docs| <= 0xFFFF_FFFF
  {
    forall t :: FitsFrame(PostingsOf(t, docs))
  }

  /** The term's list fits a frame. */
  ghost predicate FitsFrame(ps: seq<Posting>) {
    ByDoc(ps) && EncodedSize(ps) < U32_END
  }

  lemma {:induction false} PostingsAtMost(t: string, docs: seq<Tokens>)
    requires |docs| <= 0xFFFF_FFFF
    ensures |PostingsOf(t, docs)| <= |docs|
  {
    if docs != [] {
      PostingsAtMost(t, docs[..|docs| - 1]);
    }
  }

  lemma IndexIsEncodable(terms: Index, docs: seq<Tokens>)
    requires |docs| <= 0xFFFF_FFFF && IndexOf(terms, docs)
    ensures Encodable(terms)
  {
    hide PostingsOf;
    forall t | t in terms
      ensures ByDoc(terms[t]) && |terms[t]| + BLOCK_SIZE < U64_END
    {
      assert Lookup(terms, t) == PostingsOf(t, docs);
      PostingsBelow(t, docs);
      PostingsAtMost(t, docs);
    }
  }

  lemma WrittenIsReadable(file: IndexFile, terms: Index, docs: seq<Tokens>, avgdl: real, bits: BitsOf)
    requires |docs| <= 0xFFFF_FFFF && IndexOf(terms, docs) && file.offsets.Keys == terms.Keys
    requires forall t :: t in terms ==> Stored(file, t, terms[t], avgdl, bits)
    requires AllFit(docs)
    ensures Readable(file, terms)
  {
    hide PostingsOf, Stored, GetPostings, EncodedSize;
    forall t | t in terms
      ensures GetPostings(file, t).Some? && GetPostings(file, t).value.postings == terms[t]
    {
      assert Lookup(terms, t) == PostingsOf(t, docs);
      assert FitsFrame(PostingsOf(t, docs));
      LookupReturnsOwn(file, t, terms[t], avgdl, bits);
    }
  }

  /** `SegmentWriter::write`, as far as postings go: index the documents and write the file. */
  method WritePostings(docs: seq<Tokens>, avgdl: real, bits: BitsOf) returns (file: IndexFile, ghost terms: Index)
    requires |docs| <= 0xFFFF_FFFF && AllFit(docs)
    ensures IndexOf(terms, docs) && Readable(file, terms) && HoldsIndex(file, docs)
  {
    hide IndexOf, AllFit, Stored, Readable;
    var w := new InvertedIndexWriter();
    IndexDocs(w, docs);
    IndexIsEncodable(w.terms, docs);
    file := w.Write(avgdl, bits);
    terms := w.terms;
    WrittenIsReadable(file, terms, docs, avgdl, bits);
  }

  /** All postings that the prefix lookup contributes to one query token, per term, read from the
      file. */
  method PrefixSearchTerm(file: IndexFile, deleted: set<nat>, prefix: string, ghost terms: Index,
                          ghost docs: seq<Tokens>)
    returns (lists: seq<PostingList>)
    requires |docs| <= 0xFFFF_FFFF && IndexOf(terms, docs) && Readable(file, terms)
    ensures Covers(Flatten(lists), docs, deleted, Expansions(terms, prefix))
    ensures lists == [] <==> Expansions(terms, prefix) == {}
    ensures |Flatten(lists)| == PrefixPairs(prefix, docs, deleted)
  {
    hide Covers, Live, PostingsOf, Expansions, Pairs, PrefixPairs, GetPostings, Readable, IndexOf, Flatten;
    NothingFlat();
    ghost var all := Expansions(terms, prefix);
    var todo := set t | t in file.offsets && prefix <= t;
    SameExpansions(file, terms, prefix);
    lists := [];
    CoversNone(docs, deleted);
    PairsNone(docs, deleted);
    assert all - todo == {};
    while todo != {}
      invariant todo <= all && (lists == [] <==> todo == all)
      invariant Covers(Flatten(lists), docs, deleted, all - todo)
      invariant |Flatten(lists)| == Pairs(all - todo, docs, deleted)
      decreases |todo|
    {
      var t :| t in todo;
      ExpansionsAreTerms(terms, prefix, t);
      CoversMore(Flatten(lists), docs, deleted, all - todo, t);
      PairsAdd(all - todo, t, docs, deleted);
      assert all - todo + {t} == all - (todo - {t});
      ReadsList(file, terms, docs, t);
      var stored := GetPostings(file, t);
      var live := PostingList(Live(stored.value.postings, deleted), []);
      FlattenSnoc(lists, live);
      lists := lists + [live];
      todo := todo - {t};
    }
    assert all - todo == all;
    ExpansionPairs(terms, prefix, docs, deleted);
  }

  lemma ReadsList(file: IndexFile, terms: Index, docs: seq<Tokens>, t: string)
    requires |docs| <= 0xFFFF_FFFF && IndexOf(terms, docs) && Readable(file, terms) && t in terms
    ensures GetPostings(file, t).Some? && GetPostings(file, t).value.postings == PostingsOf(t, docs)
  {
    hide PostingsOf, GetPostings;
    assert Lookup(terms, t) == PostingsOf(t, docs);
  }

  lemma FlattenSnoc(lists: seq<PostingList>, l: PostingList)
    ensures Flatten(lists + [l]) == Flatten(lists) + l.postings
  {
    assert (lists + [l])[..|lists|] == lists;
  }

  lemma NothingFlat()
    ensures Flatten([]) == []
  {
  }

  lemma SameExpansions(file: IndexFile, terms: Index, prefix: string)
    requires Readable(file, terms)
    ensures (set t | t in file.offsets && prefix <= t) == Expansions(terms, prefix)
  {
  }

  lemma ExpansionsAreTerms(terms: Index, prefix: string, t: string)
    requires t in Expansions(terms, prefix)
    ensures t in terms
  {
  }

  /** Merging what the lookup found yields the reference list of the query token. */
  lemma MergedIsFaithful(m: seq<Posting>, flat: seq<Posting>, terms: Index, docs: seq<Tokens>, deleted: set<nat>,
                         prefix: string)
    requires |docs| <= 0xFFFF_FFFF && IndexOf(terms, docs)
    requires Covers(flat, docs, deleted, Expansions(terms, prefix)) && IsMerge(m, flat)
    ensures Faithful(m, docs, deleted, prefix)
  {
    hide TfSum, IndexOf;
    var s := Expansions(terms, prefix);
    forall d
      ensures Contains(m, d) <==> Hit(docs, deleted, prefix, d)
    {
      TfPositive(flat, d);
      if d >= 0 {
        CoverCounts(flat, terms, docs, deleted, prefix, d);
      } else {
        NoneNegative(flat, docs, deleted, d);
      }
    }
    forall p | p in m
      ensures p.docId < |docs| && p.docLen == DocLen(docs[p.docId])
      ensures p.termFreq == Min(255, PrefixCount(prefix, docs[p.docId]))
    {
      assert LengthFrom(p, flat);
      var q :| q in flat && q.docId == p.docId && q.docLen == p.docLen;
      assert OfLiveDoc(q, docs, deleted);
      CoverCounts(flat, terms, docs, deleted, prefix, p.docId);
    }
  }

  lemma NoneNegative(flat: seq<Posting>, docs: seq<Tokens>, deleted: set<nat>, d: int)
    requires d < 0
    ensures !Contains(flat, d)
  {
  }

  lemma CoverCounts(flat: seq<Posting>, terms: Index, docs: seq<Tokens>, deleted: set<nat>, prefix: string, d: nat)
    requires |docs| <= 0xFFFF_FFFF && IndexOf(terms, docs)
    requires Covers(flat, docs, deleted, Expansions(terms, prefix))
    ensures TfSum(flat, d) > 0 <==> Hit(docs, deleted, prefix, d)
    ensures d < |docs| && d !in deleted ==> Min(255, TfSum(flat, d)) == Min(255, PrefixCount(prefix, docs[d]))
  {
    var s := Expansions(terms, prefix);
    assert Min(255, TfSum(flat, d)) == LiveCount(docs, deleted, s, d);
    if d < |docs| {
      forall t | t in docs[d]
        ensures t in s <==> prefix <= t
      {
        TokensIndexed(terms, docs, d, t);
      }
      InTermsIsPrefix(s, prefix, docs[d]);
      PrefixCountPositive(prefix, docs[d]);
    }
  }
}
