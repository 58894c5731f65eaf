/** The suggest builder (crates/suggest/src/builder.rs): how often each term occurs, and the index a
    snapshot makes of it.  The analyser (tokens of a text, lower-cased) is a parameter. */
module SuggestBuilder {
  import opened Base
  import opened Documents
  import opened Ranking
  import opened Suggest

  type Analyze = string -> seq<string>

  // ---- the texts of a document -----------------------------------------------------------

  function Joined(ss: seq<string>): string {
    if ss == [] then "" else if |ss| == 1 then ss[0] else ss[0] + " " + Joined(ss[1..])
  }

  /** `extract_field`. */
  function Extract(doc: Document, field: string): string {
    if field == "title" then doc.title
    else if field == "description" then doc.description
    else if field == "category" then doc.category
    else if field !in doc.attributes then ""
    else
      match doc.attributes[field]
      case Str(s) => s
      case StringArray(ss) => Joined(ss)
      case _ => ""
  }

  function FieldTexts(doc: Document, fields: seq<string>): seq<string> {
    seq(|fields|, i requires 0 <= i < |fields| => Extract(doc, fields[i]))
  }

  // ---- the reference count ---------------------------------------------------------------

  predicate Mentions(analyze: Analyze, text: string, term: string) {
    text != "" && term != "" && term in analyze(text)
  }

  /** In how many of the texts the term occurs: per document once for each field that has it. */
  function Frequency(analyze: Analyze, texts: seq<string>, term: string): nat {
    if texts == [] then 0 else
      Frequency(analyze, texts[..|texts| - 1], term) + if Mentions(analyze, texts[|texts| - 1], term) then 1 else 0
  }

  ghost predicate Counts(counts: map<string, nat>, analyze: Analyze, texts: seq<string>) {
    forall t :: (t in counts <==> Frequency(analyze, texts, t) > 0)
           && (t in counts ==> counts[t] == Frequency(analyze, texts, t))
  }

  /** One more text. */
  ghost predicate CountsMore(counts: map<string, nat>, counts': map<string, nat>, analyze: Analyze, text: string) {
    forall t ::
      && (t in counts' <==> t in counts || Mentions(analyze, text, t))
      && (t in counts' ==>
            counts'[t] == (if t in counts then counts[t] else 0) + if Mentions(analyze, text, t) then 1 else 0)
  }

  lemma CountedMore(counts: map<string, nat>, counts': map<string, nat>, analyze: Analyze, texts: seq<string>,
                    text: string)
    requires Counts(counts, analyze, texts) && CountsMore(counts, counts', analyze, text)
    ensures Counts(counts', analyze, texts + [text])
  {
    hide Mentions;
    forall t
      ensures Frequency(analyze, texts + [text], t) ==
                Frequency(analyze, texts, t) + if Mentions(analyze, text, t) then 1 else 0
    {
      assert (texts + [text])[..|texts|] == texts;
    }
  }

  /** Each named field is counted by its own text. */
  lemma FieldsCount(analyze: Analyze, doc: Document, term: string)
    ensures Frequency(analyze, FieldTexts(doc, ["title"]), term) > 0 <==> Mentions(analyze, doc.title, term)
    ensures Frequency(analyze, FieldTexts(doc, ["description"]), term) > 0 <==> Mentions(analyze, doc.description, term)
    ensures Frequency(analyze, FieldTexts(doc, ["category"]), term) > 0 <==> Mentions(analyze, doc.category, term)
  {
    hide Mentions;
    assert FieldTexts(doc, ["title"]) == [doc.title] && FieldTexts(doc, ["description"]) == [doc.description]
           && FieldTexts(doc, ["category"]) == [doc.category];
    assert [doc.title][..0] == [] && [doc.description][..0] == [] && [doc.category][..0] == [];
  }

  // ---- counts against documents ----------------------------------------------------------

  /** The field texts of documents added one after the other. */
  function AllTexts(docs: seq<Document>, fields: seq<string>): seq<string> {
    if docs == [] then [] else AllTexts(docs[..|docs| - 1], fields) + FieldTexts(docs[|docs| - 1], fields)
  }

  /** In how many documents the term occurs, in whatever field. */
  function DocFrequency(analyze: Analyze, docs: seq<Document>, fields: seq<string>, term: string): nat {
    if docs == [] then 0 else
      DocFrequency(analyze, docs[..|docs| - 1], fields, term)
      + if Frequency(analyze, FieldTexts(docs[|docs| - 1], fields), term) > 0 then 1 else 0
  }

  lemma {:induction false} FrequencyAppend(analyze: Analyze, a: seq<string>, b: seq<string>, term: string)
    ensures Frequency(analyze, a + b, term) == Frequency(analyze, a, term) + Frequency(analyze, b, term)
  {
    hide Mentions;
    if b == [] {
      assert a + b == a;
    } else {
      assert (a + b)[..|a + b| - 1] == a + b[..|b| - 1];
      FrequencyAppend(analyze, a, b[..|b| - 1], term);
    }
  }

  /** No document has the term in two fields. */
  ghost predicate OneFieldEach(analyze: Analyze, docs: seq<Document>, fields: seq<string>, term: string) {
    forall i :: 0 <= i < |docs| ==> Frequency(analyze, FieldTexts(docs[i], fields), term) <= 1
  }

  lemma OneMoreDocument(analyze: Analyze, front: seq<Document>, last: Document, fields: seq<string>, term: string)
    ensures var n := Frequency(analyze, FieldTexts(last, fields), term);
            && Frequency(analyze, AllTexts(front + [last], fields), term) ==
               Frequency(analyze, AllTexts(front, fields), term) + n
            && DocFrequency(analyze, front + [last], fields, term) ==
               DocFrequency(analyze, front, fields, term) + (if n > 0 then 1 else 0)
            && (OneFieldEach(analyze, front + [last], fields, term) <==>
                OneFieldEach(analyze, front, fields, term) && n <= 1)
  {
    hide Frequency, FieldTexts, Mentions;
    var docs := front + [last];
    assert docs[..|front|] == front && docs[|front|] == last;
    FrequencyAppend(analyze, AllTexts(front, fields), FieldTexts(last, fields), term);
    if OneFieldEach(analyze, docs, fields, term) {
      assert forall i :: 0 <= i < |front| ==> front[i] == docs[i];
    }
  }

  lemma NothingCounted(analyze: Analyze, fields: seq<string>, term: string)
    ensures Frequency(analyze, AllTexts([], fields), term) == 0 == DocFrequency(analyze, [], fields, term)
    ensures OneFieldEach(analyze, [], fields, term)
  {
  }

  /** The count of a term is the number of documents it occurs in if and only if no document has it in
      two fields; otherwise it is higher. */
  lemma {:induction false} CountsDocumentsIff(analyze: Analyze, docs: seq<Document>, fields: seq<string>, term: string)
    ensures Frequency(analyze, AllTexts(docs, fields), term) >= DocFrequency(analyze, docs, fields, term)
    ensures Frequency(analyze, AllTexts(docs, fields), term) == DocFrequency(analyze, docs, fields, term) <==>
              OneFieldEach(analyze, docs, fields, term)
  {
    hide *;
    if docs == [] {
      NothingCounted(analyze, fields, term);
    } else {
      var front, last := docs[..|docs| - 1], docs[|docs| - 1];
      assert docs == front + [last];
      CountsDocumentsIff(analyze, front, fields, term);
      OneMoreDocument(analyze, front, last, fields, term);
    }
  }

  /** One document with the term in title and description counts twice. */
  lemma OneDocumentCountsTwice(analyze: Analyze, doc: Document, term: string)
    requires Mentions(analyze, doc.title, term) && Mentions(analyze, doc.description, term)
    ensures var fields := ["title", "description"];
            && Frequency(analyze, AllTexts([doc], fields), term) == 2
            && DocFrequency(analyze, [doc], fields, term) == 1
  {
    hide Mentions;
    var fields := ["title", "description"];
    var texts := FieldTexts(doc, fields);
    assert texts == [doc.title, doc.description];
    assert texts[..1] == [doc.title] && [doc.title][..0] == [];
    assert Frequency(analyze, texts[..1], term) == 1;
    assert AllTexts([doc], fields) == [] + texts == texts;
  }

  // ---- sort and dedup --------------------------------------------------------------------

  predicate TextOrder(a: string, b: string) {
    !Less(b, a)
  }

  lemma TextOrderTotal()
    ensures TotalPreorder(TextOrder)
  {
    forall a, b
      ensures TextOrder(a, b) || TextOrder(b, a)
    {
      LessTotal(a, b);
    }
    forall a, b, c | TextOrder(a, b) && TextOrder(b, c)
      ensures TextOrder(a, c)
    {
      NotLessTransitive(a, b, c);
    }
  }

  ghost predicate Distinct(ts: seq<string>) {
    forall i, j :: 0 <= i < j < |ts| ==> ts[i] != ts[j]
  }

  /** In a sorted list, what differs from the last entry kept differs from all of them. */
  lemma NewAfterLast(sorted: seq<string>, kept: seq<string>, t: string, i: nat)
    requires OrderedBy(sorted, TextOrder) && i < |sorted| && t == sorted[i]
    requires Distinct(kept) && kept != [] && kept[|kept| - 1] != t
    requires forall k :: 0 <= k < |kept| ==> kept[k] in sorted[..i]
    requires OrderedBy(kept, TextOrder)
    ensures t !in kept && OrderedBy(kept + [t], TextOrder)
  {
    forall k | 0 <= k < |kept|
      ensures TextOrder(kept[k], t)
    {
      var j :| 0 <= j < i && sorted[..i][j] == kept[k];
      assert TextOrder(sorted[j], sorted[i]);
    }
    if t in kept {
      var k :| 0 <= k < |kept| && kept[k] == t;
      assert TextOrder(kept[k], kept[|kept| - 1]);
      LessTotal(t, kept[|kept| - 1]);
    }
  }

  lemma DistinctSnoc(kept: seq<string>, t: string)
    requires Distinct(kept) && t !in kept
    ensures Distinct(kept + [t])
  {
  }

  lemma SameMembers(ts: seq<string>, sorted: seq<string>)
    requires multiset(sorted) == multiset(ts)
    ensures forall t :: t in sorted <==> t in ts
  {
    forall t
      ensures t in sorted <==> t in ts
    {
      assert t in sorted <==> t in multiset(sorted);
      assert t in ts <==> t in multiset(ts);
    }
  }

  /** `sort_unstable` and `dedup`. */
  method SortDedup(ts: seq<string>) returns (ds: seq<string>)
    ensures Distinct(ds) && forall t :: t in ds <==> t in ts
  {
    hide *;
    TextOrderTotal();
    var sorted := SortBy(ts, TextOrder);
    SameMembers(ts, sorted);
    NothingOrdered();
    ds := [];
    for i := 0 to |sorted|
      invariant Distinct(ds) && OrderedBy(ds, TextOrder) && (ds == [] <==> i == 0)
      invariant forall t :: t in ds <==> t in sorted[..i]
      invariant i > 0 ==> ds[|ds| - 1] == sorted[i - 1]
    {
      var t := sorted[i];
      assert sorted[..i + 1] == sorted[..i] + [t];
      if i == 0 || ds[|ds| - 1] != t {
        if i == 0 {
          OneOrdered(t);
        } else {
          NewAfterLast(sorted, ds, t, i);
        }
        DistinctSnoc(ds, t);
        ds := ds + [t];
      }
    }
    assert sorted[..|sorted|] == sorted;
  }

  lemma NothingOrdered()
    ensures Distinct([]) && OrderedBy([], TextOrder)
  {
  }

  lemma OneOrdered(t: string)
    ensures OrderedBy([] + [t], TextOrder)
  {
  }

  // ---- what a snapshot holds -------------------------------------------------------------

  datatype Counted = Counted(term: string, count: nat)

  ghost predicate Eligible(counts: map<string, nat>, minFrequency: nat, t: string) {
    t in counts && counts[t] >= minFrequency
  }

  ghost predicate DistinctCounted(cs: seq<Counted>) {
    forall i, j :: 0 <= i < j < |cs| ==> cs[i].term != cs[j].term
  }

  /** A selection of the eligible terms with their counts: no more than asked for, and nothing left
      out unless it is full of terms at least as frequent. */
  ghost predicate Selects(cs: seq<Counted>, counts: map<string, nat>, minFrequency: nat, maxTerms: nat) {
    && DistinctCounted(cs)
    && (forall c :: c in cs ==> Eligible(counts, minFrequency, c.term) && counts[c.term] == c.count)
    && (maxTerms > 0 ==> |cs| <= maxTerms)
    && (forall t :: Eligible(counts, minFrequency, t) && Counted(t, counts[t]) !in cs ==>
          maxTerms > 0 && |cs| == maxTerms && forall c :: c in cs ==> c.count >= counts[t])
  }

  ghost predicate AllEligible(ts: seq<Term>, counts: map<string, nat>, minFrequency: nat) {
    forall e :: e in ts ==> Eligible(counts, minFrequency, e.term)
  }

  ghost predicate InUnit(ts: seq<Term>) {
    forall e :: e in ts ==> 0.0 <= e.score <= 1.0
  }

  /** Scores stand to each other as the counts do, and the best one is 1. */
  ghost predicate InProportion(ts: seq<Term>, counts: map<string, nat>)
    requires forall e :: e in ts ==> e.term in counts
  {
    && (forall e, f :: e in ts && f in ts ==> e.score * counts[f.term] as real == f.score * counts[e.term] as real)
    && ((exists e :: e in ts && counts[e.term] > 0) ==> exists e :: e in ts && e.score == 1.0)
  }

  ghost predicate LeavesOutLess(ts: seq<Term>, counts: map<string, nat>, minFrequency: nat, maxTerms: nat)
    requires forall e :: e in ts ==> e.term in counts
  {
    && (maxTerms > 0 ==> |ts| <= maxTerms)
    && (forall t :: Eligible(counts, minFrequency, t) && (forall e :: e in ts ==> e.term != t) ==>
          maxTerms > 0 && |ts| == maxTerms && forall e :: e in ts ==> counts[e.term] >= counts[t])
  }

  /** What a snapshot holds: eligible terms, each once, at most as many as asked for and none left out
      but for more frequent ones, scored in [0, 1] in proportion to their counts. */
  ghost predicate Normalised(ts: seq<Term>, counts: map<string, nat>, minFrequency: nat, maxTerms: nat) {
    && DistinctTerms(ts) && AllEligible(ts, counts, minFrequency) && InUnit(ts)
    && (forall e :: e in ts ==> e.term in counts)
    && InProportion(ts, counts) && LeavesOutLess(ts, counts, minFrequency, maxTerms)
  }

  predicate MoreFrequent(a: Counted, b: Counted) {
    a.count >= b.count
  }

  method Filter(counts: map<string, nat>, minFrequency: nat) returns (cs: seq<Counted>)
    ensures ListsEligible(cs, counts, minFrequency)
  {
    cs := [];
    var rest := counts.Keys;
    while rest != {}
      invariant rest <= counts.Keys && DistinctCounted(cs)
      invariant forall c :: c in cs <==>
                  Eligible(counts, minFrequency, c.term) && counts[c.term] == c.count && c.term !in rest
      decreases |rest|
    {
      var t :| t in rest;
      if counts[t] >= minFrequency {
        cs := cs + [Counted(t, counts[t])];
      }
      rest := rest - {t};
    }
  }

  /** Exactly the eligible terms, each once. */
  ghost predicate ListsEligible(cs: seq<Counted>, counts: map<string, nat>, minFrequency: nat) {
    && DistinctCounted(cs)
    && forall c :: c in cs <==> Eligible(counts, minFrequency, c.term) && counts[c.term] == c.count
  }

  /** The most frequent ones, when there are too many. */
  method Cut(cs: seq<Counted>, maxTerms: nat, ghost counts: map<string, nat>, ghost minFrequency: nat)
    returns (kept: seq<Counted>)
    requires ListsEligible(cs, counts, minFrequency)
    ensures Selects(kept, counts, minFrequency, maxTerms)
  {
    kept := cs;
    if maxTerms > 0 && |cs| > maxTerms {
      FrequencyIsOrder();
      var sorted := StableSortBy(cs, MoreFrequent);
      hide *;
      StillListsEligible(cs, sorted, counts, minFrequency);
      FirstSelect(sorted, counts, minFrequency, maxTerms);
      kept := sorted[..maxTerms];
    }
  }

  lemma FrequencyIsOrder()
    ensures TotalPreorder(MoreFrequent)
  {
  }

  lemma StillListsEligible(cs: seq<Counted>, sorted: seq<Counted>, counts: map<string, nat>, minFrequency: nat)
    requires ListsEligible(cs, counts, minFrequency) && multiset(sorted) == multiset(cs)
    ensures ListsEligible(sorted, counts, minFrequency) && |sorted| == |cs|
  {
    hide DistinctCounted, Eligible;
    Reordered(cs, sorted);
  }

  /** In descending order, whatever comes after the cut is no more frequent than what comes before. */
  lemma AfterCut(sorted: seq<Counted>, n: nat, left: Counted)
    requires n <= |sorted| && OrderedBy(sorted, MoreFrequent) && left in sorted && left !in sorted[..n]
    ensures forall c :: c in sorted[..n] ==> c.count >= left.count
  {
    assert sorted == sorted[..n] + sorted[n..];
    var j :| 0 <= j < |sorted[n..]| && sorted[n..][j] == left;
    forall c | c in sorted[..n]
      ensures c.count >= left.count
    {
      var i :| 0 <= i < n && sorted[..n][i] == c;
      assert MoreFrequent(sorted[i], sorted[n + j]);
    }
  }

  lemma FirstSelect(sorted: seq<Counted>, counts: map<string, nat>, minFrequency: nat, n: nat)
    requires ListsEligible(sorted, counts, minFrequency) && OrderedBy(sorted, MoreFrequent) && 0 < n <= |sorted|
    ensures Selects(sorted[..n], counts, minFrequency, n)
  {
    hide OrderedBy;
    var kept := sorted[..n];
    forall c | c in kept
      ensures c in sorted
    {
    }
    forall t | Eligible(counts, minFrequency, t) && Counted(t, counts[t]) !in kept
      ensures forall c :: c in kept ==> c.count >= counts[t]
    {
      AfterCut(sorted, n, Counted(t, counts[t]));
    }
  }

  lemma Reordered(cs: seq<Counted>, sorted: seq<Counted>)
    requires multiset(sorted) == multiset(cs) && DistinctCounted(cs)
    ensures DistinctCounted(sorted) && |sorted| == |cs| && forall c :: c in sorted <==> c in cs
  {
    assert |multiset(sorted)| == |sorted| && |multiset(cs)| == |cs|;
    forall c
      ensures c in sorted <==> c in cs
    {
      assert c in sorted <==> c in multiset(sorted);
      assert c in cs <==> c in multiset(cs);
    }
    StillDistinct(cs, sorted, (c: Counted) => c.term);
  }

  method Highest(cs: seq<Counted>) returns (top: nat)
    ensures top >= 1 && forall c :: c in cs ==> c.count <= top
    ensures (exists c :: c in cs && c.count > 0) ==> exists c :: c in cs && c.count == top
  {
    top := 1;
    for i := 0 to |cs|
      invariant top >= 1 && forall k :: 0 <= k < i ==> cs[k].count <= top
      invariant top == 1 || exists k :: 0 <= k < i && cs[k].count == top
    {
      if cs[i].count > top {
        top := cs[i].count;
      }
    }
    if exists c :: c in cs && c.count > 0 {
      ghost var c :| c in cs && c.count > 0;
    }
  }

  function Share(c: nat, top: nat): real
    requires top >= 1
  {
    c as real / top as real
  }

  function Scaled(cs: seq<Counted>, top: nat): (ts: seq<Term>)
    requires top >= 1
    ensures |ts| == |cs| && forall i :: 0 <= i < |cs| ==> ts[i] == Term(cs[i].term, Share(cs[i].count, top))
  {
    seq(|cs|, i requires 0 <= i < |cs| => Term(cs[i].term, Share(cs[i].count, top)))
  }

  lemma ShareIs(c: nat, top: nat)
    requires c <= top && top >= 1
    ensures 0.0 <= Share(c, top) <= 1.0
    ensures c == top ==> Share(c, top) == 1.0
  {
  }

  lemma Proportional(c: nat, d: nat, top: nat)
    requires top >= 1
    ensures Share(c, top) * d as real == Share(d, top) * c as real
  {
  }

  /** Scaled terms and counted terms, one for one. */
  lemma ScaledTerms(cs: seq<Counted>, top: nat)
    requires top >= 1
    ensures forall c :: c in cs ==> Term(c.term, Share(c.count, top)) in Scaled(cs, top)
    ensures forall e :: e in Scaled(cs, top) ==> exists c :: c in cs && e == Term(c.term, Share(c.count, top))
  {
    var ts := Scaled(cs, top);
    forall c | c in cs
      ensures Term(c.term, Share(c.count, top)) in ts
    {
      var i :| 0 <= i < |cs| && cs[i] == c;
      assert ts[i] == Term(c.term, Share(c.count, top));
    }
    forall e | e in ts
      ensures exists c :: c in cs && e == Term(c.term, Share(c.count, top))
    {
      var i :| 0 <= i < |ts| && ts[i] == e;
      assert cs[i] in cs;
    }
  }

  /** Terms that carry their share of the highest count. */
  ghost predicate Shares(ts: seq<Term>, cs: seq<Counted>, counts: map<string, nat>, top: nat)
    requires top >= 1
  {
    && (forall e :: e in ts ==>
          e.term in counts && e.score == Share(counts[e.term], top) && Counted(e.term, counts[e.term]) in cs)
    && (forall c :: c in cs ==> Term(c.term, Share(c.count, top)) in ts)
  }

  lemma ScaledShares(cs: seq<Counted>, top: nat, counts: map<string, nat>, minFrequency: nat, maxTerms: nat)
    requires Selects(cs, counts, minFrequency, maxTerms) && top >= 1
    ensures Shares(Scaled(cs, top), cs, counts, top) && AllEligible(Scaled(cs, top), counts, minFrequency)
  {
    hide Share;
    ScaledTerms(cs, top);
  }

  lemma SharesInProportion(ts: seq<Term>, cs: seq<Counted>, counts: map<string, nat>, top: nat)
    requires top >= 1 && Shares(ts, cs, counts, top) && forall c :: c in cs ==> c.count <= top
    requires (exists c :: c in cs && c.count > 0) ==> exists c :: c in cs && c.count == top
    ensures InUnit(ts) && InProportion(ts, counts)
  {
    hide Share;
    forall e | e in ts
      ensures 0.0 <= e.score <= 1.0
    {
      assert Counted(e.term, counts[e.term]).count <= top;
      ShareIs(counts[e.term], top);
    }
    forall e, f | e in ts && f in ts
      ensures e.score * counts[f.term] as real == f.score * counts[e.term] as real
    {
      Proportional(counts[e.term], counts[f.term], top);
    }
    if exists e :: e in ts && counts[e.term] > 0 {
      var e :| e in ts && counts[e.term] > 0;
      assert Counted(e.term, counts[e.term]).count > 0;
      var c :| c in cs && c.count == top;
      ShareIs(c.count, top);
      assert Term(c.term, Share(c.count, top)) in ts;
    }
  }

  lemma SharesLeaveOutLess(ts: seq<Term>, cs: seq<Counted>, counts: map<string, nat>, top: nat, minFrequency: nat,
                           maxTerms: nat)
    requires top >= 1 && Shares(ts, cs, counts, top) && |ts| == |cs| && Selects(cs, counts, minFrequency, maxTerms)
    ensures LeavesOutLess(ts, counts, minFrequency, maxTerms)
  {
    hide Share, DistinctCounted;
    forall t | Eligible(counts, minFrequency, t) && forall e :: e in ts ==> e.term != t
      ensures maxTerms > 0 && |ts| == maxTerms && forall e :: e in ts ==> counts[e.term] >= counts[t]
    {
      assert Term(t, Share(counts[t], top)).term == t;
      assert Counted(t, counts[t]) !in cs;
      forall e | e in ts
        ensures counts[e.term] >= counts[t]
      {
        assert Counted(e.term, counts[e.term]).count >= counts[t];
      }
    }
  }

  lemma ScaledIsNormalised(cs: seq<Counted>, top: nat, counts: map<string, nat>, minFrequency: nat, maxTerms: nat)
    requires Selects(cs, counts, minFrequency, maxTerms) && top >= 1 && forall c :: c in cs ==> c.count <= top
    requires (exists c :: c in cs && c.count > 0) ==> exists c :: c in cs && c.count == top
    ensures Normalised(Scaled(cs, top), counts, minFrequency, maxTerms)
  {
    hide Share, Shares, AllEligible, InUnit, InProportion, LeavesOutLess, Eligible;
    var ts := Scaled(cs, top);
    assert DistinctTerms(ts);
    hide Scaled, DistinctTerms, DistinctCounted;
    ScaledShares(cs, top, counts, minFrequency, maxTerms);
    InCounts(ts, counts, minFrequency);
    SharesInProportion(ts, cs, counts, top);
    SharesLeaveOutLess(ts, cs, counts, top, minFrequency, maxTerms);
  }

  lemma InCounts(ts: seq<Term>, counts: map<string, nat>, minFrequency: nat)
    requires AllEligible(ts, counts, minFrequency)
    ensures forall e :: e in ts ==> e.term in counts
  {
  }

  lemma DistinctScaled(ts: seq<Term>, counts: map<string, nat>, minFrequency: nat, maxTerms: nat)
    requires Normalised(ts, counts, minFrequency, maxTerms)
    ensures DistinctTerms(ts)
  {
  }

  lemma SameTerms(ts: seq<Term>, sorted: seq<Term>)
    requires multiset(sorted) == multiset(ts) && DistinctTerms(ts)
    ensures DistinctTerms(sorted) && |sorted| == |ts| && forall e :: e in sorted <==> e in ts
  {
    assert |multiset(sorted)| == |sorted| && |multiset(ts)| == |ts|;
    forall e
      ensures e in sorted <==> e in ts
    {
      assert e in sorted <==> e in multiset(sorted);
      assert e in ts <==> e in multiset(ts);
    }
    StillDistinct(ts, sorted, (e: Term) => e.term);
  }

  class SuggestIndexBuilder {
    const analyze: Analyze
    var counts: map<string, nat>
    /** The field texts added so far. */
    ghost var texts: seq<string>

    ghost predicate Valid()
      reads this
    {
      Counts(counts, analyze, texts)
    }

    constructor (analyze: Analyze)
      ensures Valid() && this.analyze == analyze && texts == []
    {
      this.analyze := analyze;
      counts := map[];
      texts := [];
    }

    method AddDocument(doc: Document, fields: seq<string>)
      requires Valid()
      modifies this
      ensures Valid() && texts == old(texts) + FieldTexts(doc, fields)
    {
      hide Counts;
      for i := 0 to |fields|
        invariant Valid() && texts == old(texts) + FieldTexts(doc, fields)[..i]
      {
        AddText(Extract(doc, fields[i]));
        assert FieldTexts(doc, fields)[..i + 1] == FieldTexts(doc, fields)[..i] + [Extract(doc, fields[i])];
      }
      assert FieldTexts(doc, fields)[..|fields|] == FieldTexts(doc, fields);
    }

    /** Each distinct term of the text counts once. */
    method AddText(text: string)
      requires Valid()
      modifies this
      ensures Valid() && texts == old(texts) + [text]
    {
      hide Counts;
      if text != "" {
        var terms := SortDedup(analyze(text));
        for i := 0 to |terms|
          invariant forall t :: t in counts <==> t in old(counts) || (t != "" && t in terms[..i])
          invariant forall t :: t in counts ==>
                      counts[t] == (if t in old(counts) then old(counts)[t] else 0)
                                   + if t != "" && t in terms[..i] then 1 else 0
          invariant texts == old(texts)
        {
          var t := terms[i];
          assert t !in terms[..i];
          assert terms[..i + 1] == terms[..i] + [t];
          if t != "" {
            counts := counts[t := if t in counts then counts[t] + 1 else 1];
          }
        }
        assert terms[..|terms|] == terms;
      }
      assert CountsMore(old(counts), counts, analyze, text);
      CountedMore(old(counts), counts, analyze, texts, text);
      texts := texts + [text];
    }

    /** `snapshot`, and `build`, which only also gives up the counts. */
    method Snapshot(minFrequency: nat, maxTerms: nat) returns (index: SuggestIndex)
      requires Valid()
      ensures fresh(index) && Suggest.Sorted(index.terms) && Normalised(index.terms, counts, minFrequency, maxTerms)
    {
      hide *;
      var filtered := Filter(counts, minFrequency);
      var kept := Cut(filtered, maxTerms, counts, minFrequency);
      var top := Highest(kept);
      var ts := Scaled(kept, top);
      assert Selects(kept, counts, minFrequency, maxTerms);
      ScaledIsNormalised(kept, top, counts, minFrequency, maxTerms);
      DistinctScaled(ts, counts, minFrequency, maxTerms);
      index := new SuggestIndex(ts);
      SameTerms(ts, index.terms);
      StillNormalised(ts, index.terms, counts, minFrequency, maxTerms);
    }
  }

  /** Sorting the terms changes nothing of that. */
  lemma StillNormalised(ts: seq<Term>, sorted: seq<Term>, counts: map<string, nat>, minFrequency: nat, maxTerms: nat)
    requires Normalised(ts, counts, minFrequency, maxTerms)
    requires DistinctTerms(sorted) && |sorted| == |ts| && forall e :: e in sorted <==> e in ts
    ensures Normalised(sorted, counts, minFrequency, maxTerms)
  {
  }

  // ---- the fan-out over built indexes ----------------------------------------------------

  function AllMatches(indexes: seq<seq<Term>>, p: string): seq<seq<Term>> {
    seq(|indexes|, i requires 0 <= i < |indexes| => WithPrefix(indexes[i], p))
  }

  /** Over indexes the builder made, the answer built from each shard's best `limit` terms has the
      score sequence of the answer built from every matching term of every shard. */
  lemma BuiltFanoutExact(indexes: seq<seq<Term>>, p: string, tops: seq<seq<Term>>, limit: nat, fast: seq<Term>,
                         slow: seq<Term>)
    requires forall i :: 0 <= i < |indexes| ==> DistinctTerms(indexes[i])
    requires |tops| == |indexes| && forall i :: 0 <= i < |tops| ==>
               IsTop(tops[i], WithPrefix(indexes[i], p), limit, Suggest.ScoreOf)
    requires BestOf(fast, MergeMax(Concat(tops)), limit)
             && BestOf(slow, MergeMax(Concat(AllMatches(indexes, p))), limit)
    ensures Scores(fast, Suggest.ScoreOf) == Scores(slow, Suggest.ScoreOf)
  {
    hide Ranking.IsTop, Suggest.BestOf, Suggest.MergeMax, Concat, Suggest.WithPrefix, Suggest.DistinctTerms;
    forall i | 0 <= i < |indexes|
      ensures DistinctTerms(AllMatches(indexes, p)[i])
    {
      PrefixDistinct(indexes[i], p);
    }
    SuggestFanoutExact(tops, AllMatches(indexes, p), limit, fast, slow);
  }
}
