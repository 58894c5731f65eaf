/** The column store (crates/index/src/column.rs): dictionary encoding, filters, and counting, with
    the merge of counts across segments (crates/query/src/multi.rs).  A bitmap is a set. */
module Columns {
  import opened Base

  /** The ordinal of a document without a value. */
  const MISSING: nat := 0xFFFF_FFFF

  datatype KeywordColumn = KeywordColumn(dict: seq<string>, ordinals: seq<nat>)

  datatype NumericColumn = NumericColumn(values: seq<real>, present: seq<bool>)

  ghost predicate WellFormed(col: KeywordColumn) {
    && |col.dict| <= MISSING
    && (forall i, j :: 0 <= i < j < |col.dict| ==> col.dict[i] != col.dict[j])
    && (forall i :: 0 <= i < |col.ordinals| ==> col.ordinals[i] < |col.dict| || col.ordinals[i] == MISSING)
  }

  /** The value of each document. */
  function Decoded(col: KeywordColumn): (vals: seq<Option<string>>)
    ensures |vals| == |col.ordinals|
  {
    seq(|col.ordinals|, i requires 0 <= i < |col.ordinals| =>
      if col.ordinals[i] < |col.dict| then Some(col.dict[col.ordinals[i]]) else None)
  }

  lemma GrowDict(col: KeywordColumn, value: string)
    requires WellFormed(col) && value !in col.dict && |col.dict| < MISSING
    ensures WellFormed(col.(dict := col.dict + [value])) && Decoded(col.(dict := col.dict + [value])) == Decoded(col)
  {
  }

  lemma PushOrdinal(col: KeywordColumn, ordinal: nat)
    requires WellFormed(col) && (ordinal < |col.dict| || ordinal == MISSING)
    ensures WellFormed(col.(ordinals := col.ordinals + [ordinal]))
    ensures Decoded(col.(ordinals := col.ordinals + [ordinal])) ==
            Decoded(col) + [if ordinal < |col.dict| then Some(col.dict[ordinal]) else None]
  {
  }

  class KeywordColumnWriter {
    var ordinalOf: map<string, nat>
    var dict: seq<string>
    var ordinals: seq<nat>

    ghost predicate Valid()
      reads this
    {
      && WellFormed(Built())
      && (forall v :: v in ordinalOf ==> ordinalOf[v] < |dict| && dict[ordinalOf[v]] == v)
      && (forall k :: 0 <= k < |dict| ==> dict[k] in ordinalOf)
    }

    function Built(): KeywordColumn
      reads this
    {
      KeywordColumn(dict, ordinals)
    }

    constructor ()
      ensures Valid() && Decoded(Built()) == []
    {
      ordinalOf, dict, ordinals := map[], [], [];
    }

    /** The dictionary stays without duplicates and the new document reads back as its value. */
    method Add(value: string)
      requires Valid() && |dict| < MISSING
      modifies this
      ensures Valid() && Decoded(Built()) == old(Decoded(Built())) + [Some(value)]
    {
      ghost var before := Built();
      var ordinal;
      if value in ordinalOf {
        ordinal := ordinalOf[value];
      } else {
        ordinal := |dict|;
        NewToDict();
        GrowDict(before, value);
        dict := dict + [value];
        ordinalOf := ordinalOf[value := ordinal];
      }
      PushOrdinal(Built(), ordinal);
      hide WellFormed, Decoded;
      ordinals := ordinals + [ordinal];
    }

    lemma NewToDict()
      requires Valid()
      ensures forall k :: 0 <= k < |dict| ==> dict[k] in ordinalOf
    {
    }

    method AddMissing()
      requires Valid()
      modifies this
      ensures Valid() && Decoded(Built()) == old(Decoded(Built())) + [None]
    {
      ordinals := ordinals + [MISSING];
    }
  }

  /** The number of each document; the reader stops at the shorter of the two vectors. */
  function Numbers(col: NumericColumn): (numbers: seq<Option<real>>)
    ensures |numbers| == Min(|col.values|, |col.present|)
  {
    seq(Min(|col.values|, |col.present|), i requires 0 <= i < Min(|col.values|, |col.present|) =>
      if col.present[i] then Some(col.values[i]) else None)
  }

  class NumericColumnWriter {
    var values: seq<real>
    var present: seq<bool>

    ghost predicate Valid()
      reads this
    {
      |values| == |present|
    }

    function Built(): NumericColumn
      reads this
    {
      NumericColumn(values, present)
    }

    constructor ()
      ensures Valid() && Numbers(Built()) == []
    {
      values, present := [], [];
    }

    method Add(value: real)
      requires Valid()
      modifies this
      ensures Valid() && Numbers(Built()) == old(Numbers(Built())) + [Some(value)]
    {
      values, present := values + [value], present + [true];
    }

    /** A missing number is stored as 0, which no filter sees. */
    method AddMissing()
      requires Valid()
      modifies this
      ensures Valid() && Numbers(Built()) == old(Numbers(Built())) + [None]
    {
      values, present := values + [0.0], present + [false];
    }
  }

  // ---- filters ---------------------------------------------------------------------------

  method Position(dict: seq<string>, value: string) returns (at: Option<nat>)
    ensures at.Some? ==> at.value < |dict| && dict[at.value] == value
    ensures at.None? ==> value !in dict
  {
    for i := 0 to |dict|
      invariant value !in dict[..i]
    {
      if dict[i] == value {
        return Some(i);
      }
    }
    at := None;
  }

  /** The documents whose ordinal is among the targets. */
  method WithOrdinals(col: KeywordColumn, targets: seq<nat>) returns (docs: set<nat>)
    ensures forall i: nat :: i in docs <==> i < |col.ordinals| && col.ordinals[i] in targets
  {
    docs := {};
    for i := 0 to |col.ordinals|
      invariant forall k: nat :: k in docs <==> k < i && col.ordinals[k] in targets
    {
      if col.ordinals[i] in targets {
        docs := docs + {i};
      }
    }
  }

  /** Exactly the documents with this value. */
  method FilterEq(col: KeywordColumn, value: string) returns (docs: set<nat>)
    requires WellFormed(col)
    ensures forall i: nat :: i in docs <==> i < |Decoded(col)| && Decoded(col)[i] == Some(value)
  {
    var at := Position(col.dict, value);
    if at.None? {
      docs := {};
    } else {
      docs := WithOrdinals(col, [at.value]);
    }
  }

  /** Exactly the documents whose value is one of these; values outside the dictionary are
      ignored. */
  method FilterIn(col: KeywordColumn, values: seq<string>) returns (docs: set<nat>)
    requires WellFormed(col)
    ensures forall i: nat :: i in docs <==>
              i < |Decoded(col)| && Decoded(col)[i].Some? && Decoded(col)[i].value in values
  {
    var targets: seq<nat> := [];
    for k := 0 to |values|
      invariant forall ord: nat :: ord in targets <==> ord < |col.dict| && col.dict[ord] in values[..k]
    {
      assert values[..k + 1] == values[..k] + [values[k]];
      var at := Position(col.dict, values[k]);
      if at.Some? {
        targets := targets + [at.value];
      }
    }
    assert values[..|values|] == values;
    docs := WithOrdinals(col, targets);
  }

  /** Exactly the documents that have a number within the bounds given. */
  method FilterRange(col: NumericColumn, gte: Option<real>, lte: Option<real>) returns (docs: set<nat>)
    ensures forall i: nat :: i in docs <==>
              && i < |Numbers(col)| && Numbers(col)[i].Some?
              && (gte.Some? ==> Numbers(col)[i].value >= gte.value)
                 && (lte.Some? ==> Numbers(col)[i].value <= lte.value)
  {
    docs := {};
    for i := 0 to Min(|col.values|, |col.present|)
      invariant forall k: nat :: k in docs <==>
                  && k < i && col.present[k]
                  && (gte.Some? ==> col.values[k] >= gte.value) && (lte.Some? ==> col.values[k] <= lte.value)
    {
      if !col.present[i] {
        continue;
      }
      var passesGte := gte.None? || col.values[i] >= gte.value;
      var passesLte := lte.None? || col.values[i] <= lte.value;
      if passesGte && passesLte {
        docs := docs + {i};
      }
    }
  }

  datatype Filter =
    | Equality(eq: string)
    | Range(gte: Option<real>, lte: Option<real>)
    | MultiValue(values: seq<string>)

  datatype ColumnStore = ColumnStore(keywords: map<string, KeywordColumn>, numbers: map<string, NumericColumn>)
  {
    ghost predicate Valid() {
      forall f :: f in keywords ==> WellFormed(keywords[f])
    }

    /** The naive meaning of a filter for one document; an unknown field matches nothing. */
    ghost predicate Passes(field: string, filter: Filter, i: nat) {
      match filter
      case Equality(v) =>
        field in keywords && i < |Decoded(keywords[field])| && Decoded(keywords[field])[i] == Some(v)
      case MultiValue(vs) =>
        field in keywords && i < |Decoded(keywords[field])| && Decoded(keywords[field])[i].Some?
        && Decoded(keywords[field])[i].value in vs
      case Range(gte, lte) =>
        && field in numbers && i < |Numbers(numbers[field])| && Numbers(numbers[field])[i].Some?
        && (gte.Some? ==> Numbers(numbers[field])[i].value >= gte.value)
        && (lte.Some? ==> Numbers(numbers[field])[i].value <= lte.value)
    }
  }

  method FilterBits(store: ColumnStore, field: string, filter: Filter) returns (bits: set<nat>)
    requires store.Valid()
    ensures forall i: nat :: i in bits <==> store.Passes(field, filter, i)
  {
    bits := {};
    match filter {
      case Equality(v) =>
        if field in store.keywords {
          bits := FilterEq(store.keywords[field], v);
        }
      case Range(gte, lte) =>
        if field in store.numbers {
          bits := FilterRange(store.numbers[field], gte, lte);
        }
      case MultiValue(vs) =>
        if field in store.keywords {
          bits := FilterIn(store.keywords[field], vs);
        }
    }
  }

  /** `build_filter_bitmap`: no filter, no bitmap; otherwise the live documents that pass every
      filter. */
  method BuildFilterBitmap(store: ColumnStore, live: set<nat>, filters: seq<(string, Filter)>)
    returns (bits: Option<set<nat>>)
    requires store.Valid()
    ensures bits.None? <==> filters == []
    ensures bits.Some? ==> forall i: nat :: i in bits.value <==>
              i in live && forall k :: 0 <= k < |filters| ==> store.Passes(filters[k].0, filters[k].1, i)
  {
    hide ColumnStore.Passes, ColumnStore.Valid;
    if filters == [] {
      return None;
    }
    var combined := live;
    for n := 0 to |filters|
      invariant forall i: nat :: i in combined <==>
                  i in live && forall k :: 0 <= k < n ==> store.Passes(filters[k].0, filters[k].1, i)
    {
      var passing := FilterBits(store, filters[n].0, filters[n].1);
      combined := combined * passing;
    }
    bits := Some(combined);
  }

  // ---- counting --------------------------------------------------------------------------

  /** The values of the matching documents, naively. */
  ghost function Tally(vals: seq<Option<string>>, docs: seq<nat>): multiset<string> {
    if docs == [] then multiset{} else
      Tally(vals, docs[..|docs| - 1]) + ValueAt(vals, docs[|docs| - 1])
  }

  ghost function ValueAt(vals: seq<Option<string>>, i: nat): multiset<string> {
    if i < |vals| && vals[i].Some? then multiset{vals[i].value} else multiset{}
  }

  lemma TallySnoc(vals: seq<Option<string>>, docs: seq<nat>, i: nat)
    ensures Tally(vals, docs + [i]) == Tally(vals, docs) + ValueAt(vals, i)
  {
    assert (docs + [i])[..|docs|] == docs;
  }

  lemma {:induction false} TallyInDict(col: KeywordColumn, docs: seq<nat>, v: string)
    requires v in Tally(Decoded(col), docs)
    ensures v in col.dict
  {
    var front, last := docs[..|docs| - 1], docs[|docs| - 1];
    if v in Tally(Decoded(col), front) {
      TallyInDict(col, front, v);
    }
  }

  /** The value of each document named, if it has one. */
  function Seen(vals: seq<Option<string>>, docs: seq<nat>): seq<Option<string>> {
    seq(|docs|, k requires 0 <= k < |docs| => if docs[k] < |vals| then vals[docs[k]] else None)
  }

  function ValueOf(vals: seq<Option<string>>, i: nat): Option<string> {
    if i < |vals| then vals[i] else None
  }

  lemma SeenSnoc(vals: seq<Option<string>>, docs: seq<nat>, i: nat)
    ensures Seen(vals, docs + [i]) == Seen(vals, docs) + [ValueOf(vals, i)]
  {
  }

  lemma OneMoreValue(seen: seq<string>, vals: seq<Option<string>>, i: nat)
    ensures var v := ValueOf(vals, i);
            multiset(seen + if v.Some? then [v.value] else []) == multiset(seen) + ValueAt(vals, i)
  {
  }

  lemma NothingSeen(vals: seq<Option<string>>)
    ensures Tally(vals, []) == multiset(Answers(Seen(vals, [])))
  {
  }

  /** The tally is the values seen, each as often as it is. */
  lemma {:induction false} TallyIs(vals: seq<Option<string>>, docs: seq<nat>)
    ensures Tally(vals, docs) == multiset(Answers(Seen(vals, docs)))
  {
    hide *;
    if docs == [] {
      NothingSeen(vals);
    } else {
      var front, last := docs[..|docs| - 1], docs[|docs| - 1];
      assert docs == front + [last];
      TallyIs(vals, front);
      TallySnoc(vals, front, last);
      SeenSnoc(vals, front, last);
      AnswersSnoc(Seen(vals, front), ValueOf(vals, last));
      OneMoreValue(Answers(Seen(vals, front)), vals, last);
    }
  }

  type Count = (string, nat)

  /** No value twice. */
  ghost predicate DistinctValues(counts: seq<Count>) {
    forall i, j :: 0 <= i < j < |counts| ==> counts[i].0 != counts[j].0
  }

  ghost predicate Counts(counts: seq<Count>, tally: multiset<string>) {
    && DistinctValues(counts)
    && (forall i :: 0 <= i < |counts| ==> counts[i].1 == tally[counts[i].0] > 0)
    && (forall v :: v in tally ==> exists i :: 0 <= i < |counts| && counts[i].0 == v)
  }

  /** The counts of the values among the first k of the dictionary. */
  ghost predicate CountedTo(r: seq<Count>, dict: seq<string>, k: nat, tally: multiset<string>)
    requires k <= |dict|
  {
    && DistinctValues(r)
    && (forall i :: 0 <= i < |r| ==> r[i].0 in dict[..k] && r[i].1 == tally[r[i].0] > 0)
    && (forall v :: v in dict[..k] && v in tally ==> exists i :: 0 <= i < |r| && r[i].0 == v)
  }

  lemma CountNext(r: seq<Count>, dict: seq<string>, k: nat, tally: multiset<string>, r': seq<Count>)
    requires k < |dict| && CountedTo(r, dict, k, tally) && dict[k] !in dict[..k]
    requires r' == if tally[dict[k]] > 0 then r + [(dict[k], tally[dict[k]])] else r
    ensures CountedTo(r', dict, k + 1, tally)
  {
    assert dict[..k + 1] == dict[..k] + [dict[k]];
    assert tally[dict[k]] > 0 ==> r'[|r|].0 == dict[k];
    forall v | v in dict[..k + 1] && v in tally
      ensures exists i :: 0 <= i < |r'| && r'[i].0 == v
    {
      if v in dict[..k] {
        var i :| 0 <= i < |r| && r[i].0 == v;
        assert r'[i] == r[i];
      }
    }
  }

  lemma NewInDict(col: KeywordColumn, k: nat)
    requires WellFormed(col) && k < |col.dict|
    ensures col.dict[k] !in col.dict[..k]
  {
  }

  /** Counting by ordinal equals counting values; documents without one count nowhere.  `docs` is the
      matching bitmap in iteration order. */
  method AggregateCounts(col: KeywordColumn, docs: seq<nat>) returns (r: seq<Count>)
    requires WellFormed(col)
    ensures Counts(r, Tally(Decoded(col), docs))
  {
    var counts := CountOrdinals(col, docs);
    ghost var tally := Tally(Decoded(col), docs);
    r := [];
    for k := 0 to |col.dict|
      invariant CountedTo(r, col.dict, k, tally)
    {
      hide CountedTo, Tally, WellFormed, Decoded;
      ghost var before := r;
      if counts[k] > 0 {
        r := r + [(col.dict[k], counts[k])];
      }
      NewInDict(col, k);
      CountNext(before, col.dict, k, tally, r);
    }
    assert col.dict[..|col.dict|] == col.dict;
    forall v | v in tally
      ensures v in col.dict
    {
      TallyInDict(col, docs, v);
    }
  }

  method CountOrdinals(col: KeywordColumn, docs: seq<nat>) returns (counts: seq<nat>)
    requires WellFormed(col)
    ensures |counts| == |col.dict| && forall k :: 0 <= k < |counts| ==>
              counts[k] == Tally(Decoded(col), docs)[col.dict[k]]
  {
    ghost var vals := Decoded(col);
    counts := seq(|col.dict|, _ => 0);
    for n := 0 to |docs|
      invariant |counts| == |col.dict|
      invariant forall k :: 0 <= k < |counts| ==> counts[k] == Tally(vals, docs[..n])[col.dict[k]]
    {
      assert docs[..n + 1] == docs[..n] + [docs[n]];
      TallySnoc(vals, docs[..n], docs[n]);
      var i := docs[n];
      if i < |col.ordinals| {
        var ord := col.ordinals[i];
        if ord < |counts| {
          assert vals[i] == Some(col.dict[ord]);
          counts := counts[ord := counts[ord] + 1];
        }
      }
    }
    assert docs[..|docs|] == docs;
  }

  function Sum(counts: seq<Count>): nat {
    if counts == [] then 0 else Sum(counts[..|counts| - 1]) + counts[|counts| - 1].1
  }

  ghost function Spread(counts: seq<Count>): multiset<string> {
    if counts == [] then multiset{} else
      Spread(counts[..|counts| - 1]) + multiset{}[counts[|counts| - 1].0 := counts[|counts| - 1].1]
  }

  /** The counts add up to the matching documents that have a value. */
  lemma {:induction false} CountsAddUp(counts: seq<Count>, tally: multiset<string>)
    requires Counts(counts, tally)
    ensures Spread(counts) == tally && Sum(counts) == |tally|
  {
    if counts == [] {
      NothingCounted(tally);
    } else {
      CountsWithout(counts, tally);
      CountsAddUp(counts[..|counts| - 1], tally[counts[|counts| - 1].0 := 0]);
    }
  }

  lemma NothingCounted(tally: multiset<string>)
    requires Counts([], tally)
    ensures tally == multiset{}
  {
    forall v
      ensures tally[v] == 0
    {
      assert v !in tally;
    }
  }

  lemma CountsWithout(counts: seq<Count>, tally: multiset<string>)
    requires Counts(counts, tally) && counts != []
    ensures Counts(counts[..|counts| - 1], tally[counts[|counts| - 1].0 := 0])
  {
    var front, last := counts[..|counts| - 1], counts[|counts| - 1];
    var rest := tally[last.0 := 0];
    forall i | 0 <= i < |front|
      ensures front[i].1 == rest[front[i].0] > 0
    {
      assert front[i] == counts[i] && counts[i].0 != last.0;
    }
    forall v | v in rest
      ensures exists i :: 0 <= i < |front| && front[i].0 == v
    {
      var i :| 0 <= i < |counts| && counts[i].0 == v;
      assert front[i].0 == v;
    }
  }

  // ---- across segments -------------------------------------------------------------------

  ghost function Union(tallies: seq<multiset<string>>): multiset<string> {
    if tallies == [] then multiset{} else Union(tallies[..|tallies| - 1]) + tallies[|tallies| - 1]
  }

  /** The union of tallies counts all their values together. */
  lemma {:induction false} UnionIs(seen: seq<seq<string>>, tallies: seq<multiset<string>>)
    requires |seen| == |tallies| && forall k :: 0 <= k < |seen| ==> tallies[k] == multiset(seen[k])
    ensures Union(tallies) == multiset(Concat(seen))
  {
    if seen != [] {
      UnionIs(seen[..|seen| - 1], tallies[..|seen| - 1]);
    }
  }

  /** A map of counts says how often each value occurs; an absent value does not occur. */
  ghost predicate Totals(m: map<string, nat>, tally: multiset<string>) {
    forall v :: (v in m ==> m[v] == tally[v] > 0) && (v !in m ==> v !in tally)
  }

  /** Summing the segments' counts equals counting over all their matching documents at once. */
  method MergeCounts(segments: seq<seq<Count>>, ghost tallies: seq<multiset<string>>) returns (m: map<string, nat>)
    requires |segments| == |tallies| && forall k :: 0 <= k < |segments| ==> Counts(segments[k], tallies[k])
    ensures Totals(m, Union(tallies))
  {
    hide Counts;
    m := map[];
    for k := 0 to |segments|
      invariant Totals(m, Union(tallies[..k]))
    {
      assert tallies[..k + 1][..k] == tallies[..k];
      m := AddCounts(m, segments[k], Union(tallies[..k]), tallies[k]);
    }
    assert tallies[..|tallies|] == tallies;
  }

  lemma AddOne(m: map<string, nat>, tally: multiset<string>, v: string, n: nat)
    requires Totals(m, tally) && n > 0
    ensures Totals(m[v := (if v in m then m[v] else 0) + n], tally + multiset{}[v := n])
  {
  }

  lemma SpreadSnoc(counts: seq<Count>, i: nat)
    requires i < |counts|
    ensures Spread(counts[..i + 1]) == Spread(counts[..i]) + multiset{}[counts[i].0 := counts[i].1]
  {
    assert counts[..i + 1][..i] == counts[..i];
  }

  method AddCounts(before: map<string, nat>, counts: seq<Count>, ghost sofar: multiset<string>,
                   ghost tally: multiset<string>)
    returns (m: map<string, nat>)
    requires Totals(before, sofar) && Counts(counts, tally)
    ensures Totals(m, sofar + tally)
  {
    hide Totals, Spread, DistinctValues;
    m := before;
    assert sofar + Spread(counts[..0]) == sofar by { NothingSpread(counts); }
    for i := 0 to |counts|
      invariant Totals(m, sofar + Spread(counts[..i]))
    {
      var (value, count) := counts[i];
      SpreadSnoc(counts, i);
      AddOne(m, sofar + Spread(counts[..i]), value, count);
      assert sofar + Spread(counts[..i]) + multiset{}[value := count] == sofar + Spread(counts[..i + 1]);
      m := m[value := (if value in m then m[value] else 0) + count];
    }
    CountsAddUp(counts, tally);
    assert counts[..|counts|] == counts;
  }

  lemma NothingSpread(counts: seq<Count>)
    ensures Spread(counts[..0]) == multiset{}
  {
  }
}
