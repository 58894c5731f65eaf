/** Autocomplete: prefix search in a sorted array (crates/suggest/src/index.rs) and the router's
    merge of the shards' answers (crates/router/src/router.rs, `suggest`). */
module Suggest {
  import opened Base
  import opened Ranking

  datatype Term = Term(term: string, score: real)

  function ScoreOf(t: Term): real {
    t.score
  }

  // ---- lexicographic order ---------------------------------------------------------------

  predicate Less(a: string, b: string) {
    b != [] && (a == [] || a[0] < b[0] || (a[0] == b[0] && Less(a[1..], b[1..])))
  }

  /** The first position where they differ decides, and a proper prefix comes first. */
  lemma {:induction false} LessIff(a: string, b: string)
    ensures Less(a, b) <==>
              exists k :: 0 <= k <= |a| && k < |b| && a[..k] == b[..k] && (k < |a| ==> a[k] < b[k])
  {
    forall k | 0 < k <= |a| && k < |b| && a[..k] == b[..k]
      ensures a[0] == b[0]
    {
      assert a[0] == a[..k][0] && b[0] == b[..k][0];
    }
    if a != [] && b != [] && a[0] == b[0] {
      LessIff(a[1..], b[1..]);
      if Less(a[1..], b[1..]) {
        var k :| 0 <= k <= |a[1..]| && k < |b[1..]| && a[1..][..k] == b[1..][..k]
                 && (k < |a[1..]| ==> a[1..][k] < b[1..][k]);
        assert a[..k + 1] == [a[0]] + a[1..][..k] && b[..k + 1] == [b[0]] + b[1..][..k];
      }
      if k :| 0 <= k <= |a| && k < |b| && a[..k] == b[..k] && (k < |a| ==> a[k] < b[k]) {
        assert k > 0;
        assert a[1..][..k - 1] == a[..k][1..] && b[1..][..k - 1] == b[..k][1..];
      }
    } else if b != [] {
      assert a[..0] == b[..0];
    }
  }

  lemma {:induction false} LessTransitive(a: string, b: string, c: string)
    requires !Less(b, a) && Less(b, c)
    ensures Less(a, c)
  {
    if a != [] && b != [] && a[0] == b[0] && b[0] == c[0] {
      LessTransitive(a[1..], b[1..], c[1..]);
    }
  }

  lemma {:induction false} NotLessTransitive(a: string, b: string, c: string)
    requires !Less(b, a) && !Less(c, b)
    ensures !Less(c, a)
  {
    if Less(c, a) {
      LessTransitive(b, c, a);
    }
  }

  lemma {:induction false} LessTotal(a: string, b: string)
    ensures Less(a, b) || Less(b, a) || a == b
    ensures !(Less(a, b) && Less(b, a)) && !Less(a, a)
  {
    if a != [] && b != [] {
      LessTotal(a[1..], b[1..]);
    }
    if a != [] {
      LessTotal(a[1..], a[1..]);
    }
  }

  /** A string with prefix p is not below p. */
  lemma {:induction false} PrefixNotLess(p: string, s: string)
    requires p <= s
    ensures !Less(s, p)
  {
    if p != [] {
      PrefixNotLess(p[1..], s[1..]);
    }
  }

  /** Contiguity: whatever lies between p and a string starting with p starts with p too. */
  lemma {:induction false} BetweenHasPrefix(p: string, m: string, s: string)
    requires p <= s && !Less(m, p) && !Less(s, m)
    ensures p <= m
  {
    if p != [] {
      BetweenHasPrefix(p[1..], m[1..], s[1..]);
    }
  }

  ghost predicate Sorted(ts: seq<Term>) {
    forall i, j :: 0 <= i < j < |ts| ==> !Less(ts[j].term, ts[i].term)
  }

  predicate TermOrder(a: Term, b: Term) {
    !Less(b.term, a.term)
  }

  lemma TermOrderTotal()
    ensures TotalPreorder(TermOrder)
  {
    forall a, b
      ensures TermOrder(a, b) || TermOrder(b, a)
    {
      LessTotal(a.term, b.term);
    }
    forall a, b, c | TermOrder(a, b) && TermOrder(b, c)
      ensures TermOrder(a, c)
    {
      NotLessTransitive(a.term, b.term, c.term);
    }
  }

  // ---- the index -------------------------------------------------------------------------

  /** The reference: keep the terms that start with the prefix. */
  function WithPrefix(ts: seq<Term>, p: string): seq<Term> {
    if ts == [] then [] else (if p <= ts[0].term then [ts[0]] else []) + WithPrefix(ts[1..], p)
  }

  lemma {:induction false} WithPrefixAll(ts: seq<Term>, p: string)
    ensures (forall i :: 0 <= i < |ts| ==> p <= ts[i].term) ==> WithPrefix(ts, p) == ts
    ensures (forall i :: 0 <= i < |ts| ==> !(p <= ts[i].term)) ==> WithPrefix(ts, p) == []
  {
    if ts != [] {
      assert forall i :: 0 <= i < |ts[1..]| ==> ts[1..][i] == ts[i + 1];
      WithPrefixAll(ts[1..], p);
      if forall i :: 0 <= i < |ts| ==> p <= ts[i].term {
        assert p <= ts[0].term;
      }
      if forall i :: 0 <= i < |ts| ==> !(p <= ts[i].term) {
        assert !(p <= ts[0].term);
      }
    }
  }

  lemma {:induction false} WithPrefixHas(ts: seq<Term>, p: string)
    ensures forall t :: t in WithPrefix(ts, p) <==> t in ts && p <= t.term
  {
    if ts != [] {
      WithPrefixHas(ts[1..], p);
      assert forall t :: t in ts <==> t == ts[0] || t in ts[1..];
    }
  }

  lemma {:induction false} WithPrefixAppend(a: seq<Term>, b: seq<Term>, p: string)
    ensures WithPrefix(a + b, p) == WithPrefix(a, p) + WithPrefix(b, p)
  {
    if a == [] {
      assert a + b == b;
    } else {
      assert (a + b)[1..] == a[1..] + b;
      WithPrefixAppend(a[1..], b, p);
    }
  }

  class SuggestIndex {
    const terms: seq<Term>

    constructor (ts: seq<Term>)
      ensures multiset(terms) == multiset(ts) && Sorted(terms)
    {
      TermOrderTotal();
      var sorted := SortBy(ts, TermOrder);
      terms := sorted;
      OrderedIsSorted(sorted);
    }

    /** Binary search for the start, scan while the prefix holds. */
    method Matches(p: string) returns (matches: seq<Term>)
      requires Sorted(terms)
      ensures matches == WithPrefix(terms, p)
    {
      hide WithPrefix;
      BelowIsPrefixOfList(terms, p);
      var start := PartitionPoint(terms, 0, (t: Term) => Less(t.term, p));
      var end := start;
      while end < |terms| && p <= terms[end].term
        invariant start <= end <= |terms|
        invariant forall i :: start <= i < end ==> p <= terms[i].term
      {
        end := end + 1;
      }
      matches := terms[start..end];
      RangeIsFilter(terms, p, start, end);
    }

    /** Of the matches, the best `limit`. */
    method Query(prefix: string, limit: nat, lower: string -> string) returns (r: seq<Term>)
      requires Sorted(terms)
      ensures prefix == [] || limit == 0 ==> r == []
      ensures prefix != [] ==> IsTop(r, WithPrefix(terms, lower(prefix)), limit, ScoreOf)
      ensures forall i, j :: 0 <= i < j < |r| ==> r[i].score >= r[j].score
      ensures forall t :: t in r ==> t in terms && lower(prefix) <= t.term
      ensures prefix != [] ==> forall t :: t in terms && lower(prefix) <= t.term && t !in r ==>
                |r| == limit && forall o :: o in r ==> o.score >= t.score
    {
      hide Sorted, WithPrefix, IsTop, IsSorting, Less;
      var p := lower(prefix);
      if prefix == [] || limit == 0 {
        r := [];
        NoneOfMany(WithPrefix(terms, p));
      } else {
        var matches := Matches(p);
        var ranked := SortDesc(matches, ScoreOf);
        CutIsTop(ranked, matches, limit, ScoreOf);
        r := ranked[..Min(limit, |ranked|)];
        BestMatches(r, terms, p, limit);
      }
    }
  }

  lemma NoneOfMany(all: seq<Term>)
    ensures IsTop([], all, 0, ScoreOf)
  {
  }

  lemma BestMatches(r: seq<Term>, terms: seq<Term>, p: string, limit: nat)
    requires IsTop(r, WithPrefix(terms, p), limit, ScoreOf)
    ensures forall i, j :: 0 <= i < j < |r| ==> r[i].score >= r[j].score
    ensures forall t :: t in r ==> t in terms && p <= t.term
    ensures forall t :: t in terms && p <= t.term && t !in r ==> |r| == limit && forall o :: o in r ==>
              o.score >= t.score
  {
    hide WithPrefix, OthersBelow;
    WithPrefixHas(terms, p);
    TopBeats(r, WithPrefix(terms, p), limit, ScoreOf);
    forall i, j | 0 <= i < j < |r|
      ensures r[i].score >= r[j].score
    {
      assert ScoreOf(r[i]) >= ScoreOf(r[j]);
    }
    forall t, o | t in terms && p <= t.term && t !in r && o in r
      ensures o.score >= t.score
    {
      assert ScoreOf(o) >= ScoreOf(t);
    }
  }

  lemma OrderedIsSorted(ts: seq<Term>)
    requires OrderedBy(ts, TermOrder)
    ensures Sorted(ts)
  {
    forall i, j | 0 <= i < j < |ts|
      ensures !Less(ts[j].term, ts[i].term)
    {
      assert TermOrder(ts[i], ts[j]);
    }
  }

  lemma BelowIsPrefixOfList(ts: seq<Term>, p: string)
    requires Sorted(ts)
    ensures forall i, j :: 0 <= i < j < |ts| && Less(ts[j].term, p) ==> Less(ts[i].term, p)
  {
    forall i, j | 0 <= i < j < |ts| && Less(ts[j].term, p)
      ensures Less(ts[i].term, p)
    {
      LessTransitive(ts[i].term, ts[j].term, p);
    }
  }

  /** The range found by the search is exactly the filtered list. */
  lemma RangeIsFilter(ts: seq<Term>, p: string, start: nat, end: nat)
    requires Sorted(ts) && start <= end <= |ts|
    requires forall i :: 0 <= i < start ==> Less(ts[i].term, p)
    requires forall i :: start <= i < |ts| ==> !Less(ts[i].term, p)
    requires forall i :: start <= i < end ==> p <= ts[i].term
    requires end < |ts| ==> !(p <= ts[end].term)
    ensures ts[start..end] == WithPrefix(ts, p)
  {
    hide Less, WithPrefix;
    var a, b, c := ts[..start], ts[start..end], ts[end..];
    NoneBelow(a, p);
    NoneAfter(c, p);
    WithPrefixAll(b, p);
    FilterParts(ts, a, b, c, p);
  }

  lemma FilterParts(ts: seq<Term>, a: seq<Term>, b: seq<Term>, c: seq<Term>, p: string)
    requires ts == a + b + c && WithPrefix(a, p) == [] && WithPrefix(b, p) == b && WithPrefix(c, p) == []
    ensures WithPrefix(ts, p) == b
  {
    hide *;
    WithPrefixAppend(a + b, c, p);
    WithPrefixAppend(a, b, p);
  }

  lemma NoneBelow(a: seq<Term>, p: string)
    requires forall i :: 0 <= i < |a| ==> Less(a[i].term, p)
    ensures WithPrefix(a, p) == []
  {
    forall i | 0 <= i < |a| && p <= a[i].term
      ensures false
    {
      PrefixNotLess(p, a[i].term);
    }
    WithPrefixAll(a, p);
  }

  lemma NoneAfter(c: seq<Term>, p: string)
    requires Sorted(c) && forall i :: 0 <= i < |c| ==> !Less(c[i].term, p)
    requires c != [] ==> !(p <= c[0].term)
    ensures WithPrefix(c, p) == []
  {
    forall i | 0 <= i < |c| && p <= c[i].term
      ensures i == 0
    {
      if i > 0 {
        BetweenHasPrefix(p, c[0].term, c[i].term);
      }
    }
    WithPrefixAll(c, p);
  }

  // ---- the router's merge ----------------------------------------------------------------

  /** `or_insert(0.0)`, then raise the slot when the score is greater. */
  function Raise(m: map<string, real>, e: Term): map<string, real> {
    var slot := if e.term in m then m[e.term] else 0.0;
    m[e.term := if e.score > slot then e.score else slot]
  }

  function MergeMax(es: seq<Term>): map<string, real> {
    if es == [] then map[] else Raise(MergeMax(es[..|es| - 1]), es[|es| - 1])
  }

  function Items(m: map<string, real>): set<Term> {
    set t | t in m :: Term(t, m[t])
  }

  /** `r` lists each entry of `m` once. */
  ghost predicate Lists(r: seq<Term>, m: map<string, real>) {
    multiset(r) == multiset(Items(m))
  }

  /** Higher scores first, equal scores by term. */
  predicate AnswerOrder(a: Term, b: Term) {
    a.score > b.score || (a.score == b.score && !Less(b.term, a.term))
  }

  lemma AnswerOrderTotal()
    ensures TotalPreorder(AnswerOrder)
  {
    forall a, b
      ensures AnswerOrder(a, b) || AnswerOrder(b, a)
    {
      LessTotal(a.term, b.term);
    }
    forall a, b, c | AnswerOrder(a, b) && AnswerOrder(b, c)
      ensures AnswerOrder(a, c)
    {
      if a.score == b.score == c.score {
        NotLessTransitive(a.term, b.term, c.term);
      }
    }
  }

  method Entries(m: map<string, real>) returns (r: seq<Term>)
    ensures Lists(r, m)
  {
    r := [];
    var todo := m.Keys;
    ghost var done: map<string, real> := map[];
    assert Items(done) == {};
    while todo != {}
      invariant todo <= m.Keys && done.Keys == m.Keys - todo
      invariant forall t :: t in done ==> done[t] == m[t]
      invariant Lists(r, done)
      decreases |todo|
    {
      var t :| t in todo;
      todo := todo - {t};
      ItemsAdd(done, t, m[t]);
      done := done[t := m[t]];
      r := r + [Term(t, m[t])];
    }
    assert done == m;
  }

  lemma ItemsAdd(m: map<string, real>, t: string, v: real)
    requires t !in m
    ensures Items(m[t := v]) == Items(m) + {Term(t, v)} && Term(t, v) !in Items(m)
  {
    var m' := m[t := v];
    forall e | e in Items(m) + {Term(t, v)}
      ensures e in Items(m')
    {
      assert e.term in m' && m'[e.term] == e.score;
    }
  }

  /** `out` is the first `limit` entries of `m`, best first. */
  ghost predicate BestOf(out: seq<Term>, m: map<string, real>, limit: nat) {
    exists sorted :: Lists(sorted, m) && OrderedBy(sorted, AnswerOrder) && Descending(sorted, ScoreOf)
                     && out == sorted[..Min(limit, |sorted|)]
  }

  /** Some shard answered with this entry. */
  ghost predicate Offers(results: seq<Option<seq<Term>>>, e: Term) {
    exists i :: 0 <= i < |results| && results[i].Some? && e in results[i].value
  }

  /** One entry a term: the highest score any shard gave it, but at least 0, where its slot starts. */
  ghost predicate IsMaximum(o: Term, results: seq<Option<seq<Term>>>) {
    && (exists e :: Offers(results, e) && e.term == o.term)
    && (forall e :: Offers(results, e) && e.term == o.term ==> e.score <= o.score)
    && (o.score == 0.0 || Offers(results, o))
  }

  /** What the shards that answered have to offer under the prefix. */
  function Matching(indexes: seq<seq<Term>>, results: seq<Option<seq<Term>>>, p: string): (fulls: seq<seq<Term>>)
    requires |indexes| == |results|
    ensures |fulls| == |indexes|
  {
    seq(|indexes|, i requires 0 <= i < |indexes| => if results[i].Some? then WithPrefix(indexes[i], p) else [])
  }

  /** Every answer is a best-`limit` selection of the matches in the shard's index. */
  ghost predicate AnswersTop(results: seq<Option<seq<Term>>>, indexes: seq<seq<Term>>, p: string, limit: nat) {
    && |indexes| == |results|
    && forall i :: 0 <= i < |results| && results[i].Some? ==>
         DistinctTerms(indexes[i]) && IsTop(results[i].value, WithPrefix(indexes[i], p), limit, ScoreOf)
  }

  /** The gathering half of the router's `suggest`; shards that failed are skipped.  Each term is there
      once with its highest score, best first and equal scores by term; whatever a shard that answered
      sent is in the answer with at least its score, or the answer is full of entries no worse.
      `indexes` are the shards' own: the answer has the scores of merging all their matches. */
  method MergeAnswers(results: seq<Option<seq<Term>>>, limit: nat, ghost indexes: seq<seq<Term>>, ghost p: string)
    returns (out: seq<Term>)
    ensures BestOf(out, MergeMax(Concat(Answers(results))), limit)
    ensures |out| <= limit && forall o :: o in out ==> IsMaximum(o, results)
    ensures forall i, j :: 0 <= i < j < |out| ==>
              out[i].score > out[j].score || (out[i].score == out[j].score && Less(out[i].term, out[j].term))
    ensures forall e :: Offers(results, e) ==>
              || (exists o :: o in out && o.term == e.term && o.score >= e.score)
              || (|out| == limit && forall o :: o in out ==> o.score >= e.score)
    ensures AnswersTop(results, indexes, p, limit) ==>
              forall slow :: BestOf(slow, MergeMax(Concat(Matching(indexes, results, p))), limit) ==>
                Scores(out, ScoreOf) == Scores(slow, ScoreOf)
  {
    var merged: map<string, real> := map[];
    for i := 0 to |results|
      invariant merged == MergeMax(Concat(Answers(results[..i])))
    {
      assert results[..i + 1][..i] == results[..i];
      if results[i].Some? {
        merged := RaiseAll(merged, results[i].value, Concat(Answers(results[..i])));
        ConcatSnoc(Answers(results[..i]), results[i].value);
      } else {
        assert Answers(results[..i + 1]) == Answers(results[..i]);
      }
    }
    assert results[..|results|] == results;
    var entries := Entries(merged);
    AnswerOrderTotal();
    var s := SortBy(entries, AnswerOrder);
    AnswerOrderDescends(s);
    out := s[..Min(limit, |s|)];
    hide *;
    ListsSorted(entries, s, merged);
    FirstAreBest(s, out, merged, limit);
    MergedAnswer(results, s, out, limit);
    if AnswersTop(results, indexes, p, limit) {
      MergedExact(results, indexes, p, out, limit);
    }
  }

  lemma ListsSorted(entries: seq<Term>, sorted: seq<Term>, m: map<string, real>)
    requires Lists(entries, m) && multiset(sorted) == multiset(entries)
    ensures Lists(sorted, m)
  {
  }

  lemma FirstAreBest(sorted: seq<Term>, out: seq<Term>, m: map<string, real>, limit: nat)
    requires Lists(sorted, m) && OrderedBy(sorted, AnswerOrder) && Descending(sorted, ScoreOf)
    requires out == sorted[..Min(limit, |sorted|)]
    ensures BestOf(out, m, limit)
  {
  }

  /** A prefix keeps distinct terms distinct. */
  lemma {:induction false} PrefixDistinct(ts: seq<Term>, p: string)
    requires DistinctTerms(ts)
    ensures DistinctTerms(WithPrefix(ts, p)) && forall e :: e in WithPrefix(ts, p) ==> e in ts
  {
    if ts != [] {
      PrefixDistinct(ts[1..], p);
      forall e | e in WithPrefix(ts[1..], p)
        ensures e in ts && e.term != ts[0].term
      {
        var i :| 0 <= i < |ts[1..]| && ts[1..][i] == e;
        assert ts[i + 1] == e;
      }
    }
  }

  // ---- what the merged answer holds ------------------------------------------------------

  /** A slot holds the highest score of its term, or 0. */
  lemma {:induction false} MergeMaxIs(es: seq<Term>, t: string)
    ensures t in MergeMax(es) <==> exists e :: e in es && e.term == t
    ensures t in MergeMax(es) ==> MergeMax(es)[t] == 0.0 || Term(t, MergeMax(es)[t]) in es
    ensures t in MergeMax(es) ==> forall e :: e in es && e.term == t ==> e.score <= MergeMax(es)[t]
  {
    if es != [] {
      var front, last := es[..|es| - 1], es[|es| - 1];
      assert es == front + [last];
      MergeMaxIs(front, t);
      assert forall e :: e in es <==> e in front || e == last;
    }
  }

  lemma OffersAre(results: seq<Option<seq<Term>>>, e: Term)
    ensures Offers(results, e) <==> e in Concat(Answers(results))
  {
    AnswersJoined(results);
    hide Concat, Answers;
    if Offers(results, e) {
      var i :| 0 <= i < |results| && results[i].Some? && e in results[i].value;
      InConcat(Sent(results), i, e);
    }
    if e in Concat(Answers(results)) {
      var i := FromConcat(Sent(results), e);
      assert results[i].Some?;
    }
  }

  lemma ListedAre(r: seq<Term>, m: map<string, real>)
    requires Lists(r, m)
    ensures forall e :: e in r <==> e.term in m && m[e.term] == e.score
    ensures DistinctTerms(r)
  {
    hide Lists, DistinctTerms;
    ItemsOnce(r, m);
    forall e
      ensures e in r <==> e.term in m && m[e.term] == e.score
    {
      assert e in r <==> e in multiset(r);
      assert e in multiset(r) <==> e in Items(m) by { assert Lists(r, m); ListsCount(r, m, e); }
    }
  }

  lemma ListsCount(r: seq<Term>, m: map<string, real>, e: Term)
    requires Lists(r, m)
    ensures e in multiset(r) <==> e in Items(m)
  {
  }

  lemma ItemsOnce(r: seq<Term>, m: map<string, real>)
    requires Lists(r, m)
    ensures DistinctTerms(r)
  {
    forall i, j | 0 <= i < j < |r|
      ensures r[i].term != r[j].term
    {
      if r[i].term == r[j].term {
        assert r[i] in multiset(r) && r[j] in multiset(r);
        assert r[i] in Items(m) && r[j] in Items(m);
        TwicePresent(r, i, j);
      }
    }
  }

  lemma AnswerOrderIs(sorted: seq<Term>, i: nat, j: nat)
    requires OrderedBy(sorted, AnswerOrder) && DistinctTerms(sorted) && i < j < |sorted|
    ensures sorted[i].score > sorted[j].score
            || (sorted[i].score == sorted[j].score && Less(sorted[i].term, sorted[j].term))
  {
    assert AnswerOrder(sorted[i], sorted[j]);
    LessTotal(sorted[i].term, sorted[j].term);
  }

  lemma MaximumOf(results: seq<Option<seq<Term>>>, o: Term)
    requires var m := MergeMax(Concat(Answers(results))); o.term in m && m[o.term] == o.score
    ensures IsMaximum(o, results)
  {
    hide MergeMax, Concat, Answers, Offers;
    var es := Concat(Answers(results));
    MergeMaxIs(es, o.term);
    forall e
      ensures Offers(results, e) <==> e in es
    {
      OffersAre(results, e);
    }
  }

  /** The term of an offered entry is listed with at least its score. */
  lemma OfferedIsListed(results: seq<Option<seq<Term>>>, sorted: seq<Term>, e: Term) returns (k: nat)
    requires Lists(sorted, MergeMax(Concat(Answers(results)))) && Offers(results, e)
    ensures k < |sorted| && sorted[k].term == e.term && sorted[k].score >= e.score
  {
    hide MergeMax, Concat, Answers, Offers, Lists;
    var m := MergeMax(Concat(Answers(results)));
    OffersAre(results, e);
    MergeMaxIs(Concat(Answers(results)), e.term);
    ListedAre(sorted, m);
    assert Term(e.term, m[e.term]) in sorted;
    k :| 0 <= k < |sorted| && sorted[k] == Term(e.term, m[e.term]);
  }

  lemma MergedAnswer(results: seq<Option<seq<Term>>>, sorted: seq<Term>, out: seq<Term>, limit: nat)
    requires Lists(sorted, MergeMax(Concat(Answers(results)))) && OrderedBy(sorted, AnswerOrder)
    requires out == sorted[..Min(limit, |sorted|)]
    ensures |out| <= limit && forall o :: o in out ==> IsMaximum(o, results)
    ensures forall i, j :: 0 <= i < j < |out| ==>
              out[i].score > out[j].score || (out[i].score == out[j].score && Less(out[i].term, out[j].term))
    ensures forall e :: Offers(results, e) ==>
              || (exists o :: o in out && o.term == e.term && o.score >= e.score)
              || (|out| == limit && forall o :: o in out ==> o.score >= e.score)
  {
    hide MergeMax, Concat, Answers, Offers, Lists, IsMaximum, AnswerOrder, OrderedBy, Less;
    ListedAre(sorted, MergeMax(Concat(Answers(results))));
    forall o | o in out
      ensures IsMaximum(o, results)
    {
      assert o in sorted;
      MaximumOf(results, o);
    }
    forall i, j | 0 <= i < j < |sorted|
      ensures sorted[i].score > sorted[j].score
              || (sorted[i].score == sorted[j].score && Less(sorted[i].term, sorted[j].term))
    {
      AnswerOrderIs(sorted, i, j);
    }
    forall e | Offers(results, e)
      ensures (exists o :: o in out && o.term == e.term && o.score >= e.score)
              || (|out| == limit && forall o :: o in out ==> o.score >= e.score)
    {
      var k := OfferedIsListed(results, sorted, e);
      if k < |out| {
        assert out[k] == sorted[k];
      }
    }
  }

  /** Where the answers are selections of the shards' matches, cutting them loses no score. */
  lemma MergedExact(results: seq<Option<seq<Term>>>, indexes: seq<seq<Term>>, p: string, out: seq<Term>, limit: nat)
    requires AnswersTop(results, indexes, p, limit) && BestOf(out, MergeMax(Concat(Answers(results))), limit)
    ensures forall slow :: BestOf(slow, MergeMax(Concat(Matching(indexes, results, p))), limit) ==>
              Scores(out, ScoreOf) == Scores(slow, ScoreOf)
  {
    hide BestOf, MergeMax, Concat, Answers, IsTop, WithPrefix, DistinctTerms, Scores;
    AnswersJoined(results);
    NothingTops(limit);
    forall i | 0 <= i < |results|
      ensures IsTop(Sent(results)[i], Matching(indexes, results, p)[i], limit, ScoreOf)
              && DistinctTerms(Matching(indexes, results, p)[i])
    {
      if results[i].Some? {
        PrefixDistinct(indexes[i], p);
      }
    }
    forall slow | BestOf(slow, MergeMax(Concat(Matching(indexes, results, p))), limit)
      ensures Scores(out, ScoreOf) == Scores(slow, ScoreOf)
    {
      SuggestFanoutExact(Sent(results), Matching(indexes, results, p), limit, out, slow);
    }
  }

  lemma NothingTops(limit: nat)
    ensures IsTop<Term>([], [], limit, ScoreOf) && DistinctTerms([])
  {
  }

  method RaiseAll(m: map<string, real>, es: seq<Term>, ghost before: seq<Term>) returns (merged: map<string, real>)
    requires m == MergeMax(before)
    ensures merged == MergeMax(before + es)
  {
    merged := m;
    hide MergeMax, Raise;
    assert before + es[..0] == before;
    for j := 0 to |es|
      invariant merged == MergeMax(before + es[..j])
    {
      assert before + es[..j + 1] == (before + es[..j]) + [es[j]];
      MergeMaxSnoc(before + es[..j], es[j]);
      merged := Raise(merged, es[j]);
    }
    assert es[..|es|] == es;
  }

  lemma MergeMaxSnoc(es: seq<Term>, e: Term)
    ensures MergeMax(es + [e]) == Raise(MergeMax(es), e)
  {
    assert (es + [e])[..|es|] == es;
  }

  // ---- the merge is exact ----------------------------------------------------------------

  /** Terms some entry carries to x; a slot starts at zero, so any entry reaches x <= 0. */
  function Reach(es: seq<Term>, x: real): set<string> {
    set e | e in es && (x <= 0.0 || e.score >= x) :: e.term
  }

  function AtLeast(m: map<string, real>, x: real): set<string> {
    set t | t in m && m[t] >= x
  }

  lemma {:induction false} MergeReaches(es: seq<Term>, x: real)
    ensures AtLeast(MergeMax(es), x) == Reach(es, x)
    ensures forall t :: t in MergeMax(es) ==> MergeMax(es)[t] >= 0.0
  {
    if es != [] {
      var front, last := es[..|es| - 1], es[|es| - 1];
      assert es == front + [last];
      MergeReaches(front, x);
      ReachSnoc(front, last, x);
      RaiseAtLeast(MergeMax(front), last, x);
    }
  }

  lemma ReachSnoc(front: seq<Term>, last: Term, x: real)
    ensures Reach(front + [last], x) == Reach(front, x) + if x <= 0.0 || last.score >= x then {last.term} else {}
  {
    assert last in front + [last];
    assert forall e :: e in front ==> e in front + [last];
  }

  lemma RaiseAtLeast(m: map<string, real>, e: Term, x: real)
    requires forall t :: t in m ==> m[t] >= 0.0
    ensures AtLeast(Raise(m, e), x) == AtLeast(m, x) + if x <= 0.0 || e.score >= x then {e.term} else {}
  {
  }

  lemma {:induction false} CountOfListing(r: seq<Term>, m: map<string, real>, x: real)
    requires Lists(r, m)
    ensures CountGe(r, ScoreOf, x) == |AtLeast(m, x)|
  {
    InListing(r, m);
    if r == [] {
      assert AtLeast(m, x) == {};
    } else {
      var t := r[0].term;
      FirstListed(r, m);
      hide Lists, AtLeast;
      CountOfListing(r[1..], m - {t}, x);
      AtLeastWithout(m, t, x);
    }
  }

  lemma AtLeastWithout(m: map<string, real>, t: string, x: real)
    requires t in m
    ensures |AtLeast(m, x)| == |AtLeast(m - {t}, x)| + if m[t] >= x then 1 else 0
  {
    assert AtLeast(m, x) == AtLeast(m - {t}, x) + if m[t] >= x then {t} else {};
  }

  lemma InListing(r: seq<Term>, m: map<string, real>)
    requires Lists(r, m)
    ensures forall t :: t in m ==> Term(t, m[t]) in r
  {
    forall t | t in m
      ensures Term(t, m[t]) in r
    {
      assert Term(t, m[t]) in Items(m);
      assert Term(t, m[t]) in multiset(r);
    }
  }

  lemma FirstListed(r: seq<Term>, m: map<string, real>)
    requires Lists(r, m) && r != []
    ensures r[0].term in m && m[r[0].term] == r[0].score && Lists(r[1..], m - {r[0].term})
  {
    assert r[0] in multiset(r);
    assert r[0] in Items(m);
    var t := r[0].term;
    var m' := m - {t};
    ItemsAdd(m', t, m[t]);
    assert m'[t := m[t]] == m;
    AddToSet(Items(m'), r[0]);
    assert r == [r[0]] + r[1..];
    assert multiset(r[1..]) == multiset(r) - multiset{r[0]};
  }

  lemma AddToSet(s: set<Term>, e: Term)
    requires e !in s
    ensures multiset(s + {e}) - multiset{e} == multiset(s)
  {
  }

  ghost predicate DistinctTerms(s: seq<Term>) {
    forall i, j :: 0 <= i < j < |s| ==> s[i].term != s[j].term
  }

  /** Shard by shard, `tops` holds a best-`limit` selection of the full prefix matches. */
  ghost predicate ShardTops(tops: seq<seq<Term>>, fulls: seq<seq<Term>>, limit: nat) {
    && |tops| == |fulls|
    && forall i :: 0 <= i < |tops| ==> IsTop(tops[i], fulls[i], limit, ScoreOf) && DistinctTerms(fulls[i])
  }

  lemma {:induction false} ReachConcat(ls: seq<seq<Term>>, x: real)
    ensures forall t :: t in Reach(Concat(ls), x) <==> exists i :: 0 <= i < |ls| && t in Reach(ls[i], x)
  {
    if ls != [] {
      var front, last := ls[..|ls| - 1], ls[|ls| - 1];
      assert ls == front + [last];
      ReachConcat(front, x);
      forall t
        ensures t in Reach(Concat(ls), x) <==> exists i :: 0 <= i < |ls| && t in Reach(ls[i], x)
      {
        assert t in Reach(Concat(ls), x) <==> t in Reach(Concat(front), x) || t in Reach(last, x);
        if t in Reach(Concat(front), x) {
          var i :| 0 <= i < |front| && t in Reach(front[i], x);
          assert ls[i] == front[i];
        }
        if t in Reach(last, x) {
          assert ls[|ls| - 1] == last;
        }
        if exists i :: 0 <= i < |ls| && t in Reach(ls[i], x) {
          var i :| 0 <= i < |ls| && t in Reach(ls[i], x);
          assert i < |front| ==> ls[i] == front[i];
        }
      }
    }
  }

  /** A shard whose answer is not `limit` terms all reaching x has cut nothing that reaches x. */
  lemma CutNothing(top: seq<Term>, full: seq<Term>, limit: nat, x: real)
    requires IsTop(top, full, limit, ScoreOf)
    requires |top| < limit || exists e :: e in top && !(x <= 0.0 || e.score >= x)
    ensures Reach(top, x) == Reach(full, x)
  {
    assert |multiset(top)| == |top| && |multiset(full)| == |full|;
    forall e | e in full && (x <= 0.0 || e.score >= x)
      ensures e in top
    {
      assert e in multiset(full);
      if |top| < limit {
        SameSize(multiset(top), multiset(full));
        assert e in multiset(top);
      } else {
        var low :| low in top && !(x <= 0.0 || low.score >= x);
        DescendsToLast(top, ScoreOf, low);
        OmittedLow(top, full, limit, e);
      }
    }
    forall e | e in top
      ensures e in full
    {
      assert e in multiset(top);
      assert e in multiset(full);
    }
  }

  lemma OmittedLow(top: seq<Term>, full: seq<Term>, limit: nat, e: Term)
    requires IsTop(top, full, limit, ScoreOf) && top != [] && e in full && e.score > top[|top| - 1].score
    ensures e in top
  {
    var omitted := multiset(full) - multiset(top);
    var floor := ScoreOf(top[|top| - 1]);
    assert e in omitted ==> ScoreOf(e) <= floor;
    assert e in multiset(full) && e !in omitted;
    assert e in multiset(top);
  }

  lemma {:induction false} DistinctCount(s: seq<Term>, x: real)
    requires DistinctTerms(s) && forall e :: e in s ==> x <= 0.0 || e.score >= x
    ensures |Reach(s, x)| == |s|
  {
    if s == [] {
      assert Reach(s, x) == {};
    } else {
      var front, last := s[..|s| - 1], s[|s| - 1];
      assert s == front + [last];
      assert last in s;
      LastIsNew(front, last, x);
      hide Reach;
      DistinctCount(front, x);
      ReachSnoc(front, last, x);
    }
  }

  lemma LastIsNew(front: seq<Term>, last: Term, x: real)
    requires DistinctTerms(front + [last])
    ensures last.term !in Reach(front, x)
  {
    forall e | e in front
      ensures e.term != last.term
    {
      var s := front + [last];
      var i :| 0 <= i < |front| && front[i] == e;
      assert s[i] == e && s[|s| - 1] == last;
    }
  }

  lemma TopIsDistinct(top: seq<Term>, full: seq<Term>, limit: nat)
    requires IsTop(top, full, limit, ScoreOf) && DistinctTerms(full)
    ensures DistinctTerms(top)
  {
    var rest := Remainder(top, full);
    DistinctPermuted(full, top + rest);
    forall i, j | 0 <= i < j < |top|
      ensures top[i].term != top[j].term
    {
      assert (top + rest)[i] == top[i] && (top + rest)[j] == top[j];
    }
  }

  lemma DistinctPermuted(a: seq<Term>, b: seq<Term>)
    requires multiset(a) == multiset(b) && DistinctTerms(a)
    ensures DistinctTerms(b)
  {
    forall i, j | 0 <= i < j < |b|
      ensures b[i].term != b[j].term
    {
      assert b[i] in multiset(a) && b[j] in multiset(a);
      if b[i] == b[j] {
        TwicePresent(b, i, j);
        OnceInMultiset(a, b[i]);
      }
      var k :| 0 <= k < |a| && a[k] == b[i];
      var l :| 0 <= l < |a| && a[l] == b[j];
    }
  }

  lemma {:induction false} OnceInMultiset(s: seq<Term>, e: Term)
    requires DistinctTerms(s)
    ensures multiset(s)[e] <= 1
  {
    if s != [] {
      assert s == [s[0]] + s[1..];
      OnceInMultiset(s[1..], e);
      assert forall k :: 0 <= k < |s[1..]| ==> s[1..][k] == s[k + 1] != s[0];
      assert s[0] !in s[1..];
    }
  }

  /** The counts that decide every position of the answer agree, up to `limit`. */
  lemma FanoutCounts(tops: seq<seq<Term>>, fulls: seq<seq<Term>>, limit: nat, x: real)
    requires ShardTops(tops, fulls, limit)
    ensures Min(limit, |Reach(Concat(tops), x)|) == Min(limit, |Reach(Concat(fulls), x)|)
  {
    ReachConcat(tops, x);
    ReachConcat(fulls, x);
    ReachShrinks(tops, fulls, limit, x);
    if i :| 0 <= i < |tops| && |tops[i]| >= limit && forall e :: e in tops[i] ==> x <= 0.0 || e.score >= x {
      TopIsDistinct(tops[i], fulls[i], limit);
      DistinctCount(tops[i], x);
      Subset(Reach(tops[i], x), Reach(Concat(tops), x));
      Subset(Reach(Concat(tops), x), Reach(Concat(fulls), x));
    } else {
      forall i | 0 <= i < |tops|
        ensures Reach(tops[i], x) == Reach(fulls[i], x)
      {
        CutNothing(tops[i], fulls[i], limit, x);
      }
      assert Reach(Concat(tops), x) == Reach(Concat(fulls), x);
    }
  }

  lemma Subset(a: set<string>, b: set<string>)
    requires a <= b
    ensures |a| <= |b|
  {
    assert b == a + (b - a);
  }

  lemma ReachShrinks(tops: seq<seq<Term>>, fulls: seq<seq<Term>>, limit: nat, x: real)
    requires ShardTops(tops, fulls, limit)
    ensures Reach(Concat(tops), x) <= Reach(Concat(fulls), x)
  {
    ReachConcat(tops, x);
    ReachConcat(fulls, x);
    forall t | t in Reach(Concat(tops), x)
      ensures t in Reach(Concat(fulls), x)
    {
      var i :| 0 <= i < |tops| && t in Reach(tops[i], x);
      var e :| e in tops[i] && (x <= 0.0 || e.score >= x) && e.term == t;
      assert e in multiset(tops[i]);
      assert e in multiset(fulls[i]);
      assert t in Reach(fulls[i], x);
    }
  }

  /** The fan-out is exact up to ties: the answer built from each shard's best `limit` terms has
      the score sequence of the answer built from every shard's full prefix matches. */
  lemma SuggestFanoutExact(tops: seq<seq<Term>>, fulls: seq<seq<Term>>, limit: nat, fast: seq<Term>, slow: seq<Term>)
    requires ShardTops(tops, fulls, limit)
    requires BestOf(fast, MergeMax(Concat(tops)), limit) && BestOf(slow, MergeMax(Concat(fulls)), limit)
    ensures Scores(fast, ScoreOf) == Scores(slow, ScoreOf)
  {
    hide ShardTops, MergeMax, Lists, Descending, Scores, OrderedBy, Concat;
    var f :| Lists(f, MergeMax(Concat(tops))) && OrderedBy(f, AnswerOrder) && Descending(f, ScoreOf)
             && fast == f[..Min(limit, |f|)];
    var s :| Lists(s, MergeMax(Concat(fulls))) && OrderedBy(s, AnswerOrder) && Descending(s, ScoreOf)
             && slow == s[..Min(limit, |s|)];
    SortedFanoutExact(tops, fulls, limit, f, s);
  }

  lemma SortedFanoutExact(tops: seq<seq<Term>>, fulls: seq<seq<Term>>, limit: nat, fast: seq<Term>, slow: seq<Term>)
    requires ShardTops(tops, fulls, limit)
    requires Lists(fast, MergeMax(Concat(tops))) && Descending(fast, ScoreOf)
    requires Lists(slow, MergeMax(Concat(fulls))) && Descending(slow, ScoreOf)
    ensures Scores(fast[..Min(limit, |fast|)], ScoreOf) == Scores(slow[..Min(limit, |slow|)], ScoreOf)
  {
    forall x
      ensures Min(limit, CountGe(fast, ScoreOf, x)) == Min(limit, CountGe(slow, ScoreOf, x))
    {
      CountOfListing(fast, MergeMax(Concat(tops)), x);
      CountOfListing(slow, MergeMax(Concat(fulls)), x);
      MergeReaches(Concat(tops), x);
      MergeReaches(Concat(fulls), x);
      FanoutCounts(tops, fulls, limit, x);
    }
    AllCounted(fast, MergeMax(Concat(tops)), Concat(tops));
    AllCounted(slow, MergeMax(Concat(fulls)), Concat(fulls));
    SameCountsSamePage(fast, ScoreOf, slow, ScoreOf, limit);
  }

  /** Every listed term counts at zero. */
  lemma AllCounted(r: seq<Term>, m: map<string, real>, es: seq<Term>)
    requires Lists(r, m) && m == MergeMax(es)
    ensures CountGe(r, ScoreOf, 0.0) == |r|
  {
    MergeReaches(es, 0.0);
    forall e | e in r
      ensures ScoreOf(e) >= 0.0
    {
      assert e in multiset(r);
      assert e in Items(m);
    }
    CountGeAll(r, ScoreOf, 0.0);
  }

  lemma AnswerOrderDescends(r: seq<Term>)
    requires OrderedBy(r, AnswerOrder)
    ensures Descending(r, ScoreOf)
  {
    forall i, j | 0 <= i < j < |r|
      ensures ScoreOf(r[i]) >= ScoreOf(r[j])
    {
      assert AnswerOrder(r[i], r[j]);
    }
  }
}
