/** Descending rankings by score: sorting, "the best k", and counting by score.

    Ties may be broken in any way by the engine's unstable sorts, so a ranking is described by
    its score sequence.  The tool is a count: `CountGe(s, key, x)` is how many items of `s`
    score at least `x`, and it decides every position of a descending list (`RankByCount`). */
module Ranking {
  import opened Base

  function Scores<T>(s: seq<T>, key: T -> real): (r: seq<real>)
    ensures |r| == |s| && forall i :: 0 <= i < |s| ==> r[i] == key(s[i])
  {
    seq(|s|, i requires 0 <= i < |s| => key(s[i]))
  }

  ghost predicate Descending<T>(s: seq<T>, key: T -> real) {
    forall i, j :: 0 <= i < j < |s| ==> key(s[i]) >= key(s[j])
  }

  /** What any correct sort by descending score may return. */
  ghost predicate IsSorting<T>(r: seq<T>, s: seq<T>, key: T -> real) {
    multiset(r) == multiset(s) && Descending(r, key)
  }

  /** `kept` is a best-k selection of `all`: as many as asked for, best first, and nothing left
      out beats anything kept. */
  ghost predicate IsTop<T>(kept: seq<T>, all: seq<T>, k: nat, key: T -> real) {
    && |kept| == Min(k, |all|)
    && Descending(kept, key)
    && multiset(kept) <= multiset(all)
    && (kept != [] ==> OthersBelow(kept, all, key, key(kept[|kept| - 1])))
  }

  /** Whatever `all` has beyond `kept` scores at most `floor`. */
  ghost predicate OthersBelow<T>(kept: seq<T>, all: seq<T>, key: T -> real, floor: real) {
    forall e :: e in multiset(all) - multiset(kept) ==> key(e) <= floor
  }

  /** Whatever a best-k selection leaves out, it is full of items no worse. */
  lemma TopBeats<T>(kept: seq<T>, all: seq<T>, k: nat, key: T -> real)
    requires IsTop(kept, all, k, key)
    ensures forall e :: e in kept ==> e in all
    ensures forall e, x :: e in all && e !in kept && x in kept ==> key(x) >= key(e)
    ensures (exists e :: e in all && e !in kept) ==> |kept| == k
  {
    forall e | e in kept
      ensures e in all
    {
      assert e in multiset(kept);
      assert e in multiset(all);
    }
    forall e, x | e in all && e !in kept && x in kept
      ensures key(x) >= key(e)
    {
      assert e in multiset(all) && e !in multiset(kept);
      assert e in multiset(all) - multiset(kept);
      DescendsToLast(kept, key, x);
    }
    if |kept| == |all| {
      assert |multiset(kept)| == |multiset(all)|;
      SameSize(multiset(kept), multiset(all));
      forall e | e in all
        ensures e in kept
      {
        assert e in multiset(all);
      }
    }
  }

  function CountGe<T>(s: seq<T>, key: T -> real, x: real): (n: nat)
    ensures n <= |s|
  {
    if s == [] then 0 else (if key(s[0]) >= x then 1 else 0) + CountGe(s[1..], key, x)
  }

  lemma {:induction false} CountGeAppend<T>(a: seq<T>, b: seq<T>, key: T -> real, x: real)
    ensures CountGe(a + b, key, x) == CountGe(a, key, x) + CountGe(b, key, x)
  {
    if a == [] {
      assert a + b == b;
    } else {
      assert (a + b)[1..] == a[1..] + b;
      CountGeAppend(a[1..], b, key, x);
    }
  }

  /** `s` without the item at `i`. */
  function Without<T>(s: seq<T>, i: nat): (r: seq<T>)
    requires i < |s|
    ensures multiset(s) == multiset(r) + multiset{s[i]}
  {
    assert s == s[..i] + ([s[i]] + s[i + 1..]);
    s[..i] + s[i + 1..]
  }

  lemma CancelOne<T>(a: multiset<T>, b: multiset<T>, e: T)
    requires a + multiset{e} <= b + multiset{e}
    ensures a <= b
  {
    forall x
      ensures a[x] <= b[x]
    {
      assert (a + multiset{e})[x] <= (b + multiset{e})[x];
    }
  }

  lemma {:induction false} CountGeMultiset<T>(a: seq<T>, b: seq<T>, key: T -> real, x: real)
    requires multiset(a) == multiset(b)
    ensures CountGe(a, key, x) == CountGe(b, key, x)
  {
    if a == [] {
      assert |multiset(b)| == 0;
    } else {
      assert a[0] in multiset(b);
      var i :| 0 <= i < |b| && b[i] == a[0];
      assert a[1..] == Without(a, 0);
      assert b == b[..i] + ([b[i]] + b[i + 1..]);
      CountGeAppend(b[..i], [b[i]] + b[i + 1..], key, x);
      CountGeAppend(b[..i], b[i + 1..], key, x);
      assert ([b[i]] + b[i + 1..])[1..] == b[i + 1..];
      CancelOne(multiset(a[1..]), multiset(Without(b, i)), a[0]);
      CancelOne(multiset(Without(b, i)), multiset(a[1..]), a[0]);
      CountGeMultiset(a[1..], Without(b, i), key, x);
    }
  }

  lemma {:induction false} CountGeAll<T>(s: seq<T>, key: T -> real, x: real)
    ensures (forall e :: e in s ==> key(e) >= x) ==> CountGe(s, key, x) == |s|
    ensures (forall e :: e in s ==> key(e) < x) ==> CountGe(s, key, x) == 0
  {
    if s != [] {
      assert forall e :: e in s[1..] ==> e in s;
      CountGeAll(s[1..], key, x);
    }
  }

  /** In a descending list, position i scores at least x exactly when more than i items do. */
  lemma {:induction false} RankByCount<T>(s: seq<T>, key: T -> real, x: real, i: nat)
    requires Descending(s, key) && i < |s|
    ensures key(s[i]) >= x <==> i < CountGe(s, key, x)
  {
    assert s == s[..i] + s[i..];
    CountGeAppend(s[..i], s[i..], key, x);
    CountGeAll(s[..i], key, x);
    CountGeAll(s[i..], key, x);
    if key(s[i]) >= x {
      assert forall e :: e in s[..i] ==> key(e) >= x;
      assert CountGe(s[i..], key, x) >= 1;
    } else {
      assert forall e :: e in s[i..] ==> key(e) < x;
    }
  }

  lemma SplitOne<T>(a: multiset<T>, a': multiset<T>, k: multiset<T>, k': multiset<T>, r: multiset<T>, e: T)
    requires a == a' + multiset{e} && k == k' + multiset{e} && a' == k' + r
    ensures a == k + r
  {
  }

  /** The items of `all` that `kept` leaves out, as a list. */
  lemma {:induction false} Remainder<T>(kept: seq<T>, all: seq<T>) returns (rest: seq<T>)
    requires multiset(kept) <= multiset(all)
    ensures multiset(all) == multiset(kept) + multiset(rest)
  {
    if kept == [] {
      rest := all;
    } else {
      assert kept[0] in multiset(kept);
      var i :| 0 <= i < |all| && all[i] == kept[0];
      assert kept[1..] == Without(kept, 0);
      CancelOne(multiset(kept[1..]), multiset(Without(all, i)), kept[0]);
      rest := Remainder(kept[1..], Without(all, i));
      SplitOne(multiset(all), multiset(Without(all, i)), multiset(kept), multiset(kept[1..]), multiset(rest), kept[0]);
    }
  }

  lemma DescendsToLast<T>(s: seq<T>, key: T -> real, e: T)
    requires Descending(s, key) && e in s
    ensures key(e) >= key(s[|s| - 1])
  {
    var i :| 0 <= i < |s| && s[i] == e;
    if i < |s| - 1 {
      assert key(s[i]) >= key(s[|s| - 1]);
    }
  }

  /** Sorting a best-k selection again leaves it one. */
  lemma SortedTopIsTop<T>(r: seq<T>, kept: seq<T>, all: seq<T>, k: nat, key: T -> real)
    requires IsTop(kept, all, k, key) && IsSorting(r, kept, key)
    ensures IsTop(r, all, k, key)
  {
    assert |multiset(r)| == |multiset(kept)|;
    if r != [] {
      assert r[|r| - 1] in multiset(kept);
      DescendsToLast(kept, key, r[|r| - 1]);
    }
  }

  /** A best-k selection is invisible to counting, up to k. */
  lemma TopCounts<T>(kept: seq<T>, all: seq<T>, k: nat, key: T -> real, x: real)
    requires IsTop(kept, all, k, key)
    ensures CountGe(kept, key, x) == Min(k, CountGe(all, key, x))
  {
    var rest := Remainder(kept, all);
    assert multiset(kept + rest) == multiset(all);
    assert multiset(rest) == multiset(all) - multiset(kept);
    assert |multiset(kept + rest)| == |multiset(all)|;
    CountGeMultiset(kept + rest, all, key, x);
    CountGeAppend(kept, rest, key, x);
    if kept != [] && key(kept[|kept| - 1]) < x {
      RestCountsNone(rest, key, x, key(kept[|kept| - 1]));
    } else if kept != [] {
      KeptCountsAll(kept, key, x);
    }
  }

  lemma RestCountsNone<T>(rest: seq<T>, key: T -> real, x: real, floor: real)
    requires (forall e :: e in multiset(rest) ==> key(e) <= floor) && floor < x
    ensures CountGe(rest, key, x) == 0
  {
    assert forall e :: e in rest ==> e in multiset(rest);
    CountGeAll(rest, key, x);
  }

  lemma KeptCountsAll<T>(kept: seq<T>, key: T -> real, x: real)
    requires kept != [] && Descending(kept, key) && key(kept[|kept| - 1]) >= x
    ensures CountGe(kept, key, x) == |kept|
  {
    forall e | e in kept
      ensures key(e) >= x
    {
      DescendsToLast(kept, key, e);
    }
    CountGeAll(kept, key, x);
  }

  /** Two descending lists that count alike up to n agree on their first n scores. */
  lemma SameCountsSamePage<T, U>(a: seq<T>, ka: T -> real, b: seq<U>, kb: U -> real, n: nat)
    requires Descending(a, ka) && Descending(b, kb)
    requires forall x :: Min(n, CountGe(a, ka, x)) == Min(n, CountGe(b, kb, x))
    requires Min(n, |a|) == Min(n, |b|)
    ensures Scores(a[..Min(n, |a|)], ka) == Scores(b[..Min(n, |b|)], kb)
  {
    forall i | 0 <= i < Min(n, |a|)
      ensures ka(a[i]) == kb(b[i])
    {
      SameScoreAt(a, ka, b, kb, n, i);
    }
  }

  lemma SameScoreAt<T, U>(a: seq<T>, ka: T -> real, b: seq<U>, kb: U -> real, n: nat, i: nat)
    requires Descending(a, ka) && Descending(b, kb) && i < n && i < |a| && i < |b|
    requires forall x :: Min(n, CountGe(a, ka, x)) == Min(n, CountGe(b, kb, x))
    ensures ka(a[i]) == kb(b[i])
  {
    var x, y := ka(a[i]), kb(b[i]);
    RankByCount(a, ka, x, i);
    RankByCount(b, kb, x, i);
    RankByCount(a, ka, y, i);
    RankByCount(b, kb, y, i);
  }

  /** Insertion into a descending list, after the items that score at least as much. */
  function InsertDesc<T>(s: seq<T>, e: T, key: T -> real): (r: seq<T>)
    ensures multiset(r) == multiset(s) + multiset{e}
  {
    if s == [] || key(s[0]) < key(e) then [e] + s
    else
      assert s == [s[0]] + s[1..];
      [s[0]] + InsertDesc(s[1..], e, key)
  }

  lemma {:induction false} InsertDescSorted<T>(s: seq<T>, e: T, key: T -> real)
    requires Descending(s, key)
    ensures Descending(InsertDesc(s, e, key), key)
  {
    if s != [] && key(s[0]) >= key(e) {
      InsertDescSorted(s[1..], e, key);
      var t := InsertDesc(s[1..], e, key);
      forall i | 0 <= i < |t|
        ensures key(t[i]) <= key(s[0])
      {
        assert t[i] in multiset(t);
        assert t[i] == e || t[i] in s[1..];
      }
    }
  }

  /** Rust's `sort_by` on descending score. */
  function SortDesc<T>(s: seq<T>, key: T -> real): (r: seq<T>)
    ensures IsSorting(r, s, key)
  {
    if s == [] then []
    else
      assert s == s[..|s| - 1] + [s[|s| - 1]];
      var front := SortDesc(s[..|s| - 1], key);
      InsertDescSorted(front, s[|s| - 1], key);
      InsertDesc(front, s[|s| - 1], key)
  }

  // ---- sorting by a comparison -----------------------------------------------------------

  ghost predicate TotalPreorder<T(!new)>(before: (T, T) -> bool) {
    && (forall a, b :: before(a, b) || before(b, a))
    && (forall a, b, c :: before(a, b) && before(b, c) ==> before(a, c))
  }

  ghost predicate OrderedBy<T>(s: seq<T>, before: (T, T) -> bool) {
    forall i, j :: 0 <= i < j < |s| ==> before(s[i], s[j])
  }

  lemma InsertOrdered<T(!new)>(r: seq<T>, at: nat, d: T, before: (T, T) -> bool)
    requires TotalPreorder(before) && OrderedBy(r, before) && at <= |r|
    requires forall i :: 0 <= i < at ==> before(r[i], d)
    requires forall i :: at <= i < |r| ==> !before(r[i], d)
    ensures OrderedBy(r[..at] + [d] + r[at..], before)
  {
    var s := r[..at] + [d] + r[at..];
    forall i, j | 0 <= i < j < |s|
      ensures before(s[i], s[j])
    {
      if i == at {
        var x := r[j - 1];
        assert s[i] == d && s[j] == x;
        assert before(d, x) || before(x, d);
      } else if j == at {
        assert s[j] == d && s[i] == r[i];
      } else {
        var i', j' := if i < at then i else i - 1, if j < at then j else j - 1;
        assert s[i] == r[i'] && s[j] == r[j'];
        assert before(r[i'], r[j']);
      }
    }
  }

  lemma OrderedMonotone<T(!new)>(r: seq<T>, d: T, before: (T, T) -> bool)
    requires TotalPreorder(before) && OrderedBy(r, before)
    ensures forall i, j :: 0 <= i < j < |r| && before(r[j], d) ==> before(r[i], d)
  {
    forall i, j | 0 <= i < j < |r| && before(r[j], d)
      ensures before(r[i], d)
    {
      assert before(r[i], r[j]);
    }
  }

  /** d put behind everything that may stay in front of it. */
  function Placed<T>(r: seq<T>, d: T, before: (T, T) -> bool): (q: seq<T>)
    ensures multiset(q) == multiset(r) + multiset{d}
  {
    if r == [] || before(r[|r| - 1], d) then r + [d]
    else
      assert r == r[..|r| - 1] + [r[|r| - 1]];
      Placed(r[..|r| - 1], d, before) + [r[|r| - 1]]
  }

  /** The stable sort: each item in turn goes behind its equals. */
  function StableSort<T>(s: seq<T>, before: (T, T) -> bool): (r: seq<T>)
    ensures multiset(r) == multiset(s)
  {
    if s == [] then []
    else
      assert s == s[..|s| - 1] + [s[|s| - 1]];
      Placed(StableSort(s[..|s| - 1], before), s[|s| - 1], before)
  }

  lemma {:induction false} PlacedAt<T>(r: seq<T>, at: nat, d: T, before: (T, T) -> bool)
    requires at <= |r|
    requires forall i :: 0 <= i < at ==> before(r[i], d)
    requires forall i :: at <= i < |r| ==> !before(r[i], d)
    ensures Placed(r, d, before) == r[..at] + [d] + r[at..]
  {
    if at == |r| {
      assert r[..at] == r && r[at..] == [];
      PlacedLast(r, d, before);
    } else {
      var front, last := r[..|r| - 1], r[|r| - 1];
      PlacedAt(front, at, d, before);
      PlacedFurther(r, d, before);
      hide *;
      CutBefore(r, at);
    }
  }

  lemma PlacedLast<T>(r: seq<T>, d: T, before: (T, T) -> bool)
    requires r == [] || before(r[|r| - 1], d)
    ensures Placed(r, d, before) == r + [d]
  {
  }

  lemma PlacedFurther<T>(r: seq<T>, d: T, before: (T, T) -> bool)
    requires r != [] && !before(r[|r| - 1], d)
    ensures Placed(r, d, before) == Placed(r[..|r| - 1], d, before) + [r[|r| - 1]]
  {
  }

  lemma CutBefore<T>(r: seq<T>, at: nat)
    requires at < |r|
    ensures r[..|r| - 1][..at] == r[..at] && r[..|r| - 1][at..] + [r[|r| - 1]] == r[at..]
  {
  }

  /** The library's `sort_by`. */
  method StableSortBy<T(!new)>(s: seq<T>, before: (T, T) -> bool) returns (r: seq<T>)
    requires TotalPreorder(before)
    ensures r == StableSort(s, before) && OrderedBy(r, before)
  {
    hide TotalPreorder, Placed;
    r := [];
    for i := 0 to |s|
      invariant r == StableSort(s[..i], before) && OrderedBy(r, before)
    {
      var d := s[i];
      assert s[..i + 1][..i] == s[..i];
      OrderedMonotone(r, d, before);
      var at := PartitionPoint(r, 0, (x: T) => before(x, d));
      InsertOrdered(r, at, d, before);
      PlacedAt(r, at, d, before);
      r := r[..at] + [d] + r[at..];
    }
    assert s[..|s|] == s;
  }

  /** A sort whose ties nobody relies on, as `sort_unstable_by`. */
  method SortBy<T(!new)>(s: seq<T>, before: (T, T) -> bool) returns (r: seq<T>)
    requires TotalPreorder(before)
    ensures multiset(r) == multiset(s) && OrderedBy(r, before)
  {
    r := StableSortBy(s, before);
  }

  /** The first k of a descending sort are a best-k selection. */
  lemma CutIsTop<T>(sorted: seq<T>, all: seq<T>, k: nat, key: T -> real)
    requires IsSorting(sorted, all, key)
    ensures IsTop(sorted[..Min(k, |sorted|)], all, k, key)
  {
    var n := Min(k, |sorted|);
    var kept, rest := sorted[..n], sorted[n..];
    assert sorted == kept + rest;
    assert |multiset(sorted)| == |multiset(all)|;
    hide OthersBelow;
    RestBelow(kept, rest, all, key);
  }

  lemma RestBelow<T>(kept: seq<T>, rest: seq<T>, all: seq<T>, key: T -> real)
    requires Descending(kept + rest, key) && multiset(all) == multiset(kept) + multiset(rest)
    ensures kept != [] ==> OthersBelow(kept, all, key, key(kept[|kept| - 1]))
  {
    MinusPart(multiset(kept), multiset(rest));
    if kept != [] {
      var s := kept + rest;
      forall e | e in multiset(all) - multiset(kept)
        ensures key(e) <= key(kept[|kept| - 1])
      {
        assert e in multiset(rest);
        var i :| 0 <= i < |rest| && rest[i] == e;
        assert s[|kept| - 1] == kept[|kept| - 1] && s[|kept| + i] == e;
      }
    }
  }

  lemma MinusPart<T>(a: multiset<T>, b: multiset<T>)
    ensures a + b - a == b
  {
  }
}
