/** Shared vocabulary: machine integers, options, joining of lists, and the library routine the
    engine leans on everywhere (Rust's `partition_point`). */
module Base {

  type u8 = x: int | 0 <= x < 0x100
  type u16 = x: int | 0 <= x < 0x1_0000
  type u32 = x: int | 0 <= x < 0x1_0000_0000
  type u64 = x: int | 0 <= x < 0x1_0000_0000_0000_0000

  /** The unit of files and buffers. */
  newtype byte = x: int | 0 <= x < 0x100

  datatype Option<+T> = None | Some(value: T)

  function Min(a: int, b: int): int {
    if a <= b then a else b
  }

  function Max(a: int, b: int): int {
    if a >= b then a else b
  }

  function MaxReal(a: real, b: real): real {
    if a >= b then a else b
  }

  /** Lists joined end to end. */
  function Concat<T>(ls: seq<seq<T>>): seq<T> {
    if ls == [] then [] else Concat(ls[..|ls| - 1]) + ls[|ls| - 1]
  }

  lemma ConcatSnoc<T>(ls: seq<seq<T>>, l: seq<T>)
    ensures Concat(ls + [l]) == Concat(ls) + l
  {
    assert (ls + [l])[..|ls|] == ls;
  }

  /** `all` is the lists end to end, list i taking the stretch from starts[i] to starts[i + 1]. */
  ghost predicate EndToEnd<T>(all: seq<T>, ls: seq<seq<T>>, starts: seq<nat>) {
    && |starts| == |ls| + 1 && starts[0] == 0 && starts[|ls|] == |all|
    && forall i :: 0 <= i < |ls| ==> Stretch(all, starts[i], ls[i]) && starts[i + 1] == starts[i] + |ls[i]|
  }

  ghost predicate Stretch<T>(all: seq<T>, from: nat, part: seq<T>) {
    from + |part| <= |all| && all[from..from + |part|] == part
  }

  lemma EndToEndSnoc<T>(all: seq<T>, ls: seq<seq<T>>, starts: seq<nat>, l: seq<T>)
    requires EndToEnd(all, ls, starts)
    ensures EndToEnd(all + l, ls + [l], starts + [|all| + |l|])
  {
    hide Stretch;
    forall i | 0 <= i < |ls|
      ensures Stretch(all + l, starts[i], ls[i])
    {
      StretchGrows(all, l, starts[i], ls[i]);
    }
    StretchAtEnd(all, l);
  }

  lemma StretchGrows<T>(all: seq<T>, l: seq<T>, from: nat, part: seq<T>)
    requires Stretch(all, from, part)
    ensures Stretch(all + l, from, part)
  {
    assert (all + l)[from..from + |part|] == all[from..from + |part|];
  }

  lemma StretchAtEnd<T>(all: seq<T>, l: seq<T>)
    ensures Stretch(all + l, |all|, l)
  {
  }

  /** Joining loses nothing and adds nothing. */
  lemma {:induction false} ConcatIs<T>(ls: seq<seq<T>>) returns (starts: seq<nat>)
    ensures EndToEnd(Concat(ls), ls, starts)
  {
    if ls == [] {
      starts := [0];
    } else {
      var front, last := ls[..|ls| - 1], ls[|ls| - 1];
      assert ls == front + [last];
      starts := ConcatIs(front);
      ConcatSnoc(front, last);
      EndToEndSnoc(Concat(front), front, starts, last);
      starts := starts + [|Concat(ls)|];
    }
  }

  lemma {:induction false} FromConcat<T>(ls: seq<seq<T>>, e: T) returns (i: nat)
    requires e in Concat(ls)
    ensures i < |ls| && e in ls[i]
  {
    var n := |ls| - 1;
    if e in ls[n] {
      i := n;
    } else {
      i := FromConcat(ls[..n], e);
    }
  }

  lemma {:induction false} InConcat<T>(ls: seq<seq<T>>, i: nat, e: T)
    requires i < |ls| && e in ls[i]
    ensures e in Concat(ls)
  {
    if i < |ls| - 1 {
      InConcat(ls[..|ls| - 1], i, e);
    }
  }

  /** What the shards that answered sent, in order; None stands for an error or a timeout. */
  function Answers<T>(results: seq<Option<T>>): seq<T> {
    if results == [] then [] else
      Answers(results[..|results| - 1]) + if results[|results| - 1].Some? then [results[|results| - 1].value] else []
  }

  /** `all` is what the shards that answered sent, end to end: an answer takes its stretch, an error
      takes none. */
  ghost predicate Gathered<T(!new)>(all: seq<T>, results: seq<Option<seq<T>>>) {
    exists starts :: EndToEnd(all, Sent(results), starts)
  }

  function Sent<T>(results: seq<Option<seq<T>>>): (ls: seq<seq<T>>)
    ensures |ls| == |results|
    ensures forall i :: 0 <= i < |ls| ==> ls[i] == if results[i].Some? then results[i].value else []
  {
    seq(|results|, i requires 0 <= i < |results| => if results[i].Some? then results[i].value else [])
  }

  lemma {:induction false} AnswersJoined<T>(results: seq<Option<seq<T>>>)
    ensures Concat(Answers(results)) == Concat(Sent(results))
  {
    if results != [] {
      var front, last := results[..|results| - 1], results[|results| - 1];
      AnswersJoined(front);
      assert Sent(results)[..|front|] == Sent(front);
      if last.Some? {
        ConcatSnoc(Answers(front), last.value);
      } else {
        assert Answers(results) == Answers(front);
      }
    }
  }

  /** Every answer is gathered, in order, and nothing else. */
  lemma GatherIs<T(!new)>(results: seq<Option<seq<T>>>)
    ensures Gathered(Concat(Answers(results)), results)
  {
    AnswersJoined(results);
    var starts := ConcatIs(Sent(results));
  }

  /** `answers` are the results that are Some, in order, at the places `at`. */
  ghost predicate AnswersAt<T>(answers: seq<T>, results: seq<Option<T>>, at: seq<nat>) {
    && |at| == |answers|
    && (forall j, k :: 0 <= j < k < |at| ==> at[j] < at[k])
    && (forall k :: 0 <= k < |at| ==> at[k] < |results| && results[at[k]] == Some(answers[k]))
    && (forall i: nat :: i < |results| && results[i].Some? ==> i in at)
  }

  lemma AnswerAdded<T>(answers: seq<T>, results: seq<Option<T>>, at: seq<nat>, t: T)
    requires AnswersAt(answers, results, at)
    ensures AnswersAt(answers + [t], results + [Some(t)], at + [|results|])
  {
    var more := at + [|results|];
    forall i: nat | i < |results + [Some(t)]| && (results + [Some(t)])[i].Some?
      ensures i in more
    {
      if i == |results| {
        assert more[|at|] == i;
      } else {
        assert i in at;
      }
    }
  }

  lemma AnswerMissing<T>(answers: seq<T>, results: seq<Option<T>>, at: seq<nat>)
    requires AnswersAt(answers, results, at)
    ensures AnswersAt(answers, results + [None], at)
  {
  }

  lemma AnswersSnoc<T>(results: seq<Option<T>>, last: Option<T>)
    ensures Answers(results + [last]) == Answers(results) + if last.Some? then [last.value] else []
  {
    assert (results + [last])[..|results|] == results;
  }

  lemma AnswersNone<T>()
    ensures AnswersAt(Answers<T>([]), [], [])
  {
  }

  lemma {:induction false} AnswersAre<T>(results: seq<Option<T>>) returns (at: seq<nat>)
    ensures AnswersAt(Answers(results), results, at)
  {
    hide *;
    if results == [] {
      at := [];
      AnswersNone<T>();
    } else {
      var front, last := results[..|results| - 1], results[|results| - 1];
      assert results == front + [last];
      at := AnswersAre(front);
      AnswersSnoc(front, last);
      if last.Some? {
        AnswerAdded(Answers(front), front, at, last.value);
        at := at + [|front|];
      } else {
        AnswerMissing(Answers(front), front, at);
        assert Answers(front) + [] == Answers(front);
      }
    }
  }

  /** There are as many as results that are Some. */
  lemma {:induction false} AnswersCount<T>(results: seq<Option<T>>)
    ensures |Answers(results)| == |set i | 0 <= i < |results| && results[i].Some?|
  {
    var all := set i | 0 <= i < |results| && results[i].Some?;
    if results == [] {
      assert all == {};
    } else {
      var front, last := results[..|results| - 1], results[|results| - 1];
      AnswersCount(front);
      var some := set i | 0 <= i < |front| && front[i].Some?;
      assert all == some + if last.Some? then {|front|} else {};
    }
  }

  lemma NoAnswers<T>(results: seq<Option<T>>)
    ensures Answers(results) == [] <==> forall i :: 0 <= i < |results| ==> results[i].None?
  {
    var at := AnswersAre(results);
    if i :| 0 <= i < |results| && results[i].Some? {
      assert i in at;
    }
  }

  lemma SameSize<T>(a: multiset<T>, b: multiset<T>)
    requires a <= b && |a| == |b|
    ensures a == b
  {
    assert b == a + (b - a);
    assert |b - a| == 0;
  }

  lemma TwicePresent<T>(s: seq<T>, i: nat, j: nat)
    requires i < j < |s| && s[i] == s[j]
    ensures multiset(s)[s[i]] >= 2
  {
    assert s == s[..i] + [s[i]] + s[i + 1..j] + [s[j]] + s[j + 1..];
  }

  /** No two items with the same key. */
  ghost predicate DistinctBy<T(!new), K(!new)>(s: seq<T>, key: T -> K) {
    forall i, j :: 0 <= i < j < |s| ==> key(s[i]) != key(s[j])
  }

  lemma OnceBy<T(!new), K(!new)>(s: seq<T>, key: T -> K, p: nat)
    requires DistinctBy(s, key) && p < |s|
    ensures multiset(s)[s[p]] == 1
  {
    assert s == s[..p] + [s[p]] + s[p + 1..];
    forall i | 0 <= i < |s| && i != p
      ensures s[i] != s[p]
    {
      assert if i < p then key(s[i]) != key(s[p]) else key(s[p]) != key(s[i]);
    }
    assert s[p] !in s[..p] && s[p] !in s[p + 1..];
  }

  /** Keys stay distinct in whatever order items are taken from a list. */
  lemma StillDistinct<T(!new), K(!new)>(s: seq<T>, taken: seq<T>, key: T -> K)
    requires DistinctBy(s, key) && multiset(taken) <= multiset(s)
    ensures DistinctBy(taken, key)
  {
    forall i, j | 0 <= i < j < |taken|
      ensures key(taken[i]) != key(taken[j])
    {
      assert taken[i] in multiset(taken) && taken[j] in multiset(taken);
      assert taken[i] in multiset(s) && taken[j] in multiset(s);
      var p, q :| 0 <= p < |s| && 0 <= q < |s| && s[p] == taken[i] && s[q] == taken[j];
      if p == q {
        TwicePresent(taken, i, j);
        OnceBy(s, key, p);
      } else {
        assert if p < q then key(s[p]) != key(s[q]) else key(s[q]) != key(s[p]);
      }
    }
  }

  /** `slice::partition_point` on `s[from..]`: the binary search that finds where a monotone
      predicate turns false. */
  method PartitionPoint<T>(s: seq<T>, from: nat, pred: T -> bool) returns (n: nat)
    requires from <= |s|
    requires forall i, j :: from <= i < j < |s| && pred(s[j]) ==> pred(s[i])
    ensures from <= n <= |s|
    ensures forall i :: from <= i < n ==> pred(s[i])
    ensures forall i :: n <= i < |s| ==> !pred(s[i])
  {
    n := from;
    var hi := |s|;
    while n < hi
      invariant from <= n <= hi <= |s|
      invariant forall i :: from <= i < n ==> pred(s[i])
      invariant forall i :: hi <= i < |s| ==> !pred(s[i])
    {
      var mid := n + (hi - n) / 2;
      if pred(s[mid]) {
        n := mid + 1;
      } else {
        hi := mid;
      }
    }
  }
}
