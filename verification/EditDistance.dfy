/** The edit distance of crates/query/src/executor.rs: the table-filling loop, and a proof that its
    shortcut recurrence (on equal characters take the diagonal, with no minimum) gives the least
    number of single-character insertions, deletions and substitutions. */
module EditDistance {
  import opened Base

  /** The recurrence of the table, on whole prefixes. */
  function Distance(s: string, t: string): nat
    decreases |s| + |t|
  {
    if s == [] then |t|
    else if t == [] then |s|
    else
      var s', t' := s[..|s| - 1], t[..|t| - 1];
      if s[|s| - 1] == t[|t| - 1] then Distance(s', t')
      else 1 + Min(Min(Distance(s', t), Distance(s, t')), Distance(s', t'))
  }

  method EditDistance(a: string, b: string) returns (d: nat)
    ensures d == Distance(a, b)
  {
    hide Distance;
    Edges(a, b);
    var m, n := |a|, |b|;
    var dp := new nat[m + 1, n + 1]((_, _) => 0);
    for i := 0 to m + 1
      invariant forall k :: 0 <= k < i ==> dp[k, 0] == k
    {
      dp[i, 0] := i;
    }
    for j := 0 to n + 1
      invariant forall k :: 0 <= k <= m ==> dp[k, 0] == k
      invariant forall k :: 0 <= k < j ==> dp[0, k] == k
    {
      dp[0, j] := j;
    }
    for i := 1 to m + 1
      invariant forall k :: 0 <= k <= m ==> dp[k, 0] == k
      invariant forall k, l :: 0 <= k < i && 0 <= l <= n ==> dp[k, l] == Distance(a[..k], b[..l])
    {
      for j := 1 to n + 1
        invariant forall k :: 0 <= k <= m ==> dp[k, 0] == k
        invariant forall k, l :: 0 <= k < i && 0 <= l <= n ==> dp[k, l] == Distance(a[..k], b[..l])
        invariant forall l :: 0 <= l < j ==> dp[i, l] == Distance(a[..i], b[..l])
      {
        Cell(a, b, i, j);
        dp[i, j] := if a[i - 1] == b[j - 1] then dp[i - 1, j - 1]
                    else 1 + Min(Min(dp[i - 1, j], dp[i, j - 1]), dp[i - 1, j - 1]);
      }
    }
    assert a[..m] == a && b[..n] == b;
    d := dp[m, n];
  }

  lemma Edges(a: string, b: string)
    ensures forall k :: 0 <= k <= |a| ==> Distance(a[..k], b[..0]) == k
    ensures forall l :: 0 <= l <= |b| ==> Distance(a[..0], b[..l]) == l
  {
  }

  lemma Cell(a: string, b: string, i: nat, j: nat)
    requires 0 < i <= |a| && 0 < j <= |b|
    ensures Distance(a[..i], b[..j]) ==
            if a[i - 1] == b[j - 1] then Distance(a[..i - 1], b[..j - 1])
            else 1 + Min(Min(Distance(a[..i - 1], b[..j]), Distance(a[..i], b[..j - 1])),
                         Distance(a[..i - 1], b[..j - 1]))
  {
    assert a[..i][..i - 1] == a[..i - 1] && b[..j][..j - 1] == b[..j - 1];
  }

  // ---- edits -----------------------------------------------------------------------------

  datatype Edit = Insert(at: nat, c: char) | Delete(at: nat) | Substitute(at: nat, c: char)

  predicate Applies(e: Edit, s: string) {
    match e
    case Insert(at, _) => at <= |s|
    case Delete(at) => at < |s|
    case Substitute(at, _) => at < |s|
  }

  function Apply(e: Edit, s: string): string
    requires Applies(e, s)
  {
    match e
    case Insert(at, c) => s[..at] + [c] + s[at..]
    case Delete(at) => s[..at] + s[at + 1..]
    case Substitute(at, c) => s[..at] + [c] + s[at + 1..]
  }

  /** `es`, carried out in order, turns `s` into `t`. */
  predicate Script(es: seq<Edit>, s: string, t: string) {
    if es == [] then s == t
    else Applies(es[0], s) && Script(es[1..], Apply(es[0], s), t)
  }

  // ---- no script is shorter --------------------------------------------------------------

  lemma {:induction false} Symmetric(s: string, t: string)
    ensures Distance(s, t) == Distance(t, s)
    decreases |s| + |t|
  {
    if s != [] && t != [] {
      var s', t' := s[..|s| - 1], t[..|t| - 1];
      Symmetric(s', t');
      Symmetric(s', t);
      Symmetric(s, t');
    }
  }

  /** One more character changes the distance by at most one. */
  lemma {:induction false} AppendOne(s: string, c: char, t: string)
    ensures Distance(s + [c], t) <= Distance(s, t) + 1
    ensures Distance(s, t) <= Distance(s + [c], t) + 1
    decreases |s| + |t|
  {
    assert (s + [c])[..|s|] == s;
    if t != [] {
      var t', d := t[..|t| - 1], t[|t| - 1];
      assert t == t' + [d];
      AppendOne(s, c, t');
      AppendOne(t', d, s);
      Symmetric(s, t');
      Symmetric(s, t);
    }
  }

  /** The minimum that the equal-character branch omits would never be smaller. */
  lemma Diagonal(s: string, c: char, t: string, d: char)
    ensures Distance(s + [c], t + [d]) <= Distance(s, t) + if c == d then 0 else 1
    ensures Distance(s + [c], t + [d]) <= Distance(s, t + [d]) + 1
    ensures Distance(s + [c], t + [d]) <= Distance(s + [c], t) + 1
  {
    assert (s + [c])[..|s|] == s && (t + [d])[..|t|] == t;
    AppendOne(s, c, t + [d]);
    AppendOne(t, d, s + [c]);
    Symmetric(s + [c], t);
    Symmetric(s + [c], t + [d]);
  }

  /** Replacing at most one character by at most one character, anywhere, changes the distance by
      at most one. */
  lemma {:induction false} OneChange(p: string, u: string, v: string, q: string, t: string)
    requires |u| <= 1 && |v| <= 1
    ensures Distance(p + u + q, t) <= Distance(p + v + q, t) + 1
    decreases |q| + |t|
  {
    if q == [] {
      assert p + u + q == p + u && p + v + q == p + v;
      ChangeLast(p, u, v, t);
    } else if t != [] {
      var q', z := q[..|q| - 1], q[|q| - 1];
      var t', d := t[..|t| - 1], t[|t| - 1];
      assert p + u + q == (p + u + q') + [z] && p + v + q == (p + v + q') + [z];
      assert t == t' + [d];
      assert ((p + v + q') + [z])[..|p + v + q'|] == p + v + q';
      OneChange(p, u, v, q', t');
      OneChange(p, u, v, q', t);
      OneChange(p, u, v, q, t');
      Diagonal(p + u + q', z, t', d);
    }
  }

  lemma {:induction false} ChangeLast(p: string, u: string, v: string, t: string)
    requires |u| <= 1 && |v| <= 1
    ensures Distance(p + u, t) <= Distance(p + v, t) + 1
    decreases |t|
  {
    if u == [] {
      assert p + u == p;
      if v == [] {
        assert p + v == p;
      } else {
        assert p + v == p + [v[0]];
        AppendOne(p, v[0], t);
      }
    } else {
      assert p + u == p + [u[0]];
      if v == [] {
        assert p + v == p;
        AppendOne(p, u[0], t);
      } else if t != [] {
        assert p + v == p + [v[0]];
        var t', d := t[..|t| - 1], t[|t| - 1];
        assert t == t' + [d] && (p + [v[0]])[..|p|] == p;
        Diagonal(p, u[0], t', d);
        ChangeLast(p, u, v, t');
      }
    }
  }

  lemma EditChangesLittle(e: Edit, s: string, t: string)
    requires Applies(e, s)
    ensures Distance(s, t) <= Distance(Apply(e, s), t) + 1
  {
    var at := e.at;
    match e
    case Insert(_, c) =>
      assert s == s[..at] + [] + s[at..];
      OneChange(s[..at], [], [c], s[at..], t);
    case Delete(_) =>
      assert s == s[..at] + [s[at]] + s[at + 1..];
      assert s[..at] + [] + s[at + 1..] == s[..at] + s[at + 1..];
      OneChange(s[..at], [s[at]], [], s[at + 1..], t);
    case Substitute(_, c) =>
      assert s == s[..at] + [s[at]] + s[at + 1..];
      OneChange(s[..at], [s[at]], [c], s[at + 1..], t);
  }

  lemma {:induction false} SameIsZero(s: string)
    ensures Distance(s, s) == 0
  {
    if s != [] {
      SameIsZero(s[..|s| - 1]);
    }
  }

  lemma {:induction false} NoShorterScript(es: seq<Edit>, s: string, t: string)
    requires Script(es, s, t)
    ensures Distance(s, t) <= |es|
  {
    if es == [] {
      SameIsZero(s);
    } else {
      NoShorterScript(es[1..], Apply(es[0], s), t);
      EditChangesLittle(es[0], s, t);
    }
  }

  // ---- some script is as short -----------------------------------------------------------

  lemma {:induction false} ScriptThen(a: seq<Edit>, b: seq<Edit>, s: string, m: string, t: string)
    requires Script(a, s, m) && Script(b, m, t)
    ensures Script(a + b, s, t)
  {
    if a == [] {
      assert a + b == b;
    } else {
      assert (a + b)[1..] == a[1..] + b;
      ScriptThen(a[1..], b, Apply(a[0], s), m, t);
    }
  }

  /** A script works the same with one more character at the end of both strings. */
  lemma {:induction false} ScriptBefore(es: seq<Edit>, s: string, t: string, c: char)
    requires Script(es, s, t)
    ensures Script(es, s + [c], t + [c])
  {
    if es != [] {
      assert Apply(es[0], s + [c]) == Apply(es[0], s) + [c];
      ScriptBefore(es[1..], Apply(es[0], s), t, c);
    }
  }

  lemma {:induction false} ShortestScript(s: string, t: string) returns (es: seq<Edit>)
    ensures Script(es, s, t) && |es| == Distance(s, t)
    decreases |s| + |t|
  {
    if s == [] && t == [] {
      es := [];
    } else if t == [] || (s != [] && LastIsDelete(s, t)) {
      var s' := s[..|s| - 1];
      assert Apply(Delete(|s| - 1), s) == s';
      es := ShortestScript(s', t);
      es := [Delete(|s| - 1)] + es;
    } else if s == [] || LastIsInsert(s, t) {
      var t' := t[..|t| - 1];
      assert Apply(Insert(|t'|, t[|t'|]), t') == t;
      es := ShortestScript(s, t');
      ScriptThen(es, [Insert(|t'|, t[|t'|])], s, t', t);
      es := es + [Insert(|t'|, t[|t'|])];
    } else {
      es := MatchLast(s, t);
    }
  }

  predicate LastIsDelete(s: string, t: string)
    requires s != [] && t != []
  {
    s[|s| - 1] != t[|t| - 1] && Distance(s, t) == 1 + Distance(s[..|s| - 1], t)
  }

  predicate LastIsInsert(s: string, t: string)
    requires s != [] && t != []
  {
    s[|s| - 1] != t[|t| - 1] && Distance(s, t) == 1 + Distance(s, t[..|t| - 1])
  }

  lemma {:induction false} MatchLast(s: string, t: string) returns (es: seq<Edit>)
    requires s != [] && t != [] && !LastIsDelete(s, t) && !LastIsInsert(s, t)
    ensures Script(es, s, t) && |es| == Distance(s, t)
    decreases |s| + |t|, 0
  {
    var s', x := s[..|s| - 1], s[|s| - 1];
    var t', y := t[..|t| - 1], t[|t| - 1];
    LastIsMatch(s, t);
    hide *;
    assert s == s' + [x] && t == t' + [y];
    es := ShortestScript(s', t');
    ScriptBefore(es, s', t', x);
    if x != y {
      SubstituteLast(t', x, y);
      ScriptThen(es, [Substitute(|t'|, y)], s' + [x], t' + [x], t' + [y]);
      es := es + [Substitute(|t'|, y)];
    }
  }

  lemma LastIsMatch(s: string, t: string)
    requires s != [] && t != [] && !LastIsDelete(s, t) && !LastIsInsert(s, t)
    ensures Distance(s, t) == Distance(s[..|s| - 1], t[..|t| - 1]) + if s[|s| - 1] == t[|t| - 1] then 0 else 1
  {
  }

  lemma SubstituteLast(t: string, x: char, y: char)
    ensures Script([Substitute(|t|, y)], t + [x], t + [y])
  {
    assert Apply(Substitute(|t|, y), t + [x]) == t + [y];
  }

  // ---- what follows ----------------------------------------------------------------------

  /** The computed distance is the least length of any edit script. */
  lemma DistanceIsLeast(s: string, t: string)
    ensures exists es :: Script(es, s, t) && |es| == Distance(s, t)
    ensures forall es :: Script(es, s, t) ==> Distance(s, t) <= |es|
  {
    var es := ShortestScript(s, t);
    forall es' | Script(es', s, t)
      ensures Distance(s, t) <= |es'|
    {
      NoShorterScript(es', s, t);
    }
  }

  lemma ZeroOnlyOnEqual(s: string, t: string)
    ensures Distance(s, t) == 0 <==> s == t
  {
    SameIsZero(s);
    var es := ShortestScript(s, t);
  }

  lemma Triangle(s: string, m: string, t: string)
    ensures Distance(s, t) <= Distance(s, m) + Distance(m, t)
  {
    var a := ShortestScript(s, m);
    var b := ShortestScript(m, t);
    ScriptThen(a, b, s, m, t);
    NoShorterScript(a + b, s, t);
  }
}
