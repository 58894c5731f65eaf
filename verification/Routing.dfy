/** Sharding (crates/router/src/routing.rs and the partition loops of crates/router/src/router.rs):
    jump consistent hash, after Lamping and Veach, "A Fast, Minimal Memory, Consistent Hash
    Algorithm". */
module Routing {
  import opened Base

  const U64_END: nat := 0x1_0000_0000_0000_0000
  const MULTIPLIER: nat := 2862933555777941757

  /** The linear congruential step on the key. */
  function NextKey(k: u64): u64 {
    (k * MULTIPLIER + 1) % U64_END
  }

  /** `k >> 33`: the top 31 bits. */
  function Draw(k: u64): (r: nat)
    ensures r < 0x8000_0000
  {
    k / 0x2_0000_0000
  }

  /** The next bucket tried after `b`; the quotient is taken exactly, and is at least b + 1. */
  function NextJump(b: nat, k: u64): (j: nat)
    ensures j > b
  {
    QuotientAtLeast((b + 1) * 0x8000_0000, Draw(k) + 1, b + 1);
    Ordered(b + 1, Draw(k) + 1, 0x8000_0000);
    (b + 1) * 0x8000_0000 / (Draw(k) + 1)
  }

  lemma Ordered(n: nat, c: nat, d: nat)
    requires c <= d
    ensures n * c <= n * d
  {
  }

  lemma QuotientAtLeast(x: nat, d: nat, n: nat)
    requires d > 0
    ensures x / d >= n <==> n * d <= x
  {
    var q, r := x / d, x % d;
    assert x == q * d + r;
    if q >= n {
      Ordered(d, n, q);
    } else {
      Ordered(d, q + 1, n);
      assert (q + 1) * d == q * d + d;
    }
  }

  /** The jumps from bucket `b` on, `j` being the bucket to try next. */
  function JumpFrom(k: u64, b: int, j: nat, n: nat): int
    decreases n - j
  {
    if j < n then JumpFrom(NextKey(k), j, NextJump(j, NextKey(k)), n) else b
  }

  /** `b as u32`: with no bucket at all, -1 becomes the largest `u32`. */
  function Jump(key: u64, n: u32): u32 {
    JumpFrom(key, -1, 0, n) % 0x1_0000_0000
  }

  /** The walk of a key over n buckets, without the quotient: keys[i + 1] follows keys[i], and the draw
      it gives takes the walk from bucket bs[i] to bs[i + 1], the last one past the end. */
  ghost predicate IsWalk(key: u64, n: nat, keys: seq<u64>, bs: seq<nat>) {
    && bs != [] && |keys| == |bs| + 1 && keys[0] == key && bs[0] == 0
    && (forall i :: 0 <= i < |bs| ==> bs[i] < n && Follows(keys[i], keys[i + 1]))
    && (forall i :: 0 <= i < |bs| - 1 ==> Leads(bs[i], keys[i + 1], bs[i + 1]))
    && n * (keys[|bs|] / 0x2_0000_0000 + 1) <= (bs[|bs| - 1] + 1) * 0x8000_0000
  }

  ghost predicate Follows(k: u64, k': u64) {
    (k * 2862933555777941757 + 1 - k') % 0x1_0000_0000_0000_0000 == 0
  }

  ghost predicate Leads(b: nat, k: u64, j: nat) {
    var d := k / 0x2_0000_0000 + 1;
    j * d <= (b + 1) * 0x8000_0000 < (j + 1) * d
  }

  method JumpConsistentHash(key: u64, numBuckets: u32) returns (r: u32)
    ensures r == Jump(key, numBuckets)
    ensures numBuckets == 0 ==> r == 0xFFFF_FFFF
    ensures numBuckets > 0 ==> r < numBuckets
    ensures numBuckets > 0 ==> exists keys, bs :: IsWalk(key, numBuckets, keys, bs) && r == bs[|bs| - 1]
  {
    var k := key;
    var b: int, j: nat := -1, 0;
    JumpInRange(key, -1, 0, numBuckets);
    while j < numBuckets
      invariant JumpFrom(k, b, j, numBuckets) == JumpFrom(key, -1, 0, numBuckets)
      invariant b < j && -1 <= b < numBuckets
    {
      b := j;
      k := NextKey(k);
      j := NextJump(b, k);
    }
    r := b % 0x1_0000_0000;
    if numBuckets > 0 {
      ghost var keys, bs := JumpIsWalk(key, numBuckets);
    }
  }

  lemma NextFollows(k: u64)
    ensures Follows(k, NextKey(k))
  {
    var x := k * 2862933555777941757 + 1;
    var q := x / U64_END;
    assert x - NextKey(k) == q * U64_END;
    MultipleOf(q, U64_END);
  }

  lemma MultipleOf(q: int, m: nat)
    requires m > 0
    ensures (q * m) % m == 0
  {
    var d, r := (q * m) / m, (q * m) % m;
    assert q * m == d * m + r;
    assert (q - d) * m == r;
    NotBetween(q - d, m, r);
  }

  /** No multiple of m but 0 lies between -m and m. */
  lemma NotBetween(c: int, m: nat, r: int)
    requires c * m == r && -(m as int) < r < m
    ensures r == 0
  {
    if c >= 1 {
      AtLeastOne(c, m);
    } else if c <= -1 {
      AtLeastOne(-c, m);
    }
  }

  lemma AtLeastOne(c: int, m: nat)
    requires c >= 1
    ensures c * m >= m
  {
  }

  /** The next key takes the walk to n or past it if and only if its draw is small enough. */
  lemma JumpReachesIff(b: nat, k: u64, n: nat)
    ensures NextJump(b, k) >= n <==> n * (k / 0x2_0000_0000 + 1) <= (b + 1) * 0x8000_0000
  {
    QuotientAtLeast((b + 1) * 0x8000_0000, Draw(k) + 1, n);
  }

  lemma NextLeads(b: nat, k: u64)
    ensures Leads(b, k, NextJump(b, k))
  {
    hide NextJump;
    JumpReachesIff(b, k, NextJump(b, k));
    JumpReachesIff(b, k, NextJump(b, k) + 1);
  }

  /** From the middle of a walk: the rest of it. */
  lemma {:induction false} RestOfWalk(k: u64, b: int, j: nat, n: nat) returns (keys: seq<u64>, bs: seq<nat>)
    requires j < n
    ensures bs != [] && |keys| == |bs| + 1 && keys[0] == k && bs[0] == j
    ensures forall i :: 0 <= i < |bs| ==> bs[i] < n && Follows(keys[i], keys[i + 1])
    ensures forall i :: 0 <= i < |bs| - 1 ==> Leads(bs[i], keys[i + 1], bs[i + 1])
    ensures n * (keys[|bs|] / 0x2_0000_0000 + 1) <= (bs[|bs| - 1] + 1) * 0x8000_0000
    ensures JumpFrom(k, b, j, n) == bs[|bs| - 1]
    decreases n - j
  {
    hide Follows, Leads, NextKey, NextJump;
    var k' := NextKey(k);
    var j' := NextJump(j, k');
    NextFollows(k);
    NextLeads(j, k');
    JumpReachesIff(j, k', n);
    if j' < n {
      var restKeys, rest := RestOfWalk(k', j, j', n);
      keys, bs := [k] + restKeys, [j] + rest;
    } else {
      keys, bs := [k, k'], [j];
    }
  }

  /** The bucket is the last one of the walk. */
  lemma JumpIsWalk(key: u64, n: u32) returns (keys: seq<u64>, bs: seq<nat>)
    requires n > 0
    ensures IsWalk(key, n, keys, bs) && Jump(key, n) == bs[|bs| - 1]
  {
    hide Follows, Leads;
    keys, bs := RestOfWalk(key, -1, 0, n);
  }

  // ---- no draw is lost -------------------------------------------------------------------

  /** What undoes the multiplication modulo 2^64, and the multiple of 2^64 that is over. */
  const UNDO: nat := 16133697096952638549
  const OVER: nat := 2503948805982125087

  /** The step on the key is one to one. */
  lemma NextKeyInjective(k: u64, k': u64)
    requires NextKey(k) == NextKey(k')
    ensures k == k'
  {
    var x, x' := k * MULTIPLIER + 1, k' * MULTIPLIER + 1;
    var q := x / U64_END - x' / U64_END;
    assert x - x' == q * U64_END;
    assert (k - k') * MULTIPLIER == q * U64_END;
    Undone(k - k', MULTIPLIER, UNDO, q, U64_END, OVER);
    NotBetween(q * UNDO - (k - k') * OVER, U64_END, k - k');
  }

  lemma Undone(d: int, m: nat, u: nat, q: int, e: nat, c: nat)
    requires d * m == q * e && m * u == c * e + 1
    ensures (q * u - d * c) * e == d
  {
    calc {
      (q * u - d * c) * e;
      (q * e) * u - d * (c * e);
      (d * m) * u - d * (c * e);
      d * (m * u) - d * (c * e);
      d * (m * u - c * e);
      d;
    }
  }

  // ---- balance ---------------------------------------------------------------------------

  function Below(m: nat): (s: set<nat>)
    ensures |s| == m && forall r :: r in s <==> 0 <= r < m
  {
    if m == 0 then {} else Below(m - 1) + {m - 1}
  }

  /** Draw r takes a key from bucket b to n or past it. */
  ghost predicate Moves(b: nat, n: nat, r: nat) {
    n * (r + 1) <= (b + 1) * 0x8000_0000
  }

  /** How many of the 2^31 draws take a key from bucket b to n or past it. */
  function Moving(b: nat, n: nat): nat
    requires n > b
  {
    (b + 1) * 0x8000_0000 / n
  }

  lemma MovingIsShare(b: nat, n: nat)
    requires n > b
    ensures Moving(b, n) <= 0x8000_0000
  {
    QuotientAtLeast((b + 1) * 0x8000_0000, n, 0x8000_0001);
    Ordered(0x8000_0000, b + 1, n);
  }

  lemma DrawMovesIff(b: nat, n: nat, r: nat)
    requires n > b
    ensures Moves(b, n, r) <==> r < Moving(b, n)
  {
    QuotientAtLeast((b + 1) * 0x8000_0000, n, r + 1);
  }

  /** The keys that move are the lowest ones. */
  lemma KeyMovesIff(b: nat, n: nat, k: u64)
    requires n > b
    ensures NextJump(b, k) >= n <==> k < Moving(b, n) * 0x2_0000_0000
  {
    hide NextJump, Moving;
    JumpReachesIff(b, k, n);
    DrawMovesIff(b, n, k / 0x2_0000_0000);
    QuotientAtLeast(k, 0x2_0000_0000, Moving(b, n));
  }

  /** Of the 2^31 draws, and likewise of the 2^64 keys, the share (b + 1) / n, rounded down to whole
      draws, takes a key at bucket b to n or past it. */
  lemma ShareThatMoves(b: nat, n: nat)
    requires n > b
    ensures |set r | r in Below(0x8000_0000) && Moves(b, n, r)| == (b + 1) * 0x8000_0000 / n
    ensures |set k: u64 | NextJump(b, k) >= n| == ((b + 1) * 0x8000_0000 / n) * 0x2_0000_0000
  {
    DrawsThatMove(b, n);
    KeysThatMove(b, n);
  }

  lemma DrawsThatMove(b: nat, n: nat)
    requires n > b
    ensures (set r | r in Below(0x8000_0000) && Moves(b, n, r)) == Below(Moving(b, n))
  {
    MovingIsShare(b, n);
    hide Moving, Moves, Below;
    forall r: nat
      ensures Moves(b, n, r) <==> r < Moving(b, n)
    {
      DrawMovesIff(b, n, r);
    }
  }

  lemma KeysThatMove(b: nat, n: nat)
    requires n > b
    ensures (set k: u64 | NextJump(b, k) >= n) == Below(Moving(b, n) * 0x2_0000_0000)
  {
    MovingIsShare(b, n);
    hide Moving, NextJump, Below;
    forall k: u64
      ensures NextJump(b, k) >= n <==> k < Moving(b, n) * 0x2_0000_0000
    {
      KeyMovesIff(b, n, k);
    }
  }

  // ---- equal shares ----------------------------------------------------------------------

  /** The share of a bucket's keys that the next draw takes to n or past it, before rounding. */
  function Passing(b: nat, n: nat): real
    requires n > b
  {
    (b + 1) as real / n as real
  }

  /** The share of all keys whose walk comes by bucket m, when draws are independent. */
  function Visiting(m: nat): real
    decreases m, m + 1
  {
    if m == 0 then 1.0 else Arriving(m, m)
  }

  /** The part of it that comes straight from one of the first `upTo` buckets. */
  function Arriving(m: nat, upTo: nat): real
    requires upTo <= m
    decreases m, upTo
  {
    if upTo == 0 then 0.0
    else Arriving(m, upTo - 1) + Visiting(upTo - 1) * (Passing(upTo - 1, m) - Passing(upTo - 1, m + 1))
  }

  lemma {:induction false} VisitingIs(m: nat)
    ensures Visiting(m) == 1.0 / (m + 1) as real
    decreases m, m + 1
  {
    if m > 0 {
      ArrivingIs(m, m);
      Cancel(m);
    }
  }

  lemma Cancel(m: nat)
    requires m > 0
    ensures m as real * (1.0 / m as real - 1.0 / (m + 1) as real) == 1.0 / (m + 1) as real
  {
  }

  lemma {:induction false} ArrivingIs(m: nat, upTo: nat)
    requires upTo <= m && m > 0
    ensures Arriving(m, upTo) == upTo as real * (1.0 / m as real - 1.0 / (m + 1) as real)
    decreases m, upTo
  {
    if upTo > 0 {
      ArrivingIs(m, upTo - 1);
      VisitingIs(upTo - 1);
      hide Visiting;
      OneStep(upTo, m);
    }
  }

  lemma OneStep(b: nat, m: nat)
    requires 0 < b <= m
    ensures (1.0 / b as real) * (b as real / m as real - b as real / (m + 1) as real) ==
            1.0 / m as real - 1.0 / (m + 1) as real
  {
  }

  /** Each of n buckets keeps the same share of the keys, 1 / n. */
  lemma EqualShares(b: nat, n: nat)
    requires b < n
    ensures Visiting(b) * Passing(b, n) == 1.0 / n as real
  {
    VisitingIs(b);
  }

  lemma {:induction false} JumpInRange(k: u64, b: int, j: nat, n: nat)
    ensures j < n ==> 0 <= JumpFrom(k, b, j, n) < n
    ensures b < n ==> JumpFrom(k, b, j, n) < n
    decreases n - j
  {
    if j < n {
      JumpInRange(NextKey(k), j, NextJump(j, NextKey(k)), n);
      assert JumpFrom(NextKey(k), j, NextJump(j, NextKey(k)), n) >= j by {
        JumpNotBelow(NextKey(k), j, NextJump(j, NextKey(k)), n);
      }
    }
  }

  lemma {:induction false} JumpNotBelow(k: u64, b: int, j: nat, n: nat)
    requires b < j
    ensures JumpFrom(k, b, j, n) >= b
    decreases n - j
  {
    if j < n {
      JumpNotBelow(NextKey(k), j, NextJump(j, NextKey(k)), n);
    }
  }

  /** From any point of the walk: with more buckets, stay or land on a new one. */
  lemma {:induction false} WalkConsistent(k: u64, b: int, j: nat, n: nat, m: nat)
    requires b < j && n <= m
    ensures JumpFrom(k, b, j, m) == JumpFrom(k, b, j, n) || JumpFrom(k, b, j, m) >= n
    decreases n - j
  {
    if j < n {
      WalkConsistent(NextKey(k), j, NextJump(j, NextKey(k)), n, m);
    } else if j < m {
      JumpNotBelow(NextKey(k), j, NextJump(j, NextKey(k)), m);
    }
  }

  /** Growing the cluster from n to m buckets leaves a key where it is or moves it to a new
      bucket; adding one bucket moves it, if at all, to that bucket. */
  lemma JumpConsistent(key: u64, n: u32, m: u32)
    requires 0 < n <= m
    ensures Jump(key, m) == Jump(key, n) || n <= Jump(key, m) < m
    ensures m == n + 1 ==> Jump(key, m) == Jump(key, n) || Jump(key, m) == n
  {
    JumpInRange(key, -1, 0, n);
    JumpInRange(key, -1, 0, m);
    WalkConsistent(key, -1, 0, n, m);
  }

  // ---- partitioning a batch --------------------------------------------------------------

  /** The documents of a batch that belong to one shard, in the batch's order. */
  function OfShard<D>(docs: seq<D>, id: D -> u64, n: u32, shard: nat): seq<D> {
    if docs == [] then [] else
      OfShard(docs[..|docs| - 1], id, n, shard)
      + if Jump(id(docs[|docs| - 1]), n) == shard then [docs[|docs| - 1]] else []
  }

  /** Each document, if it belongs to the shard. */
  function Routed<D>(docs: seq<D>, id: D -> u64, n: u32, shard: nat): seq<Option<D>> {
    seq(|docs|, i requires 0 <= i < |docs| => if Jump(id(docs[i]), n) == shard then Some(docs[i]) else None)
  }

  /** A part is those of its documents, in the batch's order. */
  lemma {:induction false} OfShardIs<D>(docs: seq<D>, id: D -> u64, n: u32, shard: nat)
    ensures OfShard(docs, id, n, shard) == Answers(Routed(docs, id, n, shard))
  {
    hide Jump;
    if docs != [] {
      OfShardIs(docs[..|docs| - 1], id, n, shard);
      assert Routed(docs, id, n, shard)[..|docs| - 1] == Routed(docs[..|docs| - 1], id, n, shard);
    }
  }

  /** The grouping loop of `bulk_index` and of `fetch_docs`; the router has at least one shard. */
  method Partition<D>(docs: seq<D>, id: D -> u64, n: u32) returns (byShard: seq<seq<D>>)
    requires n > 0
    ensures |byShard| == n && forall s :: 0 <= s < n ==> byShard[s] == OfShard(docs, id, n, s)
  {
    byShard := seq(n, _ => []);
    for i := 0 to |docs|
      invariant |byShard| == n && forall s :: 0 <= s < n ==> byShard[s] == OfShard(docs[..i], id, n, s)
    {
      assert docs[..i + 1][..i] == docs[..i];
      var s := JumpConsistentHash(id(docs[i]), n);
      byShard := byShard[s := byShard[s] + [docs[i]]];
    }
    assert docs[..|docs|] == docs;
  }

  function Parts<D>(docs: seq<D>, id: D -> u64, n: u32, upTo: nat): seq<seq<D>> {
    seq(upTo, s requires 0 <= s < upTo => OfShard(docs, id, n, s))
  }

  lemma ConcatLast<D>(docs: seq<D>, id: D -> u64, n: u32, upTo: nat)
    requires upTo > 0
    ensures Concat(Parts(docs, id, n, upTo)) == Concat(Parts(docs, id, n, upTo - 1)) + OfShard(docs, id, n, upTo - 1)
  {
    assert Parts(docs, id, n, upTo)[..upTo - 1] == Parts(docs, id, n, upTo - 1);
  }

  lemma OfShardSnoc<D>(docs: seq<D>, d: D, id: D -> u64, n: u32, s: nat)
    ensures OfShard(docs + [d], id, n, s) == OfShard(docs, id, n, s) + if Jump(id(d), n) == s then [d] else []
  {
    assert (docs + [d])[..|docs|] == docs;
  }

  /** What the first `upTo` parts gain from one more document. */
  function Gain<D>(d: D, id: D -> u64, n: u32, upTo: nat): seq<D> {
    if Jump(id(d), n) < upTo then [d] else []
  }

  lemma GainNext<D>(docs: seq<D>, d: D, id: D -> u64, n: u32, s: nat)
    ensures exists x ::
              OfShard(docs + [d], id, n, s) == OfShard(docs, id, n, s) + x
              && Gain(d, id, n, s + 1) == Gain(d, id, n, s) + x
  {
    var x := if Jump(id(d), n) == s then [d] else [];
    OfShardSnoc(docs, d, id, n, s);
    assert Gain(d, id, n, s + 1) == Gain(d, id, n, s) + x;
  }

  /** Adding one document to the batch adds it to exactly one part. */
  lemma {:induction false} PartsGain<D(!new)>(docs: seq<D>, d: D, id: D -> u64, n: u32, upTo: nat)
    ensures multiset(Concat(Parts(docs + [d], id, n, upTo))) ==
              multiset(Concat(Parts(docs, id, n, upTo)) + Gain(d, id, n, upTo))
  {
    if upTo > 0 {
      hide *;
      PartsGain(docs, d, id, n, upTo - 1);
      ConcatLast(docs, id, n, upTo);
      ConcatLast(docs + [d], id, n, upTo);
      GainNext(docs, d, id, n, upTo - 1);
      var x :| OfShard(docs + [d], id, n, upTo - 1) == OfShard(docs, id, n, upTo - 1) + x
               && Gain(d, id, n, upTo) == Gain(d, id, n, upTo - 1) + x;
      AppendGain(Concat(Parts(docs, id, n, upTo - 1)), Concat(Parts(docs + [d], id, n, upTo - 1)),
                 OfShard(docs, id, n, upTo - 1), x, Gain(d, id, n, upTo - 1));
    }
  }

  lemma AppendGain<D>(a: seq<D>, a': seq<D>, o: seq<D>, x: seq<D>, g: seq<D>)
    requires multiset(a') == multiset(a + g)
    ensures multiset(a' + (o + x)) == multiset((a + o) + (g + x))
  {
  }

  lemma {:induction false} PartsEmpty<D>(id: D -> u64, n: u32, upTo: nat)
    ensures Concat(Parts([], id, n, upTo)) == []
  {
    if upTo > 0 {
      PartsEmpty(id, n, upTo - 1);
      assert Parts([], id, n, upTo)[..upTo - 1] == Parts([], id, n, upTo - 1);
    }
  }

  /** Nothing is lost or doubled by partitioning. */
  lemma {:induction false} PartitionConserves<D(!new)>(docs: seq<D>, id: D -> u64, n: u32)
    requires n > 0
    ensures multiset(Concat(Parts(docs, id, n, n))) == multiset(docs)
  {
    if docs == [] {
      PartsEmpty(id, n, n);
    } else {
      var front, d := docs[..|docs| - 1], docs[|docs| - 1];
      assert docs == front + [d];
      JumpInRange(id(d), -1, 0, n);
      assert Gain(d, id, n, n) == [d];
      hide *;
      PartitionConserves(front, id, n);
      PartsGain(front, d, id, n, n);
    }
  }

  /** A document indexed through the router is asked for at the shard that holds it: the part it
      was put in is the part its identifier is put in. */
  lemma {:induction false} FetchFindsShard<D>(docs: seq<D>, id: D -> u64, n: u32, d: D)
    requires n > 0 && d in docs
    ensures d in OfShard(docs, id, n, Jump(id(d), n))
    ensures [id(d)] == OfShard([id(d)], (x: u64) => x, n, Jump(id(d), n))
  {
    var last := docs[|docs| - 1];
    if d in docs[..|docs| - 1] {
      FetchFindsShard(docs[..|docs| - 1], id, n, d);
    } else {
      assert d == last;
    }
    assert [id(d)][..0] == [];
  }
}
