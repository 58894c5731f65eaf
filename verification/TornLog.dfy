/** A log whose last append was torn (crates/shard/src/wal.rs): `open` keeps the torn bytes, later
    appends go behind them, and what a later read makes of that. */
module TornLog {
  import opened Base
  import opened Bytes
  import opened Documents
  import opened Wal

  // ---- whole records, then anything ------------------------------------------------------

  lemma FrameShift(pre: seq<byte>, tail: seq<byte>, off: nat)
    ensures FrameAt(pre + tail, |pre| + off) == FrameAt(tail, off)
  {
    var all := pre + tail;
    if off + 4 <= |tail| {
      assert all[|pre| + off..|pre| + off + 4] == tail[off..off + 4];
      var len := FromLe(tail[off..off + 4]);
      if off + 4 + len <= |tail| {
        assert all[|pre| + off + 4..|pre| + off + 4 + len] == tail[off + 4..off + 4 + len];
      }
    }
  }

  lemma {:induction false} ReadShift(c: RecordSerde, pre: seq<byte>, tail: seq<byte>, off: nat)
    ensures ReadFrom(c, pre + tail, |pre| + off) == ReadFrom(c, tail, off)
    decreases |tail| - off
  {
    FrameShift(pre, tail, off);
    var frame := FrameAt(tail, off);
    if frame.Some? && c.decode(frame.value).Some? {
      ReadShift(c, pre, tail, off + 4 + |frame.value|);
    }
  }

  lemma LogThen(c: RecordSerde, rs: seq<WalRecord>, tail: seq<byte>, k: nat)
    requires k < |rs| && Fits(c, rs)
    ensures FrameAt(LogBytes(c, rs) + tail, |LogBytes(c, rs[..k])|) == Some(c.encode(rs[k]))
    ensures |LogBytes(c, rs[..k + 1])| == |LogBytes(c, rs[..k])| + 4 + |c.encode(rs[k])|
  {
    hide LogBytes, At, FrameAt, Frame;
    RecordAt(c, rs, k);
    assert (LogBytes(c, rs) + tail)[..|LogBytes(c, rs)|] == LogBytes(c, rs);
    FrameInFront(LogBytes(c, rs) + tail, LogBytes(c, rs), |LogBytes(c, rs[..k])|, c.encode(rs[k]));
  }

  lemma {:induction false} ReadThrough(c: RecordSerde, rs: seq<WalRecord>, tail: seq<byte>, k: nat)
    requires Inverse(c) && Fits(c, rs) && k <= |rs|
    ensures ReadFrom(c, LogBytes(c, rs) + tail, |LogBytes(c, rs[..k])|) == rs[k..] + ReadFrom(c, tail, 0)
    decreases |rs| - k
  {
    hide LogBytes, FrameAt, Fits;
    if k < |rs| {
      LogThen(c, rs, tail, k);
      ReadThrough(c, rs, tail, k + 1);
      assert [rs[k]] + rs[k + 1..] == rs[k..];
    } else {
      assert rs[..k] == rs && rs[k..] == [];
      ReadShift(c, LogBytes(c, rs), tail, 0);
    }
  }

  /** Reading goes through whole records and then reads what follows as if it stood alone. */
  lemma ReadLogThen(c: RecordSerde, rs: seq<WalRecord>, tail: seq<byte>)
    requires Inverse(c) && Fits(c, rs)
    ensures ReadFrom(c, LogBytes(c, rs) + tail, 0) == rs + ReadFrom(c, tail, 0)
  {
    hide *;
    ReadThrough(c, rs, tail, 0);
    assert rs[..0] == [] && rs[0..] == rs;
    EmptyLog(c);
  }

  lemma EmptyLog(c: RecordSerde)
    ensures LogBytes(c, []) == []
  {
  }

  // ---- appending behind a crash ----------------------------------------------------------

  /** Every batch appended to the file is read back behind the records already there. */
  ghost predicate ReadsBack(c: RecordSerde, file: seq<byte>, whole: seq<WalRecord>) {
    forall batch :: Fits(c, batch) ==> ReadFrom(c, file + LogBytes(c, batch), 0) == whole + batch
  }

  /** Whole records: every batch is read back. */
  lemma WholeReadsBack(c: RecordSerde, rs: seq<WalRecord>)
    requires Inverse(c) && Fits(c, rs)
    ensures ReadsBack(c, LogBytes(c, rs), rs)
  {
    hide LogBytes, ReadFrom, Fits, Inverse;
    forall batch | Fits(c, batch)
      ensures ReadFrom(c, LogBytes(c, rs) + LogBytes(c, batch), 0) == rs + batch
    {
      ReadLogThen(c, rs, LogBytes(c, batch));
      ReadWhole(c, batch);
    }
  }

  /** What lies behind the whole records is lost, with everything after it, if and only if no frame
      fits there or its body does not decode. */
  lemma TailLostIff(c: RecordSerde, rs: seq<WalRecord>, tail: seq<byte>)
    requires Inverse(c) && Fits(c, rs)
    ensures ReadFrom(c, LogBytes(c, rs) + tail, 0) == rs <==>
              FrameAt(tail, 0).None? || c.decode(FrameAt(tail, 0).value).None?
  {
    hide LogBytes, Inverse, Fits, FrameAt;
    ReadLogThen(c, rs, tail);
    assert |rs + ReadFrom(c, tail, 0)| == |rs| + |ReadFrom(c, tail, 0)|;
    assert ReadFrom(c, tail, 0) == [] ==> rs + ReadFrom(c, tail, 0) == rs;
  }

  // ---- what the torn length claims -------------------------------------------------------

  lemma AtLeastOnce(d: nat, x: int)
    requires x >= 1
    ensures d * x >= d
  {
  }

  lemma SmallMultiple(d: nat, x: int)
    requires d * x < d && d * -x < d
    ensures x == 0
  {
    if x >= 1 {
      AtLeastOnce(d, x);
    } else if x <= -1 {
      AtLeastOnce(d, -x);
    }
  }

  lemma Difference(d: nat, q: int, q': int, r: int, r': int)
    requires d * q + r == d * q' + r'
    ensures d * (q - q') == r' - r && d * -(q - q') == r - r'
  {
  }

  lemma DivModUnique(v: nat, d: nat, q: nat, r: nat)
    requires d > 0 && v == d * q + r && r < d
    ensures v % d == r
  {
    var q', r' := v / d, v % d;
    Difference(d, q, q', r, r');
    SmallMultiple(d, q - q');
  }

  lemma ModPeel(v: nat, p: nat)
    requires p > 0
    ensures v % (256 * p) == v % 256 + 256 * (v / 256 % p)
  {
    var w := v / 256;
    var q, r := w / p, w % p;
    assert w == p * q + r;
    assert v == 256 * (p * q + r) + v % 256;
    Regroup(p, q, r, v % 256);
    DivModUnique(v, 256 * p, q, 256 * r + v % 256);
  }

  lemma Regroup(p: nat, q: nat, r: nat, s: nat)
    ensures 256 * (p * q + r) + s == (256 * p) * q + (256 * r + s)
  {
  }

  /** Cut to n bytes, a number is what it leaves modulo their range. */
  lemma {:induction false} LeValue(v: nat, n: nat)
    ensures FromLe(LeBytes(v, n)) == v % Pow256(n)
  {
    if n > 0 {
      LeValue(v / 256, n - 1);
      ModPeel(v, Pow256(n - 1));
      assert LeBytes(v, n)[1..] == LeBytes(v / 256, n - 1);
    }
  }

  lemma {:induction false} LePrefix(v: nat, n: nat, k: nat)
    requires k <= n
    ensures LeBytes(v, n)[..k] == LeBytes(v, k)
  {
    if k > 0 {
      LePrefix(v / 256, n - 1, k - 1);
      assert LeBytes(v, n)[..k] == [(v % 256) as byte] + LeBytes(v / 256, n - 1)[..k - 1];
    }
  }

  lemma {:induction false} FromLeJoin(a: seq<byte>, b: seq<byte>)
    ensures FromLe(a + b) == FromLe(a) + Pow256(|a|) * FromLe(b)
  {
    if a == [] {
      assert a + b == b;
    } else {
      assert (a + b)[1..] == a[1..] + b;
      FromLeJoin(a[1..], b);
      Distribute(a[0] as nat, FromLe(a[1..]), Pow256(|a| - 1), FromLe(b));
    }
  }

  lemma Distribute(x: nat, y: nat, p: nat, z: nat)
    ensures x + 256 * (y + p * z) == (x + 256 * y) + (256 * p) * z
  {
  }

  /** The length the reader takes from a frame of an m-byte body torn after `cut` bytes, when an
      n-byte record follows. */
  function Claimed(m: nat, cut: nat, n: nat): nat {
    if cut >= 4 then m else m % Pow256(cut) + Pow256(cut) * (n % Pow256(4 - cut))
  }

  lemma ClaimedIs(body: seq<byte>, cut: nat, next: seq<byte>, more: seq<byte>)
    requires |body| < U32_END && |next| < U32_END && 0 < cut < 4 + |body|
    ensures FromLe((Frame(body)[..cut] + (Frame(next) + more))[..4]) == Claimed(|body|, cut, |next|)
  {
    hide FromLe, LeBytes, Pow256;
    var tail := Frame(body)[..cut] + (Frame(next) + more);
    var first, second := LeBytes(|body|, 4), LeBytes(|next|, 4);
    if cut >= 4 {
      assert tail[..4] == first;
      Le32(|body|);
    } else {
      assert tail[..4] == first[..cut] + second[..4 - cut];
      JoinedLengths(|body|, cut, |next|);
    }
  }

  lemma JoinedLengths(m: nat, cut: nat, n: nat)
    requires 0 < cut < 4
    ensures FromLe(LeBytes(m, 4)[..cut] + LeBytes(n, 4)[..4 - cut]) == Claimed(m, cut, n)
  {
    LePrefix(m, 4, cut);
    LePrefix(n, 4, 4 - cut);
    hide FromLe, Pow256;
    FromLeJoin(LeBytes(m, cut), LeBytes(n, 4 - cut));
    LeValue(m, cut);
    LeValue(n, 4 - cut);
  }

  /** A record r appended behind a torn one is not read, nor is anything after it, if and only if
      the length claimed at the tear runs past the end of the file or the bytes it takes in do not
      decode. */
  lemma TornAppendLostIff(c: RecordSerde, rs: seq<WalRecord>, torn: WalRecord, cut: nat, r: WalRecord, more: seq<byte>)
    requires Inverse(c) && Fits(c, rs) && |c.encode(torn)| < U32_END && |c.encode(r)| < U32_END
    requires 0 < cut < 4 + |c.encode(torn)|
    ensures var len := Claimed(|c.encode(torn)|, cut, |c.encode(r)|);
            var tail := Frame(c.encode(torn))[..cut] + (Frame(c.encode(r)) + more);
            ReadFrom(c, LogBytes(c, rs) + tail, 0) == rs <==>
              4 + len > |tail| || c.decode(tail[4..4 + len]).None?
  {
    var tail := Frame(c.encode(torn))[..cut] + (Frame(c.encode(r)) + more);
    ClaimedIs(c.encode(torn), cut, c.encode(r), more);
    assert tail[0..4] == tail[..4] && tail[0 + 4..] == tail[4..];
    TailLostIff(c, rs, tail);
    hide *;
    FrameAtStart(tail, Claimed(|c.encode(torn)|, cut, |c.encode(r)|));
  }

  lemma FrameAtStart(tail: seq<byte>, len: nat)
    requires |tail| >= 4 && FromLe(tail[..4]) == len
    ensures FrameAt(tail, 0) == if 4 + len > |tail| then None else Some(tail[4..4 + len])
  {
    assert tail[0..4] == tail[..4];
  }

  /** Short enough to be swallowed: under a torn body, too short to fill it; under a torn length,
      too short for the bytes left of the length field to be all there is to it. */
  ghost predicate Swallowed(m: nat, cut: nat, n: nat) {
    if cut >= 4 then cut + n < m else 0 < n < Pow256(4 - cut)
  }

  lemma SwallowedOverruns(m: nat, cut: nat, n: nat)
    requires 0 < cut && Swallowed(m, cut, n)
    ensures Claimed(m, cut, n) > cut + n
  {
    if cut < 4 {
      var p := Pow256(cut);
      assert n % Pow256(4 - cut) == n by { DivModUnique(n, Pow256(4 - cut), 0, n); }
      assert Pow256(1) == 256 * Pow256(0);
      assert Pow256(2) == 256 * Pow256(1);
      assert Pow256(3) == 256 * Pow256(2);
      assert p >= 256;
      assert p * n >= 256 * n by { Scale(p, n); }
    }
  }

  lemma Scale(p: nat, n: nat)
    requires p >= 256
    ensures p * n >= 256 * n
  {
  }

  /** After a tear in the length or in the body, a record that short is never read back. */
  lemma TornAppendLost(c: RecordSerde, rs: seq<WalRecord>, torn: WalRecord, cut: nat, r: WalRecord)
    requires Inverse(c) && Fits(c, rs) && |c.encode(torn)| < U32_END && |c.encode(r)| < U32_END
    requires 0 < cut < 4 + |c.encode(torn)| && Swallowed(|c.encode(torn)|, cut, |c.encode(r)|)
    ensures ReadFrom(c, LogBytes(c, rs) + (Frame(c.encode(torn))[..cut] + Frame(c.encode(r))), 0) == rs
  {
    SwallowedOverruns(|c.encode(torn)|, cut, |c.encode(r)|);
    TornAppendLostIff(c, rs, torn, cut, r, []);
    assert Frame(c.encode(r)) + [] == Frame(c.encode(r));
  }

  /** If a crash left a single byte, whichever it is, whatever is appended next, although synced and
      acknowledged, is never read back. */
  lemma TornByteHidesAppend(c: RecordSerde, rs: seq<WalRecord>, torn: byte, r: WalRecord)
    requires Inverse(c) && Fits(c, rs) && 0 < |c.encode(r)| < 0x100_0000
    ensures ReadFrom(c, LogBytes(c, rs) + [torn] + Frame(c.encode(r)), 0) == rs
  {
    hide LogBytes, ReadFrom, FromLe, LeBytes;
    var n := |c.encode(r)|;
    var tail := [torn] + Frame(c.encode(r));
    assert tail[..4] == [torn] + LeBytes(n, 4)[..3];
    LePrefix(n, 4, 3);
    FromLeJoin([torn], LeBytes(n, 3));
    LeValue(n, 3);
    SmallPowers();
    FrameAtStart(tail, FromLe(tail[..4]));
    TailLostIff(c, rs, tail);
    assert LogBytes(c, rs) + [torn] + Frame(c.encode(r)) == LogBytes(c, rs) + tail;
  }

  lemma SmallPowers()
    ensures Pow256(1) == 256 && Pow256(3) == 0x100_0000
  {
    assert Pow256(0) == 1 && Pow256(1) == 256 * Pow256(0) && Pow256(2) == 256 * Pow256(1)
           && Pow256(3) == 256 * Pow256(2);
  }

  /** What a crash left of a log accepts every later batch if and only if the crash fell between
      whole records, as soon as some record is short enough to be swallowed by the tear. */
  lemma ReadsBackIff(c: RecordSerde, rs: seq<WalRecord>, n: nat, short: WalRecord)
    requires Inverse(c) && Fits(c, rs) && n <= |LogBytes(c, rs)| && |c.encode(short)| < U32_END
    requires var k := Whole(c, rs, n);
             var cut := n - |LogBytes(c, rs[..k])|;
             k < |rs| && cut > 0 ==> Swallowed(|c.encode(rs[k])|, cut, |c.encode(short)|)
    ensures ReadsBack(c, LogBytes(c, rs)[..n], rs[..Whole(c, rs, n)]) <==> n == |LogBytes(c, rs[..Whole(c, rs, n)])|
  {
    hide LogBytes, Whole, Frame, ReadFrom, ReadsBack, Swallowed;
    var k := Whole(c, rs, n);
    var whole := LogBytes(c, rs[..k]);
    LogStartsWith(c, rs, k);
    if n == |whole| {
      WholeReadsBack(c, rs[..k]);
    } else {
      TornIs(c, rs, n);
      TornLosesShort(c, rs[..k], rs[k], n - |whole|, short);
    }
  }

  lemma TornLosesShort(c: RecordSerde, rs: seq<WalRecord>, torn: WalRecord, cut: nat, short: WalRecord)
    requires Inverse(c) && Fits(c, rs) && |c.encode(torn)| < U32_END && |c.encode(short)| < U32_END
    requires 0 < cut < 4 + |c.encode(torn)| && Swallowed(|c.encode(torn)|, cut, |c.encode(short)|)
    ensures !ReadsBack(c, LogBytes(c, rs) + Frame(c.encode(torn))[..cut], rs)
  {
    hide *;
    TornAppendLost(c, rs, torn, cut, short);
    OneRecordLog(c, short);
    var log, t, f := LogBytes(c, rs), Frame(c.encode(torn))[..cut], Frame(c.encode(short));
    assert log + t + f == log + (t + f);
    assert |rs + [short]| == |rs| + 1;
    NotReadBack(c, log + t, rs, [short]);
  }

  lemma NotReadBack(c: RecordSerde, file: seq<byte>, whole: seq<WalRecord>, batch: seq<WalRecord>)
    requires Fits(c, batch) && ReadFrom(c, file + LogBytes(c, batch), 0) != whole + batch
    ensures !ReadsBack(c, file, whole)
  {
  }

  lemma OneRecordLog(c: RecordSerde, r: WalRecord)
    requires |c.encode(r)| < U32_END
    ensures LogBytes(c, [r]) == Frame(c.encode(r)) && Fits(c, [r])
  {
    assert [r][..0] == [];
  }

  /** The bytes of a torn log: its whole records and a proper part of the next frame. */
  lemma TornIs(c: RecordSerde, rs: seq<WalRecord>, n: nat)
    requires Fits(c, rs) && n <= |LogBytes(c, rs)| && n != |LogBytes(c, rs[..Whole(c, rs, n)])|
    ensures var k := Whole(c, rs, n);
            var whole := LogBytes(c, rs[..k]);
            && k < |rs| && 0 < n - |whole| < 4 + |c.encode(rs[k])|
            && LogBytes(c, rs)[..n] == whole + Frame(c.encode(rs[k]))[..n - |whole|]
  {
    var k := Whole(c, rs, n);
    assert rs[..|rs|] == rs;
    WholeIs(c, rs, n);
    RecordAt(c, rs, k);
    LogStartsWith(c, rs, k);
    hide LogBytes, Whole, Frame;
    TakeTwo(LogBytes(c, rs), LogBytes(c, rs[..k]), Frame(c.encode(rs[k])), n);
  }

  lemma TakeTwo(data: seq<byte>, a: seq<byte>, b: seq<byte>, n: nat)
    requires |a| <= n <= |a| + |b| && |a| + |b| <= |data| && data[..|a|] == a && At(data, |a|, b)
    ensures data[..n] == a + b[..n - |a|]
  {
    forall i | 0 <= i < n
      ensures data[i] == (a + b[..n - |a|])[i]
    {
      if i < |a| {
        assert data[..|a|][i] == data[i];
      } else {
        assert b[i - |a|] == data[|a| + (i - |a|)];
      }
    }
  }
}
