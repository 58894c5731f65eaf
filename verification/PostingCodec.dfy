/** The byte form of a posting list (crates/index/src/posting.rs): unsigned LEB128 integers
    (section 7.6 of DWARF Version 5), delta-coded document numbers, raw 32-bit block headers. */
module PostingCodec {
  import opened Base
  import opened Bytes
  import opened Postings

  /** A posting list as stored: a header is the bit pattern of its `f32`. */
  datatype StoredList = StoredList(headers: seq<u32>, postings: seq<Posting>)

  // ---- variable-length integers ----------------------------------------------------------

  function Varint(v: nat): (r: seq<byte>)
    ensures r != []
  {
    if v < 128 then [v as byte] else [(v % 128 + 128) as byte] + Varint(v / 128)
  }

  function Pow128(n: nat): (p: nat)
    ensures p > 0
  {
    if n == 0 then 1 else 128 * Pow128(n - 1)
  }

  const U64_END: nat := 0x1_0000_0000_0000_0000

  datatype Raw = Raw(value: nat, used: nat)

  /** Byte i holds the i-th group of seven bits, low groups first, with the high bit set on all but the
      last; and the last is not zero unless it is the only one. */
  lemma {:induction false} VarintBytes(v: nat, i: nat)
    requires i < |Varint(v)|
    ensures Varint(v)[i] as nat == v / Pow128(i) % 128 + if i < |Varint(v)| - 1 then 128 else 0
    ensures v / Pow128(|Varint(v)|) == 0 && (|Varint(v)| > 1 ==> v / Pow128(|Varint(v)| - 1) > 0)
  {
    assert Pow128(0) == 1;
    if v < 128 {
      assert Pow128(1) == 128;
    } else {
      var rest := Varint(v / 128);
      assert Varint(v) == [(v % 128 + 128) as byte] + rest;
      VarintBytes(v / 128, if i == 0 then 0 else i - 1);
      DivTwice(v, |rest|);
      DivTwice(v, |rest| - 1);
      if i > 0 {
        DivTwice(v, i - 1);
      }
    }
  }

  lemma DivTwice(v: nat, n: nat)
    ensures v / 128 / Pow128(n) == v / Pow128(n + 1)
  {
    var p := Pow128(n);
    var q, r := v / 128, v % 128;
    var q', r' := q / p, q % p;
    assert v == 128 * q + r && q == p * q' + r';
    assert Pow128(n + 1) == 128 * p;
    Regrouped(p, q', r', r);
    QuotientIs(v, 128 * p, q', 128 * r' + r);
  }

  lemma Regrouped(p: nat, q: nat, r: nat, s: nat)
    ensures 128 * (p * q + r) + s == (128 * p) * q + (128 * r + s)
  {
  }

  lemma QuotientIs(v: nat, d: nat, q: nat, r: nat)
    requires d > 0 && v == d * q + r && r < d
    ensures v / d == q
  {
    var q', r' := v / d, v % d;
    assert d * q + r == d * q' + r';
    if q < q' {
      Larger(d, q + 1, q');
    } else if q' < q {
      Larger(d, q' + 1, q);
    }
  }

  lemma Larger(d: nat, a: nat, b: nat)
    requires a <= b
    ensures d * a <= d * b
  {
  }

  /** The number that a terminated run of bytes denotes, with no width limit. */
  function Unlimited(s: seq<byte>): (r: Option<Raw>)
    ensures r.Some? ==> 1 <= r.value.used <= |s|
  {
    if s == [] then None
    else if s[0] < 128 then Some(Raw(s[0] as nat, 1))
    else match Unlimited(s[1..])
      case None => None
      case Some(r) => Some(Raw(s[0] as nat - 128 + 128 * r.value, r.used + 1))
  }

  /** What reading a varint yields: 64 bits are kept; running off the end, or an eleventh byte
      (a shift of 70), is a panic. */
  function ReadVarint(data: seq<byte>, offset: nat): (r: Option<(u64, nat)>)
    ensures r.Some? ==> offset < r.value.1 <= |data|
  {
    if offset > |data| then None else
      match Unlimited(data[offset..])
      case None => None
      case Some(raw) => if raw.used > 10 then None else Some((raw.value % U64_END, offset + raw.used))
  }

  method EncodeVarint(value: u64, buf: seq<byte>) returns (out: seq<byte>)
    ensures out == buf + Varint(value)
  {
    var v: nat := value;
    out := buf;
    while true
      invariant out + Varint(v) == buf + Varint(value)
      decreases v
    {
      var low := v % 128;
      ghost var was := v;
      v := v / 128;
      if v != 0 {
        low := low + 128;
      }
      assert Varint(was) == if v == 0 then [low as byte] else [low as byte] + Varint(v);
      ghost var before := out;
      out := out + [low as byte];
      if v == 0 {
        break;
      }
      assert out + Varint(v) == before + ([low as byte] + Varint(v));
    }
  }

  /** The bits collected from the first n bytes. */
  function Low(s: seq<byte>, n: nat): nat
    requires n <= |s|
  {
    if n == 0 then 0 else Low(s, n - 1) + (s[n - 1] as nat % 128) * Pow128(n - 1)
  }

  lemma {:induction false} LowBelow(s: seq<byte>, n: nat)
    requires n <= |s|
    ensures Low(s, n) < Pow128(n)
  {
    if n > 0 {
      LowBelow(s, n - 1);
      AtMost127(s[n - 1] as nat % 128, Pow128(n - 1));
    }
  }

  lemma AtMost127(b: nat, p: nat)
    requires b <= 127
    ensures b * p <= 127 * p
  {
  }

  /** After n continuation bytes the rest of the number is a varint of its own. */
  lemma {:induction false} UnlimitedAfter(s: seq<byte>, n: nat)
    requires n <= |s| && forall i :: 0 <= i < n ==> s[i] >= 128
    ensures Unlimited(s[n..]).None? <==> Unlimited(s).None?
    ensures Unlimited(s).Some? ==>
              && Unlimited(s).value.used == n + Unlimited(s[n..]).value.used
              && Unlimited(s).value.value == Low(s, n) + Pow128(n) * Unlimited(s[n..]).value.value
  {
    if n == 0 {
      assert s[0..] == s;
    } else {
      UnlimitedAfter(s, n - 1);
      assert s[n - 1..][1..] == s[n..];
      if Unlimited(s[n..]).Some? {
        UnlimitedHead(s[n - 1..]);
        hide *;
        var x, b := Unlimited(s[n..]).value.value, s[n - 1] as int - 128;
        LowSnoc(s, n - 1);
        Regroup(Pow128(n - 1), b, x);
      }
    }
  }

  lemma UnlimitedHead(s: seq<byte>)
    requires s != [] && s[0] >= 128 && Unlimited(s[1..]).Some?
    ensures Unlimited(s).Some? && Unlimited(s).value.value == s[0] as int - 128 + 128 * Unlimited(s[1..]).value.value
  {
  }

  lemma LowSnoc(s: seq<byte>, n: nat)
    requires n < |s| && s[n] >= 128
    ensures Low(s, n + 1) == Low(s, n) + (s[n] as int - 128) * Pow128(n)
    ensures Pow128(n + 1) == 128 * Pow128(n)
  {
  }

  lemma Regroup(p: nat, b: int, x: nat)
    ensures p * (b + 128 * x) == b * p + (128 * p) * x
  {
  }

  lemma Pow128Values()
    ensures Pow128(9) == 0x8000_0000_0000_0000
    ensures forall n: nat :: n <= 8 ==> 128 * Pow128(n) <= 0x8000_0000_0000_0000
  {
    assert Pow128(0) == 1;
    assert Pow128(1) == 128 * Pow128(0);
    assert Pow128(2) == 128 * Pow128(1);
    assert Pow128(3) == 128 * Pow128(2);
    assert Pow128(4) == 128 * Pow128(3);
    assert Pow128(5) == 128 * Pow128(4);
    assert Pow128(6) == 128 * Pow128(5);
    assert Pow128(7) == 128 * Pow128(6);
    assert Pow128(8) == 128 * Pow128(7);
    assert Pow128(9) == 128 * Pow128(8);
  }

  lemma SmallMods(a: nat, t: nat)
    requires a + t < U64_END
    ensures a % U64_END + t % U64_END == (a + t) % U64_END
  {
  }

  /** At shift 63 only the lowest of the seven bits survives. */
  lemma TopBit(a: nat, b: nat)
    requires a < 0x8000_0000_0000_0000 && b < 128
    ensures a % U64_END + (b * 0x8000_0000_0000_0000) % U64_END == (a + b * 0x8000_0000_0000_0000) % U64_END
  {
    var q, r := b / 2, b % 2;
    assert b * 0x8000_0000_0000_0000 == q * U64_END + r * 0x8000_0000_0000_0000;
    assert (b * 0x8000_0000_0000_0000) % U64_END == r * 0x8000_0000_0000_0000;
    assert (a + b * 0x8000_0000_0000_0000) % U64_END == a + r * 0x8000_0000_0000_0000;
  }

  /** One turn of the decoding loop: or-ing in seven bits at a clear place adds them. */
  lemma OrAdds(s: seq<byte>, n: nat)
    requires n < |s| && n <= 9
    ensures Low(s, n) % U64_END + ((s[n] as nat % 128) * Pow128(n)) % U64_END == Low(s, n + 1) % U64_END
  {
    Pow128Values();
    LowBelow(s, n);
    LowBelow(s, n + 1);
    if n == 9 {
      TopBit(Low(s, n), s[n] as nat % 128);
    } else {
      SmallMods(Low(s, n), (s[n] as nat % 128) * Pow128(n));
    }
  }

  lemma UnlimitedEnds(s: seq<byte>, n: nat)
    requires n < |s| && s[n] < 128 && forall i :: 0 <= i < n ==> s[i] >= 128
    ensures Unlimited(s) == Some(Raw(Low(s, n + 1), n + 1))
  {
    UnlimitedAfter(s, n);
    assert s[n..][0] == s[n];
    assert s[n] as nat % 128 == s[n] as nat;
    Commute(Pow128(n), s[n] as nat);
  }

  lemma Commute(a: nat, b: nat)
    ensures a * b == b * a
  {
  }

  lemma EndsAt(data: seq<byte>, offset: nat, n: nat)
    requires offset + n < |data| && n <= 9
    requires var s := data[offset..]; s[n] < 128 && forall i :: 0 <= i < n ==> s[i] >= 128
    ensures ReadVarint(data, offset) == Some((Low(data[offset..], n + 1) % U64_END, offset + n + 1))
  {
    UnlimitedEnds(data[offset..], n);
  }

  lemma NeverEnds(data: seq<byte>, offset: nat, n: nat)
    requires offset + n <= |data| && (n == 10 || offset + n == |data|)
    requires forall i :: 0 <= i < n ==> data[offset..][i] >= 128
    ensures ReadVarint(data, offset) == None
  {
    UnlimitedAfter(data[offset..], n);
  }

  method DecodeVarint(data: seq<byte>, offset: nat) returns (r: Option<(u64, nat)>)
    requires offset <= |data|
    ensures r == ReadVarint(data, offset)
  {
    ghost var s := data[offset..];
    var result: u64 := 0;
    var n := 0;
    while offset + n < |data| && n < 10
      invariant n <= |s| && n <= 10 && result == Low(s, n) % U64_END
      invariant forall i :: 0 <= i < n ==> s[i] >= 128
    {
      var b := data[offset + n] as nat;
      OrAdds(s, n);
      result := result + ((b % 128) * Pow128(n)) % U64_END;
      if b < 128 {
        EndsAt(data, offset, n);
        return Some((result, offset + n + 1));
      }
      n := n + 1;
    }
    NeverEnds(data, offset, n);
    r := None;
  }

  /** `decode_varint` undoes `encode_varint`, taking exactly the bytes written. */
  lemma {:induction false} UnlimitedRoundTrip(v: nat, rest: seq<byte>)
    ensures Unlimited(Varint(v) + rest) == Some(Raw(v, |Varint(v)|))
  {
    if v >= 128 {
      assert (Varint(v) + rest)[1..] == Varint(v / 128) + rest;
      UnlimitedRoundTrip(v / 128, rest);
    }
  }

  lemma {:induction false} VarintLength(v: nat, n: nat)
    requires v < Pow128(n) && n > 0
    ensures |Varint(v)| <= n
  {
    if v >= 128 {
      VarintLength(v / 128, n - 1);
    }
  }

  lemma VarintWidth(v: u64)
    ensures |Varint(v)| <= 10
  {
    Pow128Values();
    assert Pow128(10) == 128 * Pow128(9);
    VarintLength(v, 10);
  }

  lemma ReadsRaw(data: seq<byte>, off: nat, v: u64, used: nat)
    requires off <= |data| && used <= 10 && Unlimited(data[off..]) == Some(Raw(v, used))
    ensures ReadVarint(data, off) == Some((v, off + used))
  {
    hide Unlimited;
  }

  lemma VarintAt(data: seq<byte>, off: nat, v: nat) returns (rest: seq<byte>)
    requires At(data, off, Varint(v))
    ensures off <= |data| && data[off..] == Varint(v) + rest
  {
    hide Varint;
    rest := data[off + |Varint(v)|..];
    AtSlice(data, off, Varint(v));
  }

  lemma VarintRoundTrip(data: seq<byte>, off: nat, v: u64)
    requires At(data, off, Varint(v))
    ensures ReadVarint(data, off) == Some((v, off + |Varint(v)|))
  {
    hide *;
    var rest := VarintAt(data, off, v);
    UnlimitedRoundTrip(v, rest);
    VarintWidth(v);
    ReadsRaw(data, off, v, |Varint(v)|);
  }

  // ---- whole lists -----------------------------------------------------------------------

  function HeaderBytes(hs: seq<u32>): seq<byte> {
    if hs == [] then [] else HeaderBytes(hs[..|hs| - 1]) + LeBytes(hs[|hs| - 1], 4)
  }

  function LastDoc(ps: seq<Posting>): u32 {
    if ps == [] then 0 else ps[|ps| - 1].docId
  }

  /** One posting: the distance from the document before it, then the two counts. */
  function OnePosting(p: Posting, prev: u32): seq<byte>
    requires prev <= p.docId
  {
    Varint(p.docId - prev) + Varint(p.termFreq) + Varint(p.docLen)
  }

  function PostingBytes(ps: seq<Posting>): seq<byte>
    requires ByDoc(ps)
  {
    if ps == [] then [] else
      var front := ps[..|ps| - 1];
      PostingBytes(front) + OnePosting(ps[|ps| - 1], LastDoc(front))
  }

  function EncodedList(l: StoredList): seq<byte>
    requires ByDoc(l.postings)
  {
    Varint(|l.headers|) + HeaderBytes(l.headers) + Varint(|l.postings|) + PostingBytes(l.postings)
  }

  /** The layout, on examples: the low byte of a header first; and the two counts in front, then document
      distance, frequency and length of a posting. */
  lemma LayoutExample()
    ensures HeaderBytes([0x0403_0201]) == [1, 2, 3, 4]
    ensures var l := StoredList([], [Posting(5, 3, 7)]); ByDoc(l.postings) && EncodedList(l) == [0, 1, 5, 3, 7]
  {
    var hs: seq<u32> := [0x0403_0201];
    assert hs[..0] == [];
    assert LeBytes(4, 1) == [4] && LeBytes(0x0403, 2) == [3, 4] && LeBytes(0x0403_02, 3) == [2, 3, 4];
    var p := Posting(5, 3, 7);
    assert [p][..0] == [];
    assert OnePosting(p, 0) == [5, 3, 7];
  }

  ghost predicate Countable(l: StoredList) {
    |l.headers| < U64_END && |l.postings| < U64_END
  }

  method EncodeHeaders(hs: seq<u32>, buf: seq<byte>) returns (out: seq<byte>)
    ensures out == buf + HeaderBytes(hs)
  {
    out := buf;
    for i := 0 to |hs|
      invariant out == buf + HeaderBytes(hs[..i])
    {
      assert hs[..i + 1][..i] == hs[..i];
      out := out + LeBytes(hs[i], 4);
    }
    assert hs[..|hs|] == hs;
  }

  method EncodePostings(ps: seq<Posting>, buf: seq<byte>) returns (out: seq<byte>)
    requires ByDoc(ps)
    ensures out == buf + PostingBytes(ps)
  {
    out := buf;
    var prev: u32 := 0;
    for i := 0 to |ps|
      invariant prev == LastDoc(ps[..i])
      invariant out == buf + PostingBytes(ps[..i])
    {
      assert ps[..i + 1][..i] == ps[..i];
      out := EncodePosting(ps[i], prev, out);
      prev := ps[i].docId;
    }
    assert ps[..|ps|] == ps;
  }

  method EncodePosting(p: Posting, prev: u32, buf: seq<byte>) returns (out: seq<byte>)
    requires prev <= p.docId
    ensures out == buf + OnePosting(p, prev)
  {
    out := EncodeVarint(p.docId - prev, buf);
    out := EncodeVarint(p.termFreq, out);
    out := EncodeVarint(p.docLen, out);
  }

  method Encode(l: StoredList) returns (buf: seq<byte>)
    requires ByDoc(l.postings) && Countable(l)
    ensures buf == EncodedList(l)
  {
    buf := EncodeVarint(|l.headers|, []);
    buf := EncodeHeaders(l.headers, buf);
    buf := EncodeVarint(|l.postings|, buf);
    buf := EncodePostings(l.postings, buf);
  }

  /** n block headers from `off` on. */
  function ReadHeaders(data: seq<byte>, off: nat, n: nat): Option<(seq<u32>, nat)> {
    if n == 0 then Some(([], off))
    else match ReadHeaders(data, off, n - 1)
      case None => None
      case Some((hs, at)) =>
        if at + 4 > |data| then None else Some((hs + [FromLe(data[at..at + 4]) % U32_END], at + 4))
  }

  /** One posting: three varints, cut to the widths of the fields; the document number is the
      previous one plus the delta, and adding past 32 bits is a panic. */
  function ReadPosting(data: seq<byte>, off: nat, prev: u32): (r: Option<(Posting, nat)>)
    ensures r.Some? ==> r.value.1 <= |data|
  {
    match ReadVarint(data, off)
    case None => None
    case Some((delta, o1)) =>
      match ReadVarint(data, o1)
      case None => None
      case Some((tf, o2)) =>
        match ReadVarint(data, o2)
        case None => None
        case Some((dl, o3)) =>
          var docId := prev + delta % U32_END;
          if docId >= U32_END then None else Some((Posting(docId, tf % 0x100, dl % 0x1_0000), o3))
  }

  function ReadPostings(data: seq<byte>, off: nat, n: nat): Option<(seq<Posting>, nat)> {
    if n == 0 then Some(([], off))
    else match ReadPostings(data, off, n - 1)
      case None => None
      case Some((ps, at)) =>
        match ReadPosting(data, at, LastDoc(ps))
        case None => None
        case Some((p, next)) => Some((ps + [p], next))
  }

  function DecodedList(data: seq<byte>): Option<StoredList> {
    match ReadVarint(data, 0)
    case None => None
    case Some((numBlocks, o1)) =>
      match ReadHeaders(data, o1, numBlocks)
      case None => None
      case Some((hs, o2)) =>
        match ReadVarint(data, o2)
        case None => None
        case Some((count, o3)) =>
          match ReadPostings(data, o3, count)
          case None => None
          case Some((ps, _)) => Some(StoredList(hs, ps))
  }

  method DecodeHeaders(data: seq<byte>, off: nat, n: nat) returns (r: Option<(seq<u32>, nat)>)
    ensures r == ReadHeaders(data, off, n)
  {
    var hs: seq<u32>, at := [], off;
    for i := 0 to n
      invariant ReadHeaders(data, off, i) == Some((hs, at))
    {
      if at + 4 > |data| {
        HeadersStop(data, off, i + 1, n);
        return None;
      }
      hs := hs + [FromLe(data[at..at + 4]) % U32_END];
      at := at + 4;
    }
    r := Some((hs, at));
  }

  lemma {:induction false} HeadersStop(data: seq<byte>, off: nat, i: nat, n: nat)
    requires i <= n && ReadHeaders(data, off, i) == None
    ensures ReadHeaders(data, off, n) == None
    decreases n - i
  {
    if i < n {
      HeadersStop(data, off, i + 1, n);
    }
  }

  method DecodePostings(data: seq<byte>, off: nat, n: nat) returns (r: Option<(seq<Posting>, nat)>)
    requires off <= |data|
    ensures r == ReadPostings(data, off, n)
  {
    var ps: seq<Posting>, at, prev: u32 := [], off, 0;
    for i := 0 to n
      invariant ReadPostings(data, off, i) == Some((ps, at)) && prev == LastDoc(ps) && at <= |data|
    {
      var p := DecodePosting(data, at, prev);
      if p.None? {
        PostingsStop(data, off, i + 1, n);
        return None;
      }
      ps := ps + [p.value.0];
      at := p.value.1;
      prev := p.value.0.docId;
    }
    r := Some((ps, at));
  }

  method DecodePosting(data: seq<byte>, off: nat, prev: u32) returns (r: Option<(Posting, nat)>)
    requires off <= |data|
    ensures r == ReadPosting(data, off, prev)
  {
    var delta := DecodeVarint(data, off);
    if delta.None? { return None; }
    var tf := DecodeVarint(data, delta.value.1);
    if tf.None? { return None; }
    var dl := DecodeVarint(data, tf.value.1);
    if dl.None? { return None; }
    var docId := prev + delta.value.0 % U32_END;
    if docId >= U32_END { return None; }
    r := Some((Posting(docId, tf.value.0 % 0x100, dl.value.0 % 0x1_0000), dl.value.1));
  }

  lemma {:induction false} PostingsStop(data: seq<byte>, off: nat, i: nat, n: nat)
    requires i <= n && ReadPostings(data, off, i) == None
    ensures ReadPostings(data, off, n) == None
    decreases n - i
  {
    if i < n {
      PostingsStop(data, off, i + 1, n);
    }
  }

  method Decode(data: seq<byte>) returns (r: Option<StoredList>)
    ensures r == DecodedList(data)
  {
    var numBlocks := DecodeVarint(data, 0);
    if numBlocks.None? { return None; }
    var hs := DecodeHeaders(data, numBlocks.value.1, numBlocks.value.0);
    if hs.None? { return None; }
    if hs.value.1 > |data| { return None; }
    var count := DecodeVarint(data, hs.value.1);
    if count.None? { return None; }
    var ps := DecodePostings(data, count.value.1, count.value.0);
    if ps.None? { return None; }
    r := Some(StoredList(hs.value.0, ps.value.0));
  }

  // ---- round trip ------------------------------------------------------------------------

  lemma {:induction false} HeadersRoundTrip(data: seq<byte>, off: nat, hs: seq<u32>)
    requires At(data, off, HeaderBytes(hs))
    ensures ReadHeaders(data, off, |hs|) == Some((hs, off + |HeaderBytes(hs)|))
  {
    hide LeBytes, FromLe, At;
    if hs != [] {
      var front, h := hs[..|hs| - 1], hs[|hs| - 1];
      AtSplit(data, off, HeaderBytes(front), LeBytes(h, 4));
      HeadersRoundTrip(data, off, front);
      OneHeader(data, off + |HeaderBytes(front)|, h);
      assert hs == front + [h];
    }
  }

  lemma OneHeader(data: seq<byte>, at: nat, h: u32)
    requires At(data, at, LeBytes(h, 4))
    ensures at + 4 <= |data| && FromLe(data[at..at + 4]) % U32_END == h
  {
    AtSlice(data, at, LeBytes(h, 4));
    Le32(h);
  }

  lemma OnePostingRoundTrip(data: seq<byte>, off: nat, p: Posting, prev: u32)
    requires prev <= p.docId && At(data, off, OnePosting(p, prev))
    ensures ReadPosting(data, off, prev) == Some((p, off + |OnePosting(p, prev)|))
  {
    hide Varint, ReadVarint, At;
    var delta: u64, tf: u64, dl: u64 := p.docId - prev, p.termFreq, p.docLen;
    assert OnePosting(p, prev) == Varint(delta) + Varint(tf) + Varint(dl);
    ThreeVarints(data, off, delta, tf, dl);
  }

  lemma ThreeVarints(data: seq<byte>, off: nat, x: u64, y: u64, z: u64)
    requires At(data, off, Varint(x) + Varint(y) + Varint(z))
    ensures var o1 := off + |Varint(x)|;
            var o2 := o1 + |Varint(y)|;
            && ReadVarint(data, off) == Some((x, o1))
            && ReadVarint(data, o1) == Some((y, o2))
            && ReadVarint(data, o2) == Some((z, off + |Varint(x) + Varint(y) + Varint(z)|))
  {
    hide *;
    AtSplit(data, off, Varint(x) + Varint(y), Varint(z));
    AtSplit(data, off, Varint(x), Varint(y));
    VarintRoundTrip(data, off, x);
    VarintRoundTrip(data, off + |Varint(x)|, y);
    VarintRoundTrip(data, off + |Varint(x)| + |Varint(y)|, z);
  }

  lemma {:induction false} PostingsRoundTrip(data: seq<byte>, off: nat, ps: seq<Posting>)
    requires ByDoc(ps) && At(data, off, PostingBytes(ps))
    ensures ReadPostings(data, off, |ps|) == Some((ps, off + |PostingBytes(ps)|))
    decreases |ps|, 1
  {
    hide OnePosting, At, ReadPosting;
    if ps != [] {
      var front, p := ps[..|ps| - 1], ps[|ps| - 1];
      assert ps == front + [p];
      PostingsRoundTripSnoc(data, off, front, p, PostingBytes(front), OnePosting(p, LastDoc(front)));
    }
  }

  lemma PostingsRoundTripSnoc(data: seq<byte>, off: nat, front: seq<Posting>, p: Posting, head: seq<byte>,
                              one: seq<byte>)
    requires ByDoc(front) && LastDoc(front) <= p.docId
    requires head == PostingBytes(front) && one == OnePosting(p, LastDoc(front)) && At(data, off, head + one)
    ensures ReadPostings(data, off, |front| + 1) == Some((front + [p], off + |head| + |one|))
    decreases |front| + 1, 0
  {
    hide *;
    AtSplit(data, off, head, one);
    PostingsRoundTrip(data, off, front);
    OnePostingRoundTrip(data, off + |head|, p, LastDoc(front));
    ReadPostingsSnoc(data, off, front, off + |head|, p, off + |head| + |one|);
  }

  lemma ReadPostingsSnoc(data: seq<byte>, off: nat, front: seq<Posting>, at: nat, p: Posting, next: nat)
    requires ReadPostings(data, off, |front|) == Some((front, at))
    requires ReadPosting(data, at, LastDoc(front)) == Some((p, next))
    ensures ReadPostings(data, off, |front| + 1) == Some((front + [p], next))
  {
  }

  lemma FourParts(data: seq<byte>, a: seq<byte>, b: seq<byte>, c: seq<byte>, d: seq<byte>)
    requires At(data, 0, a + b + c + d)
    ensures At(data, 0, a) && At(data, |a|, b) && At(data, |a| + |b|, c) && At(data, |a| + |b| + |c|, d)
  {
    AtSplit(data, 0, a + b + c, d);
    AtSplit(data, 0, a + b, c);
    AtSplit(data, 0, a, b);
  }

  lemma PartsDecode(data: seq<byte>, l: StoredList, o1: nat, o2: nat, o3: nat, o4: nat)
    requires Countable(l)
    requires ReadVarint(data, 0) == Some((|l.headers|, o1))
    requires ReadHeaders(data, o1, |l.headers|) == Some((l.headers, o2))
    requires ReadVarint(data, o2) == Some((|l.postings|, o3))
    requires ReadPostings(data, o3, |l.postings|) == Some((l.postings, o4))
    ensures DecodedList(data) == Some(l)
  {
  }

  lemma StoredListDecodes(data: seq<byte>, l: StoredList, numBlocks: u64, count: u64)
    requires ByDoc(l.postings) && Countable(l) && At(data, 0, EncodedList(l))
    requires numBlocks == |l.headers| && count == |l.postings|
    ensures DecodedList(data) == Some(l)
  {
    hide *;
    var a, b, c, d := Varint(numBlocks), HeaderBytes(l.headers), Varint(count), PostingBytes(l.postings);
    EncodedListParts(l);
    FourParts(data, a, b, c, d);
    VarintRoundTrip(data, 0, numBlocks);
    HeadersRoundTrip(data, |a|, l.headers);
    VarintRoundTrip(data, |a| + |b|, count);
    PostingsRoundTrip(data, |a| + |b| + |c|, l.postings);
    PartsDecode(data, l, |a|, |a| + |b|, |a| + |b| + |c|, |a| + |b| + |c| + |d|);
  }

  lemma EncodedListParts(l: StoredList)
    requires ByDoc(l.postings)
    ensures EncodedList(l) == Varint(|l.headers|) + HeaderBytes(l.headers) + Varint(|l.postings|)
            + PostingBytes(l.postings)
  {
  }

  /** Decoding undoes encoding, for every list in document order and whatever bytes follow. */
  lemma ListRoundTrip(l: StoredList, rest: seq<byte>)
    requires ByDoc(l.postings) && Countable(l)
    ensures DecodedList(EncodedList(l) + rest) == Some(l)
  {
    StoredListDecodes(EncodedList(l) + rest, l, |l.headers|, |l.postings|);
  }
}
