/** Fixed-width little-endian integers, as `to_le_bytes` and `from_le_bytes` lay them out. */
module Bytes {
  import opened Base

  function Pow256(n: nat): (p: nat)
    ensures p > 0
  {
    if n == 0 then 1 else 256 * Pow256(n - 1)
  }

  /** The low n bytes of v, least significant first; higher bytes are cut off. */
  function LeBytes(v: nat, n: nat): (r: seq<byte>)
    ensures |r| == n
  {
    if n == 0 then [] else [(v % 256) as byte] + LeBytes(v / 256, n - 1)
  }

  function FromLe(s: seq<byte>): nat {
    if s == [] then 0 else s[0] as nat + 256 * FromLe(s[1..])
  }

  lemma {:induction false} LeRoundTrip(v: nat, n: nat)
    requires v < Pow256(n)
    ensures FromLe(LeBytes(v, n)) == v
  {
    if n > 0 {
      assert LeBytes(v, n)[1..] == LeBytes(v / 256, n - 1);
      LeRoundTrip(v / 256, n - 1);
    }
  }

  const U32_END: nat := 0x1_0000_0000

  lemma Le32(v: nat)
    requires v < U32_END
    ensures FromLe(LeBytes(v, 4)) == v
  {
    assert Pow256(4) == U32_END by { Pow256Four(); }
    LeRoundTrip(v, 4);
  }

  lemma Pow256Four()
    ensures Pow256(4) == 0x1_0000_0000 && Pow256(8) == 0x1_0000_0000_0000_0000
  {
    assert Pow256(0) == 1;
    assert Pow256(1) == 256 * Pow256(0);
    assert Pow256(2) == 256 * Pow256(1);
    assert Pow256(3) == 256 * Pow256(2);
    assert Pow256(4) == 256 * Pow256(3);
    assert Pow256(5) == 256 * Pow256(4);
    assert Pow256(6) == 256 * Pow256(5);
    assert Pow256(7) == 256 * Pow256(6);
    assert Pow256(8) == 256 * Pow256(7);
  }

  lemma Le64(v: u64)
    ensures FromLe(LeBytes(v, 8)) == v
  {
    Pow256Four();
    LeRoundTrip(v, 8);
  }

  /** `part` occupies `data` from `off` on. */
  ghost predicate At(data: seq<byte>, off: nat, part: seq<byte>) {
    off + |part| <= |data| && forall i {:trigger part[i]} :: 0 <= i < |part| ==> part[i] == data[off + i]
  }

  lemma AtSplit(data: seq<byte>, off: nat, a: seq<byte>, b: seq<byte>)
    requires At(data, off, a + b)
    ensures At(data, off, a) && At(data, off + |a|, b)
  {
    forall i | 0 <= i < |a|
      ensures a[i] == data[off + i]
    {
      assert (a + b)[i] == a[i];
    }
    forall i | 0 <= i < |b|
      ensures b[i] == data[off + |a| + i]
    {
      assert (a + b)[|a| + i] == b[i];
    }
  }

  lemma AtSlice(data: seq<byte>, off: nat, part: seq<byte>)
    requires At(data, off, part)
    ensures data[off..off + |part|] == part
  {
  }

  /** Surrounding bytes only shift what is there. */
  lemma AtShift(pre: seq<byte>, data: seq<byte>, post: seq<byte>, off: nat, part: seq<byte>)
    requires At(data, off, part)
    ensures At(pre + data + post, |pre| + off, part)
  {
    forall i | 0 <= i < |part|
      ensures part[i] == (pre + data + post)[|pre| + off + i]
    {
      assert part[i] == data[off + i];
    }
  }

  lemma AtGrow(data: seq<byte>, more: seq<byte>, off: nat, part: seq<byte>)
    requires At(data, off, part)
    ensures At(data + more, off, part)
  {
  }

  lemma AtEnd(data: seq<byte>, part: seq<byte>)
    ensures At(data + part, |data|, part)
  {
  }

  /** A four-byte length followed by that many bytes; `len() as u32` cuts the length off. */
  function Frame(body: seq<byte>): (r: seq<byte>)
    ensures |r| == 4 + |body|
  {
    LeBytes(|body| % U32_END, 4) + body
  }

  /** The framed body found at `off`, if the file is long enough. */
  function FrameAt(data: seq<byte>, off: nat): Option<seq<byte>> {
    if off + 4 > |data| then None else
      var len := FromLe(data[off..off + 4]);
      if off + 4 + len > |data| then None else Some(data[off + 4..off + 4 + len])
  }

  /** A frame is read back whatever precedes and follows it. */
  lemma FrameRoundTrip(data: seq<byte>, off: nat, body: seq<byte>)
    requires |body| < U32_END && At(data, off, Frame(body))
    ensures FrameAt(data, off) == Some(body)
  {
    AtSplit(data, off, LeBytes(|body|, 4), body);
    AtSlice(data, off, LeBytes(|body|, 4));
    AtSlice(data, off + 4, body);
    Le32(|body|);
  }

  /** The serialiser (a library) is a parameter; all that is used of it is that decoding undoes
      encoding. */
  datatype Serde<!D> = Serde(encode: D -> seq<byte>, decode: seq<byte> -> Option<D>)

  ghost predicate Inverse<D(!new)>(c: Serde<D>) {
    forall d: D :: c.decode(c.encode(d)) == Some(d)
  }
}
