/** The theorems about the log ask of the serialiser only that decoding undoes encoding.  Here is one
    that does, so that they speak of something; the engine's own is a library (bincode). */
module Serialisers {
  import opened Base
  import opened Bytes
  import opened Documents
  import opened Wal

  /** An encoding that shows where it ends, whatever follows. */
  ghost predicate Splits<T(!new)>(f: T -> seq<byte>) {
    forall a, b, x, y :: f(a) + x == f(b) + y ==> a == b && x == y
  }

  /** Digits to base 255, then a zero. */
  function NatBytes(n: nat): seq<byte> {
    if n == 0 then [0] else [(1 + n % 255) as byte] + NatBytes(n / 255)
  }

  lemma {:induction false} NatSplits(a: nat, b: nat, x: seq<byte>, y: seq<byte>)
    requires NatBytes(a) + x == NatBytes(b) + y
    ensures a == b && x == y
  {
    var left, right := NatBytes(a) + x, NatBytes(b) + y;
    assert left[0] == NatBytes(a)[0] && right[0] == NatBytes(b)[0];
    assert left[1..] == NatBytes(a)[1..] + x && right[1..] == NatBytes(b)[1..] + y;
    if a > 0 && b > 0 {
      NatSplits(a / 255, b / 255, x, y);
    }
  }

  /** Each item behind a one, then a zero. */
  function ListBytes<T>(f: T -> seq<byte>, s: seq<T>): seq<byte> {
    if s == [] then [0] else [1] + (f(s[0]) + ListBytes(f, s[1..]))
  }

  lemma {:induction false} ListSplits<T(!new)>(f: T -> seq<byte>, a: seq<T>, b: seq<T>, x: seq<byte>, y: seq<byte>)
    requires Splits(f) && ListBytes(f, a) + x == ListBytes(f, b) + y
    ensures a == b && x == y
  {
    var left, right := ListBytes(f, a) + x, ListBytes(f, b) + y;
    assert left[0] == ListBytes(f, a)[0] && right[0] == ListBytes(f, b)[0];
    assert left[1..] == ListBytes(f, a)[1..] + x && right[1..] == ListBytes(f, b)[1..] + y;
    if a != [] && b != [] {
      var restA, restB := ListBytes(f, a[1..]), ListBytes(f, b[1..]);
      assert left[1..] == f(a[0]) + (restA + x) && right[1..] == f(b[0]) + (restB + y);
      ListSplits(f, a[1..], b[1..], x, y);
      assert a == [a[0]] + a[1..] && b == [b[0]] + b[1..];
    }
  }

  function TextBytes(s: string): seq<byte> {
    ListBytes((c: char) => NatBytes(c as int), s)
  }

  lemma TextSplits(a: string, b: string, x: seq<byte>, y: seq<byte>)
    requires TextBytes(a) + x == TextBytes(b) + y
    ensures a == b && x == y
  {
    var f := (c: char) => NatBytes(c as int);
    forall c: char, d: char, x, y | f(c) + x == f(d) + y
      ensures c == d && x == y
    {
      NatSplits(c as int, d as int, x, y);
    }
    ListSplits(f, a, b, x, y);
  }

  lemma TagSplits(s: byte, t: byte, p: seq<byte>, q: seq<byte>, x: seq<byte>, y: seq<byte>)
    requires ([s] + p) + x == ([t] + q) + y
    ensures s == t && p + x == q + y
  {
    var left, right := ([s] + p) + x, ([t] + q) + y;
    assert left[0] == s && right[0] == t;
    assert left[1..] == p + x && right[1..] == q + y;
  }

  function Tag(v: Value): byte {
    match v
    case Str(_) => 0
    case Number(_) => 1
    case Flag(_) => 2
    case StringArray(_) => 3
  }

  function BodyBytes(v: Value): seq<byte> {
    match v
    case Str(s) => TextBytes(s)
    case Number(bits) => NatBytes(bits)
    case Flag(b) => NatBytes(if b then 1 else 0)
    case StringArray(ss) => ListBytes(TextBytes, ss)
  }

  function ValueBytes(v: Value): seq<byte> {
    [Tag(v)] + BodyBytes(v)
  }

  lemma ValueSplits(a: Value, b: Value, x: seq<byte>, y: seq<byte>)
    requires ValueBytes(a) + x == ValueBytes(b) + y
    ensures a == b && x == y
  {
    TagSplits(Tag(a), Tag(b), BodyBytes(a), BodyBytes(b), x, y);
    hide TextBytes, NatBytes, ListBytes, ValueBytes;
    match a
    case Str(s) => TextSplits(s, b.s, x, y);
    case Number(bits) => NatSplits(bits, b.bits, x, y);
    case Flag(t) => NatSplits(if t then 1 else 0, if b.b then 1 else 0, x, y);
    case StringArray(ss) =>
      TextsSplit();
      ListSplits(TextBytes, ss, b.ss, x, y);
  }

  lemma TextsSplit()
    ensures Splits(TextBytes)
  {
    forall s, t, x, y | TextBytes(s) + x == TextBytes(t) + y
      ensures s == t && x == y
    {
      TextSplits(s, t, x, y);
    }
  }

  /** A map, entry by entry in some order. */
  ghost function MapBytes(m: map<string, Value>): seq<byte> {
    if m == map[] then [0]
    else
      var k :| k in m;
      [1] + (TextBytes(k) + (ValueBytes(m[k]) + MapBytes(m - {k})))
  }

  /** The map's bytes behind the first: none, or an entry and the rest. */
  lemma MapIs(m: map<string, Value>) returns (k: string, body: seq<byte>)
    ensures MapBytes(m) == [if m == map[] then 0 else 1] + body
    ensures m == map[] ==> body == []
    ensures m != map[] ==> k in m && body == TextBytes(k) + (ValueBytes(m[k]) + MapBytes(m - {k}))
    ensures m != map[] ==> m == (m - {k})[k := m[k]]
  {
    hide TextBytes, ValueBytes;
    k, body := "", [];
    if m != map[] {
      k :| k in m && MapBytes(m) == [1] + (TextBytes(k) + (ValueBytes(m[k]) + MapBytes(m - {k})));
      body := TextBytes(k) + (ValueBytes(m[k]) + MapBytes(m - {k}));
    }
  }

  lemma {:induction false} MapSplits(a: map<string, Value>, b: map<string, Value>, x: seq<byte>, y: seq<byte>)
    requires MapBytes(a) + x == MapBytes(b) + y
    ensures a == b && x == y
    decreases |a|
  {
    hide *;
    var k, bodyA := MapIs(a);
    var l, bodyB := MapIs(b);
    TagSplits(if a == map[] then 0 else 1, if b == map[] then 0 else 1, bodyA, bodyB, x, y);
    if a != map[] {
      var restA, restB := MapBytes(a - {k}), MapBytes(b - {l});
      assert bodyA + x == TextBytes(k) + (ValueBytes(a[k]) + (restA + x));
      assert bodyB + y == TextBytes(l) + (ValueBytes(b[l]) + (restB + y));
      TextSplits(k, l, ValueBytes(a[k]) + (restA + x), ValueBytes(b[l]) + (restB + y));
      ValueSplits(a[k], b[l], restA + x, restB + y);
      Smaller(a, k);
      MapSplits(a - {k}, b - {l}, x, y);
    } else {
      assert [] + x == x && [] + y == y;
    }
  }

  lemma Smaller(m: map<string, Value>, k: string)
    requires k in m
    ensures |m - {k}| < |m|
  {
    assert (m - {k}).Keys == m.Keys - {k};
    assert |m - {k}| == |(m - {k}).Keys|;
  }

  ghost function DocBytes(d: Document): seq<byte> {
    NatBytes(d.id) + (TextBytes(d.title) + (TextBytes(d.description)
                                            + (NatBytes(d.price) + (TextBytes(d.category) + MapBytes(d.attributes)))))
  }

  lemma DocsDiffer(a: Document, b: Document)
    requires DocBytes(a) == DocBytes(b)
    ensures a == b
  {
    hide NatBytes, TextBytes, MapBytes;
    var priceA, priceB := TextBytes(a.category) + MapBytes(a.attributes),
                          TextBytes(b.category) + MapBytes(b.attributes);
    var textA, textB := NatBytes(a.price) + priceA, NatBytes(b.price) + priceB;
    NatSplits(a.id, b.id, TextBytes(a.title) + (TextBytes(a.description) + textA),
              TextBytes(b.title) + (TextBytes(b.description) + textB));
    TextSplits(a.title, b.title, TextBytes(a.description) + textA, TextBytes(b.description) + textB);
    TextSplits(a.description, b.description, textA, textB);
    NatSplits(a.price, b.price, priceA, priceB);
    TextSplits(a.category, b.category, MapBytes(a.attributes), MapBytes(b.attributes));
    assert MapBytes(a.attributes) + [] == MapBytes(b.attributes) + [];
    MapSplits(a.attributes, b.attributes, [], []);
  }

  ghost function RecordBytes(r: WalRecord): seq<byte> {
    NatBytes(r.seqNo) + match r.entry case Index(d) => [0] + DocBytes(d) case Delete(id) => [1] + NatBytes(id)
  }

  lemma RecordsDiffer(r: WalRecord, q: WalRecord)
    requires RecordBytes(r) == RecordBytes(q)
    ensures r == q
  {
    hide NatBytes, DocBytes;
    var left := match r.entry case Index(d) => [0] + DocBytes(d) case Delete(id) => [1] + NatBytes(id);
    var right := match q.entry case Index(d) => [0] + DocBytes(d) case Delete(id) => [1] + NatBytes(id);
    NatSplits(r.seqNo, q.seqNo, left, right);
    assert left[0] == right[0] && left[1..] == right[1..];
    match r.entry
    case Index(d) => DocsDiffer(d, q.entry.doc);
    case Delete(id) =>
      assert NatBytes(id) + [] == NatBytes(q.entry.id) + [];
      NatSplits(id, q.entry.id, [], []);
  }

  ghost function RecordOf(data: seq<byte>): Option<WalRecord> {
    if exists r :: RecordBytes(r) == data then
      var r :| RecordBytes(r) == data;
      Some(r)
    else None
  }

  /** A serialiser whose decoding undoes its encoding on every record. */
  lemma SomeSerialiser() returns (c: RecordSerde)
    ensures Inverse(c)
  {
    c := Serde(r => RecordBytes(r), data => RecordOf(data));
    forall r: WalRecord
      ensures c.decode(c.encode(r)) == Some(r)
    {
      var q := RecordOf(RecordBytes(r)).value;
      assert RecordBytes(q) == RecordBytes(r);
      RecordsDiffer(r, q);
    }
  }
}
