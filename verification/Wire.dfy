/** The wire format of a message: a fixed big-endian header, the key length, the key and the value. */
module Wire {
  import opened Wrappers
  import opened Circular

  type Byte = b: int | 0 <= b < 256

  type Bytes = seq<Byte>

  type Int64 = x: int | -0x8000_0000_0000_0000 <= x < 0x8000_0000_0000_0000

  const TWO32: nat := 0x1_0000_0000
  const TWO64: nat := 0x1_0000_0000_0000_0000

  // ----- big-endian integers

  function Pow256(k: nat): (p: nat)
    ensures p > 0
  {
    if k == 0 then 1 else 256 * Pow256(k - 1)
  }

  /** The low k bytes of x, most significant first. */
  function Put(k: nat, x: nat): (b: Bytes)
    ensures |b| == k
  {
    if k == 0 then [] else Put(k - 1, x / 256) + [x % 256]
  }

  function Get(b: Bytes): nat {
    if b == [] then 0 else Get(b[..|b| - 1]) * 256 + b[|b| - 1]
  }

  lemma {:induction false} GetPut(k: nat, x: nat)
    requires x < Pow256(k)
    ensures Get(Put(k, x)) == x
  {
    if k > 0 {
      assert x / 256 < Pow256(k - 1);
      GetPut(k - 1, x / 256);
      assert Put(k, x)[..k - 1] == Put(k - 1, x / 256);
    }
  }

  /** The leading bytes of a field are the field of the leading part. */
  lemma {:induction false} PutPrefix(k: nat, j: nat, x: nat)
    ensures Put(k + j, x)[..k] == Put(k, x / Pow256(j))
  {
    if j > 0 {
      PutPrefix(k, j - 1, x / 256);
      assert Put(k + j, x)[..k] == Put(k + (j - 1), x / 256)[..k];
      DivideTwice(x, Pow256(j - 1));
    }
  }

  lemma DivideTwice(x: nat, n: nat)
    requires n > 0
    ensures x / 256 / n == x / (256 * n)
  {
    var q, r, s := x / 256 / n, x / 256 % n, x % 256;
    assert x == 256 * (n * q + r) + s;
    assert x == (256 * n) * q + (256 * r + s) && 256 * r + s < 256 * n;
    QuotientIsUnique(x, 256 * n, q, 256 * r + s);
  }

  lemma QuotientIsUnique(x: nat, n: nat, q: nat, r: nat)
    requires n > 0 && x == n * q + r && r < n
    ensures x / n == q
  {
    RemainderIsUnique(x, q, r, n);
    assert n * (x / n) == n * q;
  }

  lemma {:induction false} GetIsSmall(b: Bytes)
    ensures Get(b) < Pow256(|b|)
  {
    if b != [] {
      GetIsSmall(b[..|b| - 1]);
    }
  }

  lemma {:induction false} PutGet(b: Bytes)
    ensures Put(|b|, Get(b)) == b
  {
    if b != [] {
      PutGet(b[..|b| - 1]);
      assert b == b[..|b| - 1] + [b[|b| - 1]];
    }
  }

  /** Only the low bytes of x are written. */
  lemma {:induction false} PutWraps(k: nat, x: nat)
    ensures Put(k, x) == Put(k, x % Pow256(k))
  {
    if k > 0 {
      var p := Pow256(k - 1);
      WrapDigits(x, p);
      PutWraps(k - 1, x / 256);
    }
  }

  lemma WrapDigits(x: nat, p: nat)
    requires p > 0
    ensures x % (256 * p) % 256 == x % 256
    ensures x % (256 * p) / 256 == x / 256 % p
  {
    var q, r := x / 256 / p, x / 256 % p;
    assert x == 256 * (q * p + r) + x % 256;
    assert x == q * (256 * p) + (256 * r + x % 256);
    assert 256 * r + x % 256 < 256 * p;
    RemainderIsUnique(x, q, 256 * r + x % 256, 256 * p);
    assert (256 * r + x % 256) / 256 == r;
  }

  lemma Powers()
    ensures Pow256(4) == TWO32 && Pow256(8) == TWO64
  {
    assert Pow256(4) == 256 * (256 * (256 * (256 * Pow256(0))));
    assert Pow256(8) == 256 * (256 * (256 * (256 * Pow256(4))));
  }

  // ----- messages

  datatype Header = Header(priority: Byte, timestamp: Int64, produceTime: Int64, appendTime: Int64)

  /** batchDecoded marks a message unpacked from a compressed batch; it is not on the wire. */
  datatype Message = Message(header: Header, key: Bytes, value: Bytes, batchDecoded: bool)

  /** Header, key and value are those of m; how it travelled does not matter. */
  predicate SameMessage(a: Message, m: Message) {
    a.(batchDecoded := false) == m.(batchDecoded := false)
  }

  const HEADER_SIZE := 25
  const METADATA_SIZE := 29

  function Unsigned(x: Int64): (u: nat)
    ensures u < TWO64
  {
    if x < 0 then x + TWO64 else x
  }

  function Signed(u: nat): (x: Int64)
    requires u < TWO64
    ensures Unsigned(x) == u
  {
    if u >= 0x8000_0000_0000_0000 then u - TWO64 else u
  }

  function EncodedSize(m: Message): nat {
    METADATA_SIZE + |m.key| + |m.value|
  }

  function MarshalHeader(h: Header): (b: Bytes)
    ensures |b| == HEADER_SIZE
  {
    [h.priority] + Put(8, Unsigned(h.timestamp)) + Put(8, Unsigned(h.produceTime)) + Put(8, Unsigned(h.appendTime))
  }

  function Marshal(m: Message): (b: Bytes)
    ensures |b| == EncodedSize(m)
  {
    MarshalHeader(m.header) + Put(4, |m.key|) + m.key + m.value
  }

  /** The 64-bit field at the given place. */
  function Field(data: Bytes, at: nat): Int64
    requires at + 8 <= |data|
  {
    GetIsSmall(data[at..at + 8]);
    Powers();
    Signed(Get(data[at..at + 8]))
  }

  function UnmarshalHeader(data: Bytes): Result<Header> {
    if |data| < HEADER_SIZE then Err else Ok(Header(data[0], Field(data, 1), Field(data, 9), Field(data, 17)))
  }

  function KeyLength(data: Bytes): nat
    requires |data| >= METADATA_SIZE
  {
    Get(data[25..29])
  }

  function Unmarshal(data: Bytes): Result<Message> {
    if |data| < METADATA_SIZE then Err else
      var kl := KeyLength(data);
      if |data| < METADATA_SIZE + kl then Err else
        Ok(Message(UnmarshalHeader(data).value, data[29..29 + kl], data[29 + kl..], false))
  }

  // ----- the two directions

  lemma FieldOf(data: Bytes, at: nat, x: Int64)
    requires at + 8 <= |data| && data[at..at + 8] == Put(8, Unsigned(x))
    ensures Field(data, at) == x
  {
    Powers();
    GetPut(8, Unsigned(x));
  }

  /** The header survives whatever follows it. */
  lemma HeaderRoundTrip(h: Header, rest: Bytes)
    ensures UnmarshalHeader(MarshalHeader(h) + rest) == Ok(h)
  {
    var data := MarshalHeader(h) + rest;
    assert data[1..9] == Put(8, Unsigned(h.timestamp));
    assert data[9..17] == Put(8, Unsigned(h.produceTime));
    assert data[17..25] == Put(8, Unsigned(h.appendTime));
    FieldOf(data, 1, h.timestamp);
    FieldOf(data, 9, h.produceTime);
    FieldOf(data, 17, h.appendTime);
  }

  /** The key length is written modulo 2^32. */
  lemma KeyLengthOf(m: Message)
    ensures KeyLength(Marshal(m)) == |m.key| % TWO32
  {
    assert Marshal(m)[25..29] == Put(4, |m.key|);
    Powers();
    PutWraps(4, |m.key|);
    GetPut(4, |m.key| % TWO32);
  }

  /** A message survives the wire exactly when its key length fits the 32-bit field. */
  lemma RoundTrip(m: Message)
    ensures UnmarshalHeader(Marshal(m)) == Ok(m.header)
    ensures Unmarshal(Marshal(m)) == Ok(m.(batchDecoded := false)) <==> |m.key| < TWO32
  {
    var data := Marshal(m);
    assert data == MarshalHeader(m.header) + (Put(4, |m.key|) + m.key + m.value);
    HeaderRoundTrip(m.header, Put(4, |m.key|) + m.key + m.value);
    KeyLengthOf(m);
    if |m.key| < TWO32 {
      assert data[29..29 + |m.key|] == m.key;
      assert data[29 + |m.key|..] == m.value;
    }
  }

  /** Whatever decodes is the encoding of what it decodes to: the format has one reading. */
  lemma Canonical(data: Bytes)
    requires Unmarshal(data).Ok?
    ensures Marshal(Unmarshal(data).value) == data
  {
    var m, kl := Unmarshal(data).value, KeyLength(data);
    HeaderCanonical(data);
    PutGet(data[25..29]);
    assert data == data[..25] + data[25..29] + data[29..29 + kl] + data[29 + kl..];
  }

  lemma HeaderCanonical(data: Bytes)
    requires |data| >= HEADER_SIZE
    ensures MarshalHeader(UnmarshalHeader(data).value) == data[..25]
  {
    PutGet(data[1..9]);
    PutGet(data[9..17]);
    PutGet(data[17..25]);
    assert data[..25] == [data[0]] + data[1..9] + data[9..17] + data[17..25];
  }

  /** Where everything is, most significant byte first. */
  lemma Layout(m: Message)
    ensures var data := Marshal(m);
            && |data| == 29 + |m.key| + |m.value| && data[0] == m.header.priority
            && Get(data[1..9]) == Unsigned(m.header.timestamp) && Get(data[9..17]) == Unsigned(m.header.produceTime)
            && Get(data[17..25]) == Unsigned(m.header.appendTime) && Get(data[25..29]) == |m.key| % 0x1_0000_0000
            && data[29..29 + |m.key|] == m.key && data[29 + |m.key|..] == m.value
    ensures forall b0: Byte, b1: Byte, b2: Byte, b3: Byte ::
              Get([b0, b1, b2, b3]) == b0 * 0x100_0000 + b1 * 0x1_0000 + b2 * 0x100 + b3
  {
    var data, h := Marshal(m), m.header;
    assert data[1..9] == Put(8, Unsigned(h.timestamp)) && data[9..17] == Put(8, Unsigned(h.produceTime));
    assert data[17..25] == Put(8, Unsigned(h.appendTime));
    Powers();
    GetPut(8, Unsigned(h.timestamp));
    GetPut(8, Unsigned(h.produceTime));
    GetPut(8, Unsigned(h.appendTime));
    KeyLengthOf(m);
    forall b0: Byte, b1: Byte, b2: Byte, b3: Byte
      ensures Get([b0, b1, b2, b3]) == b0 * 0x100_0000 + b1 * 0x1_0000 + b2 * 0x100 + b3
    {
      FourBytes(b0, b1, b2, b3);
    }
  }

  lemma FourBytes(b0: Byte, b1: Byte, b2: Byte, b3: Byte)
    ensures Get([b0, b1, b2, b3]) == b0 * 0x100_0000 + b1 * 0x1_0000 + b2 * 0x100 + b3
  {
    assert [b0][..0] == [] && [b0, b1][..1] == [b0];
    assert [b0, b1, b2][..2] == [b0, b1] && [b0, b1, b2, b3][..3] == [b0, b1, b2];
    assert Get([b0]) == b0;
    assert Get([b0, b1]) == b0 * 256 + b1;
    assert Get([b0, b1, b2]) == (b0 * 256 + b1) * 256 + b2;
  }

  // ----- in place

  /** Overwrites buf from index at on, and leaves everything else. */
  method Store(buf: array<Byte>, at: nat, b: Bytes)
    requires at + |b| <= buf.Length
    modifies buf
    ensures buf[..at + |b|] == old(buf[..at]) + b
    ensures buf[at + |b|..] == old(buf[at + |b|..])
  {
    var i := 0;
    while i < |b|
      invariant 0 <= i <= |b|
      invariant forall k | 0 <= k < buf.Length :: buf[k] == if at <= k < at + i then b[k - at] else old(buf[k])
    {
      buf[at + i] := b[i];
      i := i + 1;
    }
  }

  /** Writes the message into a buffer of its encoded size, field by field. */
  method MarshalInto(m: Message, buf: array<Byte>)
    requires buf.Length == EncodedSize(m)
    modifies buf
    ensures buf[..] == Marshal(m)
  {
    var kl := |m.key|;
    buf[0] := m.header.priority;
    assert buf[..1] == [m.header.priority];
    Store(buf, 1, Put(8, Unsigned(m.header.timestamp)));
    Store(buf, 9, Put(8, Unsigned(m.header.produceTime)));
    Store(buf, 17, Put(8, Unsigned(m.header.appendTime)));
    assert buf[..25] == MarshalHeader(m.header);
    Store(buf, 25, Put(4, kl));
    Store(buf, 29, m.key);
    Store(buf, 29 + kl, m.value);
    assert buf[..] == buf[..29 + kl + |m.value|];
  }
}
