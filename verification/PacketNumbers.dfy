/**
  The packet library's integers and bit groups as numbers: which digits and which bits
  of a packet they are, and where the byte and bit offsets go from field to field.
  */
module PacketNumbers {
  import opened Bytes
  import opened Framing
  import opened Options
  import opened PacketSchema

  // ---------- Integers ----------

  lemma TimesAssociates(a: int, b: int, c: int)
    ensures a * (b * c) == (a * b) * c
  {
  }

  lemma Distribute(a: int, b: int, c: int)
    ensures (a + b) * c == a * c + b * c
  {
  }

  /** Bytes in front count for more: decoding is big-endian. */
  lemma {:induction false} DecodeConcat(high: seq<Byte>, low: seq<Byte>)
    ensures Decode(high + low) == Decode(high) * Power(|low|) + Decode(low)
    decreases |low|
  {
    if low == [] {
      assert high + low == high;
    } else {
      hide Decode;
      var n := |low| - 1;
      DecodeConcat(high, low[..n]);
      assert high + low == (high + low[..n]) + [low[n]];
      assert low == low[..n] + [low[n]];
      DecodeAppend(high + low[..n], low[n]);
      DecodeAppend(low[..n], low[n]);
      assert Power(|low|) == 256 * Power(n);
      TimesAssociates(Decode(high), Power(n), 256);
      Distribute(Decode(high) * Power(n), Decode(low[..n]), 256);
    }
  }

  /** A byte by itself is its own value; with DecodeConcat that fixes every decoding. */
  lemma DecodeOne(b: Byte)
    ensures Decode([b]) == b as int && Decode([]) == 0
  {
    assert [b][..0] == [];
  }

  lemma ModuloParts(val: int, p: nat)
    requires p > 0
    ensures (256 * p) > 0 && ((val / 256) % p) * 256 + val % 256 == val % (256 * p)
  {
    var h, l := val / 256, val % 256;
    var q, r := h / p, h % p;
    assert val == (q * p + r) * 256 + l;
    assert q * (256 * p) == (q * p) * 256;
    Remainder(val, 256 * p, q, r * 256 + l);
  }

  lemma Remainder(n: int, d: nat, q: int, r: int)
    requires d > 0 && n == q * d + r && 0 <= r < d
    ensures n % d == r
  {
    var k := n / d;
    AtLeastOne(k - q, d);
    assert (k - q) * d == k * d - q * d;
  }

  /** Encoding keeps the low bytes of any number, negative ones in two's complement. */
  lemma {:induction false} EncodeKeepsLow(val: int, dim: nat)
    ensures Decode(Encode(val, dim)) == val % Power(dim)
    decreases dim
  {
    if dim > 0 {
      EncodeKeepsLow(val / 256, dim - 1);
      var e := Encode(val, dim);
      assert e[..dim - 1] == Encode(val / 256, dim - 1);
      ModuloParts(val, Power(dim - 1));
      ByteOfModulo(val);
    } else {
      assert Encode(val, 0) == [];
    }
  }

  lemma ByteOfModulo(val: int)
    ensures ByteOf(val % 256) as int == val % 256
  {
  }

  // ---------- Bits ----------

  function Two(k: nat): (r: nat)
    ensures r > 0
  {
    if k == 0 then 1 else 2 * Two(k - 1)
  }

  lemma HalfIs(x: Byte)
    ensures Half(x) as int == x as int / 2
  {
  }

  lemma DivideTwice(n: nat, d: nat, q: nat, half: nat)
    requires d > 0 && q == n / d && half == q / 2
    ensures n / (2 * d) == half
  {
    assert q * d <= n < q * d + d;
    assert 2 * half <= q < 2 * half + 2;
    assert half * (2 * d) <= n by { assert (q - 2 * half) * d >= 0; }
    assert n < half * (2 * d) + 2 * d by { assert (2 * half + 1 - q) * d >= 0; }
    Quotient(n, 2 * d, half);
  }

  lemma Quotient(n: nat, d: nat, q: nat)
    requires d > 0 && q * d <= n < q * d + d
    ensures n / d == q
  {
    var r := n / d;
    assert r * d <= n < r * d + d;
    AtLeastOne(r - q, d);
    assert (r - q) * d == r * d - q * d;
  }

  lemma AtLeastOne(x: int, d: nat)
    ensures x >= 1 ==> x * d >= d
    ensures x <= -1 ==> x * d + d <= 0
  {
  }

  lemma {:induction false} RightIs(v: Byte, k: nat)
    ensures Right(v, k) as int == v as int / Two(k)
  {
    hide Half;
    if k > 0 {
      RightIs(v, k - 1);
      HalfIs(Right(v, k - 1));
      DivideTwice(v as int, Two(k - 1), Right(v, k - 1) as int, Right(v, k) as int);
    }
  }

  lemma SplitByte(x: Byte)
    ensures x == if Meet(x, 1) == 0 then Double(Half(x)) else DoubleOne(Half(x))
    ensures Meet(x, 1) == 0 || Meet(x, 1) == 1
    ensures Meet(Half(x), 0x7f) == Half(x)
  {
  }

  lemma DoubleIs(y: Byte)
    requires Meet(y, 0x7f) == y
    ensures Double(y) as int == 2 * y as int
  {
  }

  lemma DoubleOneIs(y: Byte)
    requires Meet(y, 0x7f) == y
    ensures DoubleOne(y) as int == 2 * y as int + 1
  {
  }

  lemma MeetHalves(x: Byte, m: Byte)
    ensures Meet(x, DoubleOne(m)) == if Meet(x, 1) == 0 then Double(Meet(Half(x), m)) else DoubleOne(Meet(Half(x), m))
    ensures Meet(Meet(Half(x), m), 0x7f) == Meet(Half(x), m)
  {
  }

  lemma LowBits(n: nat, half: nat, bit: nat, d: nat)
    requires d > 0 && n == 2 * half + bit && bit < 2
    ensures n % (2 * d) == 2 * (half % d) + bit
  {
    var q, r := half / d, half % d;
    assert half == q * d + r;
    TimesAssociates(q, d, 2);
    Remainder(n, 2 * d, q, 2 * r + bit);
  }

  /** The low bits of a byte are its remainder by a power of two. */
  lemma {:induction false} MaskIs(x: Byte, s: nat)
    ensures Meet(x, LowMask(s)) as int == x as int % Two(s)
    decreases s
  {
    hide Meet, DoubleOne, Double, Half;
    if s == 0 {
      MeetZero(x);
    } else {
      MaskIs(Half(x), s - 1);
      var bit := MaskStep(x, LowMask(s - 1));
      LowBits(x as int, Half(x) as int, bit, Two(s - 1));
    }
  }

  lemma MaskStep(x: Byte, m: Byte) returns (bit: nat)
    ensures bit < 2 && x as int == 2 * Half(x) as int + bit
    ensures Meet(x, DoubleOne(m)) as int == 2 * Meet(Half(x), m) as int + bit
  {
    hide Meet, DoubleOne, Double, Half;
    SplitByte(x);
    MeetHalves(x, m);
    if Meet(x, 1) == 0 {
      bit := 0;
      DoubleIs(Half(x));
      DoubleIs(Meet(Half(x), m));
    } else {
      bit := 1;
      DoubleOneIs(Half(x));
      DoubleOneIs(Meet(Half(x), m));
    }
  }

  /** The bits taken out, as a number: first the bits below are dropped, then those above. */
  lemma ExtractIs(p: Byte, b: nat, s: nat)
    requires b + s <= 8
    ensures Extract(p, b, s) as int == (p as int / Two(8 - (b + s))) % Two(s)
  {
    hide Right, LowMask, Meet;
    RightIs(p, 8 - (b + s));
    MaskIs(Right(p, 8 - (b + s)), s);
  }

  lemma {:induction false} LeftIs(v: Byte, k: nat)
    requires k <= 8
    ensures Left(v, k) == v << k
  {
    hide Double;
    if k > 0 {
      LeftIs(v, k - 1);
      LeftAdds(v, k - 1, 1);
      assert Left(Left(v, k - 1), 1) == Double(Left(v, k - 1));
      ShiftOnce(v, k);
    }
  }

  lemma ShiftOnce(v: Byte, k: nat)
    requires 0 < k <= 8
    ensures Double(v << (k - 1)) == v << k
  {
    var j := k - 1;
    assert j in {0, 1, 2, 3, 4, 5, 6, 7};
  }

  /** The bits put in place are shifted up to it, and nothing else is added. */
  lemma PlaceIs(z: Byte, v: Byte, b: nat, s: nat)
    requires b + s <= 8
    ensures Place(z, v, b, s) == z | (v << (8 - (b + s)))
  {
    hide Join, Left;
    LeftIs(v, 8 - (b + s));
    JoinIs(z, v << (8 - (b + s)));
  }

  lemma JoinIs(z: Byte, w: Byte)
    ensures Join(z, w) == z | w
  {
  }

  /** Bits fit a group exactly if they are a number below the group's power of two. */
  lemma FitsIff(v: Byte, s: nat)
    ensures Fits(v, s) <==> (v as int) < Two(s)
  {
    hide Meet, LowMask;
    MaskIs(v, s);
    SmallRemainder(v as int, Two(s));
  }

  lemma SmallRemainder(n: nat, d: nat)
    requires d > 0
    ensures n % d == n <==> n < d
  {
  }

  // ---------- Offsets ----------

  lemma ParseInt(s: nat, schema: seq<Field>, packet: seq<Byte>, offset: int, b: nat)
    ensures ParseFrom([IntField(s)] + schema, packet, offset, b)
         == Prepend(Number(Decode(Slice(packet, offset, offset + s))), ParseFrom(schema, packet, offset + s, b))
  {
    hide Decode, Slice, Extract, HasIndex, At;
    assert ([IntField(s)] + schema)[1..] == schema;
  }

  lemma ParseBits(s: nat, schema: seq<Field>, packet: seq<Byte>, offset: nat, b: nat)
    requires b + s < 8 && offset < |packet|
    ensures ParseFrom([BitsField(s)] + schema, packet, offset, b)
         == Prepend(BitGroup(Extract(packet[offset], b, s)), ParseFrom(schema, packet, offset, b + s))
  {
    hide Decode, Slice, Extract;
    assert ([BitsField(s)] + schema)[1..] == schema;
  }

  lemma PackInt(s: nat, n: int, schema: seq<Field>, values: seq<Value>, r: seq<Byte>, b: nat)
    requires |schema| == |values|
    ensures PayloadFrom([IntField(s)] + schema, [Number(n)] + values, r, b)
         == PayloadFrom(schema, values, r + Encode(n, s), 0)
  {
    hide Encode, Place, Fits;
    assert ([IntField(s)] + schema)[1..] == schema && ([Number(n)] + values)[1..] == values;
  }

  lemma PackBits(s: nat, v: Byte, schema: seq<Field>, values: seq<Value>, r: seq<Byte>)
    requires |schema| == |values| && s < 8 && Fits(v, s)
    ensures PayloadFrom([BitsField(s)] + schema, [BitGroup(v)] + values, r, 0)
         == PayloadFrom(schema, values, r + [Place(0, v, 0, s)], s)
  {
    hide Encode, Place, Fits;
    assert ([BitsField(s)] + schema)[1..] == schema && ([BitGroup(v)] + values)[1..] == values;
  }

  lemma PackEnd(r: seq<Byte>, b: nat)
    ensures PayloadFrom([], [], r, b) == Some(r)
  {
  }

  lemma EncodeByte(x: Byte)
    ensures Encode(x as int, 1) == [x]
  {
    ByteOfValue(x);
    EncodeSmall(x as int);
  }

  lemma EncodeSmall(n: nat)
    requires n < 256
    ensures Encode(n, 1) == [ByteOf(n)]
  {
    hide ByteOf;
    assert n % 256 == n;
    assert Encode(n / 256, 0) == [];
  }

  lemma ParseEnd(packet: seq<Byte>, offset: int, b: nat)
    ensures ParseFrom([], packet, offset, b) == Some([])
  {
  }

  /**
    A byte of bits that is not filled: unpacking reads the field behind it from that same
    byte, and takes later bits from below where it left off, of whichever byte is next;
    packing starts a new byte each time. So values survive exactly if they happen to agree.
    */
  lemma UnfilledByteIff(s: nat, t: nat, x: Byte, u: Byte, v: Byte) returns (packet: seq<Byte>)
    requires 0 < s && 0 < t && s + t < 8 && Fits(u, s) && Fits(v, t)
    ensures
      var schema, values := [BitsField(s), IntField(1), BitsField(t)], [BitGroup(u), Number(x as int), BitGroup(v)];
      && Payload(schema, values) == Some(packet) && packet == [Place(0, u, 0, s), x, Place(0, v, 0, t)]
      && Parse(schema, packet)
         == Some([BitGroup(u), Number(Place(0, u, 0, s) as int), BitGroup(Extract(x, s, t))])
      && (Parse(schema, packet) == Some(values) <==> x == Place(0, u, 0, s) && v == Extract(x, s, t))
  {
    hide ParseFrom, PayloadFrom, Extract, Place, Fits, Encode, Decode, Slice, Meet, TopMask;
    var f, i, none := [BitsField(t)], IntField(1), [];
    assert f + none == f && [BitsField(s), i, BitsField(t)] == [BitsField(s)] + ([i] + f);
    packet := [Place(0, u, 0, s), x, Place(0, v, 0, t)];
    UnfilledPacked(s, t, x, u, v);
    UnfilledParsed(s, t, packet);
    MaskEnds();
    MeetZero(TopMask(0));
    PlaceKeeps(0, u, 0, s);
    ExtractPlace(packet[0], 0, u, 0, s);
  }

  lemma UnfilledParsed(s: nat, t: nat, packet: seq<Byte>)
    requires s + t < 8 && |packet| >= 2
    ensures ParseFrom([BitsField(s)] + ([IntField(1)] + ([BitsField(t)] + [])), packet, 0, 0)
         == Some([BitGroup(Extract(packet[0], 0, s)), Number(packet[0] as int), BitGroup(Extract(packet[1], s, t))])
  {
    hide ParseFrom, Extract, Decode, Slice;
    var f := [BitsField(t)] + [];
    ParseBits(s, [IntField(1)] + f, packet, 0, 0);
    ParseInt(1, f, packet, 0, s);
    ParseBits(t, [], packet, 1, s);
    ParseEnd(packet, 1, s + t);
    FirstByte(packet);
    DecodeOne(packet[0]);
    var g, h, k := BitGroup(Extract(packet[0], 0, s)), Number(packet[0] as int), BitGroup(Extract(packet[1], s, t));
    assert [g] + ([h] + ([k] + [])) == [g, h, k];
  }

  lemma FirstByte(packet: seq<Byte>)
    requires packet != []
    ensures Slice(packet, 0, 1) == [packet[0]]
  {
  }

  lemma UnfilledPacked(s: nat, t: nat, x: Byte, u: Byte, v: Byte)
    requires s + t < 8 && Fits(u, s) && Fits(v, t)
    ensures PayloadFrom([BitsField(s)] + ([IntField(1)] + ([BitsField(t)] + [])),
                        [BitGroup(u), Number(x as int), BitGroup(v)], [], 0)
         == Some([Place(0, u, 0, s), x, Place(0, v, 0, t)])
  {
    hide PayloadFrom, Place, Fits, Encode;
    var f, g := [BitsField(t)] + [], [BitGroup(v)] + [];
    var p, q := Place(0, u, 0, s), Place(0, v, 0, t);
    assert [BitGroup(u), Number(x as int), BitGroup(v)] == [BitGroup(u)] + ([Number(x as int)] + g);
    PackBits(s, u, [IntField(1)] + f, [Number(x as int)] + g, []);
    PackInt(1, x as int, f, g, [] + [p], s);
    EncodeByte(x);
    PackBits(t, v, [], [], [] + [p] + [x]);
    PackEnd([] + [p] + [x] + [q], t);
    assert [] + [p] + [x] + [q] == [p, x, q];
  }

  /** Bits that do not fit the byte begun: neither unpacking nor packing goes on into the next byte. */
  lemma NoRoomInByte(s: nat, t: nat, packet: seq<Byte>, u: Byte, v: Byte)
    requires 0 < s < 8 < s + t && packet != [] && Fits(u, s)
    ensures Parse([BitsField(s), BitsField(t)], packet) == None
    ensures Payload([BitsField(s), BitsField(t)], [BitGroup(u), BitGroup(v)]) == None
  {
    hide Extract, Place, Fits;
    var f, g := [BitsField(t)], [BitGroup(v)];
    assert [BitsField(s), BitsField(t)] == [BitsField(s)] + f && [BitGroup(u), BitGroup(v)] == [BitGroup(u)] + g;
    hide ParseFrom, PayloadFrom;
    ParseBits(s, f, packet, 0, 0);
    PackBits(s, u, f, g, []);
    NoRoom(t, packet, s, v, [] + [Place(0, u, 0, s)]);
  }

  lemma NoRoom(t: nat, packet: seq<Byte>, b: nat, v: Byte, r: seq<Byte>)
    requires b + t > 8
    ensures ParseFrom([BitsField(t)], packet, 0, b) == None
    ensures PayloadFrom([BitsField(t)], [BitGroup(v)], r, b) == None
  {
    hide Extract, Place, Fits;
  }
}
