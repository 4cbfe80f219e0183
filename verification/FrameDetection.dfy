/**
  What the CRC check makes of a damaged body: the data and the CRC field, unescaped. The
  CRC takes the body's bits most significant byte first, but the field travels low byte
  first; so the errors it misses are exact in the one order and not in the other.
  */
module FrameDetection {
  import opened Bytes
  import opened Crc16
  import opened CrcDetection
  import opened Framing

  /** The data and its CRC field, as a frame carries them. */
  function Body(data: seq<Byte>): (body: seq<Byte>)
    ensures |body| == |data| + 2
  {
    data + CrcField(Crc(0, data))
  }

  /** A body in the order in which the CRC takes it: the field's high byte first. */
  function Ordered(body: seq<Byte>): (r: seq<Byte>)
    requires |body| >= 2
    ensures |r| == |body|
  {
    body[..|body| - 2] + [body[|body| - 1], body[|body| - 2]]
  }

  /** What the check makes of a body. */
  function Checked(body: seq<Byte>): ReadResult {
    if |body| >= 2 && Crc(0, Ordered(body)) == 0 then Packet(body[..|body| - 2]) else CrcError
  }

  // ---------- A body that passes leaves zero ----------

  lemma DecodedBits(lo: Byte, hi: Byte, w: Word)
    requires w == (((0 << 8) + (hi as Word)) << 8) + (lo as Word)
    ensures Spread(lo, hi, w)
  {
  }

  predicate Spread(lo: Byte, hi: Byte, w: Word) {
    && (w & 0x8000 != 0 <==> hi & 0x80 != 0)
    && (w & 0x4000 != 0 <==> hi & 0x40 != 0)
    && (w & 0x2000 != 0 <==> hi & 0x20 != 0)
    && (w & 0x1000 != 0 <==> hi & 0x10 != 0)
    && (w & 0x0800 != 0 <==> hi & 0x08 != 0)
    && (w & 0x0400 != 0 <==> hi & 0x04 != 0)
    && (w & 0x0200 != 0 <==> hi & 0x02 != 0)
    && (w & 0x0100 != 0 <==> hi & 0x01 != 0)
    && (w & 0x0080 != 0 <==> lo & 0x80 != 0)
    && (w & 0x0040 != 0 <==> lo & 0x40 != 0)
    && (w & 0x0020 != 0 <==> lo & 0x20 != 0)
    && (w & 0x0010 != 0 <==> lo & 0x10 != 0)
    && (w & 0x0008 != 0 <==> lo & 0x08 != 0)
    && (w & 0x0004 != 0 <==> lo & 0x04 != 0)
    && (w & 0x0002 != 0 <==> lo & 0x02 != 0)
    && (w & 0x0001 != 0 <==> lo & 0x01 != 0)
  }

  lemma SpreadBits(lo: Byte, hi: Byte, w: Word)
    requires Spread(lo, hi, w)
    ensures WordBits(w) == ByteBits(hi) + ByteBits(lo)
  {
    var d := ByteBits(hi) + ByteBits(lo);
    HalvesOf(ByteBits(hi), ByteBits(lo), d);
    Spelled(d);
  }

  lemma HalvesOf(x: Bits, y: Bits, d: Bits)
    requires |x| == |y| == 8 && d == x + y
    ensures forall i | 0 <= i < 8 :: d[i] == x[i] && d[8 + i] == y[i]
  {
  }

  lemma DecodeTwo(field: seq<Byte>)
    requires |field| == 2
    ensures DecodeField(field) == (((0 << 8) + (field[1] as Word)) << 8) + (field[0] as Word)
  {
    assert field[1..][1..] == [];
  }

  lemma FieldBits(field: seq<Byte>)
    requires |field| == 2
    ensures WordBits(DecodeField(field)) == MessageBits([field[1], field[0]])
  {
    hide *;
    var lo, hi := field[0], field[1];
    DecodeTwo(field);
    DecodedBits(lo, hi, DecodeField(field));
    SpreadBits(lo, hi, DecodeField(field));
    MessageBitsSnoc([], hi);
    MessageBitsSnoc([hi], lo);
    NoBits();
    assert [] + [hi] == [hi] && [hi] + [lo] == [hi, lo];
    assert [] + ByteBits(hi) == ByteBits(hi);
  }

  lemma NoBits()
    ensures MessageBits([]) == []
  {
  }

  lemma ZeroWord(w: Word)
    ensures WordBits(w) == Zeros(16) <==> w == 0
  {
    assert WordBits(0) == Zeros(16);
    if WordBits(w) == Zeros(16) {
      WordBitsInjective(w, 0);
    }
  }

  /** Sixteen bits clear the register exactly if they are what it holds. */
  lemma ClearsIff(r: Register, d: Register)
    ensures FeedBits(r, d) == Zeros(16) <==> r == d
  {
    hide *;
    NoZeros();
    assert d + Zeros(0) == d;
    if FeedBits(r, d) == Zeros(16) {
      ShortPatternClears(r, d);
    }
    if r == d {
      Absorb(r, d);
      DifferSame(r);
      ZeroTurns(16);
    }
  }

  lemma NoZeros()
    ensures Zeros(0) == []
  {
  }

  lemma DifferSame(r: Register)
    ensures Differ(r, r) == Zeros(16)
  {
  }

  /** A body passes the CRC check exactly if, in the CRC's order, it leaves the CRC at zero. */
  lemma PassesIffZero(data: seq<Byte>, field: seq<Byte>)
    requires |field| == 2
    ensures Crc(0, data) == DecodeField(field) <==> Crc(0, Ordered(data + field)) == 0
  {
    hide *;
    var w, tail := Crc(0, data), [field[1], field[0]];
    assert Ordered(data + field) == data + tail by { OrderedMeans(data, field); }
    CrcAppend(0, data, tail);
    CrcIsBitSerial(w, tail);
    FieldBits(field);
    ClearsIff(WordBits(w), WordBits(DecodeField(field)));
    ZeroWord(Crc(w, tail));
    if WordBits(w) == WordBits(DecodeField(field)) {
      WordBitsInjective(w, DecodeField(field));
    }
  }

  lemma OrderedMeans(data: seq<Byte>, field: seq<Byte>)
    requires |field| == 2
    ensures Ordered(data + field) == data + [field[1], field[0]]
  {
  }

  /** The body of a frame as it was written. */
  lemma SentPasses(data: seq<Byte>)
    ensures Crc(0, Ordered(Body(data))) == 0
    ensures Checked(Body(data)) == Packet(data)
  {
    hide Crc, CrcField, DecodeField, Ordered;
    PassesIffZero(data, CrcField(Crc(0, data)));
    FieldRoundTrip(Crc(0, data));
  }

  // ---------- Exactly which bodies pass ----------

  /** A body passes exactly if, in the CRC's order, it is a multiple of the generator. */
  lemma CheckedIffMultiple(body: seq<Byte>)
    ensures Checked(body).Packet? <==>
      |body| >= 2 && exists q: Bits :: |q| + 16 == 8 * |body| && Times(q) == MessageBits(Ordered(body))
  {
    hide Crc, Ordered, MessageBits, Times, FeedBits, WordBits;
    if |body| >= 2 {
      var d := MessageBits(Ordered(body));
      CrcIsBitSerial(0, Ordered(body));
      ZeroWord(0);
      ZeroWord(Crc(0, Ordered(body)));
      if Checked(body).Packet? {
        var q := Quotient(d);
      }
      forall q: Bits | |q| + 16 == 8 * |body| && Times(q) == d ensures Checked(body).Packet? {
        MultipleLeavesZero(q);
      }
    }
  }

  /** A damaged body of the length sent passes exactly if it has the CRC of the one sent. */
  lemma CheckedIfSame(data: seq<Byte>, body: seq<Byte>)
    requires |body| == |data| + 2
    ensures Checked(body) ==
      if Crc(0, Ordered(Body(data))) == Crc(0, Ordered(body)) then Packet(body[..|data|]) else CrcError
  {
    hide Crc, Body, Ordered;
    SentPasses(data);
  }

  // ---------- Damage that never goes unnoticed ----------

  lemma PatternBit(a: seq<Byte>, b: seq<Byte>, k: nat, j: nat)
    requires |a| == |b| && k < |a| && j < 8
    ensures ErrorPattern(a, b)[8 * k + j] == (ByteBits(a[k])[j] != ByteBits(b[k])[j])
  {
    hide *;
    assert ErrorPattern(a, b)[8 * k + j] == (MessageBits(a)[8 * k + j] != MessageBits(b)[8 * k + j]) by {
      PatternIsDiffer(a, b, 8 * k + j);
    }
    MessageBitAt(a, k, j);
    MessageBitAt(b, k, j);
  }

  lemma PatternIsDiffer(a: seq<Byte>, b: seq<Byte>, i: nat)
    requires |a| == |b| && i < 8 * |a|
    ensures ErrorPattern(a, b)[i] == (MessageBits(a)[i] != MessageBits(b)[i])
  {
  }

  /** The place in the body, as it is framed, of a bit the CRC takes. */
  function Place(n: nat, i: nat): nat {
    if i < 8 * n then i else if i < 8 * n + 8 then i + 8 else i - 8
  }

  lemma PlacedBit(a: seq<Byte>, b: seq<Byte>, i: nat)
    requires |a| == |b| >= 2 && i < 8 * |a|
    ensures Place(|a| - 2, i) < 8 * |a|
    ensures ErrorPattern(Ordered(a), Ordered(b))[i] == ErrorPattern(a, b)[Place(|a| - 2, i)]
  {
    hide ErrorPattern, ByteBits;
    var n := |a| - 2;
    PatternBit(Ordered(a), Ordered(b), i / 8, i % 8);
    var k := Place(n, i) / 8;
    assert Place(n, i) % 8 == i % 8 && Place(n, i) == 8 * k + i % 8 && i == 8 * (i / 8) + i % 8;
    assert k == if i / 8 < n then i / 8 else if i / 8 == n then n + 1 else n;
    PatternBit(a, b, k, i % 8);
  }

  lemma OddOrdered(body: seq<Byte>)
    requires |body| >= 2
    ensures Odd(MessageBits(Ordered(body))) == Odd(MessageBits(body))
  {
    hide *;
    var n := |body| - 2;
    var data, lo, hi := body[..n], body[n], body[n + 1];
    OrderedMeans(data, [lo, hi]);
    OddTwoMore(data, hi, lo);
    OddTwoMore(data, lo, hi);
    assert body == data + [lo, hi];
  }

  lemma OddTwoMore(data: seq<Byte>, x: Byte, y: Byte)
    ensures Odd(MessageBits(data + [x, y])) == ((Odd(MessageBits(data)) != Odd(ByteBits(x))) != Odd(ByteBits(y)))
  {
    hide *;
    assert data + [x] + [y] == data + [x, y];
    MessageBitsSnoc(data, x);
    MessageBitsSnoc(data + [x], y);
    OddAppend(MessageBits(data), ByteBits(x));
    OddAppend(MessageBits(data) + ByteBits(x), ByteBits(y));
  }

  lemma OddPattern(a: seq<Byte>, b: seq<Byte>)
    requires |a| == |b|
    ensures Odd(ErrorPattern(a, b)) == (Odd(MessageBits(a)) != Odd(MessageBits(b)))
  {
    hide Odd, MessageBits;
    OddDiffer(MessageBits(a), MessageBits(b));
  }

  /**
    A body damaged in an odd number of bits, or inside sixteen consecutive bits in the
    CRC's order, does not pass.
    */
  lemma DamagedBodyRejected(data: seq<Byte>, body: seq<Byte>, p: nat)
    requires |body| == |Body(data)| && body != Body(data)
    requires
      || Odd(ErrorPattern(Body(data), body))
      || Within(ErrorPattern(Ordered(Body(data)), Ordered(body)), p, 16)
    ensures Checked(body) == CrcError
  {
    hide *;
    var before, after := Ordered(Body(data)), Ordered(body);
    CheckedIfSame(data, body);
    if Odd(ErrorPattern(Body(data), body)) {
      OddPattern(Body(data), body);
      OddOrdered(Body(data));
      OddOrdered(body);
      OddPattern(before, after);
      DetectsOddErrors(0, before, after);
    } else {
      OrderedApart(Body(data), body);
      DetectsBursts(0, before, after, p);
    }
  }

  lemma OrderedApart(a: seq<Byte>, b: seq<Byte>)
    requires |a| == |b| >= 2
    ensures Ordered(a) == Ordered(b) <==> a == b
  {
    OrderedTwice(a);
    OrderedTwice(b);
  }

  lemma OrderedTwice(body: seq<Byte>)
    requires |body| >= 2
    ensures Ordered(Ordered(body)) == body
  {
  }

  // ---------- Short bursts in the order of the line ----------

  /** Bit i of a quotient shows at three places of the product. */
  predicate Shows(q: Bits, d: Bits, i: int) {
    0 <= i < |q| && i + 11 < |d| && d[i] == q[i] && d[i + 4] == q[i] && d[i + 11] == q[i]
  }

  /**
    A product with a quotient of up to four bits shows each of them at three places, apart
    from one another, and is clear between the first two and the next two.
    */
  lemma {:induction false} TimesFew(q: Bits)
    requires |q| <= 4
    ensures forall i | 0 <= i < |q| :: Shows(q, Times(q), i)
    ensures forall i | |q| <= i < 4 || 4 + |q| <= i < 11 :: !Times(q)[i]
    decreases |q|
  {
    hide Times;
    if q == [] {
      TimesOne();
    } else {
      TimesFew(q[1..]);
      TimesFirst(q);
      forall i | 0 <= i < |q| ensures Shows(q, Times(q), i) {
        if i > 0 {
          assert Shows(q[1..], Times(q[1..]), i - 1);
        }
      }
    }
  }

  lemma TimesFirst(q: Bits)
    requires q != []
    ensures forall i | 0 <= i < |q| + 16 ::
      Times(q)[i] == ((q[0] && (i == 0 || i == 4 || i == 11 || i == 16)) != (i > 0 && Times(q[1..])[i - 1]))
  {
    hide Times;
    TimesOfNonempty(q);
    GeneratorPlaces(|q| - 1);
  }

  lemma GeneratorPlaces(n: nat)
    ensures |GENERATOR + Zeros(n)| == 17 + n
    ensures forall i | 0 <= i < 17 + n ::
      (GENERATOR + Zeros(n))[i] <==> i == 0 || i == 4 || i == 11 || i == 16
  {
  }

  lemma {:induction false} TimesNothing(q: Bits)
    requires forall i | 0 <= i < |q| :: !q[i]
    ensures Times(q) == Zeros(|q| + 16)
    decreases |q|
  {
    hide Times;
    if q == [] {
      TimesOne();
    } else {
      TimesNothing(q[1..]);
      TimesOfNonempty(q);
    }
  }

  /**
    k bits of a pattern that leaves zero come before the last sixteen it can reach with a
    burst of twelve over the end of the data; the bits of the field's high byte that the
    burst cannot reach clear the quotient.
    */
  lemma GapClears(w: Bits, k: nat)
    requires 1 <= k <= 11 && |w| == if k < 4 then 16 + k else 20
    requires forall i | k <= i < k + 8 && 4 <= i :: !w[i]
    requires FeedBits(Zeros(16), w) == Zeros(16)
    ensures w == Zeros(|w|)
  {
    hide FeedBits, Times;
    var q := Quotient(w);
    TimesFew(q);
    forall i | 0 <= i < |q| ensures !q[i] {
      assert Shows(q, w, i);
    }
    TimesNothing(q);
  }

  /** A body damaged only inside twelve consecutive bits, data and field together, does not pass. */
  lemma ShortBurstClears(data: seq<Byte>, body: seq<Byte>, p: nat)
    requires |body| == |Body(data)| && body != Body(data)
    requires Within(ErrorPattern(Body(data), body), p, 12)
    ensures Checked(body) == CrcError
  {
    hide *;
    var before, after := Ordered(Body(data)), Ordered(body);
    var n := |data|;
    CheckedIfSame(data, body);
    OrderedApart(Body(data), body);
    if Crc(0, before) == Crc(0, after) {
      BurstPlaces(Body(data), body, p);
      var d := ErrorPattern(before, after);
      if p + 12 <= 8 * n {
        WithinBounds(d, p, 16);
        DetectsBursts(0, before, after, p);
      } else if p >= 8 * n {
        WithinBounds(d, 8 * n, 16);
        DetectsBursts(0, before, after, 8 * n);
      } else {
        var k := 8 * n - p;
        var len := if k < 4 then 16 + k else 20;
        SameCrcIffPatternLeavesZero(0, before, after);
        ClearOutside(d, p, len);
        GapClears(d[p..p + len], k);
        ZerosAre(len);
        forall i | 0 <= i < |d| ensures !d[i] {
          if p <= i < p + len { assert !d[p..p + len][i - p]; }
        }
        NoErrorNoDifference(before, after);
      }
    }
  }

  /** Where a burst of twelve bits of the body lies in the CRC's order. */
  lemma BurstPlaces(a: seq<Byte>, b: seq<Byte>, p: nat)
    requires |a| == |b| >= 2
    requires Within(ErrorPattern(a, b), p, 12)
    ensures
      var n, d := |a| - 2, ErrorPattern(Ordered(a), Ordered(b));
      && (p + 12 <= 8 * n ==> forall i | 0 <= i < |d| && !(p <= i < p + 16) :: !d[i])
      && (p >= 8 * n ==> forall i | 0 <= i < |d| && !(8 * n <= i < 8 * n + 16) :: !d[i])
      && (p < 8 * n < p + 12 ==>
            && (forall i | 0 <= i < |d| && !(p <= i < p + 20) :: !d[i])
            && (forall i | 0 <= i < |d| && 8 * n <= i < 8 * n + 8 && p + 4 <= i :: !d[i]))
  {
    hide ErrorPattern;
    var d := ErrorPattern(Ordered(a), Ordered(b));
    forall i | 0 <= i < |d|
      ensures Place(|a| - 2, i) < |d| && d[i] == ErrorPattern(a, b)[Place(|a| - 2, i)]
    {
      PlacedBit(a, b, i);
    }
  }

  // ---------- Flipped bits ----------

  /** The bits in which two bytes differ. */
  predicate Flips(x: Byte, y: Byte, at: set<int>) {
    forall j | 0 <= j < 8 :: (ByteBits(x)[j] != ByteBits(y)[j]) == (j in at)
  }

  function FlipBits(x: Byte, mask: Byte): Byte {
    x ^ mask
  }

  predicate Has(x: Byte, bit: Byte) {
    x & bit != 0
  }

  predicate Mixes(x: Byte, m: Byte, y: Byte, bit: Byte) {
    Has(y, bit) == (Has(x, bit) != Has(m, bit))
  }

  lemma FlipMixes(x: Byte, m: Byte, bit: Byte)
    requires bit in {0x80, 0x40, 0x20, 0x10, 0x08, 0x04, 0x02, 0x01}
    ensures Mixes(x, m, FlipBits(x, m), bit)
  {
    var y := FlipBits(x, m);
    XorMixes(x, m, y);
  }

  lemma XorMixes(x: Byte, m: Byte, y: Byte)
    requires y == x ^ m
    ensures y & 0x80 != 0 <==> (x & 0x80 != 0) != (m & 0x80 != 0)
    ensures y & 0x40 != 0 <==> (x & 0x40 != 0) != (m & 0x40 != 0)
    ensures y & 0x20 != 0 <==> (x & 0x20 != 0) != (m & 0x20 != 0)
    ensures y & 0x10 != 0 <==> (x & 0x10 != 0) != (m & 0x10 != 0)
    ensures y & 0x08 != 0 <==> (x & 0x08 != 0) != (m & 0x08 != 0)
    ensures y & 0x04 != 0 <==> (x & 0x04 != 0) != (m & 0x04 != 0)
    ensures y & 0x02 != 0 <==> (x & 0x02 != 0) != (m & 0x02 != 0)
    ensures y & 0x01 != 0 <==> (x & 0x01 != 0) != (m & 0x01 != 0)
  {
  }

  /** The mask of a bit's place. */
  function BitMask(j: nat): (bit: Byte)
    requires j < 8
    ensures bit in {0x80, 0x40, 0x20, 0x10, 0x08, 0x04, 0x02, 0x01}
  {
    if j == 0 then 0x80 else if j == 1 then 0x40 else if j == 2 then 0x20 else if j == 3 then 0x10
    else if j == 4 then 0x08 else if j == 5 then 0x04 else if j == 6 then 0x02 else 0x01
  }

  lemma BitShows(b: Byte, j: nat)
    requires j < 8
    ensures ByteBits(b)[j] == Has(b, BitMask(j))
  {
  }

  /** A mask flips the bits that it has. */
  lemma MaskFlips(x: Byte, m: Byte, at: set<int>)
    requires forall j | 0 <= j < 8 :: ByteBits(m)[j] == (j in at)
    ensures Flips(x, FlipBits(x, m), at)
  {
    hide ByteBits, Has, FlipBits, BitMask;
    forall j | 0 <= j < 8 ensures (ByteBits(x)[j] != ByteBits(FlipBits(x, m))[j]) == (j in at) {
      BitShows(x, j);
      BitShows(m, j);
      BitShows(FlipBits(x, m), j);
      FlipMixes(x, m, BitMask(j));
    }
  }

  lemma Masks()
    ensures forall j | 0 <= j < 8 :: ByteBits(0x01)[j] == (j in {7})
    ensures forall j | 0 <= j < 8 :: ByteBits(0x21)[j] == (j in {2, 7})
    ensures forall j | 0 <= j < 8 :: ByteBits(0x10)[j] == (j in {3})
    ensures forall j | 0 <= j < 8 :: ByteBits(0x89)[j] == (j in {0, 4, 7})
    ensures forall j | 0 <= j < 8 :: ByteBits(0xa1)[j] == (j in {0, 2, 7})
  {
  }

  lemma SameByteFlips(x: Byte)
    ensures Flips(x, x, {})
  {
  }

  // ---------- Two bytes next to each other ----------

  function BitAt(q: Bits, i: int): bool {
    0 <= i < |q| && q[i]
  }

  /** A product, bit by bit: the generator's terms are 0, 4, 11 and 16 places apart from its first. */
  predicate ProductBit(q: Bits, d: Bits, i: int) {
    0 <= i < |d| && d[i] == (((BitAt(q, i) != BitAt(q, i - 4)) != BitAt(q, i - 11)) != BitAt(q, i - 16))
  }

  lemma {:induction false} TimesBits(q: Bits)
    ensures forall i | 0 <= i < |q| + 16 :: ProductBit(q, Times(q), i)
    decreases |q|
  {
    hide Times;
    if q == [] {
      TimesOne();
    } else {
      TimesBits(q[1..]);
      TimesFirst(q);
      forall i | 0 <= i < |q| + 16 ensures ProductBit(q, Times(q), i) {
        if i > 0 {
          assert ProductBit(q[1..], Times(q[1..]), i - 1);
        }
      }
    }
  }

  /** The one error of two bytes around a clear one that leaves zero. */
  predicate Straddling(w: Bits) {
    |w| == 24 && forall i | 0 <= i < 24 :: w[i] == (i in {0, 4, 7, 16, 18, 23})
  }

  lemma StraddleClears(w: Bits)
    requires |w| == 24 && forall i | 8 <= i < 16 :: !w[i]
    ensures FeedBits(Zeros(16), w) == Zeros(16) <==> w == Zeros(24) || Straddling(w)
  {
    hide FeedBits, Times;
    ZerosKeepZero(24);
    if FeedBits(Zeros(16), w) == Zeros(16) {
      var q := Quotient(w);
      TimesBits(q);
      assert ProductBit(q, w, 8) && ProductBit(q, w, 9) && ProductBit(q, w, 10) && ProductBit(q, w, 11);
      assert ProductBit(q, w, 12) && ProductBit(q, w, 13) && ProductBit(q, w, 14);
      assert !q[1] && !q[2] && !q[3] && !q[4] && !q[5] && !q[6] && q[7] == q[0];
      forall i | 0 <= i < 24 ensures w[i] == (q[0] && i in {0, 4, 7, 16, 18, 23}) {
        assert ProductBit(q, w, i);
      }
    }
    if Straddling(w) {
      var q := [true, false, false, false, false, false, false, true];
      TimesBits(q);
      assert Times(q) == w by {
        forall i | 0 <= i < 24 ensures Times(q)[i] == w[i] {
          assert ProductBit(q, Times(q), i);
        }
      }
      MultipleLeavesZero(q);
    }
  }

  lemma SameFlips(x: Byte, y: Byte, z: Byte, at: set<int>)
    requires Flips(x, y, at) && Flips(x, z, at)
    ensures y == z
  {
    hide ByteBits;
    assert ByteBits(y) == ByteBits(z) by {
      forall j | 0 <= j < 8 ensures ByteBits(y)[j] == ByteBits(z)[j] {
      }
    }
    ByteBitsInjective(y, z);
  }

  /** The pattern's bits in one byte decide how it was flipped. */
  lemma FlipsFromPattern(a: seq<Byte>, b: seq<Byte>, k: nat, at: set<int>)
    requires |a| == |b| && k < |a|
    ensures Flips(a[k], b[k], at)
       <==> forall j | 8 * k <= j < 8 * k + 8 :: ErrorPattern(a, b)[j] == (j - 8 * k in at)
  {
    hide ErrorPattern, ByteBits;
    forall j | 0 <= j < 8
      ensures ErrorPattern(a, b)[8 * k + j] == (ByteBits(a[k])[j] != ByteBits(b[k])[j])
    {
      PatternBit(a, b, k, j);
    }
    if forall j | 8 * k <= j < 8 * k + 8 :: ErrorPattern(a, b)[j] == (j - 8 * k in at) {
      forall j | 0 <= j < 8 ensures (ByteBits(a[k])[j] != ByteBits(b[k])[j]) == (j in at) {
        assert ErrorPattern(a, b)[8 * k + j] == (8 * k + j - 8 * k in at);
      }
    }
    if Flips(a[k], b[k], at) {
      forall j | 8 * k <= j < 8 * k + 8 ensures ErrorPattern(a, b)[j] == (j - 8 * k in at) {
        assert ErrorPattern(a, b)[8 * k + (j - 8 * k)] == (ByteBits(a[k])[j - 8 * k] != ByteBits(b[k])[j - 8 * k]);
      }
    }
  }

  /** The one error of two adjacent bytes that passes: of the last data byte and the field's low byte. */
  predicate SpecialPair(a: seq<Byte>, b: seq<Byte>)
    requires |a| == |b| >= 3
  {
    var n := |a| - 2;
    b == a[n - 1 := FlipBits(a[n - 1], 0x89)][n := FlipBits(a[n], 0xa1)]
  }

  /**
    A body damaged only in two bytes next to each other passes exactly if these are the last
    data byte, flipped by 0x89, and the field's low byte, flipped by 0xa1.
    */
  lemma TwoBytesIff(data: seq<Byte>, body: seq<Byte>, k: nat)
    requires |body| == |Body(data)| && body != Body(data)
    requires Within(ErrorPattern(Body(data), body), 8 * k, 16)
    ensures Checked(body)
         == if data != [] && SpecialPair(Body(data), body) then Packet(body[..|data|]) else CrcError
  {
    hide *;
    var n, before, after := |data|, Ordered(Body(data)), Ordered(body);
    CheckedIfSame(data, body);
    OrderedApart(Body(data), body);
    PairPlaces(Body(data), body, k);
    if k + 1 == n {
      StraddlingPair(Body(data), body);
      SameCrcIffPatternLeavesZero(0, before, after);
      var d := ErrorPattern(before, after);
      ClearOutside(d, 8 * k, 24);
      StraddleClears(d[8 * k..8 * k + 24]);
      if d[8 * k..8 * k + 24] == Zeros(24) {
        ZerosAre(24);
        forall i | 0 <= i < |d| ensures !d[i] {
          if 8 * k <= i < 8 * k + 24 { assert !d[8 * k..8 * k + 24][i - 8 * k]; }
        }
        NoErrorNoDifference(before, after);
      }
    } else {
      DetectsBursts(0, before, after, if k < n then 8 * k else 8 * n);
      if n > 0 {
        PairElsewhere(Body(data), body, k);
      }
    }
  }

  /** Where two adjacent bytes of the body lie in the CRC's order. */
  lemma PairPlaces(a: seq<Byte>, b: seq<Byte>, k: nat)
    requires |a| == |b| >= 2 && Within(ErrorPattern(a, b), 8 * k, 16)
    ensures
      var n, d := |a| - 2, ErrorPattern(Ordered(a), Ordered(b));
      if k + 1 == n then
        && (forall i | 0 <= i < |d| && !(8 * k <= i < 8 * k + 24) :: !d[i])
        && (forall i | 8 * n <= i < 8 * n + 8 :: !d[i])
      else Within(d, if k < n then 8 * k else 8 * n, 16)
  {
    hide ErrorPattern;
    var d := ErrorPattern(Ordered(a), Ordered(b));
    forall i | 0 <= i < |d|
      ensures Place(|a| - 2, i) < |d| && d[i] == ErrorPattern(a, b)[Place(|a| - 2, i)]
    {
      PlacedBit(a, b, i);
    }
  }

  lemma SpecialPairShows(a: seq<Byte>, b: seq<Byte>)
    requires |a| == |b| >= 3 && SpecialPair(a, b)
    ensures ErrorPattern(a, b)[8 * (|a| - 3)] && ErrorPattern(a, b)[8 * (|a| - 2)]
  {
    hide ErrorPattern, Flips, FlipBits, ByteBits;
    var n := |a| - 2;
    Masks();
    MaskFlips(a[n - 1], 0x89, {0, 4, 7});
    FlipsFromPattern(a, b, n - 1, {0, 4, 7});
    MaskFlips(a[n], 0xa1, {0, 2, 7});
    FlipsFromPattern(a, b, n, {0, 2, 7});
  }

  lemma PairElsewhere(a: seq<Byte>, b: seq<Byte>, k: nat)
    requires |a| == |b| >= 3 && k + 3 != |a| && Within(ErrorPattern(a, b), 8 * k, 16)
    ensures !SpecialPair(a, b)
  {
    hide ErrorPattern, SpecialPair;
    if SpecialPair(a, b) {
      SpecialPairShows(a, b);
    }
  }

  /** How the two bytes around the end of the data are flipped. */
  lemma PairFlips(a: seq<Byte>, b: seq<Byte>)
    requires |a| == |b| >= 3 && Within(ErrorPattern(a, b), 8 * (|a| - 3), 16)
    ensures
      var n := |a| - 2;
      SpecialPair(a, b) <==> Flips(a[n - 1], b[n - 1], {0, 4, 7}) && Flips(a[n], b[n], {0, 2, 7})
  {
    hide ErrorPattern, Flips, FlipBits, ByteBits;
    var n := |a| - 2;
    Masks();
    MaskFlips(a[n - 1], 0x89, {0, 4, 7});
    MaskFlips(a[n], 0xa1, {0, 2, 7});
    forall i | 0 <= i < |a| && i != n - 1 && i != n ensures a[i] == b[i] {
      SameByteFlips(a[i]);
      FlipsFromPattern(a, b, i, {});
      SameFlips(a[i], a[i], b[i], {});
    }
    if Flips(a[n - 1], b[n - 1], {0, 4, 7}) && Flips(a[n], b[n], {0, 2, 7}) {
      SameFlips(a[n - 1], FlipBits(a[n - 1], 0x89), b[n - 1], {0, 4, 7});
      SameFlips(a[n], FlipBits(a[n], 0xa1), b[n], {0, 2, 7});
    }
  }

  lemma PairInOrder(a: seq<Byte>, b: seq<Byte>, j: nat)
    requires |a| == |b| >= 3 && Within(ErrorPattern(a, b), 8 * (|a| - 3), 16) && j < 24
    ensures
      var p := 8 * (|a| - 3);
      ErrorPattern(Ordered(a), Ordered(b))[p + j]
        == if j < 8 then ErrorPattern(a, b)[p + j] else if j < 16 then false else ErrorPattern(a, b)[p + j - 8]
  {
    hide ErrorPattern, Ordered;
    PlacedBit(a, b, 8 * (|a| - 3) + j);
  }

  /** In the CRC's order the special pair, and no other damage to these bytes, makes the error that leaves zero. */
  lemma StraddlingPair(a: seq<Byte>, b: seq<Byte>)
    requires |a| == |b| >= 3 && Within(ErrorPattern(a, b), 8 * (|a| - 3), 16)
    ensures
      var p := 8 * (|a| - 3);
      SpecialPair(a, b) <==> Straddling(ErrorPattern(Ordered(a), Ordered(b))[p..p + 24])
  {
    hide ErrorPattern, Ordered, Flips, SpecialPair, Straddling;
    var n := |a| - 2;
    var p := 8 * (n - 1);
    var e, d := ErrorPattern(a, b), ErrorPattern(Ordered(a), Ordered(b));
    PairFlips(a, b);
    FlipsFromPattern(a, b, n - 1, {0, 4, 7});
    FlipsFromPattern(a, b, n, {0, 2, 7});
    var w, x, y := d[p..p + 24], e[p..p + 8], e[p + 8..p + 16];
    forall j | 0 <= j < 24 ensures w[j] == if j < 8 then x[j] else if j < 16 then false else y[j - 16] {
      PairInOrder(a, b, j);
    }
    StraddlingParts(w, x, y);
    Shifted(e, p, {0, 4, 7});
    Shifted(e, p + 8, {0, 2, 7});
  }

  lemma Shifted(e: Bits, p: nat, at: set<int>)
    requires p + 8 <= |e|
    ensures (forall i | p <= i < p + 8 :: e[i] == (i - p in at))
       <==> forall j | 0 <= j < 8 :: e[p..p + 8][j] == (j in at)
  {
    if forall j | 0 <= j < 8 :: e[p..p + 8][j] == (j in at) {
      forall i | p <= i < p + 8 ensures e[i] == (i - p in at) {
        assert e[p..p + 8][i - p] == e[i];
      }
    }
  }

  lemma StraddlingParts(w: Bits, x: Bits, y: Bits)
    requires |w| == 24 && |x| == |y| == 8
    requires forall j | 0 <= j < 24 :: w[j] == if j < 8 then x[j] else if j < 16 then false else y[j - 16]
    ensures Straddling(w) <==>
      && (forall j | 0 <= j < 8 :: x[j] == (j in {0, 4, 7}))
      && (forall j | 0 <= j < 8 :: y[j] == (j in {0, 2, 7}))
  {
    if Straddling(w) {
      forall j | 0 <= j < 8 ensures x[j] == (j in {0, 4, 7}) && y[j] == (j in {0, 2, 7}) {
        assert w[j] == x[j] && w[j + 16] == y[j];
      }
    }
  }

  // ---------- Thirteen bits are too many ----------

  /** The last data byte and the field, each damaged so that the errors make the generator. */
  function ThirteenBits(body: seq<Byte>): (damaged: seq<Byte>)
    requires |body| >= 3
    ensures |damaged| == |body|
  {
    var n := |body| - 2;
    body[..n - 1] + [FlipBits(body[n - 1], 0x01), FlipBits(body[n], 0x21), FlipBits(body[n + 1], 0x10)]
  }

  /** Thirteen bits of a body over the end of its data can go unnoticed. */
  lemma ThirteenBitsPass(data: seq<Byte>)
    requires data != []
    ensures
      var body, damaged := Body(data), ThirteenBits(Body(data));
      && Checked(damaged) == Packet(damaged[..|data|]) && damaged[..|data|] != data
  {
    hide *;
    var n, body, damaged := |data|, Body(data), ThirteenBits(Body(data));
    ThirteenPlaces(body, damaged);
    Flipped(body, damaged);
    SeventeenBitBurst(0, Ordered(body), Ordered(damaged), 8 * n - 1);
    CheckedIfSame(data, damaged);
    BodyData(data);
    assert body[n - 1] == data[n - 1] && damaged[n - 1] == damaged[..n][n - 1];
  }

  lemma BodyData(data: seq<Byte>)
    ensures Body(data)[..|data|] == data
  {
  }

  /** Where, in which bits, the damaged body differs. */
  ghost predicate FlippedAt(a: seq<Byte>, b: seq<Byte>, n: nat) {
    && |a| == |b| == n + 2 && n > 0
    && a[..n - 1] == b[..n - 1]
    && Flips(a[n - 1], b[n - 1], {7}) && Flips(a[n], b[n], {2, 7}) && Flips(a[n + 1], b[n + 1], {3})
  }

  lemma FlippedApart(x: Byte, y: Byte)
    requires Flips(x, y, {7})
    ensures x != y
  {
    assert ByteBits(x)[7] != ByteBits(y)[7];
  }

  lemma ThirteenPlaces(body: seq<Byte>, damaged: seq<Byte>)
    requires |body| >= 3 && damaged == ThirteenBits(body)
    ensures FlippedAt(body, damaged, |body| - 2) && body[|body| - 3] != damaged[|body| - 3]
  {
    hide Flips, FlipBits, ByteBits;
    var n := |body| - 2;
    Masks();
    MaskFlips(body[n - 1], 0x01, {7});
    MaskFlips(body[n], 0x21, {2, 7});
    MaskFlips(body[n + 1], 0x10, {3});
    FlippedApart(body[n - 1], damaged[n - 1]);
  }

  lemma FlippedBody(a: seq<Byte>, b: seq<Byte>)
    requires |a| >= 2 && FlippedAt(a, b, |a| - 2)
    ensures
      var p, d := 8 * (|a| - 2) - 1, ErrorPattern(a, b);
      forall i | 0 <= i < |d| :: d[i] == (i == p || i == p + 3 || i == p + 8 || i == p + 12)
  {
    hide ErrorPattern, Flips;
    var n := |a| - 2;
    FlipsFromPattern(a, b, n - 1, {7});
    FlipsFromPattern(a, b, n, {2, 7});
    FlipsFromPattern(a, b, n + 1, {3});
    forall i | 0 <= i < 8 * (n - 1) ensures !ErrorPattern(a, b)[i] {
      assert a[i / 8] == a[..n - 1][i / 8] == b[i / 8];
      SameByteFlips(a[i / 8]);
      FlipsFromPattern(a, b, i / 8, {});
    }
  }

  lemma Flipped(a: seq<Byte>, b: seq<Byte>)
    requires |a| >= 2 && FlippedAt(a, b, |a| - 2)
    ensures
      var p := 8 * (|a| - 2) - 1;
      var d := ErrorPattern(Ordered(a), Ordered(b));
      Within(d, p, 17) && d[p..p + 17] == GENERATOR
  {
    hide ByteBits, ErrorPattern, Flips, Ordered, FlippedAt;
    assert |a| == |b| >= 3 by { FlippedLength(a, b); }
    var p := 8 * (|a| - 2) - 1;
    var d := ErrorPattern(Ordered(a), Ordered(b));
    FlippedBody(a, b);
    forall i | 0 <= i < |d| ensures d[i] == (i == p || i == p + 4 || i == p + 11 || i == p + 16) {
      PlacedBit(a, b, i);
    }
    GeneratorPlaces(0);
    NoZeros();
    assert GENERATOR + Zeros(0) == GENERATOR;
  }

  lemma FlippedLength(a: seq<Byte>, b: seq<Byte>)
    requires |a| >= 2 && FlippedAt(a, b, |a| - 2)
    ensures |a| == |b| >= 3
  {
  }
}
