/**
  What the CRC detects. A message is read as its bits, most significant first; two
  messages of equal length are compared through the bits in which they differ. An
  error goes unnoticed exactly when those bits, read as a polynomial, are a multiple
  of the generator x^16 + x^12 + x^5 + 1. Burst detection and parity detection follow.
  */
module CrcDetection {
  import opened Bytes
  import opened Crc16

  type Bits = seq<bool>
  type Register = r: Bits | |r| == 16 witness Zeros(16)

  function Zeros(n: nat): (z: Bits)
    ensures |z| == n && forall i | 0 <= i < n :: !z[i]
  {
    seq(n, i => false)
  }

  /** The positions in which two equally long bit strings differ. */
  function Differ(a: Bits, b: Bits): (d: Bits)
    requires |a| == |b|
    ensures |d| == |a|
    ensures forall i | 0 <= i < |d| :: d[i] <==> a[i] != b[i]
  {
    if a == [] then [] else [a[0] != b[0]] + Differ(a[1..], b[1..])
  }

  // ---------- The CRC register, bit by bit ----------

  /** The terms x^12, x^5 and 1 of the generator, as they fall on the register. */
  const TAPS: Register :=
    [false, false, false, true, false, false, false, false,
     false, false, true, false, false, false, false, true]

  function Turn(r: Register): Register {
    var moved := r[1..] + [false];
    if r[0] then Differ(moved, TAPS) else moved
  }

  /** One message bit enters at the top. */
  function FeedBit(r: Register, bit: bool): Register {
    Turn(r[0 := r[0] != bit])
  }

  function FeedBits(r: Register, bits: Bits): Register
    decreases |bits|
  {
    if bits == [] then r else FeedBits(FeedBit(r, bits[0]), bits[1..])
  }

  /** The first bit, then the rest. */
  lemma FeedFirst(r: Register, bits: Bits, bit: bool, rest: Bits, next: Register)
    requires bits == [bit] + rest
    requires next == FeedBit(r, bit)
    ensures FeedBits(r, bits) == FeedBits(next, rest)
  {
    assert bits[1..] == rest;
  }

  lemma {:induction false} FeedBitsAppend(r: Register, a: Bits, b: Bits)
    ensures FeedBits(r, a + b) == FeedBits(FeedBits(r, a), b)
    decreases |a|
  {
    if a == [] {
      assert a + b == b;
    } else {
      FeedBitsAppend(FeedBit(r, a[0]), a[1..], b);
      assert (a + b)[1..] == a[1..] + b;
    }
  }

  lemma TurnLinear(a: Register, b: Register)
    ensures Turn(Differ(a, b)) == Differ(Turn(a), Turn(b))
  {
  }

  lemma FeedBitLinear(r: Register, s: Register, x: bool, y: bool)
    ensures FeedBit(Differ(r, s), x != y) == Differ(FeedBit(r, x), FeedBit(s, y))
  {
    var r', s' := r[0 := r[0] != x], s[0 := s[0] != y];
    assert Differ(r, s)[0 := Differ(r, s)[0] != (x != y)] == Differ(r', s');
    TurnLinear(r', s');
  }

  /** The register is linear in its start value together with the bits it is fed. */
  lemma {:induction false} FeedBitsLinear(r: Register, s: Register, a: Bits, b: Bits)
    requires |a| == |b|
    ensures FeedBits(Differ(r, s), Differ(a, b)) == Differ(FeedBits(r, a), FeedBits(s, b))
    decreases |a|
  {
    if a != [] {
      FeedBitLinear(r, s, a[0], b[0]);
      FeedBitsLinear(FeedBit(r, a[0]), FeedBit(s, b[0]), a[1..], b[1..]);
      assert Differ(a, b)[1..] == Differ(a[1..], b[1..]);
    }
  }

  // ---------- From bytes and words to bits ----------

  function WordBits(w: Word): (r: Register) {
    [w & 0x8000 != 0, w & 0x4000 != 0, w & 0x2000 != 0, w & 0x1000 != 0,
     w & 0x0800 != 0, w & 0x0400 != 0, w & 0x0200 != 0, w & 0x0100 != 0,
     w & 0x0080 != 0, w & 0x0040 != 0, w & 0x0020 != 0, w & 0x0010 != 0,
     w & 0x0008 != 0, w & 0x0004 != 0, w & 0x0002 != 0, w & 0x0001 != 0]
  }

  /** A byte's bits, most significant first. */
  function ByteBits(b: Byte): (bits: Bits)
    ensures |bits| == 8
  {
    [b & 0x80 != 0, b & 0x40 != 0, b & 0x20 != 0, b & 0x10 != 0,
     b & 0x08 != 0, b & 0x04 != 0, b & 0x02 != 0, b & 0x01 != 0]
  }

  function MessageBits(message: seq<Byte>): (bits: Bits)
    ensures |bits| == 8 * |message|
  {
    seq(8 * |message|, i requires 0 <= i < 8 * |message| => ByteBits(message[i / 8])[i % 8])
  }

  lemma ShiftIsTurn(w: Word)
    ensures WordBits(Shift(w)) == Turn(WordBits(w))
  {
    if w & 0x8000 != 0 {
      ShiftWithFeedback(w, Shift(w));
    } else {
      ShiftWithoutFeedback(w, Shift(w));
    }
  }

  lemma ShiftWithFeedback(w: Word, s: Word)
    requires w & 0x8000 != 0 && s == (w << 1) ^ 0x1021
    ensures WordBits(s) == Turn(WordBits(w))
  {
    assert FedBack(w, s);
    FedBackTurns(w, s);
  }

  predicate FedBack(w: Word, s: Word) {
    && w & 0x8000 != 0
    && (s & 0x8000 != 0 <==> w & 0x4000 != 0)
    && (s & 0x4000 != 0 <==> w & 0x2000 != 0)
    && (s & 0x2000 != 0 <==> w & 0x1000 != 0)
    && (s & 0x1000 != 0 <==> w & 0x0800 == 0)
    && (s & 0x0800 != 0 <==> w & 0x0400 != 0)
    && (s & 0x0400 != 0 <==> w & 0x0200 != 0)
    && (s & 0x0200 != 0 <==> w & 0x0100 != 0)
    && (s & 0x0100 != 0 <==> w & 0x0080 != 0)
    && (s & 0x0080 != 0 <==> w & 0x0040 != 0)
    && (s & 0x0040 != 0 <==> w & 0x0020 != 0)
    && (s & 0x0020 != 0 <==> w & 0x0010 == 0)
    && (s & 0x0010 != 0 <==> w & 0x0008 != 0)
    && (s & 0x0008 != 0 <==> w & 0x0004 != 0)
    && (s & 0x0004 != 0 <==> w & 0x0002 != 0)
    && (s & 0x0002 != 0 <==> w & 0x0001 != 0)
    && (s & 0x0001 != 0 <==> true)
  }

  lemma FedBackTurns(w: Word, s: Word)
    requires FedBack(w, s)
    ensures WordBits(s) == Turn(WordBits(w))
  {
    TurnWithFeedback(WordBits(w));
  }

  lemma TurnBits(r: Register)
    requires r[0]
    ensures forall i | 0 <= i < 15 :: Turn(r)[i] == if i == 3 || i == 10 then !r[i + 1] else r[i + 1]
    ensures Turn(r)[15]
  {
    var moved := r[1..] + [false];
    assert Turn(r) == Differ(moved, TAPS);
  }

  lemma TurnWithFeedback(r: Register)
    requires r[0]
    ensures Turn(r) == [r[1], r[2], r[3], !r[4], r[5], r[6], r[7], r[8],
                        r[9], r[10], !r[11], r[12], r[13], r[14], r[15], true]
  {
    hide *;
    TurnBits(r);
    Spelled(Turn(r));
  }

  lemma ShiftWithoutFeedback(w: Word, s: Word)
    requires w & 0x8000 == 0 && s == w << 1
    ensures WordBits(s) == Turn(WordBits(w))
  {
  }

  lemma EnterIsDiffer(w: Word, b: Byte, s: Word)
    requires s == w ^ ((b as Word) << 8)
    ensures WordBits(s) == Differ(WordBits(w), ByteBits(b) + Zeros(8))
  {
    assert Entered(w, b, s);
    EnteredDiffers(w, b, s);
  }

  predicate Entered(w: Word, b: Byte, s: Word) {
    && (s & 0x8000 != 0 <==> (w & 0x8000 != 0) != (b & 0x80 != 0))
    && (s & 0x4000 != 0 <==> (w & 0x4000 != 0) != (b & 0x40 != 0))
    && (s & 0x2000 != 0 <==> (w & 0x2000 != 0) != (b & 0x20 != 0))
    && (s & 0x1000 != 0 <==> (w & 0x1000 != 0) != (b & 0x10 != 0))
    && (s & 0x0800 != 0 <==> (w & 0x0800 != 0) != (b & 0x08 != 0))
    && (s & 0x0400 != 0 <==> (w & 0x0400 != 0) != (b & 0x04 != 0))
    && (s & 0x0200 != 0 <==> (w & 0x0200 != 0) != (b & 0x02 != 0))
    && (s & 0x0100 != 0 <==> (w & 0x0100 != 0) != (b & 0x01 != 0))
    && (s & 0x0080 != 0 <==> w & 0x0080 != 0)
    && (s & 0x0040 != 0 <==> w & 0x0040 != 0)
    && (s & 0x0020 != 0 <==> w & 0x0020 != 0)
    && (s & 0x0010 != 0 <==> w & 0x0010 != 0)
    && (s & 0x0008 != 0 <==> w & 0x0008 != 0)
    && (s & 0x0004 != 0 <==> w & 0x0004 != 0)
    && (s & 0x0002 != 0 <==> w & 0x0002 != 0)
    && (s & 0x0001 != 0 <==> w & 0x0001 != 0)
  }

  lemma EnteredDiffers(w: Word, b: Byte, s: Word)
    requires Entered(w, b, s)
    ensures WordBits(s) == Differ(WordBits(w), ByteBits(b) + Zeros(8))
  {
    hide Differ, Zeros;
    var d := Differ(WordBits(w), ByteBits(b) + Zeros(8));
    HalvesOfDiffer(WordBits(w), ByteBits(b), d);
    Spelled(d);
  }

  lemma HalvesOfDiffer(r: Register, x: Bits, d: Register)
    requires |x| == 8 && d == Differ(r, x + Zeros(8))
    ensures forall i | 0 <= i < 8 :: d[i] == (r[i] != x[i])
    ensures forall i | 8 <= i < 16 :: d[i] == r[i]
  {
    hide *;
    forall i | 0 <= i < 8 ensures d[i] == (r[i] != x[i]) {
      assert (x + Zeros(8))[i] == x[i];
    }
    forall i | 8 <= i < 16 ensures d[i] == r[i] {
      assert (x + Zeros(8))[i] == Zeros(8)[i - 8];
    }
  }

  lemma Spelled(d: Register)
    ensures d == [d[0], d[1], d[2], d[3], d[4], d[5], d[6], d[7],
                  d[8], d[9], d[10], d[11], d[12], d[13], d[14], d[15]]
  {
  }

  lemma WordBitsInjective(w: Word, v: Word)
    requires WordBits(w) == WordBits(v)
    ensures w == v
  {
  }

  lemma ByteBitsInjective(x: Byte, y: Byte)
    requires ByteBits(x) == ByteBits(y)
    ensures x == y
  {
  }

  // ---------- The byte-wise CRC is the bit-serial one ----------

  function Turns(r: Register, n: nat): Register
    decreases n
  {
    if n == 0 then r else Turns(Turn(r), n - 1)
  }

  lemma {:induction false} ShiftsAreTurns(w: Word, n: nat)
    ensures WordBits(Shifts(w, n)) == Turns(WordBits(w), n)
    decreases n
  {
    hide Shift, WordBits, Turn;
    if n > 0 {
      ShiftsAreTurns(Shift(w), n - 1);
      ShiftIsTurn(w);
      ShiftsAdd(w, 1, n - 1);
      OneShift(w);
    }
  }

  lemma AbsorbFirst(r: Register, bit: bool, rest: Bits, k: nat)
    requires 1 + |rest| + k == 16
    ensures Turn(Differ(r, [bit] + rest + Zeros(k))) == Differ(FeedBit(r, bit), rest + Zeros(k + 1))
  {
    hide Differ, Zeros;
    var first := r[0 := r[0] != bit];
    var low := [false] + rest + Zeros(k);
    assert Differ(r, [bit] + rest + Zeros(k)) == Differ(first, low);
    TurnLinear(first, low);
    assert Turn(low) == rest + Zeros(k + 1);
  }

  /** Bits entered one at a time act as bits entered together. */
  lemma {:induction false} Absorb(r: Register, bits: Bits)
    requires |bits| <= 16
    ensures FeedBits(r, bits) == Turns(Differ(r, bits + Zeros(16 - |bits|)), |bits|)
    decreases |bits|
  {
    hide Differ, Zeros, FeedBit, Turn;
    if bits == [] {
      assert Differ(r, bits + Zeros(16)) == r;
    } else {
      var rest := bits[1..];
      Absorb(FeedBit(r, bits[0]), rest);
      AbsorbFirst(r, bits[0], rest, 16 - |bits|);
      assert [bits[0]] + rest == bits;
    }
  }

  lemma AddByteIsFeedBits(crc: Word, b: Byte)
    ensures WordBits(AddByte(crc, b)) == FeedBits(WordBits(crc), ByteBits(b))
  {
    EnterIsDiffer(crc, b, Enter(crc, b));
    ShiftsAreTurns(Enter(crc, b), 8);
    Absorb(WordBits(crc), ByteBits(b));
  }

  lemma MessageBitsSnoc(message: seq<Byte>, b: Byte)
    ensures MessageBits(message + [b]) == MessageBits(message) + ByteBits(b)
  {
    hide ByteBits;
  }

  /** The running CRC of a message is what its bits, fed one by one, leave in the register. */
  lemma {:induction false} CrcIsBitSerial(start: Word, message: seq<Byte>)
    ensures WordBits(Crc(start, message)) == FeedBits(WordBits(start), MessageBits(message))
  {
    hide *;
    if message == [] {
      CrcOfNothing(start);
    } else {
      var n := |message| - 1;
      CrcIsBitSerial(start, message[..n]);
      assert message[..n] + [message[n]] == message;
      MessageBitsSnoc(message[..n], message[n]);
      FeedBitsAppend(WordBits(start), MessageBits(message[..n]), ByteBits(message[n]));
      AddByteIsFeedBits(Crc(start, message[..n]), message[n]);
      CrcLast(start, message);
    }
  }

  lemma CrcOfNothing(start: Word)
    ensures WordBits(Crc(start, [])) == FeedBits(WordBits(start), MessageBits([]))
  {
    hide WordBits;
    assert MessageBits([]) == [];
  }

  lemma CrcLast(start: Word, message: seq<Byte>)
    requires message != []
    ensures Crc(start, message) == AddByte(Crc(start, message[..|message| - 1]), message[|message| - 1])
  {
    hide AddByte;
  }

  lemma MessageBitAt(m: seq<Byte>, k: nat, j: nat)
    requires k < |m| && j < 8
    ensures MessageBits(m)[8 * k + j] == ByteBits(m[k])[j]
  {
    hide ByteBits;
    assert (8 * k + j) / 8 == k && (8 * k + j) % 8 == j;
  }

  lemma BitsDetermineMessage(a: seq<Byte>, b: seq<Byte>)
    requires |a| == |b| && MessageBits(a) == MessageBits(b)
    ensures a == b
  {
    hide *;
    forall k | 0 <= k < |a| ensures a[k] == b[k] {
      forall j | 0 <= j < 8 ensures ByteBits(a[k])[j] == ByteBits(b[k])[j] {
        MessageBitAt(a, k, j);
        MessageBitAt(b, k, j);
      }
      ByteBitsInjective(a[k], b[k]);
    }
  }

  /** The bits in which two equally long messages differ. */
  function ErrorPattern(a: seq<Byte>, b: seq<Byte>): (d: Bits)
    requires |a| == |b|
    ensures |d| == 8 * |a|
  {
    Differ(MessageBits(a), MessageBits(b))
  }

  lemma DefinitionOfErrorPattern(a: seq<Byte>, b: seq<Byte>)
    requires |a| == |b|
    ensures ErrorPattern(a, b) == Differ(MessageBits(a), MessageBits(b))
  {
  }

  /** Whether an error is noticed depends only on the bits in error. */
  lemma SameCrcIffPatternLeavesZero(start: Word, a: seq<Byte>, b: seq<Byte>)
    requires |a| == |b|
    ensures Crc(start, a) == Crc(start, b) <==> FeedBits(Zeros(16), ErrorPattern(a, b)) == Zeros(16)
  {
    hide *;
    var r := WordBits(start);
    CrcIsBitSerial(start, a);
    CrcIsBitSerial(start, b);
    assert ErrorPattern(a, b) == Differ(MessageBits(a), MessageBits(b)) by { DefinitionOfErrorPattern(a, b); }
    assert Differ(r, r) == Zeros(16);
    FeedBitsLinear(r, r, MessageBits(a), MessageBits(b));
    var x, y := FeedBits(r, MessageBits(a)), FeedBits(r, MessageBits(b));
    if Differ(x, y) == Zeros(16) {
      assert x == y by {
        forall i | 0 <= i < 16 ensures x[i] == y[i] {
          assert Differ(x, y)[i] == Zeros(16)[i];
        }
      }
      WordBitsInjective(Crc(start, a), Crc(start, b));
    }
    if Crc(start, a) == Crc(start, b) {
      assert Differ(x, y) == Zeros(16);
    }
  }

  // ---------- Which error patterns go unnoticed ----------

  /** x^16 + x^12 + x^5 + 1, highest power first. */
  const GENERATOR: Bits := [true] + TAPS

  /** The product of the generator and a polynomial, by long multiplication. */
  function Times(q: Bits): (product: Bits)
    ensures |product| == |q| + 16
    decreases |q|
  {
    if q == [] then Zeros(16)
    else Differ(if q[0] then GENERATOR + Zeros(|q| - 1) else Zeros(|q| + 16), [false] + Times(q[1..]))
  }

  lemma {:induction false} ZerosKeepZero(n: nat)
    ensures FeedBits(Zeros(16), Zeros(n)) == Zeros(16)
  {
    if n > 0 {
      assert Zeros(n)[1..] == Zeros(n - 1);
      assert FeedBit(Zeros(16), false) == Zeros(16);
      ZerosKeepZero(n - 1);
    }
  }

  lemma {:induction false} ZeroTurns(n: nat)
    ensures Turns(Zeros(16), n) == Zeros(16)
  {
    if n > 0 {
      assert Turn(Zeros(16)) == Zeros(16);
      ZeroTurns(n - 1);
    }
  }

  lemma GeneratorBits()
    ensures GENERATOR == [true] + TAPS && |GENERATOR| == 17 && GENERATOR[0] && GENERATOR[16]
  {
  }

  lemma OneBit()
    ensures FeedBit(Zeros(16), true) == TAPS
  {
    TopBitTurns(Zeros(16)[0 := true]);
  }

  lemma TopBitTurns(top: Register)
    requires top == Zeros(16)[0 := true]
    ensures Turn(top) == TAPS
  {
    assert top[1..] + [false] == Zeros(16);
    DifferFromZeros(TAPS);
  }

  lemma DifferFromZeros(r: Register)
    ensures Differ(Zeros(16), r) == r
  {
  }

  lemma GeneratorLeavesZero()
    ensures FeedBits(Zeros(16), GENERATOR) == Zeros(16)
  {
    hide *;
    GeneratorBits();
    OneBit();
    FeedFirst(Zeros(16), GENERATOR, true, TAPS, TAPS);
    Absorb(TAPS, TAPS);
    assert Differ(TAPS, TAPS + Zeros(0)) == Zeros(16);
    ZeroTurns(16);
  }

  lemma ZeroBit()
    ensures FeedBit(Zeros(16), false) == Zeros(16)
  {
  }

  /** Leading zeros of a pattern are no error. */
  lemma SkipLeadingZero(d: Bits)
    requires |d| > 0 && !d[0]
    ensures FeedBits(Zeros(16), d) == FeedBits(Zeros(16), d[1..])
  {
    hide *;
    ZeroBit();
    FeedFirst(Zeros(16), d, false, d[1..], Zeros(16));
  }

  /** Subtracting the generator from the front of a pattern changes nothing. */
  lemma SubtractGenerator(d: Bits)
    requires |d| >= 17
    ensures FeedBits(Zeros(16), Differ(d, GENERATOR + Zeros(|d| - 17))) == FeedBits(Zeros(16), d)
  {
    hide *;
    GeneratorBits();
    var g := GENERATOR + Zeros(|d| - 17);
    GeneratorLeavesZero();
    FeedBitsAppend(Zeros(16), GENERATOR, Zeros(|d| - 17));
    ZerosKeepZero(|d| - 17);
    FeedBitsLinear(Zeros(16), Zeros(16), d, g);
    assert Differ(Zeros(16), Zeros(16)) == Zeros(16);
    var f := FeedBits(Zeros(16), d);
    assert Differ(f, Zeros(16)) == f;
  }

  lemma TurnLastBit(r: Register)
    ensures Turn(r)[15] == r[0]
  {
    var moved := r[1..] + [false];
    assert !moved[15] && TAPS[15];
  }

  /** A turn that leaves the last bit clear fed nothing back. */
  lemma FeedBitClearsLast(r: Register, bit: bool)
    requires !FeedBit(r, bit)[15]
    ensures r[0] == bit && FeedBit(r, bit) == r[1..] + [false]
  {
    var entered := r[0 := r[0] != bit];
    TurnLastBit(entered);
    assert entered[1..] == r[1..];
  }

  /** Up to sixteen bits can clear the register only if they are what it held. */
  lemma {:induction false} ShortPatternClears(r: Register, d: Bits)
    requires |d| <= 16 && FeedBits(r, d) == Zeros(16)
    ensures r == d + Zeros(16 - |d|)
    decreases |d|
  {
    if d != [] {
      var next := FeedBit(r, d[0]);
      ShortPatternClears(next, d[1..]);
      assert !next[15];
      FeedBitClearsLast(r, d[0]);
      assert r == [d[0]] + next[..15];
      assert next[..15] == d[1..] + Zeros(16 - |d|);
      assert [d[0]] + d[1..] == d;
    }
  }

  lemma ShortPatternIsZero(d: Bits)
    requires |d| <= 16 && FeedBits(Zeros(16), d) == Zeros(16)
    ensures d == Zeros(|d|)
  {
    ShortPatternClears(Zeros(16), d);
    forall i | 0 <= i < |d| ensures !d[i] {
      assert Zeros(16)[i] == (d + Zeros(16 - |d|))[i];
    }
  }

  /** One step of long division: the generator is taken from the front if the pattern has its first bit. */
  lemma Reduce(d: Bits) returns (reduced: Bits)
    requires |d| >= 17 && FeedBits(Zeros(16), d) == Zeros(16)
    ensures |reduced| == |d| - 1 && FeedBits(Zeros(16), reduced) == Zeros(16)
    ensures |GENERATOR| == 17
    ensures d == Differ(if d[0] then GENERATOR + Zeros(|d| - 17) else Zeros(|d|), [false] + reduced)
  {
    hide *;
    GeneratorBits();
    ZerosAre(|d|);
    ZerosAre(|d| - 17);
    var front := if d[0] then GENERATOR + Zeros(|d| - 17) else Zeros(|d|);
    var whole := Differ(d, front);
    if d[0] {
      SubtractGenerator(d);
    } else {
      assert whole == d;
    }
    SkipLeadingZero(whole);
    reduced := whole[1..];
    assert [false] + reduced == whole;
    assert d == Differ(front, whole);
  }

  /** Long division: a pattern that leaves zero is the generator times some quotient. */
  lemma {:induction false} Quotient(d: Bits) returns (q: Bits)
    requires |d| >= 16 && FeedBits(Zeros(16), d) == Zeros(16)
    ensures |q| + 16 == |d| && Times(q) == d
    decreases |d|
  {
    hide *;
    if |d| == 16 {
      ShortPatternIsZero(d);
      TimesOne();
      q := [];
    } else {
      var reduced := Reduce(d);
      var rest := Quotient(reduced);
      q := [d[0]] + rest;
      assert q[1..] == rest;
      TimesOfNonempty(q);
    }
  }

  lemma TimesOfNonempty(q: Bits)
    requires q != []
    ensures |GENERATOR| == 17
    ensures Times(q)
         == Differ(if q[0] then GENERATOR + Zeros(|q| - 1) else Zeros(|q| + 16), [false] + Times(q[1..]))
  {
  }

  /** Every multiple of the generator leaves the register at zero. */
  lemma {:induction false} MultipleLeavesZero(q: Bits)
    ensures FeedBits(Zeros(16), Times(q)) == Zeros(16)
    decreases |q|
  {
    hide *;
    if q == [] {
      assert Times([]) == Zeros(16) by { TimesOne(); }
      ZerosKeepZero(16);
    } else {
      TimesOfNonempty(q);
      MultipleLeavesZero(q[1..]);
      var tail := [false] + Times(q[1..]);
      SkipLeadingZero(tail);
      assert tail[1..] == Times(q[1..]);
      if q[0] {
        var g := GENERATOR + Zeros(|q| - 1);
        SubtractGenerator(tail);
        assert Differ(g, tail) == Differ(tail, g);
      } else {
        assert Differ(Zeros(|q| + 16), tail) == tail;
      }
    }
  }

  lemma TimesOne()
    ensures Times([]) == Zeros(16)
  {
  }

  /**
    Two equally long messages have the same CRC, from any common start value, exactly
    when they are the same or the bits in which they differ form a multiple of the generator.
    */
  lemma UnnoticedIffMultiple(start: Word, a: seq<Byte>, b: seq<Byte>)
    requires |a| == |b|
    ensures Crc(start, a) == Crc(start, b)
       <==> a == b || exists q: Bits :: |q| + 16 == 8 * |a| && Times(q) == ErrorPattern(a, b)
  {
    hide FeedBits, Times, ErrorPattern, Crc;
    var d := ErrorPattern(a, b);
    SameCrcIffPatternLeavesZero(start, a, b);
    if Crc(start, a) == Crc(start, b) {
      if |a| < 2 {
        ShortPatternIsZero(d);
        NoErrorNoDifference(a, b);
      } else {
        var q := Quotient(d);
      }
    }
    forall q: Bits | |q| + 16 == 8 * |a| && Times(q) == d ensures Crc(start, a) == Crc(start, b) {
      MultipleLeavesZero(q);
    }
  }

  // ---------- Bursts ----------

  /** Apart from bits p to p + width - 1, the pattern is clear. */
  predicate Within(d: Bits, p: nat, width: nat) {
    forall i | 0 <= i < |d| && !(p <= i < p + width) :: !d[i]
  }

  lemma WithinBounds(d: Bits, p: nat, width: nat)
    ensures Within(d, p, width) <==> forall i | 0 <= i < |d| && !(p <= i < p + width) :: !d[i]
  {
  }

  lemma {:induction false} ZerosPreserve(r: Register, n: nat)
    requires FeedBits(r, Zeros(n)) == Zeros(16)
    ensures r == Zeros(16)
    decreases n
  {
    if n > 0 {
      assert Zeros(n)[1..] == Zeros(n - 1);
      var next := FeedBit(r, false);
      ZerosPreserve(next, n - 1);
      FeedBitClearsLast(r, false);
      forall i | 1 <= i < 16 ensures !r[i] {
        assert next[i - 1] == (r[1..] + [false])[i - 1];
      }
    }
  }

  /**
    Error patterns confined to seventeen consecutive bits, anywhere in a message of
    any length: the only one that goes unnoticed, besides no error at all, is the
    generator itself.
    */
  lemma SeventeenBitBurst(start: Word, a: seq<Byte>, b: seq<Byte>, p: nat)
    requires |a| == |b|
    requires Within(ErrorPattern(a, b), p, 17)
    ensures Crc(start, a) == Crc(start, b)
       <==> a == b || (p + 17 <= 8 * |a| && ErrorPattern(a, b)[p..p + 17] == GENERATOR)
  {
    hide *;
    var d := ErrorPattern(a, b);
    GeneratorBits();
    WithinBounds(d, p, 17);
    SameCrcIffPatternLeavesZero(start, a, b);
    if p >= |d| {
      NoErrorNoDifference(a, b);
    } else {
      var end := if p + 17 <= |d| then p + 17 else |d|;
      var w := d[p..end];
      ClearOutside(d, p, end - p);
      WindowLeavesZero(w);
      if w == Zeros(|w|) {
        ZerosAre(|w|);
        forall i | 0 <= i < |d| ensures !d[i] {
          if p <= i < end { assert !w[i - p]; }
        }
        NoErrorNoDifference(a, b);
      }
      if a == b {
        NoDifferenceNoError(a);
        assert w == Zeros(|w|);
      }
    }
  }

  /** A pattern that is clear outside a window leaves zero exactly if the window does. */
  lemma ClearOutside(d: Bits, p: nat, len: nat)
    requires p + len <= |d|
    requires forall i | 0 <= i < |d| && !(p <= i < p + len) :: !d[i]
    ensures FeedBits(Zeros(16), d) == Zeros(16) <==> FeedBits(Zeros(16), d[p..p + len]) == Zeros(16)
  {
    hide *;
    var end := p + len;
    var w := d[p..end];
    ZerosAre(p);
    ZerosAre(|d| - end);
    assert d == Zeros(p) + w + Zeros(|d| - end);
    FeedBitsAppend(Zeros(16), Zeros(p) + w, Zeros(|d| - end));
    FeedBitsAppend(Zeros(16), Zeros(p), w);
    ZerosKeepZero(p);
    ZerosKeepZero(|d| - end);
    if FeedBits(Zeros(16), d) == Zeros(16) {
      ZerosPreserve(FeedBits(Zeros(16), w), |d| - end);
    }
  }

  lemma ZerosAre(n: nat)
    ensures |Zeros(n)| == n && forall i | 0 <= i < n :: !Zeros(n)[i]
  {
  }

  lemma NoErrorNoDifference(a: seq<Byte>, b: seq<Byte>)
    requires |a| == |b|
    requires forall i | 0 <= i < 8 * |a| :: !ErrorPattern(a, b)[i]
    ensures a == b
  {
    assert MessageBits(a) == MessageBits(b) by {
      forall i | 0 <= i < 8 * |a| ensures MessageBits(a)[i] == MessageBits(b)[i] {
        assert !ErrorPattern(a, b)[i];
      }
    }
    BitsDetermineMessage(a, b);
  }

  lemma NoDifferenceNoError(a: seq<Byte>)
    ensures forall i | 0 <= i < 8 * |a| :: !ErrorPattern(a, a)[i]
  {
    hide MessageBits;
  }

  lemma WindowLeavesZero(w: Bits)
    requires |w| <= 17
    ensures FeedBits(Zeros(16), w) == Zeros(16) <==> w == Zeros(|w|) || w == GENERATOR
  {
    hide *;
    GeneratorBits();
    ZerosKeepZero(|w|);
    GeneratorLeavesZero();
    if FeedBits(Zeros(16), w) == Zeros(16) {
      if |w| <= 16 {
        ShortPatternIsZero(w);
      } else if w[0] {
        SubtractGenerator(w);
        var reduced := Differ(w, GENERATOR + Zeros(0));
        SkipLeadingZero(reduced);
        ShortPatternIsZero(reduced[1..]);
        forall i | 1 <= i < 17 ensures w[i] == GENERATOR[i] {
          assert !reduced[1..][i - 1];
        }
      } else {
        SkipLeadingZero(w);
        ShortPatternIsZero(w[1..]);
        forall i | 1 <= i < 17 ensures !w[i] {
          assert !w[1..][i - 1];
        }
      }
    }
  }

  /**
    Two different messages of equal length that differ only inside sixteen
    consecutive bits have different CRCs, from any common start value.
    */
  lemma DetectsBursts(start: Word, a: seq<Byte>, b: seq<Byte>, p: nat)
    requires |a| == |b| && a != b
    requires Within(ErrorPattern(a, b), p, 16)
    ensures Crc(start, a) != Crc(start, b)
  {
    SeventeenBitBurst(start, a, b, p);
    if p + 17 <= 8 * |a| {
      assert !ErrorPattern(a, b)[p + 16];
      assert GENERATOR[16];
    }
  }

  // ---------- Parity ----------

  /** Whether a bit string holds an odd number of ones. */
  predicate Odd(bits: Bits)
    decreases |bits|
  {
    bits != [] && bits[0] != Odd(bits[1..])
  }

  lemma {:induction false} OddAppend(a: Bits, b: Bits)
    ensures Odd(a + b) == (Odd(a) != Odd(b))
    decreases |a|
  {
    if a == [] {
      assert a + b == b;
    } else {
      OddAppend(a[1..], b);
      assert (a + b)[1..] == a[1..] + b;
    }
  }

  lemma {:induction false} OddDiffer(a: Bits, b: Bits)
    requires |a| == |b|
    ensures Odd(Differ(a, b)) == (Odd(a) != Odd(b))
    decreases |a|
  {
    if a != [] {
      OddDiffer(a[1..], b[1..]);
      assert Differ(a, b)[1..] == Differ(a[1..], b[1..]);
    }
  }

  lemma TurnKeepsParity(r: Register)
    ensures Odd(Turn(r)) == Odd(r)
  {
    var moved := r[1..] + [false];
    OddAppend(r[1..], [false]);
    assert ![false][0] && [false][1..] == [];
    if r[0] {
      OddDiffer(moved, TAPS);
      OddTaps();
    }
  }

  lemma OddTaps()
    ensures Odd(TAPS)
  {
    var z: Bits := [false, false, false];
    assert TAPS == z + [true] + (z + z + [true]) + ([false] + z + [true]);
    assert Odd([true]) && !Odd([false]) && !Odd(z);
    OddAppend(z, [true]);
    OddAppend(z, z);
    OddAppend(z + z, [true]);
    OddAppend([false], z);
    OddAppend([false] + z, [true]);
    OddAppend(z + [true], z + z + [true]);
    OddAppend(z + [true] + (z + z + [true]), [false] + z + [true]);
  }

  lemma {:induction false} FeedBitsParity(r: Register, bits: Bits)
    ensures Odd(FeedBits(r, bits)) == (Odd(r) != Odd(bits))
    decreases |bits|
  {
    if bits != [] {
      var entered := r[0 := r[0] != bits[0]];
      assert entered[1..] == r[1..];
      TurnKeepsParity(entered);
      FeedBitsParity(FeedBit(r, bits[0]), bits[1..]);
    }
  }

  /** The CRC's parity is the start value's parity, flipped once for every one bit of the message. */
  lemma CrcParity(start: Word, message: seq<Byte>)
    ensures Odd(WordBits(Crc(start, message))) == (Odd(WordBits(start)) != Odd(MessageBits(message)))
  {
    CrcIsBitSerial(start, message);
    FeedBitsParity(WordBits(start), MessageBits(message));
  }

  /** Any odd number of flipped bits changes the CRC, whatever the messages' length. */
  lemma DetectsOddErrors(start: Word, a: seq<Byte>, b: seq<Byte>)
    requires |a| == |b| && Odd(ErrorPattern(a, b))
    ensures Crc(start, a) != Crc(start, b)
  {
    CrcParity(start, a);
    CrcParity(start, b);
    OddDiffer(MessageBits(a), MessageBits(b));
  }
}
