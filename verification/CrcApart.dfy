/** Different running CRCs stay different, whatever bytes follow: a byte's turns can be taken back. */
module CrcApart {
  import opened Bytes
  import opened Crc16

  /** The running CRC before a turn. */
  function Unshift(s: Word): Word {
    if s & 1 != 0 then ((s ^ 0x1021) >> 1) ^ 0x8000 else s >> 1
  }

  predicate Turned(c: Word, s: Word) {
    if c & 0x8000 != 0 then s == (c << 1) ^ 0x1021 else s == c << 1
  }

  predicate TurnedBack(s: Word, c: Word) {
    if s & 1 != 0 then c == ((s ^ 0x1021) >> 1) ^ 0x8000 else c == s >> 1
  }

  lemma UnshiftShift(c: Word)
    ensures Unshift(Shift(c)) == c
  {
    hide *;
    ShiftTurns(c, Shift(c));
    TurnBack(c, Shift(c));
    UnshiftTurns(Shift(c), c);
  }

  lemma ShiftTurns(c: Word, s: Word)
    requires s == Shift(c)
    ensures Turned(c, s)
  {
  }

  lemma TurnBack(c: Word, s: Word)
    requires Turned(c, s)
    ensures TurnedBack(s, c)
  {
    if c & 0x8000 != 0 {
      FedBackTurn(c, s);
    } else {
      PlainTurn(c, s);
    }
  }

  lemma FedBackTurn(c: Word, s: Word)
    requires c & 0x8000 != 0 && s == (c << 1) ^ 0x1021
    ensures TurnedBack(s, c)
  {
    assert s & 1 != 0;
  }

  lemma PlainTurn(c: Word, s: Word)
    requires c & 0x8000 == 0 && s == c << 1
    ensures TurnedBack(s, c)
  {
    assert s & 1 == 0;
  }

  lemma UnshiftTurns(s: Word, c: Word)
    requires TurnedBack(s, c)
    ensures Unshift(s) == c
  {
  }

  lemma ShiftApart(c: Word, d: Word)
    ensures Shift(c) == Shift(d) ==> c == d
  {
    hide *;
    UnshiftShift(c);
    UnshiftShift(d);
  }

  lemma {:induction false} ShiftsApart(c: Word, d: Word, n: nat)
    ensures Shifts(c, n) == Shifts(d, n) ==> c == d
    decreases n
  {
    if n > 0 {
      hide Shift;
      ShiftsApart(c, d, n - 1);
      ShiftApart(Shifts(c, n - 1), Shifts(d, n - 1));
    }
  }

  lemma CrcSnoc(m: seq<Byte>, start: Word, b: Byte)
    ensures Crc(start, m + [b]) == AddByte(Crc(start, m), b)
  {
    hide AddByte;
    assert (m + [b])[..|m|] == m;
  }

  lemma AddByteApart(c: Word, d: Word, x: Byte, y: Byte)
    ensures AddByte(c, x) == AddByte(d, y) <==> Enter(c, x) == Enter(d, y)
  {
    hide Shifts, Enter;
    ShiftsApart(Enter(c, x), Enter(d, y), 8);
  }

  function Xor(x: Word, y: Word): Word {
    x ^ y
  }

  /** A byte as it enters the running CRC. */
  function High(b: Byte): Word {
    (b as Word) << 8
  }

  lemma XorTwiceWord(x: Word, y: Word)
    ensures Xor(Xor(x, y), y) == x
  {
  }

  lemma EntryIsXor(c: Word, b: Byte)
    ensures Enter(c, b) == Xor(c, High(b))
  {
    hide *;
    EnterMeans(c, b, Enter(c, b));
    HighMeans(b, High(b));
    XorMeans(c, High(b), Enter(c, b));
  }

  lemma EnterMeans(c: Word, b: Byte, e: Word)
    requires e == Enter(c, b)
    ensures e == c ^ ((b as Word) << 8)
  {
  }

  lemma HighMeans(b: Byte, h: Word)
    requires h == High(b)
    ensures h == (b as Word) << 8
  {
  }

  lemma XorMeans(x: Word, y: Word, r: Word)
    requires r == x ^ y
    ensures r == Xor(x, y)
  {
  }

  lemma XorInto(x: Word, y: Word, z: Word)
    ensures Xor(x, Xor(y, z)) == Xor(Xor(x, y), z)
  {
  }

  lemma XorSwap(x: Word, y: Word)
    ensures Xor(x, y) == Xor(y, x)
  {
  }

  lemma XorGroups(x: Word, y: Word, z: Word)
    ensures Xor(Xor(x, y), z) == Xor(Xor(x, z), y)
  {
    hide *;
    XorInto(x, y, z);
    XorInto(x, z, y);
    XorSwap(y, z);
  }

  lemma SameEntry(c: Word, d: Word, b: Byte)
    ensures Enter(c, b) == Enter(d, b) <==> c == d
  {
    hide *;
    EntryIsXor(c, b);
    EntryIsXor(d, b);
    XorTwiceWord(c, High(b));
    XorTwiceWord(d, High(b));
  }

  /** What follows tells two running CRCs apart exactly if they differ. */
  lemma {:induction false} CrcSameTail(c: Word, d: Word, m: seq<Byte>)
    ensures Crc(c, m) == Crc(d, m) <==> c == d
    decreases |m|
  {
    if m != [] {
      hide *;
      var n, b := |m| - 1, m[|m| - 1];
      CrcSameTail(c, d, m[..n]);
      assert m[..n] + [b] == m;
      CrcSnoc(m[..n], c, b);
      CrcSnoc(m[..n], d, b);
      AddByteApart(Crc(c, m[..n]), Crc(d, m[..n]), b, b);
      SameEntry(Crc(c, m[..n]), Crc(d, m[..n]), b);
    }
  }
}
