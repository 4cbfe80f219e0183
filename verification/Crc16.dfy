/**
  The CRC-16 of the serial stack: x^16 + x^12 + x^5 + 1, most significant bit
  first, in the three forms the repository holds: the bit loop (which the Python
  host also uses), the loop-free form, and the table form of the ATmega128.
  */
module Crc16 {

  import opened Bytes

  type Word = bv16

  // ---------- The reference loop ----------

  /** One turn of the bit loop. */
  function Shift(crc: Word): Word {
    if crc & 0x8000 != 0 then (crc << 1) ^ 0x1021 else crc << 1
  }

  function Shifts(crc: Word, n: nat): Word {
    if n == 0 then crc else Shift(Shifts(crc, n - 1))
  }

  /** A byte enters at the top of the running CRC. */
  function Enter(crc: Word, b: Byte): Word {
    crc ^ ((b as Word) << 8)
  }

  /** The running CRC after one byte: eight turns once the byte has entered. */
  function AddByte(crc: Word, b: Byte): Word {
    Shifts(Enter(crc, b), 8)
  }

  /** The running CRC after a whole message. */
  function Crc(start: Word, message: seq<Byte>): Word {
    if message == [] then start
    else AddByte(Crc(start, message[..|message| - 1]), message[|message| - 1])
  }

  lemma TopBit(c: Word)
    ensures c & 0x8000 == 0x8000 <==> c & 0x8000 != 0
  {
  }

  /** The branch of the bit loop, spelled out, is one more turn. */
  lemma BranchIsShift(c: Word, n: nat, before: Word, after: Word)
    requires before == Shifts(c, n)
    requires before & 0x8000 != 0 ==> after == (before << 1) ^ 0x1021
    requires before & 0x8000 == 0 ==> after == before << 1
    ensures after == Shifts(c, n + 1)
  {
    hide *;
    OneTurnOf(before, after);
    ShiftsNext(c, n);
  }

  lemma OneTurnOf(before: Word, after: Word)
    requires before & 0x8000 != 0 ==> after == (before << 1) ^ 0x1021
    requires before & 0x8000 == 0 ==> after == before << 1
    ensures after == Shift(before)
  {
  }

  lemma ShiftsNext(c: Word, n: nat)
    ensures Shifts(c, n + 1) == Shift(Shifts(c, n))
  {
    hide Shift;
  }

  lemma AddByteMeans(crc: Word, b: Byte)
    ensures AddByte(crc, b) == Shifts(Enter(crc, b), 8)
    ensures Enter(crc, b) == crc ^ ((b as Word) << 8)
  {
    hide Shifts;
  }

  /** The do/while loop kept in a comment of the system header. */
  method LoopCrcByte(crc: Word, b: Byte) returns (r: Word)
    ensures r == AddByte(crc, b)
  {
    r := Enter(crc, b);
    var i := 8;
    while i > 0
      invariant 0 <= i <= 8
      invariant r == Shifts(Enter(crc, b), 8 - i)
    {
      ghost var before := r;
      if r & 0x8000 != 0 {
        r := (r << 1) ^ 0x1021;
      } else {
        r := r << 1;
      }
      BranchIsShift(Enter(crc, b), 8 - i, before, r);
      i := i - 1;
    }
  }

  /** The host's CRC over a frame: a byte loop around the bit loop. */
  method MessageCrc(start: Word, message: seq<Byte>) returns (crc: Word)
    ensures crc == Crc(start, message)
  {
    crc := start;
    for k := 0 to |message|
      invariant crc == Crc(start, message[..k])
    {
      assert message[..k + 1][..k] == message[..k];
      crc := Enter(crc, message[k]);
      ghost var entered := crc;
      for i := 0 to 8
        invariant crc == Shifts(entered, i)
      {
        ghost var before := crc;
        TopBit(crc);
        if crc & 0x8000 == 0x8000 {
          crc := (crc << 1) ^ 0x1021;
        } else {
          crc := crc << 1;
        }
        BranchIsShift(entered, i, before, crc);
      }
    }
    assert message[..|message|] == message;
  }

  /** Feeding a message in two parts is feeding it whole. */
  lemma {:induction false} CrcAppend(start: Word, a: seq<Byte>, b: seq<Byte>)
    ensures Crc(start, a + b) == Crc(Crc(start, a), b)
  {
    if b == [] {
      assert a + b == a;
    } else {
      var n := |b| - 1;
      CrcAppend(start, a, b[..n]);
      assert (a + b)[..|a + b| - 1] == a + b[..n];
    }
  }

  // ---------- The derivation of the loop-free form ----------

  /**
    One turn feeds back the top bit at the three places of the polynomial's terms
    1, x^5 and x^12. These lie too far apart for fed-back bits to reach the top again
    within four turns, so four turns feed back the top nibble at the same three
    places. After eight turns the fed-back value is the top byte mixed with its own
    top nibble. The header says no derivation of its loop-free form is known; this
    is one.
    */
  lemma OneTurn(c: Word, r: Word)
    requires r == Shift(c)
    ensures r == (c << 1) ^ (c >> 15) ^ ((c >> 15) << 5) ^ ((c >> 15) << 12)
  {
    if c & 0x8000 != 0 {
      assert c >> 15 == 1;
      FeedbackOfOne(c);
    } else {
      assert c >> 15 == 0;
    }
  }

  lemma FeedbackOfOne(c: Word)
    requires c >> 15 == 1
    ensures (c << 1) ^ 0x1021 == (c << 1) ^ (c >> 15) ^ ((c >> 15) << 5) ^ ((c >> 15) << 12)
  {
  }

  lemma {:induction false} ShiftsAdd(c: Word, m: nat, n: nat)
    ensures Shifts(c, m + n) == Shifts(Shifts(c, m), n)
  {
    hide Shift;
    if n > 0 { ShiftsAdd(c, m, n - 1); }
  }

  lemma OneShift(c: Word)
    ensures Shifts(c, 1) == Shift(c)
  {
    hide Shift;
    assert Shifts(c, 0) == c;
  }

  lemma TwoTurns(c: Word, r: Word)
    requires r == Shifts(c, 2)
    ensures r == (c << 2) ^ (c >> 14) ^ ((c >> 14) << 5) ^ ((c >> 14) << 12)
  {
    hide *;
    var s := Shift(c);
    ShiftsAdd(c, 1, 1);
    OneShift(c);
    OneShift(s);
    OneTurn(c, s);
    OneTurn(s, r);
    ComposeTwo(c, s, r);
  }

  lemma ComposeTwo(c: Word, s: Word, r: Word)
    requires s == (c << 1) ^ (c >> 15) ^ ((c >> 15) << 5) ^ ((c >> 15) << 12)
    requires r == (s << 1) ^ (s >> 15) ^ ((s >> 15) << 5) ^ ((s >> 15) << 12)
    ensures r == (c << 2) ^ (c >> 14) ^ ((c >> 14) << 5) ^ ((c >> 14) << 12)
  {
  }

  lemma FourTurns(c: Word, r: Word)
    requires r == Shifts(c, 4)
    ensures r == (c << 4) ^ (c >> 12) ^ ((c >> 12) << 5) ^ ((c >> 12) << 12)
  {
    hide *;
    ShiftsAdd(c, 2, 2);
    var s := Shifts(c, 2);
    TwoTurns(c, s);
    TwoTurns(s, r);
    ComposeFour(c, s, r);
  }

  lemma ComposeFour(c: Word, s: Word, r: Word)
    requires s == (c << 2) ^ (c >> 14) ^ ((c >> 14) << 5) ^ ((c >> 14) << 12)
    requires r == (s << 2) ^ (s >> 14) ^ ((s >> 14) << 5) ^ ((s >> 14) << 12)
    ensures r == (c << 4) ^ (c >> 12) ^ ((c >> 12) << 5) ^ ((c >> 12) << 12)
  {
  }

  lemma EightTurns(c: Word, t: Word, r: Word)
    requires r == Shifts(c, 8)
    requires t == (c >> 8) ^ (c >> 12)
    ensures r == (c << 8) ^ t ^ (t << 5) ^ (t << 12)
  {
    hide *;
    ShiftsAdd(c, 4, 4);
    var s := Shifts(c, 4);
    FourTurns(c, s);
    FourTurns(s, r);
    ComposeEight(c, s, t, r);
  }

  lemma ComposeEight(c: Word, s: Word, t: Word, r: Word)
    requires s == (c << 4) ^ (c >> 12) ^ ((c >> 12) << 5) ^ ((c >> 12) << 12)
    requires r == (s << 4) ^ (s >> 12) ^ ((s >> 12) << 5) ^ ((s >> 12) << 12)
    requires t == (c >> 8) ^ (c >> 12)
    ensures r == (c << 8) ^ t ^ (t << 5) ^ (t << 12)
  {
  }

  lemma SwapAfterEntry(crc: Word, b: Byte, c: Word, mixed: Word)
    requires c == crc ^ ((b as Word) << 8)
    requires mixed == (((crc >> 8) as Byte) as Word | (crc << 8)) ^ (b as Word)
    ensures mixed == (c >> 8) ^ (c << 8)
  {
  }

  lemma LowFromMixed(c: Word, t: Word, mixed: Word, low: Word)
    requires mixed == (c >> 8) ^ (c << 8)
    requires low == mixed ^ ((((mixed & 0xff) as Byte) >> 4) as Word)
    requires t == (c >> 8) ^ (c >> 12)
    ensures low == (c << 8) ^ t
  {
  }

  lemma FastFromLow(c: Word, t: Word, low: Word, high: Word, r: Word)
    requires t == (c >> 8) ^ (c >> 12)
    requires low == (c << 8) ^ t
    requires high == low ^ (low << 12)
    requires r == high ^ ((high & 0xff) << 5)
    ensures r == (c << 8) ^ t ^ (t << 5) ^ (t << 12)
  {
  }

  /** The loop-free form, statement by statement, computes what eight turns of the loop do. */
  method FastCrcByte(oldCrc: Word, b: Byte) returns (crc: Word)
    ensures crc == AddByte(oldCrc, b)
  {
    crc := ((oldCrc >> 8) as Byte) as Word | (oldCrc << 8);
    crc := crc ^ (b as Word);
    ghost var mixed := crc;
    crc := crc ^ ((((crc & 0xff) as Byte) >> 4) as Word);
    ghost var low := crc;
    crc := crc ^ (crc << 12);
    ghost var high := crc;
    crc := crc ^ ((crc & 0xff) << 5);
    FastSteps(oldCrc, b, mixed, low, high, crc);
  }

  lemma FastSteps(crc: Word, b: Byte, mixed: Word, low: Word, high: Word, r: Word)
    requires mixed == (((crc >> 8) as Byte) as Word | (crc << 8)) ^ (b as Word)
    requires low == mixed ^ ((((mixed & 0xff) as Byte) >> 4) as Word)
    requires high == low ^ (low << 12)
    requires r == high ^ ((high & 0xff) << 5)
    ensures r == AddByte(crc, b)
  {
    var c := Enter(crc, b);
    var t := (c >> 8) ^ (c >> 12);
    SwapAfterEntry(crc, b, c, mixed);
    LowFromMixed(c, t, mixed, low);
    FastFromLow(c, t, low, high, r);
    EightTurns(c, t, AddByte(crc, b));
  }

  // ---------- The table form ----------

  // The ATmega128 table: four quarters of eight rows, one row per line of the header.

  const QUARTER0: seq<seq<Word>> := [
    [0x0000, 0x1021, 0x2042, 0x3063, 0x4084, 0x50a5, 0x60c6, 0x70e7],
    [0x8108, 0x9129, 0xa14a, 0xb16b, 0xc18c, 0xd1ad, 0xe1ce, 0xf1ef],
    [0x1231, 0x0210, 0x3273, 0x2252, 0x52b5, 0x4294, 0x72f7, 0x62d6],
    [0x9339, 0x8318, 0xb37b, 0xa35a, 0xd3bd, 0xc39c, 0xf3ff, 0xe3de],
    [0x2462, 0x3443, 0x0420, 0x1401, 0x64e6, 0x74c7, 0x44a4, 0x5485],
    [0xa56a, 0xb54b, 0x8528, 0x9509, 0xe5ee, 0xf5cf, 0xc5ac, 0xd58d],
    [0x3653, 0x2672, 0x1611, 0x0630, 0x76d7, 0x66f6, 0x5695, 0x46b4],
    [0xb75b, 0xa77a, 0x9719, 0x8738, 0xf7df, 0xe7fe, 0xd79d, 0xc7bc]
  ]

  const QUARTER1: seq<seq<Word>> := [
    [0x48c4, 0x58e5, 0x6886, 0x78a7, 0x0840, 0x1861, 0x2802, 0x3823],
    [0xc9cc, 0xd9ed, 0xe98e, 0xf9af, 0x8948, 0x9969, 0xa90a, 0xb92b],
    [0x5af5, 0x4ad4, 0x7ab7, 0x6a96, 0x1a71, 0x0a50, 0x3a33, 0x2a12],
    [0xdbfd, 0xcbdc, 0xfbbf, 0xeb9e, 0x9b79, 0x8b58, 0xbb3b, 0xab1a],
    [0x6ca6, 0x7c87, 0x4ce4, 0x5cc5, 0x2c22, 0x3c03, 0x0c60, 0x1c41],
    [0xedae, 0xfd8f, 0xcdec, 0xddcd, 0xad2a, 0xbd0b, 0x8d68, 0x9d49],
    [0x7e97, 0x6eb6, 0x5ed5, 0x4ef4, 0x3e13, 0x2e32, 0x1e51, 0x0e70],
    [0xff9f, 0xefbe, 0xdfdd, 0xcffc, 0xbf1b, 0xaf3a, 0x9f59, 0x8f78]
  ]

  const QUARTER2: seq<seq<Word>> := [
    [0x9188, 0x81a9, 0xb1ca, 0xa1eb, 0xd10c, 0xc12d, 0xf14e, 0xe16f],
    [0x1080, 0x00a1, 0x30c2, 0x20e3, 0x5004, 0x4025, 0x7046, 0x6067],
    [0x83b9, 0x9398, 0xa3fb, 0xb3da, 0xc33d, 0xd31c, 0xe37f, 0xf35e],
    [0x02b1, 0x1290, 0x22f3, 0x32d2, 0x4235, 0x5214, 0x6277, 0x7256],
    [0xb5ea, 0xa5cb, 0x95a8, 0x8589, 0xf56e, 0xe54f, 0xd52c, 0xc50d],
    [0x34e2, 0x24c3, 0x14a0, 0x0481, 0x7466, 0x6447, 0x5424, 0x4405],
    [0xa7db, 0xb7fa, 0x8799, 0x97b8, 0xe75f, 0xf77e, 0xc71d, 0xd73c],
    [0x26d3, 0x36f2, 0x0691, 0x16b0, 0x6657, 0x7676, 0x4615, 0x5634]
  ]

  const QUARTER3: seq<seq<Word>> := [
    [0xd94c, 0xc96d, 0xf90e, 0xe92f, 0x99c8, 0x89e9, 0xb98a, 0xa9ab],
    [0x5844, 0x4865, 0x7806, 0x6827, 0x18c0, 0x08e1, 0x3882, 0x28a3],
    [0xcb7d, 0xdb5c, 0xeb3f, 0xfb1e, 0x8bf9, 0x9bd8, 0xabbb, 0xbb9a],
    [0x4a75, 0x5a54, 0x6a37, 0x7a16, 0x0af1, 0x1ad0, 0x2ab3, 0x3a92],
    [0xfd2e, 0xed0f, 0xdd6c, 0xcd4d, 0xbdaa, 0xad8b, 0x9de8, 0x8dc9],
    [0x7c26, 0x6c07, 0x5c64, 0x4c45, 0x3ca2, 0x2c83, 0x1ce0, 0x0cc1],
    [0xef1f, 0xff3e, 0xcf5d, 0xdf7c, 0xaf9b, 0xbfba, 0x8fd9, 0x9ff8],
    [0x6e17, 0x7e36, 0x4e55, 0x5e74, 0x2e93, 0x3eb2, 0x0ed1, 0x1ef0]
  ]

  function Row(k: Byte): (row: seq<Word>)
    requires k < 32
    ensures RowIs(row, k << 3)
  {
    var j := k & 7;
    SplitRow(k);
    if k < 8 then Quarter0(j); QUARTER0[j as nat]
    else if k < 16 then Quarter1(j); QUARTER1[j as nat]
    else if k < 24 then Quarter2(j); QUARTER2[j as nat]
    else Quarter3(j); QUARTER3[j as nat]
  }

  lemma SplitRow(k: Byte)
    requires k < 32
    ensures k & 7 < 8
    ensures k < 8 ==> k << 3 == (k & 7) << 3
    ensures 8 <= k < 16 ==> k << 3 == 0x40 + ((k & 7) << 3)
    ensures 16 <= k < 24 ==> k << 3 == 0x80 + ((k & 7) << 3)
    ensures 24 <= k ==> k << 3 == 0xc0 + ((k & 7) << 3)
  {
  }

  /** The table's entry for an index byte. */
  function Lookup(i: Byte): (entry: Word)
    ensures entry == ByteFeedback(i)
  {
    SplitIndex(i);
    RowEntry(Row(i >> 3), (i >> 3) << 3, i & 7);
    Row(i >> 3)[(i & 7) as nat]
  }

  /** What eight turns make of a byte entered into a zero CRC. */
  function ByteFeedback(b: Byte): Word {
    var c := (b as Word) << 8;
    var t := (c >> 8) ^ (c >> 12);
    (c << 8) ^ t ^ (t << 5) ^ (t << 12)
  }

  predicate RowIs(row: seq<Word>, first: Byte) {
    row == [ByteFeedback(first), ByteFeedback(first + 1), ByteFeedback(first + 2), ByteFeedback(first + 3),
            ByteFeedback(first + 4), ByteFeedback(first + 5), ByteFeedback(first + 6), ByteFeedback(first + 7)]
  }

  lemma Quarter0(k: Byte)
    requires k < 8
    ensures |QUARTER0| == 8 && RowIs(QUARTER0[k as nat], 0x00 + (k << 3))
  {
    QuarterRows0();
    if k == 0 {} else if k == 1 {} else if k == 2 {} else if k == 3 {}
    else if k == 4 {} else if k == 5 {} else if k == 6 {} else { assert k == 7; }
  }

  lemma QuarterRows0()
    ensures |QUARTER0| == 8
    ensures RowIs(QUARTER0[0], 0x00)
    ensures RowIs(QUARTER0[1], 0x08)
    ensures RowIs(QUARTER0[2], 0x10)
    ensures RowIs(QUARTER0[3], 0x18)
    ensures RowIs(QUARTER0[4], 0x20)
    ensures RowIs(QUARTER0[5], 0x28)
    ensures RowIs(QUARTER0[6], 0x30)
    ensures RowIs(QUARTER0[7], 0x38)
  {
  }

  lemma Quarter1(k: Byte)
    requires k < 8
    ensures |QUARTER1| == 8 && RowIs(QUARTER1[k as nat], 0x40 + (k << 3))
  {
    QuarterRows1();
    if k == 0 {} else if k == 1 {} else if k == 2 {} else if k == 3 {}
    else if k == 4 {} else if k == 5 {} else if k == 6 {} else { assert k == 7; }
  }

  lemma QuarterRows1()
    ensures |QUARTER1| == 8
    ensures RowIs(QUARTER1[0], 0x40)
    ensures RowIs(QUARTER1[1], 0x48)
    ensures RowIs(QUARTER1[2], 0x50)
    ensures RowIs(QUARTER1[3], 0x58)
    ensures RowIs(QUARTER1[4], 0x60)
    ensures RowIs(QUARTER1[5], 0x68)
    ensures RowIs(QUARTER1[6], 0x70)
    ensures RowIs(QUARTER1[7], 0x78)
  {
  }

  lemma Quarter2(k: Byte)
    requires k < 8
    ensures |QUARTER2| == 8 && RowIs(QUARTER2[k as nat], 0x80 + (k << 3))
  {
    QuarterRows2();
    if k == 0 {} else if k == 1 {} else if k == 2 {} else if k == 3 {}
    else if k == 4 {} else if k == 5 {} else if k == 6 {} else { assert k == 7; }
  }

  lemma QuarterRows2()
    ensures |QUARTER2| == 8
    ensures RowIs(QUARTER2[0], 0x80)
    ensures RowIs(QUARTER2[1], 0x88)
    ensures RowIs(QUARTER2[2], 0x90)
    ensures RowIs(QUARTER2[3], 0x98)
    ensures RowIs(QUARTER2[4], 0xa0)
    ensures RowIs(QUARTER2[5], 0xa8)
    ensures RowIs(QUARTER2[6], 0xb0)
    ensures RowIs(QUARTER2[7], 0xb8)
  {
  }

  lemma Quarter3(k: Byte)
    requires k < 8
    ensures |QUARTER3| == 8 && RowIs(QUARTER3[k as nat], 0xc0 + (k << 3))
  {
    QuarterRows3();
    if k == 0 {} else if k == 1 {} else if k == 2 {} else if k == 3 {}
    else if k == 4 {} else if k == 5 {} else if k == 6 {} else { assert k == 7; }
  }

  lemma QuarterRows3()
    ensures |QUARTER3| == 8
    ensures RowIs(QUARTER3[0], 0xc0)
    ensures RowIs(QUARTER3[1], 0xc8)
    ensures RowIs(QUARTER3[2], 0xd0)
    ensures RowIs(QUARTER3[3], 0xd8)
    ensures RowIs(QUARTER3[4], 0xe0)
    ensures RowIs(QUARTER3[5], 0xe8)
    ensures RowIs(QUARTER3[6], 0xf0)
    ensures RowIs(QUARTER3[7], 0xf8)
  {
  }

  lemma RowEntry(row: seq<Word>, first: Byte, j: Byte)
    requires RowIs(row, first) && j < 8
    ensures |row| == 8 && row[j as nat] == ByteFeedback(first + j)
  {
    if j == 0 {} else if j == 1 {} else if j == 2 {} else if j == 3 {}
    else if j == 4 {} else if j == 5 {} else if j == 6 {} else { assert j == 7; }
  }

  lemma SplitIndex(i: Byte)
    ensures i >> 3 < 32 && i & 7 < 8 && ((i >> 3) << 3) + (i & 7) == i
  {
  }

  /** Every table entry is the value the bit loop gives that byte from a zero CRC. */
  lemma TableHoldsLoopValues(i: Byte)
    ensures Lookup(i) == AddByte(0, i)
  {
    var c := (i as Word) << 8;
    assert Enter(0, i) == c;
    EightTurns(c, (c >> 8) ^ (c >> 12), AddByte(0, i));
  }

  /**
    The C form of the table lookup. The table lies in memory low byte first, so
    the first byte read is the entry's low byte and the second its high byte.
    */
  method TableCrcByte(oldCrc: Word, b: Byte) returns (crc: Word)
    ensures crc == AddByte(oldCrc, b)
  {
    var i := ((oldCrc >> 8) as Byte) ^ b;
    var entry := Lookup(i);
    var first, second := (entry & 0xff) as Byte, (entry >> 8) as Byte;
    crc := (first as Word) | (((((oldCrc & 0xff) as Byte) ^ second) as Word) << 8);
    Reassemble(entry, oldCrc, first, second, crc);
    ghost var d := (i as Word) << 8;
    ghost var u := (d >> 8) ^ (d >> 12);
    EntryFormula(i, d, u, entry);
    TableStep(oldCrc, b, i, d, u, entry, crc);
  }

  lemma Reassemble(entry: Word, crc: Word, first: Byte, second: Byte, r: Word)
    requires first == (entry & 0xff) as Byte && second == (entry >> 8) as Byte
    requires r == (first as Word) | (((((crc & 0xff) as Byte) ^ second) as Word) << 8)
    ensures r == entry ^ (crc << 8)
  {
  }

  lemma TableStep(crc: Word, b: Byte, i: Byte, d: Word, u: Word, entry: Word, r: Word)
    requires i == ((crc >> 8) as Byte) ^ b
    requires d == (i as Word) << 8 && u == (d >> 8) ^ (d >> 12)
    requires entry == (d << 8) ^ u ^ (u << 5) ^ (u << 12)
    requires r == entry ^ (crc << 8)
    ensures r == AddByte(crc, b)
  {
    hide *;
    AddByteMeans(crc, b);
    var c := Enter(crc, b);
    var t := (c >> 8) ^ (c >> 12);
    SplitEntry(crc, b, i, c, d, t, u);
    SwapTerms(c, crc, d, t, u, entry, r);
    EightTurns(c, t, AddByte(crc, b));
  }

  lemma EntryFormula(i: Byte, d: Word, u: Word, entry: Word)
    requires entry == ByteFeedback(i)
    requires d == (i as Word) << 8 && u == (d >> 8) ^ (d >> 12)
    ensures entry == (d << 8) ^ u ^ (u << 5) ^ (u << 12)
  {
  }

  lemma SplitEntry(crc: Word, b: Byte, i: Byte, c: Word, d: Word, t: Word, u: Word)
    requires i == ((crc >> 8) as Byte) ^ b
    requires c == crc ^ ((b as Word) << 8)
    requires d == (i as Word) << 8
    requires t == (c >> 8) ^ (c >> 12)
    requires u == (d >> 8) ^ (d >> 12)
    ensures t == u && c << 8 == crc << 8 && d << 8 == 0
  {
  }

  lemma SwapTerms(c: Word, crc: Word, d: Word, t: Word, u: Word, entry: Word, r: Word)
    requires t == u && c << 8 == crc << 8 && d << 8 == 0
    requires entry == (d << 8) ^ u ^ (u << 5) ^ (u << 12)
    requires r == entry ^ (crc << 8)
    ensures r == (c << 8) ^ t ^ (t << 5) ^ (t << 12)
  {
  }

  // ---------- The three forms over whole messages ----------

  datatype Form = BitLoop | LoopFree | TableDriven

  /**
    The forms are interchangeable: whichever form handles each byte, from any start
    value, the running CRC of the message is the same.
    */
  method MixedCrc(forms: seq<Form>, start: Word, message: seq<Byte>) returns (crc: Word)
    requires |forms| == |message|
    ensures crc == Crc(start, message)
  {
    crc := start;
    for k := 0 to |message|
      invariant crc == Crc(start, message[..k])
    {
      assert message[..k + 1][..k] == message[..k];
      match forms[k] {
        case BitLoop => crc := LoopCrcByte(crc, message[k]);
        case LoopFree => crc := FastCrcByte(crc, message[k]);
        case TableDriven => crc := TableCrcByte(crc, message[k]);
      }
    }
    assert message[..|message|] == message;
  }
}
