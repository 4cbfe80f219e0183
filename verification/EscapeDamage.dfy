/**
  Single damaged bytes that the check can miss: those that make a flag behind a whole body,
  and those that make or unmake an escape of a data byte where the running CRC is what that
  takes. What it takes depends on whether the byte behind the new escape is data.
  */
module EscapeDamage {
  import opened Bytes
  import opened Crc16
  import opened CrcApart
  import opened CrcDetection
  import opened Framing
  import opened FrameDetection
  import opened LineDamage

  // ---------- A flag made ----------

  /**
    A bit that makes a flag can go unnoticed: whatever data ends in the byte 0x7f behind a
    whole body, and more, is cut down to that body's data by its last bit.
    */
  lemma MadeFlagUnnoticed(phase: Phase, data: seq<Byte>, rest: seq<Byte>)
    requires InStep(phase)
    ensures
      var longer, i := Body(data) + [0x7f] + rest, |Sent(data)|;
      && i < |Sent(longer)| && Sent(longer)[i] == FLAG ^ 0x01
      && Results(phase, Received([FLAG] + Sent(longer)[i := FLAG] + [FLAG])) == [Packet(data)]
  {
    hide *;
    var longer, i := Body(data) + [0x7f] + rest, |Sent(data)|;
    var y := SentLonger(data, rest);
    assert Sent(longer)[i := FLAG] == Sent(data) + [FLAG] + y;
    assert [FLAG] + Sent(longer)[i := FLAG] + [FLAG] == [FLAG] + Sent(data) + [FLAG] + y + [FLAG];
    SentBetweenFlags(data);
    FlagBetweenFlags(phase, Sent(data), y);
    SentPasses(data);
    assert (FLAG ^ 0x01) == 0x7f by { FlagBit(FLAG ^ 0x01); }
  }

  lemma FlagBit(b: Byte)
    requires b == FLAG ^ 0x01
    ensures b == 0x7f
  {
  }

  lemma SentLonger(data: seq<Byte>, rest: seq<Byte>) returns (y: seq<Byte>)
    ensures Sent(Body(data) + [0x7f] + rest) == Sent(data) + [0x7f] + y && FLAG !in y
  {
    hide *;
    var longer := Body(data) + [0x7f] + rest;
    var end := rest + CrcField(Crc(0, longer));
    y := Escape(end);
    SentMeans(data);
    SentMeans(longer);
    BodyMeans(longer);
    assert Body(longer) == Body(data) + ([0x7f] + end);
    EscapeAppend(Body(data), [0x7f] + end);
    EscapeAppend([0x7f], end);
    EscapePlain([0x7f]) by { PlainByte(); }
    EscapeShape(end);
  }

  lemma BodyMeans(data: seq<Byte>)
    ensures Body(data) == data + CrcField(Crc(0, data))
  {
  }

  lemma PlainByte()
    ensures Plain([0x7f])
  {
  }

  // ---------- Escapes made and unmade ----------

  lemma HighOfToggle(b: Byte)
    ensures High(Toggle(b)) == Xor(High(b), 0x2000)
  {
  }

  lemma ToggledEntry(c: Word, d: Word, b: Byte)
    ensures Enter(d, Toggle(b)) == Enter(c, b) <==> d == Xor(c, 0x2000)
  {
    hide *;
    var z: Word, k := 0x2000, High(b);
    EntryIsXor(d, Toggle(b));
    EntryIsXor(c, b);
    HighOfToggle(b);
    XorInto(d, k, z);
    XorGroups(d, k, z);
    XorTwiceWord(Xor(d, z), k);
    XorTwiceWord(c, k);
    XorTwiceWord(d, z);
    XorTwiceWord(c, z);
  }

  /** An escape too many and an escape too few go unnoticed under the same condition. */
  lemma ToggledNext(data: seq<Byte>, x: Byte, b: Byte)
    ensures Crc(0, data + [x, Toggle(b)]) == Crc(0, data + [b]) <==> Crc(0, data + [x]) == Xor(Crc(0, data), 0x2000)
  {
    hide *;
    var c, d := Crc(0, data), Crc(0, data + [x]);
    assert data + [x, Toggle(b)] == data + [x] + [Toggle(b)];
    CrcSnoc(data + [x], 0, Toggle(b));
    CrcSnoc(data, 0, b);
    AddByteApart(d, c, Toggle(b), b);
    ToggledEntry(c, d, b);
  }

  /** A body with the CRC field of other data with the same end passes exactly if the fronts agree. */
  lemma CheckedWithField(front: seq<Byte>, other: seq<Byte>, rest: seq<Byte>)
    ensures Checked(front + (rest + CrcField(Crc(0, other + rest)))) ==
      if Crc(0, front) == Crc(0, other) then Packet(front + rest) else CrcError
  {
    hide Crc, CrcField, DecodeField, Ordered;
    var field := CrcField(Crc(0, other + rest));
    var body := front + (rest + field);
    assert body == (front + rest) + field && body[..|body| - 2] == front + rest;
    PassesIffZero(front + rest, field);
    FieldRoundTrip(Crc(0, other + rest));
    CrcAppend(0, front, rest);
    CrcAppend(0, other, rest);
    CrcSameTail(Crc(0, front), Crc(0, other), rest);
  }

  /** What is sent of a body in parts. */
  lemma SentParts(data: seq<Byte>, front: seq<Byte>, b: Byte, back: seq<Byte>)
    requires Body(data) == front + ([b] + back)
    ensures Sent(data) == Escape(front) + (Escape([b]) + Escape(back))
  {
    hide *;
    SentMeans(data);
    EscapeAppend(front, [b] + back);
    EscapeAppend([b], back);
  }

  lemma StuffOne(b: Byte)
    ensures Escape([b]) == if Special(b) then [ESCAPE, Toggle(b)] else [b]
    ensures Special(b) ==> !Special(Toggle(b))
  {
    hide Special, Toggle;
    XorTwice(b);
    assert [b][1..] == [];
  }

  /**
    Damage to an escape byte, in the data or the field, unmakes the escape: the byte arrives
    as x, and the byte it escaped as itself.
    */
  lemma UnmadeEscape(phase: Phase, data: seq<Byte>, front: seq<Byte>, b: Byte, back: seq<Byte>, x: Byte)
    requires InStep(phase) && Body(data) == front + ([b] + back) && Special(b) && !Special(x)
    ensures
      var sent, i := Sent(data), |Escape(front)|;
      && i < |sent| && sent[i] == ESCAPE
      && Results(phase, Received([FLAG] + sent[i := x] + [FLAG])) == [Checked(front + [x, Toggle(b)] + back)]
  {
    hide *;
    var sent, i := Sent(data), |Escape(front)|;
    SentParts(data, front, b, back);
    StuffOne(b);
    var u, w := front + [x, Toggle(b)] + back, sent[i := x];
    assert w == Escape(front) + ([x, Toggle(b)] + Escape(back));
    PlainTwo(x, Toggle(b));
    EscapePlain([x, Toggle(b)]);
    EscapeAppend(front, [x, Toggle(b)]);
    EscapeAppend(front + [x, Toggle(b)], back);
    assert w == Escape(u) by { Regroup(Escape(front), [x, Toggle(b)], Escape(back)); }
    EscapedIsPlain(u);
    UnescapeEscape(u, []);
    UnescapeNothing([]);
    assert w + [] == w && u + [] == u;
    ReadBetweenFlags(phase, w);
  }

  /**
    Inside the data that goes unnoticed exactly if x takes the CRC of the data before it to
    that CRC with the bit 0x2000 flipped.
    */
  lemma UnmadeEscapeIff(phase: Phase, data: seq<Byte>, b: Byte, rest: seq<Byte>, x: Byte)
    requires InStep(phase) && Special(b) && !Special(x)
    ensures
      var sent, i := Sent(data + [b] + rest), |Escape(data)|;
      && i < |sent| && sent[i] == ESCAPE
      && Results(phase, Received([FLAG] + sent[i := x] + [FLAG])) ==
           if Crc(0, data + [x]) == Xor(Crc(0, data), 0x2000) then [Packet(data + [x, Toggle(b)] + rest)]
           else [CrcError]
  {
    hide *;
    var back := rest + CrcField(Crc(0, data + [b] + rest));
    BodyMeans(data + [b] + rest);
    assert data + [b] + rest + CrcField(Crc(0, data + [b] + rest)) == data + ([b] + back);
    UnmadeEscape(phase, data + [b] + rest, data, b, back, x);
    CheckedWithField(data + [x, Toggle(b)], data + [b], rest);
    ToggledNext(data, x, b);
  }

  lemma PlainTwo(x: Byte, y: Byte)
    requires !Special(x) && !Special(y)
    ensures Plain([x, y])
  {
    hide Special;
  }

  /** What an escape makes of the bytes behind it. */
  function Escaped(back: seq<Byte>): seq<Byte> {
    if back == [] then []
    else (if Special(back[0]) then [Toggle(ESCAPE), Toggle(back[0])] else [Toggle(back[0])]) + back[1..]
  }

  /**
    Damage to a byte, in the data or the field, makes it an escape: the byte does not arrive,
    and the next one arrives toggled, or both bytes of its own escape do.
    */
  lemma MadeEscape(phase: Phase, data: seq<Byte>, front: seq<Byte>, x: Byte, back: seq<Byte>)
    requires InStep(phase) && Body(data) == front + ([x] + back) && !Special(x)
    ensures
      var sent, i := Sent(data), |Escape(front)|;
      && i < |sent| && sent[i] == x
      && Results(phase, Received([FLAG] + sent[i := ESCAPE] + [FLAG])) == [Checked(front + Escaped(back))]
  {
    hide *;
    SentParts(data, front, x, back);
    StuffOne(x);
    var w, tail := Sent(data)[|Escape(front)| := ESCAPE], [ESCAPE] + Escape(back);
    assert w == Escape(front) + tail;
    MadeTail(back);
    UnescapeEscape(front, tail);
    EscapeShape(front);
    EscapeShape(back);
    FlagIsNotEscape();
    ReadBetweenFlags(phase, w);
  }

  /** The byte that the frame carries behind a data byte: the next one, or the field's first. */
  function ByteBehind(data: seq<Byte>, x: Byte, rest: seq<Byte>): Byte {
    if rest == [] then CrcField(Crc(0, data + [x]))[0] else rest[0]
  }

  /** The bit that the toggled byte flips in the CRC: of the data, or of the field's low byte. */
  function ToggledBit(rest: seq<Byte>): Word {
    if rest == [] then 0x0020 else 0x2000
  }

  /** The data without the byte that became an escape, and with the byte behind it toggled. */
  function WithoutByte(data: seq<Byte>, rest: seq<Byte>): seq<Byte> {
    if rest == [] then data else data + [Toggle(rest[0])] + rest[1..]
  }

  /**
    A data byte x that arrives as an escape goes unnoticed exactly if it takes the CRC of the
    data before it to that CRC with one bit flipped, and the byte behind it was not itself
    escaped: the bit 0x2000 if that is a data byte, the bit 0x0020 if x is the last.
    */
  lemma MadeEscapeIff(phase: Phase, data: seq<Byte>, x: Byte, rest: seq<Byte>)
    requires InStep(phase) && !Special(x)
    ensures
      var sent, i := Sent(data + [x] + rest), |Escape(data)|;
      && i < |sent| && sent[i] == x
      && Results(phase, Received([FLAG] + sent[i := ESCAPE] + [FLAG])) ==
           if !Special(ByteBehind(data, x, rest)) && Crc(0, data + [x]) == Xor(Crc(0, data), ToggledBit(rest))
           then [Packet(WithoutByte(data, rest))] else [CrcError]
  {
    hide *;
    BehindMeans(data, x, rest);
    if rest == [] {
      MadeAtEnd(phase, data, x);
      assert data + [x] + rest == data + [x];
    } else {
      MadeInside(phase, data, x, rest[0], rest[1..]);
      assert data + [x, rest[0]] + rest[1..] == data + [x] + rest;
    }
  }

  lemma BehindMeans(data: seq<Byte>, x: Byte, rest: seq<Byte>)
    ensures rest == [] ==>
      && ByteBehind(data, x, rest) == CrcField(Crc(0, data + [x]))[0]
      && ToggledBit(rest) == 0x0020 && WithoutByte(data, rest) == data
    ensures rest != [] ==>
      && ByteBehind(data, x, rest) == rest[0]
      && ToggledBit(rest) == 0x2000 && WithoutByte(data, rest) == data + [Toggle(rest[0])] + rest[1..]
  {
    hide Crc, CrcField, Toggle;
  }

  lemma MadeInside(phase: Phase, data: seq<Byte>, x: Byte, y: Byte, rest: seq<Byte>)
    requires InStep(phase) && !Special(x)
    ensures
      var sent, i := Sent(data + [x, y] + rest), |Escape(data)|;
      && i < |sent| && sent[i] == x
      && Results(phase, Received([FLAG] + sent[i := ESCAPE] + [FLAG])) ==
           if !Special(y) && Crc(0, data + [x]) == Xor(Crc(0, data), 0x2000) then [Packet(data + [Toggle(y)] + rest)]
           else [CrcError]
  {
    hide *;
    var field := CrcField(Crc(0, data + [x, y] + rest));
    BodyMeans(data + [x, y] + rest);
    BodyParts(data, x, y, rest, field);
    MadeEscape(phase, data + [x, y] + rest, data, x, [y] + (rest + field));
    EscapedFirst(y, rest + field);
    if Special(y) {
      Regroup(data, [Toggle(ESCAPE), Toggle(y)], rest + field);
      CheckedWithField(data + [Toggle(ESCAPE), Toggle(y)], data + [x, y], rest);
      StuffOne(y);
      TwoBytesApart(data, Toggle(ESCAPE), Toggle(y), x, y);
    } else {
      Regroup(data, [Toggle(y)], rest + field);
      CheckedWithField(data + [Toggle(y)], data + [x, y], rest);
      ToggledNext(data, x, Toggle(y));
      ToggleTwice(y);
    }
  }

  lemma BodyParts(data: seq<Byte>, x: Byte, y: Byte, rest: seq<Byte>, field: seq<Byte>)
    ensures data + [x, y] + rest + field == data + ([x] + ([y] + (rest + field)))
  {
  }

  lemma MadeAtEnd(phase: Phase, data: seq<Byte>, x: Byte)
    requires InStep(phase) && !Special(x)
    ensures
      var sent, i, c := Sent(data + [x]), |Escape(data)|, Crc(0, data + [x]);
      && i < |sent| && sent[i] == x
      && Results(phase, Received([FLAG] + sent[i := ESCAPE] + [FLAG])) ==
           if !Special(CrcField(c)[0]) && c == Xor(Crc(0, data), 0x0020) then [Packet(data)] else [CrcError]
  {
    hide *;
    var c := Crc(0, data + [x]);
    var lo, hi := CrcField(c)[0], CrcField(c)[1];
    assert CrcField(c) == [lo] + [hi];
    BodyMeans(data + [x]);
    assert data + [x] + ([lo] + [hi]) == data + ([x] + ([lo] + [hi]));
    MadeEscape(phase, data + [x], data, x, [lo] + [hi]);
    EscapedFirst(lo, [hi]);
    FieldIsWord(c);
    ToggledLow(lo, hi);
    if Special(lo) {
      assert data + ([Toggle(ESCAPE), Toggle(lo)] + [hi]) == data + [Toggle(ESCAPE)] + [Toggle(lo), hi];
      CheckedPair(data + [Toggle(ESCAPE)], Toggle(lo), hi);
      CrcSnoc(data, 0, Toggle(ESCAPE));
      CrcSnoc(data, 0, x);
      NeverLowBit(Crc(0, data), Toggle(ESCAPE), x);
    } else {
      assert data + ([Toggle(lo)] + [hi]) == data + [Toggle(lo), hi];
      CheckedPair(data, Toggle(lo), hi);
      XorTwiceWord(c, 0x0020);
      XorTwiceWord(Crc(0, data), 0x0020);
    }
  }

  // ---------- The field as a word ----------

  /** The word that a field of two bytes stands for. */
  function FieldWord(lo: Byte, hi: Byte): Word {
    ((hi as Word) << 8) ^ (lo as Word)
  }

  lemma SumIsWord(lo: Byte, hi: Byte, w: Word)
    requires w == (((0 << 8) + (hi as Word)) << 8) + (lo as Word)
    ensures w == FieldWord(lo, hi)
  {
  }

  lemma HalvesAreWord(c: Word, lo: Byte, hi: Byte)
    requires lo == (c & 0xff) as Byte && hi == ((c >> 8) & 0xff) as Byte
    ensures c == FieldWord(lo, hi)
  {
  }

  lemma FieldIsWord(c: Word)
    ensures c == FieldWord(CrcField(c)[0], CrcField(c)[1])
  {
    hide FieldWord;
    HalvesAreWord(c, CrcField(c)[0], CrcField(c)[1]);
  }

  lemma ToggledLow(lo: Byte, hi: Byte)
    ensures FieldWord(Toggle(lo), hi) == Xor(FieldWord(lo, hi), 0x0020)
  {
  }

  /** A body that ends in these two bytes. */
  lemma CheckedPair(data: seq<Byte>, lo: Byte, hi: Byte)
    ensures Checked(data + [lo, hi]) == if Crc(0, data) == FieldWord(lo, hi) then Packet(data) else CrcError
  {
    hide Crc, Ordered, DecodeField, FieldWord;
    PassesIffZero(data, [lo, hi]);
    DecodeTwo([lo, hi]);
    SumIsWord(lo, hi, DecodeField([lo, hi]));
  }

  // ---------- One more byte, in closed form ----------

  /** The running CRC c becomes r with the byte x; e and t are steps on the way. */
  predicate Added(c: Word, x: Byte, e: Word, t: Word, r: Word) {
    && e == c ^ ((x as Word) << 8)
    && t == (e >> 8) ^ (e >> 12)
    && r == (e << 8) ^ t ^ (t << 5) ^ (t << 12)
  }

  lemma AddedIs(c: Word, x: Byte) returns (e: Word, t: Word)
    ensures Added(c, x, e, t, AddByte(c, x))
  {
    hide *;
    e := c ^ ((x as Word) << 8);
    t := (e >> 8) ^ (e >> 12);
    AddByteEnters(c, x, e);
    EightTurns(e, t, AddByte(c, x));
    AddedMeans(c, x, e, t, AddByte(c, x));
  }

  lemma AddedMeans(c: Word, x: Byte, e: Word, t: Word, r: Word)
    requires e == c ^ ((x as Word) << 8)
    requires t == (e >> 8) ^ (e >> 12)
    requires r == (e << 8) ^ t ^ (t << 5) ^ (t << 12)
    ensures Added(c, x, e, t, r)
  {
  }

  lemma NeverLow(c: Word, x: Byte, e: Word, t: Word, r: Word, y: Byte, f: Word, u: Word, s: Word)
    requires Added(c, x, e, t, r) && Added(c, y, f, u, s)
    ensures r != s ^ 0x0020
  {
  }

  /** No two bytes take a CRC to two that differ in the bit 0x0020 alone. */
  lemma NeverLowBit(c: Word, x: Byte, y: Byte)
    ensures AddByte(c, x) != Xor(AddByte(c, y), 0x0020)
  {
    hide Added, AddByte;
    var e, t := AddedIs(c, x);
    var f, u := AddedIs(c, y);
    NeverLow(c, x, e, t, AddByte(c, x), y, f, u, AddByte(c, y));
  }

  lemma EscapedFirst(y: Byte, q: seq<Byte>)
    ensures Escaped([y] + q) == (if Special(y) then [Toggle(ESCAPE), Toggle(y)] else [Toggle(y)]) + q
  {
    hide Special, Toggle;
    assert ([y] + q)[1..] == q;
  }

  lemma FlagIsNotEscape()
    ensures FLAG != ESCAPE
  {
  }

  lemma ToggleTwice(y: Byte)
    ensures Toggle(Toggle(y)) == y
  {
    XorTwice(y);
  }

  lemma MadeTail(back: seq<Byte>)
    ensures Unescape(false, [ESCAPE] + Escape(back)) == Escaped(back)
  {
    hide *;
    if back == [] {
      NothingMade(back);
    } else {
      MadeTailFirst(back[0], back[1..]);
      EscapedFirst(back[0], back[1..]);
      assert [back[0]] + back[1..] == back;
      EscapeAppend([back[0]], back[1..]);
      Regroup([ESCAPE], Escape([back[0]]), Escape(back[1..]));
    }
  }

  lemma NothingMade(back: seq<Byte>)
    requires back == []
    ensures Unescape(false, [ESCAPE] + Escape(back)) == Escaped(back)
  {
    assert ([ESCAPE] + Escape(back))[1..] == [];
  }

  lemma MadeTailFirst(y: Byte, q: seq<Byte>)
    ensures Unescape(false, [ESCAPE] + Escape([y]) + Escape(q)) ==
      (if Special(y) then [Toggle(ESCAPE), Toggle(y)] else [Toggle(y)]) + q
  {
    hide *;
    StuffOne(y);
    UnescapeEscape(q, []);
    UnescapeNothing([]);
    assert Escape(q) + [] == Escape(q) && q + [] == q;
    var tail := [ESCAPE] + Escape([y]) + Escape(q);
    PendingTail(tail, Escape([y]) + Escape(q));
    TakenPending(Escape([y])[0], (Escape([y]) + Escape(q))[1..]);
    assert [Escape([y])[0]] + (Escape([y]) + Escape(q))[1..] == Escape([y]) + Escape(q);
    if Special(y) {
      assert (Escape([y]) + Escape(q))[1..] == [Toggle(y)] + Escape(q);
      TakenPlain(Toggle(y), Escape(q));
      assert [Toggle(ESCAPE)] + ([Toggle(y)] + q) == [Toggle(ESCAPE), Toggle(y)] + q;
    } else {
      assert (Escape([y]) + Escape(q))[1..] == Escape(q);
    }
  }

  lemma PendingTail(tail: seq<Byte>, rest: seq<Byte>)
    requires tail == [ESCAPE] + rest
    ensures Unescape(false, tail) == Unescape(true, rest)
  {
    assert tail[1..] == rest;
  }

  lemma TakenPending(y: Byte, rest: seq<Byte>)
    ensures Unescape(true, [y] + rest) == [Toggle(y)] + Unescape(false, rest)
  {
    assert ([y] + rest)[1..] == rest;
  }

  lemma TakenPlain(y: Byte, rest: seq<Byte>)
    requires !Special(y)
    ensures Unescape(false, [y] + rest) == [y] + Unescape(false, rest)
  {
    assert ([y] + rest)[1..] == rest;
  }

  /** Two bytes in a row cannot stand for two others. */
  lemma TwoBytesApart(data: seq<Byte>, x: Byte, y: Byte, x': Byte, y': Byte)
    requires y != y'
    ensures Crc(0, data + [x, y]) != Crc(0, data + [x', y'])
  {
    hide *;
    CrcAppend(0, data, [x, y]);
    CrcAppend(0, data, [x', y']);
    assert [x, y][1] != [x', y'][1];
    SixteenBits(ErrorPattern([x, y], [x', y']));
    DetectsBursts(Crc(0, data), [x, y], [x', y'], 0);
  }

  lemma SixteenBits(d: Bits)
    requires |d| == 16
    ensures Within(d, 0, 16)
  {
  }

  // ---------- One bit, in both directions ----------

  /** The running CRC after one more byte, in numbers. */
  lemma CrcNext(m: seq<Byte>, b: Byte, e: Word, t: Word, r: Word)
    requires e == Crc(0, m) ^ ((b as Word) << 8)
    requires t == (e >> 8) ^ (e >> 12)
    requires r == (e << 8) ^ t ^ (t << 5) ^ (t << 12)
    ensures Crc(0, m + [b]) == r
  {
    hide *;
    CrcSnoc(m, 0, b);
    AddByteEnters(Crc(0, m), b, e);
    EightTurns(e, t, Crc(0, m + [b]));
  }

  lemma AddByteEnters(crc: Word, b: Byte, e: Word)
    requires e == crc ^ ((b as Word) << 8)
    ensures AddByte(crc, b) == Shifts(e, 8)
  {
    hide Shifts;
  }

  lemma ExampleCrcs()
    ensures Crc(0, [0x12, 0x02]) == 0x4553
    ensures Crc(0, [0x12, 0x02, 0x75]) == Xor(0x4553, 0x2000)
    ensures Crc(0, [0x12, 0x02, 0x7e]) == 0xd438
  {
    hide *;
    CrcOfNone();
    var none: seq<Byte>, one: seq<Byte>, two: seq<Byte> := [], [0x12], [0x12, 0x02];
    assert none + [0x12] == one && one + [0x02] == two;
    assert two + [0x75] == [0x12, 0x02, 0x75] && two + [0x7e] == [0x12, 0x02, 0x7e];
    CrcNext(none, 0x12, 0x1200, 0x0013, 0x3273);
    CrcNext(one, 0x02, 0x3073, 0x0033, 0x4553);
    CrcNext(two, 0x75, 0x3053, 0x0033, 0x6553);
    CrcNext(two, 0x7e, 0x3b53, 0x0038, 0xd438);
    XorMeans(0x4553, 0x2000, 0x6553);
  }

  lemma CrcOfNone()
    ensures Crc(0, []) == 0
  {
  }

  /**
    One flipped bit, between 0x75 and the escape byte, goes unnoticed after the data
    0x12, 0x02, in both directions, whatever byte follows it and whatever comes then.
    */
  lemma OneBitUnnoticed(phase: Phase, b: Byte, y: Byte, rest: seq<Byte>)
    requires InStep(phase) && Special(b) && !Special(y)
    ensures
      var x, data := ESCAPE ^ 0x08, [0x12, 0x02];
      var unmade, made := Sent(data + [b] + rest), Sent(data + [x, y] + rest);
      && |unmade| > 2 && unmade[2] == ESCAPE && |made| > 2 && made[2] == x
      && Results(phase, Received([FLAG] + unmade[2 := x] + [FLAG])) == [Packet(data + [x, Toggle(b)] + rest)]
      && Results(phase, Received([FLAG] + made[2 := ESCAPE] + [FLAG])) == [Packet(data + [Toggle(y)] + rest)]
  {
    hide *;
    var x, data := ESCAPE ^ 0x08, [0x12, 0x02];
    ExampleBytes(x, data);
    ExampleCrcs();
    EscapePlain(data);
    assert data + [x] == [0x12, 0x02, 0x75];
    UnmadeEscapeIff(phase, data, b, rest, x);
    MadeInside(phase, data, x, y, rest);
  }

  lemma ExampleBytes(x: Byte, data: seq<Byte>)
    requires x == ESCAPE ^ 0x08 && data == [0x12, 0x02]
    ensures x == 0x75 && !Special(x) && Plain(data)
  {
  }

  /** A frame of three bytes, and what the reader makes of it with one bit of its escape flipped. */
  lemma ExampleFrame(phase: Phase)
    requires InStep(phase)
    ensures Frame([0x12, 0x02, 0x7e]) == [FLAG, 0x12, 0x02, 0x7d, 0x5e, 0x38, 0xd4, FLAG]
    ensures Results(phase, Received([FLAG, 0x12, 0x02, 0x75, 0x5e, 0x38, 0xd4, FLAG]))
         == [Packet([0x12, 0x02, 0x75, 0x5e])]
  {
    hide *;
    ExampleSent();
    SentBetweenFlags([0x12, 0x02, 0x7e]);
    var s := Sent([0x12, 0x02, 0x7e]);
    ExampleToggle();
    OneBitUnnoticed(phase, FLAG, 0x12, []);
    var d: seq<Byte> := [0x12, 0x02];
    assert d + [FLAG] + [] == [0x12, 0x02, 0x7e] by { FlagIs(); }
    assert [FLAG] + s[2 := 0x75] + [FLAG] == [FLAG, 0x12, 0x02, 0x75, 0x5e, 0x38, 0xd4, FLAG];
    assert d + [0x75, 0x5e] + [] == [0x12, 0x02, 0x75, 0x5e];
  }

  lemma FlagIs()
    ensures FLAG == 0x7e && ESCAPE == 0x7d && Special(FLAG) && Special(0x7e)
  {
  }

  lemma ExampleToggle()
    ensures Toggle(FLAG) == 0x5e && Toggle(0x7e) == 0x5e && (ESCAPE ^ 0x08) == 0x75
    ensures Special(FLAG) && !Special(0x12)
  {
  }

  lemma ExampleSent()
    ensures Sent([0x12, 0x02, 0x7e]) == [0x12, 0x02, 0x7d, 0x5e, 0x38, 0xd4]
  {
    hide *;
    var data: seq<Byte> := [0x12, 0x02, 0x7e];
    ExampleCrcs();
    ExampleField();
    SentMeans(data);
    BodyMeans(data);
    var x, y: seq<Byte> := [0x12, 0x02], [0x38, 0xd4];
    ExamplePlain();
    EscapePlain(x);
    EscapePlain(y);
    StuffOne(0x7e);
    ExampleToggle();
    FlagIs();
    EscapeAppend(x, [0x7e] + y);
    EscapeAppend([0x7e], y);
    assert data + y == x + ([0x7e] + y);
  }

  lemma ExampleField()
    ensures CrcField(0xd438) == [0x38, 0xd4]
  {
  }

  lemma ExamplePlain()
    ensures Plain([0x12, 0x02]) && Plain([0x38, 0xd4])
  {
  }

  /**
    At the end of the data the condition is another one: with 0x7f behind 0x08, 0x05 one bit
    goes unnoticed, and with 0x75 behind 0x12, 0x02 it is noticed.
    */
  lemma ExampleAtEnd(phase: Phase)
    requires InStep(phase)
    ensures
      var cut, kept := Sent([0x08, 0x05, 0x7f]), Sent([0x12, 0x02, 0x75]);
      && |cut| > 2 && cut[2] == ESCAPE ^ 0x02 && |kept| > 2 && kept[2] == ESCAPE ^ 0x08
      && Results(phase, Received([FLAG] + cut[2 := ESCAPE] + [FLAG])) == [Packet([0x08, 0x05])]
      && Results(phase, Received([FLAG] + kept[2 := ESCAPE] + [FLAG])) == [CrcError]
  {
    hide *;
    var x, y: seq<Byte> := [0x08, 0x05], [0x12, 0x02];
    EndBytes(x);
    ExampleBytes(0x75, y);
    ExampleCrcs();
    EndCrcs();
    EscapePlain(x);
    EscapePlain(y);
    assert x + [0x7f] == [0x08, 0x05, 0x7f] && y + [0x75] == [0x12, 0x02, 0x75];
    MadeAtEnd(phase, x, 0x7f);
    MadeAtEnd(phase, y, 0x75);
  }

  lemma EndBytes(data: seq<Byte>)
    requires data == [0x08, 0x05]
    ensures Plain(data) && !Special(0x7f) && (ESCAPE ^ 0x02) == 0x7f && (ESCAPE ^ 0x08) == 0x75
    ensures !Special(CrcField(0xd92c)[0])
    ensures Xor(0x4553, 0x2000) != Xor(0x4553, 0x0020)
  {
  }

  lemma EndCrcs()
    ensures Crc(0, [0x08, 0x05]) == 0xd90c
    ensures Crc(0, [0x08, 0x05, 0x7f]) == 0xd92c == Xor(0xd90c, 0x0020)
  {
    hide *;
    CrcOfNone();
    var none: seq<Byte>, one: seq<Byte>, two: seq<Byte> := [], [0x08], [0x08, 0x05];
    assert none + [0x08] == one && one + [0x05] == two && two + [0x7f] == [0x08, 0x05, 0x7f];
    CrcNext(none, 0x08, 0x0800, 0x0008, 0x8108);
    CrcNext(one, 0x05, 0x8408, 0x008c, 0xd90c);
    CrcNext(two, 0x7f, 0xa60c, 0x00ac, 0xd92c);
    XorMeans(0xd90c, 0x0020, 0xd92c);
  }
}
