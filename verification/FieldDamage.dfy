/**
  Damage to a single byte of a frame, all of it classified. Where it meets an escape inside
  the data it can go unnoticed; in the CRC field only by more than one bit.
  */
module FieldDamage {
  import opened Bytes
  import opened Crc16
  import opened CrcApart
  import opened CrcDetection
  import opened Framing
  import opened FrameDetection
  import opened LineDamage
  import opened EscapeDamage

  /** The frame's CRC field: its low byte, which travels first, and its high byte. */
  function Low(data: seq<Byte>): Byte {
    CrcField(Crc(0, data))[0]
  }

  function HighByte(data: seq<Byte>): Byte {
    CrcField(Crc(0, data))[1]
  }

  lemma BodyOfFrame(data: seq<Byte>)
    ensures Body(data) == data + ([Low(data)] + [HighByte(data)])
    ensures Crc(0, data) == FieldWord(Low(data), HighByte(data))
  {
    hide Crc, FieldWord;
    FieldIsWord(Crc(0, data));
    assert CrcField(Crc(0, data)) == [Low(data)] + [HighByte(data)];
  }

  // ---------- Escapes unmade in the field ----------

  predicate UnmadeLow(lo: Byte, hi: Byte, x: Byte) {
    (lo == 0x7d && hi == 0xb2 && x == 0x40) || (lo == 0x7e && hi == 0x8d && x == 0x1a)
  }

  lemma UnmadeLowWord(c: Word, lo: Byte, hi: Byte, x: Byte, e: Word, t: Word, r: Word)
    requires lo == 0x7d || lo == 0x7e
    requires c == FieldWord(lo, hi) && Added(c, x, e, t, r)
    ensures r == c ^ 0x0020 <==> UnmadeLow(lo, hi, x)
  {
  }

  lemma SpecialIs(b: Byte)
    ensures Special(b) <==> b == 0x7d || b == 0x7e
  {
  }

  lemma XorIs(x: Word, y: Word)
    ensures Xor(x, y) == x ^ y
  {
  }

  /** The escape of the field's low byte, unmade, goes unnoticed for exactly two fields and damages. */
  lemma UnmadeLowIff(phase: Phase, data: seq<Byte>, x: Byte)
    requires InStep(phase) && Special(Low(data)) && !Special(x)
    ensures
      var sent, i := Sent(data), |Escape(data)|;
      && i < |sent| && sent[i] == ESCAPE
      && Results(phase, Received([FLAG] + sent[i := x] + [FLAG])) ==
           if UnmadeLow(Low(data), HighByte(data), x) then [Packet(data + [x])] else [CrcError]
  {
    hide *;
    var c, lo, hi := Crc(0, data), Low(data), HighByte(data);
    BodyOfFrame(data);
    UnmadeEscape(phase, data, data, lo, [hi], x);
    assert data + [x, Toggle(lo)] + [hi] == data + [x] + [Toggle(lo), hi];
    CheckedPair(data + [x], Toggle(lo), hi);
    ToggledLow(lo, hi);
    CrcSnoc(data, 0, x);
    var e, t := AddedIs(c, x);
    SpecialIs(lo);
    XorIs(c, 0x0020);
    UnmadeLowWord(c, lo, hi, x, e, t, AddByte(c, x));
  }

  predicate UnmadeHigh(lo: Byte, hi: Byte, x: Byte) {
    (lo == hi ^ 0x12 && x == 0x73) || (lo == hi ^ 0x93 && x == 0xda)
  }

  lemma UnmadeHighWord(c: Word, lo: Byte, hi: Byte, x: Byte, e: Word, t: Word, r: Word)
    requires c == FieldWord(lo, hi) && Added(c, lo, e, t, r)
    ensures r == FieldWord(x, Toggle(hi)) <==> UnmadeHigh(lo, hi, x)
  {
  }

  /** The escape of the field's high byte, unmade. */
  lemma UnmadeHighIff(phase: Phase, data: seq<Byte>, x: Byte)
    requires InStep(phase) && Special(HighByte(data)) && !Special(x)
    ensures
      var sent, i := Sent(data), |Escape(data + [Low(data)])|;
      && i < |sent| && sent[i] == ESCAPE
      && Results(phase, Received([FLAG] + sent[i := x] + [FLAG])) ==
           if UnmadeHigh(Low(data), HighByte(data), x) then [Packet(data + [Low(data)])] else [CrcError]
  {
    hide *;
    var c, lo, hi := Crc(0, data), Low(data), HighByte(data);
    BodyOfFrame(data);
    assert data + ([lo] + [hi]) == data + [lo] + ([hi] + []);
    UnmadeEscape(phase, data, data + [lo], hi, [], x);
    assert data + [lo] + [x, Toggle(hi)] + [] == data + [lo] + [x, Toggle(hi)];
    CheckedPair(data + [lo], x, Toggle(hi));
    CrcSnoc(data, 0, lo);
    var e, t := AddedIs(c, lo);
    UnmadeHighWord(c, lo, hi, x, e, t, AddByte(c, lo));
  }

  // ---------- Escapes made in the field ----------

  lemma WordsApart(lo: Byte, hi: Byte, lo': Byte, hi': Byte)
    ensures FieldWord(lo, hi) == FieldWord(lo', hi') ==> hi == hi'
  {
  }

  /** Two bytes, the last of the data and one of the field's, that the check takes for a field. */
  lemma LastAsField(data: seq<Byte>, c: Word)
    requires data != []
    ensures
      var n := |data| - 1;
      Crc(0, data[..n]) == c <==> Crc(0, data) == AddByte(c, data[n])
  {
    hide *;
    var n := |data| - 1;
    assert data[..n] + [data[n]] == data;
    CrcSnoc(data[..n], 0, data[n]);
    AddByteApart(Crc(0, data[..n]), c, data[n], data[n]);
    SameEntry(Crc(0, data[..n]), c, data[n]);
  }

  lemma CheckedLast(data: seq<Byte>, b: Byte)
    ensures Checked(data + [b]) ==
      if data != [] && Crc(0, data) == AddByte(FieldWord(data[|data| - 1], b), data[|data| - 1])
      then Packet(data[..|data| - 1]) else CrcError
  {
    hide Crc, AddByte, FieldWord, Ordered;
    if data != [] {
      var n := |data| - 1;
      assert data + [b] == data[..n] + [data[n], b];
      CheckedPair(data[..n], data[n], b);
      LastAsField(data, FieldWord(data[n], b));
    }
  }

  predicate MadeLow(d: Byte, lo: Byte, hi: Byte) {
    (d == hi ^ 0x32 && lo == 0x73) || (d == hi ^ 0xb3 && lo == 0xda)
  }

  lemma MadeLowWord(d: Byte, lo: Byte, hi: Byte, e: Word, t: Word, r: Word)
    requires Added(FieldWord(d, Toggle(hi)), d, e, t, r)
    ensures r == FieldWord(lo, hi) <==> MadeLow(d, lo, hi)
  {
  }

  /** The field's low byte arrives as an escape. */
  lemma MadeLowIff(phase: Phase, data: seq<Byte>)
    requires InStep(phase) && !Special(Low(data))
    ensures
      var sent, i, n := Sent(data), |Escape(data)|, |data| - 1;
      && i < |sent| && sent[i] == Low(data)
      && Results(phase, Received([FLAG] + sent[i := ESCAPE] + [FLAG])) ==
           if !Special(HighByte(data)) && data != [] && MadeLow(data[n], Low(data), HighByte(data))
           then [Packet(data[..n])] else [CrcError]
  {
    hide *;
    var lo, hi := Low(data), HighByte(data);
    BodyOfFrame(data);
    MadeEscape(phase, data, data, lo, [hi]);
    EscapedFirst(hi, []);
    assert [hi] + [] == [hi];
    if Special(hi) {
      assert data + ([Toggle(ESCAPE), Toggle(hi)] + []) == data + [Toggle(ESCAPE), Toggle(hi)];
      CheckedPair(data, Toggle(ESCAPE), Toggle(hi));
      WordsApart(lo, hi, Toggle(ESCAPE), Toggle(hi));
      StuffOne(hi);
    } else {
      assert data + ([Toggle(hi)] + []) == data + [Toggle(hi)];
      CheckedLast(data, Toggle(hi));
      if data != [] {
        var d := data[|data| - 1];
        var e, t := AddedIs(FieldWord(d, Toggle(hi)), d);
        MadeLowWord(d, lo, hi, e, t, AddByte(FieldWord(d, Toggle(hi)), d));
      }
    }
  }

  /** The field's high byte arrives as an escape, which the closing flag leaves pending. */
  lemma MadeHighIff(phase: Phase, data: seq<Byte>)
    requires InStep(phase) && !Special(HighByte(data))
    ensures
      var sent, i, n := Sent(data), |Escape(data + [Low(data)])|, |data| - 1;
      && i < |sent| && sent[i] == HighByte(data)
      && Results(phase, Received([FLAG] + sent[i := ESCAPE] + [FLAG])) ==
           if data != [] && Crc(0, data[..n]) == FieldWord(data[n], Low(data))
           then [Packet(data[..n])] else [CrcError]
  {
    hide *;
    var lo, hi := Low(data), HighByte(data);
    BodyOfFrame(data);
    assert data + ([lo] + [hi]) == data + [lo] + ([hi] + []);
    MadeEscape(phase, data, data + [lo], hi, []);
    NothingEscaped();
    assert data + [lo] + [] == data + [lo];
    CheckedLast(data, lo);
    if data != [] {
      LastAsField(data, FieldWord(data[|data| - 1], lo));
    }
  }

  lemma NothingEscaped()
    ensures Escaped([]) == []
  {
  }

  // ---------- One bit of the field ----------

  /** One bit differs. */
  predicate OneBit(x: Byte, y: Byte) {
    || y == x ^ 0x80 || y == x ^ 0x40 || y == x ^ 0x20 || y == x ^ 0x10
    || y == x ^ 0x08 || y == x ^ 0x04 || y == x ^ 0x02 || y == x ^ 0x01
  }

  lemma OneBitUnmadeLow(lo: Byte, hi: Byte, x: Byte)
    requires OneBit(ESCAPE, x)
    ensures !UnmadeLow(lo, hi, x)
  {
  }

  lemma OneBitUnmadeHigh(lo: Byte, hi: Byte, x: Byte)
    requires OneBit(ESCAPE, x)
    ensures !UnmadeHigh(lo, hi, x)
  {
  }

  lemma OneBitMadeLow(d: Byte, lo: Byte, hi: Byte)
    requires OneBit(lo, ESCAPE)
    ensures !MadeLow(d, lo, hi)
  {
  }

  lemma OneBitMadeHigh(d: Byte, lo: Byte, hi: Byte, e: Word, t: Word, r: Word)
    requires OneBit(hi, ESCAPE) && Added(FieldWord(d, lo), d, e, t, r)
    ensures r != FieldWord(lo, hi)
  {
  }

  // ---------- Where a damaged byte falls ----------

  /** The byte of a body that a byte on the line belongs to. */
  lemma {:induction false} Locate(body: seq<Byte>, i: nat) returns (front: seq<Byte>, c: Byte, back: seq<Byte>)
    requires i < |Escape(body)|
    ensures body == front + ([c] + back) && |Escape(front)| <= i < |Escape(front)| + |Escape([c])|
    decreases |body|
  {
    hide *;
    EscapeFirst(body);
    NothingStuffed();
    var rest := body[1..];
    if i < |Escape([body[0]])| {
      front, c, back := [], body[0], rest;
      assert body == [] + ([c] + back);
    } else {
      var more;
      more, c, back := Locate(rest, i - |Escape([body[0]])|);
      front := [body[0]] + more;
      EscapeAppend([body[0]], more);
      assert body == front + ([c] + back);
    }
  }

  lemma NothingStuffed()
    ensures Escape([]) == []
  {
  }

  lemma EscapeFirst(body: seq<Byte>)
    requires Escape(body) != []
    ensures body != [] && Escape(body) == Escape([body[0]]) + Escape(body[1..])
  {
    hide Stuff;
    assert [body[0]][1..] == [];
    assert Stuff(body[0]) + [] == Stuff(body[0]);
  }

  /** A byte that is taken as escaped, or is an escape no more and no less than before, leaves the stuffing alone. */
  lemma {:induction false} SameStuffingAt(pending: bool, s: seq<Byte>, i: nat, b: Byte)
    requires i < |s| && (StillPending(pending, s[..i]) || (b == ESCAPE <==> s[i] == ESCAPE))
    ensures SameStuffing(pending, s[i := b], s)
    decreases |s|
  {
    var w := s[i := b];
    if i == 0 {
      assert w[1..] == s[1..];
      SameStuffingSelf(!pending && w[0] == ESCAPE, s[1..]);
    } else {
      assert w[1..] == s[1..][i - 1 := b];
      assert s[..i][1..] == s[1..][..i - 1];
      SameStuffingAt(!pending && s[0] == ESCAPE, s[1..], i - 1, b);
    }
  }

  lemma {:induction false} SameStuffingSelf(pending: bool, s: seq<Byte>)
    ensures SameStuffing(pending, s, s)
    decreases |s|
  {
    if s != [] {
      SameStuffingSelf(!pending && s[0] == ESCAPE, s[1..]);
    }
  }

  lemma {:induction false} NoneStillPending(data: seq<Byte>)
    ensures !StillPending(false, Escape(data))
    decreases |data|
  {
    if data != [] {
      hide Special, Toggle;
      StuffOne(data[0]);
      NoneStillPending(data[1..]);
      UnescapeAppend(false, Stuff(data[0]), Escape(data[1..]));
      StuffEnds(data[0]);
    }
  }

  lemma StuffEnds(b: Byte)
    ensures !StillPending(false, Stuff(b))
  {
    hide Toggle, Unescape, UnescapeOne;
    var s := Stuff(b);
    UnescapeFirst(false, s);
    if Special(b) {
      UnescapeFirst(true, s[1..]);
      assert s[1..][1..] == [];
    } else {
      assert s[1..] == [];
    }
  }

  lemma EscapeIsPending(data: seq<Byte>)
    ensures StillPending(false, Escape(data) + [ESCAPE])
  {
    hide Escape;
    NoneStillPending(data);
    UnescapeAppend(false, Escape(data), [ESCAPE]);
    assert [ESCAPE][1..] == [];
  }

  // ---------- One damaged byte, classified ----------

  /**
    One byte of a frame arrives as another that is no flag: the escape of a byte unmade, a
    byte made an escape, or a CRC error.
    */
  lemma OneByteWhere(phase: Phase, data: seq<Byte>, i: nat, b: Byte, front: seq<Byte>, c: Byte, back: seq<Byte>)
    requires InStep(phase) && i < |Sent(data)| && b != Sent(data)[i] && b != FLAG
    requires Body(data) == front + ([c] + back) && |Escape(front)| <= i < |Escape(front)| + |Escape([c])|
    ensures Results(phase, Received([FLAG] + Sent(data)[i := b] + [FLAG])) ==
      if i == |Escape(front)| && Special(c) then [Checked(front + [b, Toggle(c)] + back)]
      else if i == |Escape(front)| && b == ESCAPE then [Checked(front + Escaped(back))]
      else [CrcError]
  {
    hide *;
    var at := |Escape(front)|;
    SentParts(data, front, c, back);
    StuffOne(c);
    SpecialIs(b);
    FlagAndEscape();
    if i == at && Special(c) {
      UnmadeEscape(phase, data, front, c, back, b);
    } else if i == at && b == ESCAPE {
      MadeEscape(phase, data, front, c, back);
    } else {
      if i == at {
        SpecialIs(c);
      } else {
        assert Sent(data)[..i] == Escape(front) + [ESCAPE];
        EscapeIsPending(front);
      }
      SameStuffingAt(false, Sent(data), i, b);
      OneByteKept(phase, data, i, b);
    }
  }

  lemma FlagAndEscape()
    ensures FLAG == 0x7e && ESCAPE == 0x7d
  {
  }

  /** The damage meets an escape of the data byte c behind front, at byte i, and the CRC does not show it. */
  ghost predicate Unnoticed(data: seq<Byte>, i: nat, b: Byte, front: seq<Byte>, c: Byte, rest: seq<Byte>) {
    && data == front + [c] + rest && i == |Escape(front)|
    && if Special(c) then Crc(0, front + [b]) == Xor(Crc(0, front), 0x2000)
       else
         && b == ESCAPE && !Special(ByteBehind(front, c, rest))
         && Crc(0, front + [c]) == Xor(Crc(0, front), ToggledBit(rest))
  }

  lemma UnnoticedMeans(data: seq<Byte>, i: nat, b: Byte, front: seq<Byte>, c: Byte, rest: seq<Byte>)
    requires data == front + [c] + rest && i == |Escape(front)|
    ensures Unnoticed(data, i, b, front, c, rest) <==>
      if Special(c) then Crc(0, front + [b]) == Xor(Crc(0, front), 0x2000)
      else
        && b == ESCAPE && !Special(ByteBehind(front, c, rest))
        && Crc(0, front + [c]) == Xor(Crc(0, front), ToggledBit(rest))
  {
  }

  lemma UnnoticedParts(data: seq<Byte>, i: nat, b: Byte, front: seq<Byte>, c: Byte, rest: seq<Byte>)
    requires Unnoticed(data, i, b, front, c, rest)
    ensures data == front + [c] + rest && i == |Escape(front)|
  {
    hide Crc, Escape, ByteBehind, Special;
  }

  lemma UnnoticedIsRead(phase: Phase, data: seq<Byte>, i: nat, b: Byte, front: seq<Byte>, c: Byte, rest: seq<Byte>)
    requires InStep(phase) && i < |Sent(data)| && b != Sent(data)[i] && b != FLAG
    requires data == front + [c] + rest && i == |Escape(front)| && (Special(c) || b == ESCAPE)
    ensures Results(phase, Received([FLAG] + Sent(data)[i := b] + [FLAG])) != [CrcError]
       <==> Unnoticed(data, i, b, front, c, rest)
  {
    hide *;
    UnnoticedMeans(data, i, b, front, c, rest);
    SpecialIs(b);
    FlagAndEscape();
    if Special(c) {
      assert Special(b) ==> b == ESCAPE;
      BodyMeans(data);
      var back := rest + CrcField(Crc(0, data));
      assert data + CrcField(Crc(0, data)) == front + ([c] + back);
      SentParts(data, front, c, back);
      StuffOne(c);
      UnmadeEscapeIff(phase, front, c, rest, b);
    } else {
      MadeEscapeIff(phase, front, c, rest);
    }
  }

  /** One damaged bit of the field that makes no flag is always noticed. */
  lemma FieldBitNoticed(phase: Phase, data: seq<Byte>, i: nat, b: Byte)
    requires InStep(phase) && |Escape(data)| <= i < |Sent(data)| && OneBit(Sent(data)[i], b) && b != FLAG
    ensures Results(phase, Received([FLAG] + Sent(data)[i := b] + [FLAG])) == [CrcError]
  {
    hide *;
    var lo, hi := Low(data), HighByte(data);
    BodyOfFrame(data);
    OneBitDiffers(Sent(data)[i], b);
    SpecialIs(b);
    FlagAndEscape();
    var front, c, back := InField(data, i);
    OneByteWhere(phase, data, i, b, front, c, back);
    if i == |Escape(front)| && (Special(c) || b == ESCAPE) {
      SentParts(data, front, c, back);
      StuffOne(c);
      if front == data {
        LowBitNoticed(phase, data, b);
      } else {
        HighBitNoticed(phase, data, b);
      }
    }
  }

  lemma OneBitDiffers(x: Byte, y: Byte)
    requires OneBit(x, y)
    ensures x != y
  {
  }

  /** The field byte that a byte on the line belongs to. */
  lemma InField(data: seq<Byte>, i: nat) returns (front: seq<Byte>, c: Byte, back: seq<Byte>)
    requires |Escape(data)| <= i < |Sent(data)|
    ensures Body(data) == front + ([c] + back) && |Escape(front)| <= i < |Escape(front)| + |Escape([c])|
    ensures (front == data && c == Low(data)) || (front == data + [Low(data)] && c == HighByte(data))
  {
    hide *;
    var lo, hi := Low(data), HighByte(data);
    BodyOfFrame(data);
    SentParts(data, data, lo, [hi]);
    EscapeAppend(data, [lo]);
    if i < |Escape(data)| + |Escape([lo])| {
      front, c, back := data, lo, [hi];
    } else {
      front, c, back := data + [lo], hi, [];
      assert data + ([lo] + [hi]) == front + ([c] + back);
    }
  }

  lemma LowBitNoticed(phase: Phase, data: seq<Byte>, b: Byte)
    requires InStep(phase) && b != FLAG && |Escape(data)| < |Sent(data)| && OneBit(Sent(data)[|Escape(data)|], b)
    requires if Special(Low(data)) then Sent(data)[|Escape(data)|] == ESCAPE && !Special(b) else b == ESCAPE
    ensures Results(phase, Received([FLAG] + Sent(data)[|Escape(data)| := b] + [FLAG])) == [CrcError]
  {
    hide *;
    var lo, hi := Low(data), HighByte(data);
    if Special(lo) {
      UnmadeLowIff(phase, data, b);
      OneBitUnmadeLow(lo, hi, b);
    } else {
      MadeLowIff(phase, data);
      if data != [] {
        OneBitMadeLow(data[|data| - 1], lo, hi);
      }
    }
  }

  lemma HighBitNoticed(phase: Phase, data: seq<Byte>, b: Byte)
    requires InStep(phase) && b != FLAG
    requires |Escape(data + [Low(data)])| < |Sent(data)| && OneBit(Sent(data)[|Escape(data + [Low(data)])|], b)
    requires if Special(HighByte(data)) then Sent(data)[|Escape(data + [Low(data)])|] == ESCAPE && !Special(b)
             else b == ESCAPE
    ensures Results(phase, Received([FLAG] + Sent(data)[|Escape(data + [Low(data)])| := b] + [FLAG])) == [CrcError]
  {
    hide *;
    var lo, hi := Low(data), HighByte(data);
    if Special(hi) {
      UnmadeHighIff(phase, data, b);
      OneBitUnmadeHigh(lo, hi, b);
    } else {
      MadeHighIff(phase, data);
      BodyOfFrame(data);
      if data != [] {
        var d := data[|data| - 1];
        var e, t := AddedIs(FieldWord(d, lo), d);
        LastAsField(data, FieldWord(d, lo));
        OneBitMadeHigh(d, lo, hi, e, t, AddByte(FieldWord(d, lo), d));
      }
    }
  }

  /**
    One damaged byte that makes no flag, in the data in any of its bits or in the field in
    one of them, goes unnoticed exactly if it makes or unmakes an escape of a data byte where
    the running CRC is what that takes.
    */
  lemma OneByteUnnoticedIff(phase: Phase, data: seq<Byte>, i: nat, b: Byte)
    requires InStep(phase) && i < |Sent(data)| && b != Sent(data)[i] && b != FLAG
    requires i < |Escape(data)| || OneBit(Sent(data)[i], b)
    ensures Results(phase, Received([FLAG] + Sent(data)[i := b] + [FLAG])) != [CrcError]
       <==> exists front, c, rest :: Unnoticed(data, i, b, front, c, rest)
  {
    hide *;
    if i < |Escape(data)| {
      var front, c, rest := Locate(data, i);
      OneByteInData(phase, data, i, b, front, c, rest);
    } else {
      FieldBitNoticed(phase, data, i, b);
      forall front, c, rest ensures !Unnoticed(data, i, b, front, c, rest) {
        if Unnoticed(data, i, b, front, c, rest) {
          UnnoticedParts(data, i, b, front, c, rest);
          BeforeEnd(front, c, rest);
        }
      }
    }
  }

  lemma BeforeEnd(front: seq<Byte>, c: Byte, rest: seq<Byte>)
    ensures |Escape(front)| < |Escape(front + [c] + rest)|
  {
    hide *;
    EscapeAppend(front + [c], rest);
    EscapeAppend(front, [c]);
    StuffOne(c);
  }

  lemma OneByteInData(phase: Phase, data: seq<Byte>, i: nat, b: Byte, front: seq<Byte>, c: Byte, rest: seq<Byte>)
    requires InStep(phase) && i < |Sent(data)| && b != Sent(data)[i] && b != FLAG
    requires data == front + ([c] + rest) && |Escape(front)| <= i < |Escape(front)| + |Escape([c])|
    ensures Results(phase, Received([FLAG] + Sent(data)[i := b] + [FLAG])) != [CrcError]
       <==> exists front', c', rest' :: Unnoticed(data, i, b, front', c', rest')
  {
    hide *;
    BodyMeans(data);
    var back := rest + CrcField(Crc(0, data));
    assert data + CrcField(Crc(0, data)) == front + ([c] + back);
    assert data == front + [c] + rest;
    OneByteWhere(phase, data, i, b, front, c, back);
    if i == |Escape(front)| && (Special(c) || b == ESCAPE) {
      UnnoticedIsRead(phase, data, i, b, front, c, rest);
    }
    forall front', c', rest' | Unnoticed(data, i, b, front', c', rest')
      ensures Results(phase, Received([FLAG] + Sent(data)[i := b] + [FLAG])) != [CrcError]
    {
      UnnoticedParts(data, i, b, front', c', rest');
      UnnoticedMeans(data, i, b, front', c', rest');
      UnnoticedIsRead(phase, data, i, b, front', c', rest');
    }
  }
}
