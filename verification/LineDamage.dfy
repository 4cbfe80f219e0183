/**
  What the reader makes of bytes damaged on the line, where the damage meets the byte
  stuffing: it may make or unmake an escape, or a flag.
  */
module LineDamage {
  import opened Bytes
  import opened Crc16
  import opened CrcDetection
  import opened Framing
  import opened FrameDetection

  // ---------- Any bytes between two flags ----------

  /**
    Whatever comes between two flags, without a flag, is unescaped and checked as one body.
    An escape left pending at the end takes the closing flag with it and changes nothing.
    */
  lemma ReadBetweenFlags(phase: Phase, w: seq<Byte>)
    requires InStep(phase) && w != [] && FLAG !in w
    ensures Results(phase, Received([FLAG] + w + [FLAG])) == [Checked(Unescape(false, w))]
    ensures PhaseAfter(phase, Received([FLAG] + w + [FLAG])) == Hunting
  {
    hide *;
    InStepMeans(phase);
    FeedPacket(phase, w);
    UnescapeBetween(w);
    var last := if StillPending(false, w) then Toggle(FLAG) else FLAG;
    ValidateUnescaped([FLAG] + w + [FLAG], Unescape(false, w), last);
  }

  lemma InStepMeans(phase: Phase)
    ensures InStep(phase) <==> phase.Hunting? || phase.AfterFlag?
  {
  }

  lemma UnescapeBetween(w: seq<Byte>)
    ensures
      var last := if StillPending(false, w) then Toggle(FLAG) else FLAG;
      Unescape(false, [FLAG] + w + [FLAG]) == [FLAG] + Unescape(false, w) + [last]
  {
    hide *;
    var pending := StillPending(false, w);
    UnescapeFlag(false, w + [FLAG]);
    UnescapeAppend(false, w, [FLAG]);
    UnescapeFlag(pending, []);
    UnescapeNothing([]);
    assert [FLAG] + [] == [FLAG] && [FLAG] + (w + [FLAG]) == [FLAG] + w + [FLAG];
  }

  lemma UnescapeFlag(pending: bool, w: seq<Byte>)
    ensures Unescape(pending, [FLAG] + w) == [if pending then Toggle(FLAG) else FLAG] + Unescape(false, w)
  {
    hide Toggle;
    assert ([FLAG] + w)[1..] == w;
  }

  lemma UnescapeNothing(w: seq<Byte>)
    requires w == []
    ensures Unescape(false, w) == []
  {
  }

  lemma ValidateUnescaped(raw: seq<Byte>, body: seq<Byte>, last: Byte)
    requires Unescape(false, raw) == [FLAG] + body + [last]
    ensures Validate(raw) == Checked(body)
  {
    hide Unescape, DecodeField, Crc, Ordered;
    var packet := [FLAG] + body + [last];
    if |body| >= 2 {
      var n := |body| - 2;
      PassesIffZero(body[..n], body[n..]);
      assert body[..n] + body[n..] == body;
      assert Slice(packet, 1, -3) == body[..n];
      assert Slice(packet, -3, -1) == body[n..];
    } else {
      assert Slice(packet, 1, -3) == [];
      assert Slice(packet, -3, -1) == [FLAG] + body;
      TooShort([FLAG] + body);
    }
  }

  lemma TooShort(field: seq<Byte>)
    requires 1 <= |field| <= 2 && field[0] == FLAG
    ensures Crc(0, []) != DecodeField(field)
  {
    if |field| == 2 {
      DecodeTwo(field);
      FlagInField(field[1], DecodeField(field));
    } else {
      assert field[1..] == [];
    }
  }

  lemma FlagInField(high: Byte, w: Word)
    requires w == (((0 << 8) + (high as Word)) << 8) + (FLAG as Word)
    ensures w != 0
  {
  }

  /** What was sent between the flags of a frame. */
  function Sent(data: seq<Byte>): seq<Byte> {
    Escape(Body(data))
  }

  lemma SentMeans(data: seq<Byte>)
    ensures Sent(data) == Escape(Body(data))
  {
  }

  lemma SentBetweenFlags(data: seq<Byte>)
    ensures Frame(data) == [FLAG] + Sent(data) + [FLAG]
    ensures Sent(data) != [] && FLAG !in Sent(data)
    ensures Unescape(false, Sent(data)) == Body(data)
  {
    hide Escape, Unescape, CrcField, Crc;
    EscapedIsPlain(Body(data));
    UnescapeEscape(Body(data), []);
    assert Sent(data) + [] == Sent(data);
    UnescapeNothing([]);
  }

  /**
    A frame damaged between its flags in any way that makes no flag: if its body keeps its
    length, it is read as a packet exactly if, in the CRC's order, nothing of the body was
    damaged or the bits in error form a multiple of the generator.
    */
  lemma AcceptedIff(phase: Phase, data: seq<Byte>, w: seq<Byte>)
    requires InStep(phase) && w != [] && FLAG !in w
    requires |Unescape(false, w)| == |Body(data)|
    ensures
      var before, after := Ordered(Body(data)), Ordered(Unescape(false, w));
      Results(phase, Received([FLAG] + w + [FLAG])) ==
        if before == after || exists q: Bits :: |q| + 16 == 8 * |after| && Times(q) == ErrorPattern(before, after)
        then [Packet(Unescape(false, w)[..|data|])] else [CrcError]
  {
    hide *;
    ReadBetweenFlags(phase, w);
    CheckedIfSame(data, Unescape(false, w));
    UnnoticedIffMultiple(0, Ordered(Body(data)), Ordered(Unescape(false, w)));
  }

  // ---------- Damage that leaves the stuffing alone ----------

  /** Both lists have their escapes, not counting escaped bytes, in the same places. */
  predicate SameStuffing(pending: bool, w: seq<Byte>, s: seq<Byte>)
    decreases |w|
  {
    && |w| == |s|
    && (w != [] ==>
          && (pending || (w[0] == ESCAPE <==> s[0] == ESCAPE))
          && SameStuffing(!pending && w[0] == ESCAPE, w[1..], s[1..]))
  }

  /** The bits in which two bytes differ. */
  function ByteError(x: Byte, y: Byte): (d: Bits)
    ensures |d| == 8
  {
    Differ(ByteBits(x), ByteBits(y))
  }

  lemma ToggleCancels(x: Byte, y: Byte)
    ensures ByteError(Toggle(x), Toggle(y)) == ByteError(x, y)
    ensures Toggle(x) == Toggle(y) ==> x == y
  {
    hide Differ;
    var a, b := Toggle(x), Toggle(y);
    ToggledBits(x, a);
    ToggledBits(y, b);
  }

  lemma ToggledBits(x: Byte, t: Byte)
    requires t == x ^ 0x20
    ensures forall j | 0 <= j < 8 :: ByteBits(t)[j] == (ByteBits(x)[j] != (j == 2))
  {
  }

  lemma SameByte(x: Byte)
    ensures ByteError(x, x) == Zeros(8)
  {
  }

  /** The pattern of two lists begins with that of their first bytes. */
  lemma PatternFirst(a: seq<Byte>, b: seq<Byte>)
    requires |a| == |b| > 0
    ensures ErrorPattern(a, b) == ByteError(a[0], b[0]) + ErrorPattern(a[1..], b[1..])
  {
    hide ErrorPattern, ByteBits;
    forall i | 0 <= i < 8 * |a|
      ensures ErrorPattern(a, b)[i] == (ByteError(a[0], b[0]) + ErrorPattern(a[1..], b[1..]))[i]
    {
      assert i == 8 * (i / 8) + i % 8;
      PatternBit(a, b, i / 8, i % 8);
      if i >= 8 {
        PatternBit(a[1..], b[1..], i / 8 - 1, i % 8);
      }
    }
  }

  /** A step of unescaping two lists with the same stuffing. */
  lemma UnstuffFirst(pending: bool, w: seq<Byte>, s: seq<Byte>)
    requires w != [] && SameStuffing(pending, w, s)
    ensures
      var x, y := UnescapeOne(pending, w[0]), UnescapeOne(pending, s[0]);
      var next := !pending && w[0] == ESCAPE;
      && |s| == |w|
      && SameStuffing(next, w[1..], s[1..])
      && Unescape(pending, w) == x + Unescape(next, w[1..])
      && Unescape(pending, s) == y + Unescape(next, s[1..])
      && |x| == |y| <= 1
      && (|x| == 1 ==> ByteError(x[0], y[0]) == ByteError(w[0], s[0]) && (x == y ==> w[0] == s[0]))
      && (x == [] ==> ByteError(w[0], s[0]) == Zeros(8) && w[0] == s[0])
  {
    hide Toggle, ByteError, Unescape;
    UnescapeFirst(pending, w);
    UnescapeFirst(pending, s);
    ToggleCancels(w[0], s[0]);
    SameByte(w[0]);
  }

  /** Equal stuffing gives bodies of equal length, which are the same only if the lists are. */
  lemma {:induction false} UnstuffLength(pending: bool, w: seq<Byte>, s: seq<Byte>)
    requires SameStuffing(pending, w, s)
    ensures |Unescape(pending, w)| == |Unescape(pending, s)|
    ensures Unescape(pending, w) == Unescape(pending, s) ==> w == s
    decreases |w|
  {
    if w != [] {
      hide *;
      UnstuffFirst(pending, w, s);
      var next := !pending && w[0] == ESCAPE;
      UnstuffLength(next, w[1..], s[1..]);
      var x, y := UnescapeOne(pending, w[0]), UnescapeOne(pending, s[0]);
      Prefixes(x, y, Unescape(next, w[1..]), Unescape(next, s[1..]));
      FirstAndRest(w, s);
    }
  }

  lemma FirstAndRest(w: seq<Byte>, s: seq<Byte>)
    requires |w| == |s| > 0
    ensures w[0] == s[0] && w[1..] == s[1..] ==> w == s
  {
    assert [w[0]] + w[1..] == w && [s[0]] + s[1..] == s;
  }

  lemma Prefixes(x: seq<Byte>, y: seq<Byte>, u: seq<Byte>, v: seq<Byte>)
    requires |x| == |y|
    ensures x + u == y + v ==> x == y && u == v
  {
    assert (x + u)[..|x|] == x && (y + v)[..|y|] == y;
    assert (x + u)[|x|..] == u && (y + v)[|y|..] == v;
  }

  /** What unescaping does to the error pattern of two lists with the same stuffing. */
  lemma UnstuffPattern(pending: bool, w: seq<Byte>, s: seq<Byte>)
    requires w != [] && SameStuffing(pending, w, s)
    ensures
      var e, next := ByteError(w[0], s[0]), !pending && w[0] == ESCAPE;
      var u, v := Unescape(next, w[1..]), Unescape(next, s[1..]);
      && |s| == |w| && SameStuffing(next, w[1..], s[1..])
      && |Unescape(pending, w)| == |Unescape(pending, s)| && |u| == |v|
      && ErrorPattern(w, s) == e + ErrorPattern(w[1..], s[1..])
      && (ErrorPattern(Unescape(pending, w), Unescape(pending, s)) == e + ErrorPattern(u, v)
          || (e == Zeros(8) && ErrorPattern(Unescape(pending, w), Unescape(pending, s)) == ErrorPattern(u, v)))
  {
    hide *;
    UnstuffFirst(pending, w, s);
    var next := !pending && w[0] == ESCAPE;
    var x, y := UnescapeOne(pending, w[0]), UnescapeOne(pending, s[0]);
    var u, v := Unescape(next, w[1..]), Unescape(next, s[1..]);
    UnstuffLength(next, w[1..], s[1..]);
    PatternFirst(w, s);
    if x == [] {
      assert x + u == u && y + v == v;
    } else {
      PatternFirst(x + u, y + v);
      assert (x + u)[1..] == u && (y + v)[1..] == v;
    }
  }

  lemma {:induction false} OddUnstuffed(pending: bool, w: seq<Byte>, s: seq<Byte>)
    requires SameStuffing(pending, w, s)
    ensures |w| == |s| && |Unescape(pending, w)| == |Unescape(pending, s)|
    ensures Odd(ErrorPattern(Unescape(pending, w), Unescape(pending, s))) == Odd(ErrorPattern(w, s))
    decreases |w|
  {
    if w != [] {
      hide *;
      var next := !pending && w[0] == ESCAPE;
      UnstuffPattern(pending, w, s);
      OddUnstuffed(next, w[1..], s[1..]);
      OddAppend(ByteError(w[0], s[0]), ErrorPattern(w[1..], s[1..]));
      OddAppend(ByteError(w[0], s[0]), ErrorPattern(Unescape(next, w[1..]), Unescape(next, s[1..])));
      EvenZeros();
    }
  }

  lemma EvenZeros()
    ensures !Odd(Zeros(8))
  {
    var z := Zeros(4);
    assert Zeros(8) == z + z;
    OddAppend(z, z);
  }

  /** What a burst leaves behind the first byte: where, and how wide. */
  function Start(p: nat): nat {
    if p >= 8 then p - 8 else 0
  }

  function Shortened(p: nat, width: nat): nat {
    if p >= 8 then width else if p + width >= 8 then p + width - 8 else 0
  }

  /** Where it begins with the first byte before it. */
  function Joined(p: nat, q: nat): nat {
    if p >= 8 then q + 8 else p
  }

  /** A bit that is the first of its byte. */
  predicate AtByte(p: nat) {
    p % 8 == 0
  }

  /** A burst of the body that begins at q for one that begins at p. */
  predicate Follows(p: nat, q: nat) {
    q <= p && (AtByte(p) ==> AtByte(q))
  }

  lemma FollowsBack(p: nat, q: nat, width: nat)
    requires Follows(Start(p), q)
    ensures Follows(p, q) && Follows(p, Joined(p, q)) && Shortened(p, width) <= width
  {
    hide AtByte;
    NextByte(p);
    NextByte(q);
    NextByte(Start(p));
  }

  lemma NextByte(p: nat)
    ensures AtByte(0) && AtByte(p + 8) == AtByte(p)
  {
  }

  lemma WithinRest(e: Bits, d: Bits, p: nat, width: nat)
    requires |e| == 8 && Within(e + d, p, width)
    ensures Within(d, Start(p), Shortened(p, width))
  {
    forall i | 0 <= i < |d| && !(Start(p) <= i < Start(p) + Shortened(p, width)) ensures !d[i] {
      assert (e + d)[8 + i] == d[i];
    }
  }

  lemma WithinWider(d: Bits, p: nat, width: nat, wider: nat)
    requires Within(d, p, width) && width <= wider
    ensures Within(d, p, wider)
  {
  }

  /** A burst of the received bytes is a burst of the body, no wider and no later, and at a byte's start if it was. */
  lemma {:induction false} BurstUnstuffed(pending: bool, w: seq<Byte>, s: seq<Byte>, p: nat, width: nat)
      returns (q: nat)
    requires SameStuffing(pending, w, s)
    requires |w| == |s| && Within(ErrorPattern(w, s), p, width)
    ensures |Unescape(pending, w)| == |Unescape(pending, s)| && Follows(p, q)
    ensures Within(ErrorPattern(Unescape(pending, w), Unescape(pending, s)), q, width)
    decreases |w|
  {
    if w == [] {
      q := p;
    } else {
      hide *;
      var e, next := ByteError(w[0], s[0]), !pending && w[0] == ESCAPE;
      UnstuffPattern(pending, w, s);
      WithinRest(e, ErrorPattern(w[1..], s[1..]), p, width);
      q := BurstUnstuffed(next, w[1..], s[1..], Start(p), Shortened(p, width));
      FollowsBack(p, q, width);
      var u, v := Unescape(next, w[1..]), Unescape(next, s[1..]);
      if ErrorPattern(Unescape(pending, w), Unescape(pending, s)) == ErrorPattern(u, v) {
        WithinWider(ErrorPattern(u, v), q, Shortened(p, width), width);
      } else {
        WithinFirst(e, ErrorPattern(w[1..], s[1..]), ErrorPattern(u, v), p, width, q);
        q := Joined(p, q);
      }
    }
  }

  lemma WithinFirst(e: Bits, d: Bits, c: Bits, p: nat, width: nat, q: nat)
    requires |e| == 8 && Within(e + d, p, width) && Within(c, q, Shortened(p, width)) && Follows(Start(p), q)
    ensures Within(e + c, Joined(p, q), width)
  {
    var from := Joined(p, q);
    forall i | 0 <= i < |e + c| && !(from <= i < from + width) ensures !(e + c)[i] {
      if i < 8 {
        assert (e + d)[i] == (e + c)[i];
      } else {
        assert (e + c)[i] == c[i - 8];
      }
    }
  }

  /**
    A frame damaged on the line so that it shows no new flag and keeps its stuffing is
    rejected if an odd number of bits is damaged, or if the damage to its body stays inside
    sixteen consecutive bits in the CRC's order.
    */
  lemma DamagedFrameRejected(phase: Phase, data: seq<Byte>, w: seq<Byte>, p: nat)
    requires InStep(phase) && FLAG !in w && SameStuffing(false, w, Sent(data)) && w != Sent(data)
    ensures |w| == |Sent(data)| && |Unescape(false, w)| == |Body(data)|
    ensures
      || Odd(ErrorPattern(w, Sent(data)))
      || Within(ErrorPattern(Ordered(Unescape(false, w)), Ordered(Body(data))), p, 16)
      ==> Results(phase, Received([FLAG] + w + [FLAG])) == [CrcError]
  {
    hide *;
    var body := Unescape(false, w);
    SentBetweenFlags(data);
    UnstuffLength(false, w, Sent(data));
    OddUnstuffed(false, w, Sent(data));
    ReadBetweenFlags(phase, w) by { NotEmpty(w, Sent(data)); }
    PatternSymmetric(body, Body(data));
    PatternSymmetric(Ordered(body), Ordered(Body(data)));
    if
      || Odd(ErrorPattern(w, Sent(data)))
      || Within(ErrorPattern(Ordered(body), Ordered(Body(data))), p, 16)
    {
      DamagedBodyRejected(data, body, p);
    }
  }

  lemma NotEmpty(w: seq<Byte>, s: seq<Byte>)
    requires |w| == |s| && s != []
    ensures w != []
  {
  }

  lemma PatternSymmetric(a: seq<Byte>, b: seq<Byte>)
    requires |a| == |b|
    ensures ErrorPattern(a, b) == ErrorPattern(b, a)
  {
    hide MessageBits;
  }

  /**
    A frame damaged on the line inside twelve consecutive bits, so that it shows no new flag
    and keeps its stuffing, is rejected.
    */
  lemma ShortBurstRejected(phase: Phase, data: seq<Byte>, w: seq<Byte>, p: nat)
    requires InStep(phase) && FLAG !in w && SameStuffing(false, w, Sent(data)) && w != Sent(data)
    requires |w| == |Sent(data)| && Within(ErrorPattern(w, Sent(data)), p, 12)
    ensures Results(phase, Received([FLAG] + w + [FLAG])) == [CrcError]
  {
    hide *;
    var body := Unescape(false, w);
    SentBetweenFlags(data);
    UnstuffLength(false, w, Sent(data));
    var q := BurstUnstuffed(false, w, Sent(data), p, 12);
    NotEmpty(w, Sent(data));
    ReadBetweenFlags(phase, w);
    PatternSymmetric(body, Body(data));
    ShortBurstClears(data, body, q);
  }

  /**
    A frame damaged on the line only in two bytes next to each other, in any of their bits,
    so that it shows no new flag and keeps its stuffing, is rejected, but for one damage to
    the last data byte and the byte after it.
    */
  lemma TwoBytesDamaged(phase: Phase, data: seq<Byte>, w: seq<Byte>, i: nat)
    requires InStep(phase) && FLAG !in w && SameStuffing(false, w, Sent(data)) && w != Sent(data)
    requires |w| == |Sent(data)| && Within(ErrorPattern(w, Sent(data)), 8 * i, 16)
    ensures |Unescape(false, w)| == |Body(data)|
    ensures Results(phase, Received([FLAG] + w + [FLAG])) ==
      [if data != [] && SpecialPair(Body(data), Unescape(false, w)) then Packet(Unescape(false, w)[..|data|])
       else CrcError]
  {
    hide *;
    var body := Unescape(false, w);
    SentBetweenFlags(data);
    UnstuffLength(false, w, Sent(data));
    var q := BurstUnstuffed(false, w, Sent(data), 8 * i, 16);
    NotEmpty(w, Sent(data));
    ReadBetweenFlags(phase, w);
    PatternSymmetric(body, Body(data));
    WholeBytes(i, q);
    TwoBytesIff(data, body, q / 8);
  }

  lemma WholeBytes(i: nat, q: nat)
    ensures Follows(8 * i, q) ==> q == 8 * (q / 8)
  {
  }

  // ---------- Thirteen bits are too many ----------

  predicate Plain(s: seq<Byte>) {
    forall i | 0 <= i < |s| :: !Special(s[i])
  }

  lemma {:induction false} EscapePlain(s: seq<Byte>)
    requires Plain(s)
    ensures Escape(s) == s
    decreases |s|
  {
    if s != [] {
      hide Special;
      EscapePlain(s[1..]);
      assert [s[0]] + s[1..] == s;
    }
  }

  /** Plain bytes in place of others, after the same bytes, leave the stuffing alone. */
  lemma {:induction false} SameStuffingThen(pending: bool, x: seq<Byte>, s: seq<Byte>, t: seq<Byte>)
    requires |s| == |t| && Plain(s) && Plain(t)
    ensures SameStuffing(pending, x + s, x + t)
    decreases |x| + |s|
  {
    if x != [] {
      assert (x + s)[1..] == x[1..] + s && (x + t)[1..] == x[1..] + t;
      SameStuffingThen(!pending && x[0] == ESCAPE, x[1..], s, t);
    } else if s != [] {
      assert (x + s)[1..] == x + s[1..] && (x + t)[1..] == x + t[1..];
      assert !Special(s[0]) && !Special(t[0]);
      SameStuffingThen(false, x, s[1..], t[1..]);
    }
  }

  /**
    Every frame with data whose last data byte and CRC field need no escaping, before or
    after the damage, has a burst of thirteen bits on the line that goes unnoticed: from the
    last bit of its data to the fourth of the last byte.
    */
  lemma ThirteenBitBurst(phase: Phase, data: seq<Byte>)
    requires InStep(phase) && data != []
    requires Plain(Body(data)[|data| - 1..]) && Plain(ThirteenBits(Body(data))[|data| - 1..])
    ensures
      var damaged := ThirteenBits(Body(data));
      var w := Escape(damaged);
      && FLAG !in w && SameStuffing(false, w, Sent(data)) && |w| == |Sent(data)|
      && Within(ErrorPattern(w, Sent(data)), 8 * |Escape(data)| - 1, 13)
      && damaged[..|data|] != data
      && Results(phase, Received([FLAG] + w + [FLAG])) == [Packet(damaged[..|data|])]
  {
    hide *;
    var n, body, damaged := |data|, Body(data), ThirteenBits(Body(data));
    var w := Escape(damaged);
    SentMeans(data);
    BodyData(data);
    ThirteenPlaces(body, damaged);
    ThirteenOnTheLine(body, damaged, n);
    EscapedIsPlain(damaged);
    UnescapeEscape(damaged, []);
    UnescapeNothing([]);
    assert w + [] == w && damaged + [] == damaged;
    ReadBetweenFlags(phase, w);
    ThirteenBitsPass(data);
  }

  lemma ThirteenOnTheLine(body: seq<Byte>, damaged: seq<Byte>, n: nat)
    requires FlippedAt(body, damaged, n)
    requires |body| == |damaged| == n + 2 && n > 0 && Plain(body[n - 1..]) && Plain(damaged[n - 1..])
    ensures SameStuffing(false, Escape(damaged), Escape(body)) && |Escape(damaged)| == |Escape(body)|
    ensures Within(ErrorPattern(Escape(damaged), Escape(body)), 8 * |Escape(body[..n])| - 1, 13)
  {
    hide *;
    var x, s, t := body[..n - 1], damaged[n - 1..], body[n - 1..];
    FlippedParts(body, damaged, n);
    EscapeAppend(x, s);
    EscapeAppend(x, t);
    EscapePlain(s);
    EscapePlain(t);
    SameStuffingThen(false, Escape(x), s, t);
    PlainFirst(t);
    EscapeAppend(x, [t[0]]);
    EscapePlain([t[0]]);
    assert body[..n] == x + [t[0]];
    FlippedAfter(body, damaged, n, Escape(x));
    FlippedWithin(Escape(x) + t, Escape(x) + s);
    PatternSymmetric(Escape(x) + t, Escape(x) + s);
  }

  lemma PlainFirst(t: seq<Byte>)
    requires Plain(t) && t != []
    ensures Plain([t[0]])
  {
    hide Special;
  }

  lemma FlippedParts(a: seq<Byte>, b: seq<Byte>, n: nat)
    requires |a| == |b| == n + 2 && n > 0 && FlippedAt(a, b, n)
    ensures a == a[..n - 1] + a[n - 1..] && b == a[..n - 1] + b[n - 1..]
  {
    hide Flips;
  }

  lemma FlippedAfter(a: seq<Byte>, b: seq<Byte>, n: nat, x: seq<Byte>)
    requires |a| == |b| == n + 2 && n > 0 && FlippedAt(a, b, n)
    ensures FlippedAt(x + a[n - 1..], x + b[n - 1..], |x| + 1)
  {
    hide Flips;
    var a', b' := x + a[n - 1..], x + b[n - 1..];
    assert a'[..|x|] == b'[..|x|];
  }

  lemma FlippedWithin(a: seq<Byte>, b: seq<Byte>)
    requires |a| == |b| >= 3 && FlippedAt(a, b, |a| - 2)
    ensures Within(ErrorPattern(a, b), 8 * (|a| - 2) - 1, 13)
  {
    hide FlippedAt, ErrorPattern;
    FlippedBody(a, b);
  }

  // ---------- Damage that makes a flag ----------

  /**
    A flag between a frame's flags ends its packet early; what follows is lost, and the
    reader is in step again after the closing flag. A flag right after the opening flag
    is no packet's end for a reader that was hunting; for one that had already seen a flag,
    it ends an empty packet.
    */
  lemma FlagBetweenFlags(phase: Phase, x: seq<Byte>, y: seq<Byte>)
    requires InStep(phase) && FLAG !in x && FLAG !in y
    ensures
      var events := Received([FLAG] + x + [FLAG] + y + [FLAG]);
      && Results(phase, events) ==
           (if x != [] then [Checked(Unescape(false, x))]
            else if phase.Hunting? && y != [] then [Checked(Unescape(false, y))]
            else [CrcError])
      && InStep(PhaseAfter(phase, events))
  {
    hide *;
    InStepMeans(phase);
    if x != [] {
      ReadBetweenFlags(phase, x);
      FeedPlain(Hunting, y);
      Feed1(Hunting, FLAG);
      FeedBytes(phase, [FLAG] + x + [FLAG], y);
      FeedBytes(phase, [FLAG] + x + [FLAG] + y, [FLAG]);
      HuntingFlag();
    } else {
      assert [FLAG] + x + [FLAG] + y + [FLAG] == [FLAG] + ([FLAG] + y + [FLAG]);
      FeedBytes(phase, [FLAG], [FLAG] + y + [FLAG]);
      Feed1(phase, FLAG);
      HuntingFlag();
      if phase.Hunting? {
        ReadFromAfterFlag(y);
      } else {
        FeedPacketEnded(y);
      }
    }
  }

  lemma ReadFromAfterFlag(y: seq<Byte>)
    requires FLAG !in y
    ensures Results(AfterFlag, Received([FLAG] + y + [FLAG])) ==
      [if y != [] then Checked(Unescape(false, y)) else CrcError]
    ensures PhaseAfter(AfterFlag, Received([FLAG] + y + [FLAG])) == Hunting
  {
    hide *;
    HuntingFlag();
    if y != [] {
      ReadBetweenFlags(AfterFlag, y);
    } else {
      assert [FLAG] + y + [FLAG] == [FLAG] + [FLAG];
      Feed1(AfterFlag, FLAG);
      Feed1(AfterFlags, FLAG);
      FeedBytes(AfterFlag, [FLAG], [FLAG]);
      EmptyPacket();
    }
  }

  lemma FeedPacketEnded(y: seq<Byte>)
    requires FLAG !in y
    ensures Results(AfterFlags, Received([FLAG] + y + [FLAG])) == [CrcError]
    ensures PhaseAfter(AfterFlags, Received([FLAG] + y + [FLAG])) == AfterFlag
  {
    hide *;
    EmptyPacket();
    HuntingFlag();
    Feed1(AfterFlags, FLAG);
    FeedPlain(Hunting, y);
    Feed1(Hunting, FLAG);
    FeedBytes(AfterFlags, [FLAG], y);
    FeedBytes(AfterFlags, [FLAG] + y, [FLAG]);
  }

  /** Two flags after a flag are taken for a packet with nothing in it. */
  lemma EmptyPacket()
    ensures Feed(AfterFlags, Rx(FLAG)) == (Hunting, [CrcError])
  {
    hide Unescape, Validate, Crc;
    var w: seq<Byte> := [];
    UnescapeBetween(w);
    UnescapeNothing(w);
    NothingPending(w);
    assert [FLAG] + w + [FLAG] == [FLAG, FLAG];
    ValidateUnescaped([FLAG, FLAG], w, FLAG);
  }

  lemma NothingPending(w: seq<Byte>)
    requires w == []
    ensures !StillPending(false, w)
  {
  }

  lemma HuntingFlag()
    ensures Feed(Hunting, Rx(FLAG)) == (AfterFlag, [])
    ensures Feed(AfterFlag, Rx(FLAG)) == (AfterFlags, [])
    ensures InStep(AfterFlag) && InStep(Hunting)
  {
  }

  // ---------- One damaged byte ----------

  /** What the reader makes of a frame in which byte i between the flags arrives as b. */
  function OneByteResult(phase: Phase, data: seq<Byte>, i: nat, b: Byte): ReadResult
    requires i < |Sent(data)|
  {
    var w := Sent(data)[i := b];
    if b != FLAG then
      if SameStuffing(false, w, Sent(data)) then CrcError else Checked(Unescape(false, w))
    else if i > 0 then Checked(Unescape(false, Sent(data)[..i]))
    else if phase.Hunting? then Checked(Unescape(false, Sent(data)[1..]))
    else CrcError
  }

  /** One damaged byte that makes no flag and leaves the stuffing alone is noticed. */
  lemma OneByteKept(phase: Phase, data: seq<Byte>, i: nat, b: Byte)
    requires InStep(phase) && i < |Sent(data)| && b != Sent(data)[i] && b != FLAG
    requires SameStuffing(false, Sent(data)[i := b], Sent(data))
    ensures Results(phase, Received([FLAG] + Sent(data)[i := b] + [FLAG])) == [CrcError]
  {
    hide *;
    var w := Sent(data)[i := b];
    SentBetweenFlags(data);
    OneByteWithin(Sent(data), i, b);
    ShortBurstRejected(phase, data, w, 8 * i);
  }

  lemma OneByteWithin(s: seq<Byte>, i: nat, b: Byte)
    requires i < |s|
    ensures Within(ErrorPattern(s[i := b], s), 8 * i, 12)
  {
    hide ErrorPattern, Flips;
    var w := s[i := b];
    forall j | 0 <= j < 8 * |s| && !(8 * i <= j < 8 * i + 12) ensures !ErrorPattern(w, s)[j] {
      SameByteFlips(s[j / 8]);
      FlipsFromPattern(w, s, j / 8, {});
    }
  }

  /**
    One byte between a frame's flags arrives as another. The frame gives one result and the
    frames after it are read as sent. Damage that makes no flag and leaves the stuffing alone
    is always noticed; a new flag leaves the bytes before it to be checked; a made or unmade
    escape leaves another body to be checked.
    */
  lemma OneByteDamaged(phase: Phase, data: seq<Byte>, i: nat, b: Byte, payloads: seq<seq<Byte>>)
    requires InStep(phase) && i < |Sent(data)| && b != Sent(data)[i]
    ensures Results(phase, Received([FLAG] + Sent(data)[i := b] + [FLAG] + Frames(payloads)))
         == [OneByteResult(phase, data, i, b)] + Packets(payloads)
  {
    hide *;
    var s := Sent(data);
    var w := s[i := b];
    var after := PhaseAfter(phase, Received([FLAG] + w + [FLAG]));
    SentBetweenFlags(data);
    SentIsLong(data);
    OneByteMeans(phase, data, i, b);
    FeedBytes(phase, [FLAG] + w + [FLAG], Frames(payloads));
    if b == FLAG {
      var x, y := s[..i], s[i + 1..];
      assert [FLAG] + w + [FLAG] == [FLAG] + x + [FLAG] + y + [FLAG];
      FlagBetweenFlags(phase, x, y);
    } else {
      ReadBetweenFlags(phase, w);
      HuntingFlag();
      if SameStuffing(false, w, s) {
        OneByteKept(phase, data, i, b);
      }
    }
    InStepMeans(after);
    ReadFrames(after, payloads);
  }

  lemma OneByteMeans(phase: Phase, data: seq<Byte>, i: nat, b: Byte)
    requires i < |Sent(data)|
    ensures
      var w := Sent(data)[i := b];
      OneByteResult(phase, data, i, b) ==
        if b != FLAG then
          if SameStuffing(false, w, Sent(data)) then CrcError else Checked(Unescape(false, w))
        else if i > 0 then Checked(Unescape(false, Sent(data)[..i]))
        else if phase.Hunting? then Checked(Unescape(false, Sent(data)[1..]))
        else CrcError
  {
  }

  lemma SentIsLong(data: seq<Byte>)
    ensures |Sent(data)| >= 2
  {
    hide Escape;
    EscapeShape(Body(data));
  }

  /**
    The opening flag is lost: a reader that was hunting skips the whole frame; one that had
    seen a flag takes the byte in the flag's place for the first of the packet.
    */
  lemma OpeningFlagLost(phase: Phase, data: seq<Byte>, b: Byte, payloads: seq<seq<Byte>>)
    requires InStep(phase) && b != FLAG
    ensures Results(phase, Received([b] + Sent(data) + [FLAG] + Frames(payloads)))
         == (if phase.Hunting? then [] else [Checked(Unescape(false, [b] + Sent(data)))]) + Packets(payloads)
  {
    hide *;
    var w := [b] + Sent(data);
    SentBetweenFlags(data);
    HuntingFlag();
    InStepMeans(phase);
    FeedBytes(phase, w + [FLAG], Frames(payloads));
    if phase.Hunting? {
      FeedPlain(Hunting, w);
      Feed1(Hunting, FLAG);
      FeedBytes(Hunting, w, [FLAG]);
      ReadFrames(AfterFlag, payloads);
      assert [] + Packets(payloads) == Packets(payloads);
    } else {
      ReadBetweenFlags(Hunting, w);
      assert [FLAG] + w + [FLAG] == [FLAG] + (w + [FLAG]);
      FeedBytes(Hunting, [FLAG], w + [FLAG]);
      Feed1(Hunting, FLAG);
      ReadFrames(Hunting, payloads);
    }
  }

  /**
    The closing flag is lost: the next frame's opening flag ends the packet, with the byte
    in the flag's place; that next frame is lost, and the others are read as sent.
    */
  lemma ClosingFlagLost(phase: Phase, data: seq<Byte>, b: Byte, payloads: seq<seq<Byte>>)
    requires InStep(phase) && b != FLAG && payloads != []
    ensures Results(phase, Received([FLAG] + Sent(data) + [b] + Frames(payloads)))
         == [Checked(Unescape(false, Sent(data) + [b]))] + Packets(payloads[1..])
  {
    hide *;
    var w, next := Sent(data) + [b], Sent(payloads[0]);
    SentBetweenFlags(data);
    SentBetweenFlags(payloads[0]);
    FramesFirst(payloads);
    var head := [FLAG] + w + [FLAG] + next + [FLAG];
    assert [FLAG] + Sent(data) + [b] + Frames(payloads) == head + Frames(payloads[1..]);
    FlagBetweenFlags(phase, w, next);
    FeedBytes(phase, head, Frames(payloads[1..]));
    InStepMeans(PhaseAfter(phase, Received(head)));
    ReadFrames(PhaseAfter(phase, Received(head)), payloads[1..]);
  }

  lemma FramesFirst(payloads: seq<seq<Byte>>)
    requires payloads != []
    ensures Frames(payloads) == Frame(payloads[0]) + Frames(payloads[1..])
  {
  }
}
