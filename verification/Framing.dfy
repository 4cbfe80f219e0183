/**
  The HDLC-like framing of the host's serial link, as in section 4.2 of RFC 1662:
  flag 0x7e, escape 0x7d, escaped bytes XORed with 0x20, and a little-endian CRC
  before the closing flag. Reading is a machine fed one line event at a time, so
  that whole runs, noise included, can be reasoned about.
  */
module Framing {
  import opened Bytes
  import opened Crc16

  const FLAG: Byte := 0x7e
  const ESCAPE: Byte := 0x7d

  // ---------- Byte stuffing ----------

  predicate Special(b: Byte) {
    b == FLAG || b == ESCAPE
  }

  function Toggle(b: Byte): Byte {
    b ^ 0x20
  }

  function Stuff(b: Byte): (r: seq<Byte>)
    ensures 1 <= |r| <= 2
  {
    if Special(b) then [ESCAPE, Toggle(b)] else [b]
  }

  function Escape(data: seq<Byte>): (r: seq<Byte>)
    decreases |data|
  {
    if data == [] then []
    else Stuff(data[0]) + Escape(data[1..])
  }

  /** Unescaping, with the flag saying whether an escape byte is pending. */
  function Unescape(pending: bool, data: seq<Byte>): seq<Byte>
    decreases |data|
  {
    if data == [] then []
    else if pending then [Toggle(data[0])] + Unescape(false, data[1..])
    else if data[0] == ESCAPE then Unescape(true, data[1..])
    else [data[0]] + Unescape(false, data[1..])
  }

  lemma {:induction false} EscapeAppend(a: seq<Byte>, b: seq<Byte>)
    ensures Escape(a + b) == Escape(a) + Escape(b)
    decreases |a|
  {
    hide Stuff;
    if a == [] {
      assert a + b == b;
    } else {
      EscapeAppend(a[1..], b);
      assert (a + b)[1..] == a[1..] + b;
    }
  }

  method EscapeBytes(data: seq<Byte>) returns (r: seq<Byte>)
    ensures r == Escape(data)
  {
    r := [];
    for k := 0 to |data|
      invariant r == Escape(data[..k])
    {
      EscapeAppend(data[..k], [data[k]]);
      assert data[..k + 1] == data[..k] + [data[k]];
      assert [data[k]][1..] == [];
      if data[k] == FLAG || data[k] == ESCAPE {
        r := r + [ESCAPE];
        r := r + [data[k] ^ 0x20];
      } else {
        r := r + [data[k]];
      }
    }
    assert data[..|data|] == data;
  }

  /** What an unescaping pass leaves pending. */
  predicate StillPending(pending: bool, data: seq<Byte>)
    decreases |data|
  {
    if data == [] then pending
    else StillPending(!pending && data[0] == ESCAPE, data[1..])
  }

  /** What one byte adds. */
  function UnescapeOne(pending: bool, b: Byte): seq<Byte> {
    if pending then [Toggle(b)] else if b == ESCAPE then [] else [b]
  }

  lemma UnescapeFirst(pending: bool, data: seq<Byte>)
    requires data != []
    ensures Unescape(pending, data)
         == UnescapeOne(pending, data[0]) + Unescape(!pending && data[0] == ESCAPE, data[1..])
    ensures StillPending(pending, data) == StillPending(!pending && data[0] == ESCAPE, data[1..])
  {
    hide Toggle;
  }

  lemma {:induction false} UnescapeAppend(pending: bool, a: seq<Byte>, b: seq<Byte>)
    ensures Unescape(pending, a + b) == Unescape(pending, a) + Unescape(StillPending(pending, a), b)
    ensures StillPending(pending, a + b) == StillPending(StillPending(pending, a), b)
    decreases |a|
  {
    if a == [] {
      assert a + b == b;
    } else {
      hide Unescape, UnescapeOne, StillPending;
      UnescapeFirst(pending, a);
      UnescapeFirst(pending, a + b);
      UnescapeAppend(!pending && a[0] == ESCAPE, a[1..], b);
      assert (a + b)[1..] == a[1..] + b;
      Regroup(UnescapeOne(pending, a[0]), Unescape(!pending && a[0] == ESCAPE, a[1..]),
              Unescape(StillPending(pending, a), b));
    }
  }

  lemma Regroup(x: seq<Byte>, y: seq<Byte>, z: seq<Byte>)
    ensures x + (y + z) == (x + y) + z
  {
  }

  method UnescapeBytes(data: seq<Byte>) returns (r: seq<Byte>)
    ensures r == Unescape(false, data)
  {
    r := [];
    var esc := false;
    for k := 0 to |data|
      invariant r == Unescape(false, data[..k])
      invariant esc == StillPending(false, data[..k])
    {
      UnescapeAppend(false, data[..k], [data[k]]);
      assert data[..k + 1] == data[..k] + [data[k]];
      assert [data[k]][1..] == [];
      if esc {
        r := r + [data[k] ^ 0x20];
        esc := false;
      } else if data[k] == ESCAPE {
        esc := true;
      } else {
        r := r + [data[k]];
      }
    }
    assert data[..|data|] == data;
  }

  lemma XorTwice(b: Byte)
    ensures Toggle(Toggle(b)) == b
    ensures Special(b) ==> !Special(Toggle(b))
  {
  }

  lemma UnescapeStuffed(b: Byte, rest: seq<Byte>)
    ensures Unescape(false, Stuff(b) + rest) == [b] + Unescape(false, rest)
  {
    hide Toggle;
    XorTwice(b);
    var s := Stuff(b) + rest;
    if Special(b) {
      assert s[0] == ESCAPE && s[1..] == [Toggle(b)] + rest;
      assert s[1..][1..] == rest;
    } else {
      assert s[0] == b && s[1..] == rest;
    }
  }

  /** Unescaping inverts escaping, whatever follows on the line. */
  lemma {:induction false} UnescapeEscape(data: seq<Byte>, tail: seq<Byte>)
    ensures Unescape(false, Escape(data) + tail) == data + Unescape(false, tail)
    decreases |data|
  {
    hide Stuff, Unescape;
    if data == [] {
      assert Escape(data) + tail == tail;
    } else {
      var rest := Escape(data[1..]) + tail;
      UnescapeEscape(data[1..], tail);
      UnescapeStuffed(data[0], rest);
      assert Escape(data) + tail == Stuff(data[0]) + rest;
      assert [data[0]] + data[1..] == data;
    }
  }

  function Specials(data: seq<Byte>): nat
    decreases |data|
  {
    if data == [] then 0 else (if Special(data[0]) then 1 else 0) + Specials(data[1..])
  }

  /** Escaped data never shows a flag, and grows by one byte per special byte. */
  lemma {:induction false} EscapeShape(data: seq<Byte>)
    ensures FLAG !in Escape(data)
    ensures |Escape(data)| == |data| + Specials(data) <= 2 * |data|
    decreases |data|
  {
    if data != [] {
      EscapeShape(data[1..]);
      XorTwice(data[0]);
    }
  }

  // ---------- Frames ----------

  /** The CRC field, low byte first. */
  function CrcField(crc: Word): (field: seq<Byte>)
    ensures |field| == 2
  {
    [(crc & 0xff) as Byte, ((crc >> 8) & 0xff) as Byte]
  }

  function Frame(data: seq<Byte>): seq<Byte> {
    [FLAG] + Escape(data + CrcField(Crc(0, data))) + [FLAG]
  }

  /** How a write wraps its packet. */
  method BuildFrame(data: seq<Byte>) returns (frame: seq<Byte>)
    ensures frame == Frame(data)
  {
    var packet := data;
    var crc := MessageCrc(0, packet);
    packet := packet + [(crc & 0xff) as Byte];
    packet := packet + [((crc >> 8) & 0xff) as Byte];
    assert packet == data + CrcField(crc);
    var escaped := EscapeBytes(packet);
    frame := [FLAG] + escaped + [FLAG];
  }

  /** Python's slice s[lo:hi], where a negative bound counts from the end. */
  function Slice<T>(s: seq<T>, lo: int, hi: int): seq<T> {
    var l, h := Bound(|s|, lo), Bound(|s|, hi);
    if l < h then s[l..h] else []
  }

  function Bound(length: nat, i: int): (b: nat)
    ensures b <= length
  {
    if i >= 0 then (if i <= length then i else length)
    else if length + i >= 0 then length + i else 0
  }

  /** An index lies between two bounds; a negative one counts from the end. */
  predicate Between(length: nat, lo: int, hi: int, p: int) {
    && (if lo < 0 then length + lo <= p else lo <= p)
    && (if hi < 0 then p < length + hi else p < hi)
  }

  /** A slice is one stretch of the sequence: all its elements whose indices lie between the bounds. */
  lemma SliceMeaning<T>(s: seq<T>, lo: int, hi: int) returns (l: nat, h: nat)
    ensures l <= h <= |s| && Slice(s, lo, hi) == s[l..h]
    ensures forall p | 0 <= p < |s| :: Between(|s|, lo, hi, p) <==> l <= p < h
  {
    l, h := Bound(|s|, lo), Bound(|s|, hi);
    if l >= h {
      h := l;
    }
  }

  /** Little-endian decoding of a field of at most two bytes. */
  function DecodeField(v: seq<Byte>): Word
    requires |v| <= 2
  {
    if v == [] then 0 else (DecodeField(v[1..]) << 8) + (v[0] as Word)
  }

  method DecodeLittleEndian(v: seq<Byte>) returns (r: Word)
    requires |v| <= 2
    ensures r == DecodeField(v)
  {
    r := 0;
    var k := |v|;
    while k > 0
      invariant 0 <= k <= |v|
      invariant r == DecodeField(v[k..])
    {
      k := k - 1;
      assert v[k..][1..] == v[k + 1..];
      r := (r << 8) + (v[k] as Word);
    }
    assert v[0..] == v;
  }

  /** The low byte comes first; what is missing of a field counts for nothing. */
  lemma FieldInNumbers(lo: Byte, hi: Byte)
    ensures DecodeField([]) == 0 && DecodeField([lo]) as int == lo as int
    ensures DecodeField([lo, hi]) as int == lo as int + 256 * hi as int
  {
    assert [lo][1..] == [] && [lo, hi][1..] == [hi] && [hi][1..] == [];
    Widened(lo);
    HighByte(lo, hi);
  }

  lemma Widened(b: Byte)
    ensures ((0 as Word) << 8) + (b as Word) == b as Word && (b as Word) as int == b as int
  {
  }

  lemma HighByte(lo: Byte, hi: Byte)
    ensures (((hi as Word) << 8) + (lo as Word)) as int == lo as int + 256 * hi as int
  {
  }

  lemma FieldRoundTrip(crc: Word)
    ensures DecodeField(CrcField(crc)) == crc
  {
    var lo, hi := (crc & 0xff) as Byte, ((crc >> 8) & 0xff) as Byte;
    assert CrcField(crc)[1..] == [hi];
    assert [hi][1..] == [];
    Rejoin(crc, lo, hi);
  }

  lemma Rejoin(crc: Word, lo: Byte, hi: Byte)
    requires lo == (crc & 0xff) as Byte && hi == ((crc >> 8) & 0xff) as Byte
    ensures ((((0 << 8) + (hi as Word)) << 8) + (lo as Word)) as Word == crc
  {
  }

  // ---------- Reading ----------

  datatype ReadResult = Packet(data: seq<Byte>) | CrcError | TimedOut

  /** Decode a raw packet, both flags included, and check its CRC. */
  function Validate(raw: seq<Byte>): ReadResult {
    var packet := Unescape(false, raw);
    if Crc(0, Slice(packet, 1, -3)) == DecodeField(Slice(packet, -3, -1)) then Packet(Slice(packet, 1, -3))
    else CrcError
  }

  /** What one byte read from the port gives: a byte, or silence until the timeout. */
  datatype Event = Rx(b: Byte) | Quiet

  /** Where a read stands between two bytes. */
  datatype Phase =
    | Hunting                          // no flag seen yet
    | AfterFlag                        // one flag: the end of a packet, or the start of one
    | AfterFlags                       // two flags: surely inside a new packet
    | Collecting(packet: seq<Byte>)    // the flag and the bytes since

  /** One event: the next phase, and the read's result if the event ends it. */
  function Feed(phase: Phase, e: Event): (Phase, seq<ReadResult>) {
    match e
    case Quiet => (Hunting, [TimedOut])
    case Rx(b) =>
      match phase
      case Hunting => (if b == FLAG then AfterFlag else Hunting, [])
      case AfterFlag => (if b == FLAG then AfterFlags else Collecting([FLAG, b]), [])
      case AfterFlags =>
        if b == FLAG then (Hunting, [Validate([FLAG, b])]) else (Collecting([FLAG, b]), [])
      case Collecting(p) =>
        if b == FLAG then (Hunting, [Validate(p + [b])]) else (Collecting(p + [b]), [])
  }

  /** The results of reading again and again, until the events run out. */
  function Results(phase: Phase, events: seq<Event>): seq<ReadResult>
    decreases |events|
  {
    if events == [] then []
    else Feed(phase, events[0]).1 + Results(Feed(phase, events[0]).0, events[1..])
  }

  function PhaseAfter(phase: Phase, events: seq<Event>): Phase
    decreases |events|
  {
    if events == [] then phase else PhaseAfter(Feed(phase, events[0]).0, events[1..])
  }

  lemma {:induction false} ResultsAppend(phase: Phase, a: seq<Event>, b: seq<Event>)
    ensures Results(phase, a + b) == Results(phase, a) + Results(PhaseAfter(phase, a), b)
    ensures PhaseAfter(phase, a + b) == PhaseAfter(PhaseAfter(phase, a), b)
    decreases |a|
  {
    hide Feed;
    if a == [] {
      assert a + b == b;
    } else {
      ResultsAppend(Feed(phase, a[0]).0, a[1..], b);
      assert (a + b)[1..] == a[1..] + b;
    }
  }

  function Received(bytes: seq<Byte>): (events: seq<Event>)
    ensures |events| == |bytes| && forall i | 0 <= i < |bytes| :: events[i] == Rx(bytes[i])
  {
    seq(|bytes|, i requires 0 <= i < |bytes| => Rx(bytes[i]))
  }

  // ---------- One frame ----------

  lemma Feed1(phase: Phase, b: Byte)
    ensures Results(phase, Received([b])) == Feed(phase, Rx(b)).1
    ensures PhaseAfter(phase, Received([b])) == Feed(phase, Rx(b)).0
  {
    hide Feed;
    assert Received([b])[1..] == [];
  }

  lemma FeedBytes(phase: Phase, a: seq<Byte>, b: seq<Byte>)
    ensures Results(phase, Received(a + b))
         == Results(phase, Received(a)) + Results(PhaseAfter(phase, Received(a)), Received(b))
    ensures PhaseAfter(phase, Received(a + b)) == PhaseAfter(PhaseAfter(phase, Received(a)), Received(b))
  {
    hide *;
    assert Received(a + b) == Received(a) + Received(b);
    ResultsAppend(phase, Received(a), Received(b));
  }

  lemma FeedNothing(phase: Phase)
    ensures Results(phase, Received([])) == [] && PhaseAfter(phase, Received([])) == phase
  {
  }

  /** Bytes without a flag are collected, or skipped while hunting. */
  lemma {:induction false} FeedPlain(phase: Phase, body: seq<Byte>)
    requires FLAG !in body
    requires phase.Hunting? || phase.Collecting?
    ensures Results(phase, Received(body)) == []
    ensures PhaseAfter(phase, Received(body))
         == if phase.Hunting? then Hunting else Collecting(phase.packet + body)
    decreases |body|
  {
    hide Results, PhaseAfter, Received, Validate;
    if body == [] {
      FeedNothing(phase);
      assert phase.Collecting? ==> phase.packet + body == phase.packet;
    } else {
      var next := Feed(phase, Rx(body[0])).0;
      Feed1(phase, body[0]);
      FeedBytes(phase, [body[0]], body[1..]);
      assert [body[0]] + body[1..] == body;
      FeedPlain(next, body[1..]);
      assert phase.Collecting? ==> phase.packet + [body[0]] + body[1..] == phase.packet + body;
    }
  }

  /** A packet between its flags is decoded and checked, from either phase that can precede it. */
  lemma FeedPacket(phase: Phase, body: seq<Byte>)
    requires |body| > 0 && FLAG !in body
    requires phase.Hunting? || phase.AfterFlag?
    ensures Results(phase, Received([FLAG] + body + [FLAG])) == [Validate([FLAG] + body + [FLAG])]
    ensures PhaseAfter(phase, Received([FLAG] + body + [FLAG])) == Hunting
  {
    hide Results, PhaseAfter, Received, Validate;
    var begun := Feed(phase, Rx(FLAG)).0;
    var first := Collecting([FLAG, body[0]]);
    var rest := body[1..];
    Feed1(phase, FLAG);
    Feed1(begun, body[0]);
    FeedPlain(first, rest);
    Feed1(Collecting([FLAG, body[0]] + rest), FLAG);
    assert [body[0]] + rest == body;
    assert [FLAG, body[0]] + rest == [FLAG] + body;
    FeedBytes(begun, [body[0]], rest);
    FeedBytes(phase, [FLAG], body);
    FeedBytes(phase, [FLAG] + body, [FLAG]);
  }

  /** In the other phases the opening flag ends a read, and the body is skipped. */
  lemma FeedPacketOutOfStep(phase: Phase, body: seq<Byte>)
    requires |body| > 0 && FLAG !in body
    requires phase.AfterFlags? || phase.Collecting?
    ensures Results(phase, Received([FLAG] + body + [FLAG])) == Feed(phase, Rx(FLAG)).1
    ensures |Feed(phase, Rx(FLAG)).1| == 1
    ensures PhaseAfter(phase, Received([FLAG] + body + [FLAG])) == AfterFlag
  {
    hide Results, PhaseAfter, Received, Validate;
    Feed1(phase, FLAG);
    FeedPlain(Hunting, body);
    Feed1(Hunting, FLAG);
    FeedBytes(phase, [FLAG], body);
    FeedBytes(phase, [FLAG] + body, [FLAG]);
  }

  /** Between its flags, a body of at least two bytes is its data and a CRC field. */
  lemma ValidateBody(data: seq<Byte>, field: seq<Byte>)
    requires |field| == 2
    ensures Validate([FLAG] + Escape(data + field) + [FLAG])
         == if Crc(0, data) == DecodeField(field) then Packet(data) else CrcError
  {
    hide Crc, DecodeField, Escape;
    var body := data + field;
    UnescapeFramed(body);
    var packet := [FLAG] + body + [FLAG];
    assert Slice(packet, 1, -3) == data;
    assert Slice(packet, -3, -1) == field;
  }

  lemma UnescapeFramed(body: seq<Byte>)
    ensures Unescape(false, [FLAG] + Escape(body) + [FLAG]) == [FLAG] + body + [FLAG]
  {
    UnescapeEscape(body, [FLAG]);
    assert Unescape(false, [FLAG]) == [FLAG] by { assert [FLAG][1..] == []; }
    assert ([FLAG] + Escape(body) + [FLAG])[1..] == Escape(body) + [FLAG];
  }

  lemma EscapedIsPlain(body: seq<Byte>)
    requires body != []
    ensures |Escape(body)| > 0 && FLAG !in Escape(body)
  {
    EscapeShape(body);
  }

  /** A body with any CRC field, escaped and framed, read from a phase in step with the line. */
  lemma ReadFramed(phase: Phase, data: seq<Byte>, field: seq<Byte>)
    requires |field| == 2
    requires phase.Hunting? || phase.AfterFlag?
    ensures
      var events := Received([FLAG] + Escape(data + field) + [FLAG]);
      && Results(phase, events) == [if Crc(0, data) == DecodeField(field) then Packet(data) else CrcError]
      && PhaseAfter(phase, events) == Hunting
  {
    hide *;
    EscapedIsPlain(data + field);
    FeedPacket(phase, Escape(data + field));
    ValidateBody(data, field);
  }

  lemma ReadFrame(phase: Phase, data: seq<Byte>)
    requires phase.Hunting? || phase.AfterFlag?
    ensures Results(phase, Received(Frame(data))) == [Packet(data)]
    ensures PhaseAfter(phase, Received(Frame(data))) == Hunting
  {
    hide Crc, DecodeField, CrcField, Escape, Results, PhaseAfter, Received;
    ReadFramed(phase, data, CrcField(Crc(0, data)));
    FieldRoundTrip(Crc(0, data));
  }

  // ---------- Whole streams ----------

  function Frames(payloads: seq<seq<Byte>>): seq<Byte>
    decreases |payloads|
  {
    if payloads == [] then [] else Frame(payloads[0]) + Frames(payloads[1..])
  }

  function Packets(payloads: seq<seq<Byte>>): (r: seq<ReadResult>)
    ensures |r| == |payloads|
  {
    seq(|payloads|, i requires 0 <= i < |payloads| => Packet(payloads[i]))
  }

  lemma PacketsCons(payload: seq<Byte>, rest: seq<seq<Byte>>)
    ensures Packets([payload] + rest) == [Packet(payload)] + Packets(rest)
  {
  }

  /** Frames read in step come out exactly, in order, with nothing in between. */
  lemma {:induction false} ReadFrames(phase: Phase, payloads: seq<seq<Byte>>)
    requires phase.Hunting? || phase.AfterFlag?
    ensures Results(phase, Received(Frames(payloads))) == Packets(payloads)
    decreases |payloads|
  {
    hide Results, PhaseAfter, Received, Frame, Packets;
    if payloads == [] {
      FeedNothing(phase);
      assert Packets([]) == [];
    } else {
      ReadFrame(phase, payloads[0]);
      FeedBytes(phase, Frame(payloads[0]), Frames(payloads[1..]));
      ReadFrames(Hunting, payloads[1..]);
      PacketsCons(payloads[0], payloads[1..]);
      assert [payloads[0]] + payloads[1..] == payloads;
    }
  }

  predicate InStep(phase: Phase) {
    phase.Hunting? || phase.AfterFlag?
  }

  /**
    Resynchronisation. After any events at all (stray flags, half escapes, silences,
    whole packets), frames as written are all read exactly and in order, except that
    the first is lost if, and only if, the noise left the reader inside what it takes
    for a packet; the read it then completes is the one result in its place.
    */
  lemma Resynchronises(noise: seq<Event>, payloads: seq<seq<Byte>>)
    requires payloads != []
    ensures
      var phase := PhaseAfter(Hunting, noise);
      Results(Hunting, noise + Received(Frames(payloads)))
        == Results(Hunting, noise)
           + if InStep(phase) then Packets(payloads) else Feed(phase, Rx(FLAG)).1 + Packets(payloads[1..])
    ensures |Feed(PhaseAfter(Hunting, noise), Rx(FLAG)).1| <= 1
  {
    hide Results, PhaseAfter, Received, Frame, Packets;
    var phase := PhaseAfter(Hunting, noise);
    ResultsAppend(Hunting, noise, Received(Frames(payloads)));
    if InStep(phase) {
      ReadFrames(phase, payloads);
    } else {
      var body := payloads[0] + CrcField(Crc(0, payloads[0]));
      EscapedIsPlain(body);
      FeedPacketOutOfStep(phase, Escape(body));
      assert Frame(payloads[0]) == [FLAG] + Escape(body) + [FLAG] by { FrameBody(payloads[0]); }
      FeedBytes(phase, Frame(payloads[0]), Frames(payloads[1..]));
      ReadFrames(AfterFlag, payloads[1..]);
    }
  }

  lemma FrameBody(data: seq<Byte>)
    ensures Frame(data) == [FLAG] + Escape(data + CrcField(Crc(0, data))) + [FLAG]
  {
  }

  /** A silence on the line before the frames loses none of them. */
  lemma SilenceResynchronises(noise: seq<Event>, payloads: seq<seq<Byte>>)
    ensures Results(Hunting, noise + [Quiet] + Received(Frames(payloads)))
         == Results(Hunting, noise) + [TimedOut] + Packets(payloads)
  {
    hide Results, PhaseAfter, Received, Frames, Packets;
    ResultsAppend(Hunting, noise, [Quiet]);
    QuietResult(PhaseAfter(Hunting, noise));
    ResultsAppend(Hunting, noise + [Quiet], Received(Frames(payloads)));
    ReadFrames(Hunting, payloads);
  }

  function Quiets(n: nat): (events: seq<Event>)
    ensures |events| == n && forall i | 0 <= i < n :: events[i] == Quiet
  {
    seq(n, i => Quiet)
  }

  function TimeOuts(n: nat): (r: seq<ReadResult>)
    ensures |r| == n && forall i | 0 <= i < n :: r[i] == TimedOut
  {
    seq(n, i => TimedOut)
  }

  /** Frames with silences before them, each long enough for so many timeouts. */
  function Spaced(gaps: seq<nat>, payloads: seq<seq<Byte>>): seq<Event>
    requires |gaps| == |payloads|
    decreases |gaps|
  {
    if gaps == [] then []
    else Quiets(gaps[0]) + (Received(Frame(payloads[0])) + Spaced(gaps[1..], payloads[1..]))
  }

  function SpacedResults(gaps: seq<nat>, payloads: seq<seq<Byte>>): seq<ReadResult>
    requires |gaps| == |payloads|
    decreases |gaps|
  {
    if gaps == [] then []
    else TimeOuts(gaps[0]) + ([Packet(payloads[0])] + SpacedResults(gaps[1..], payloads[1..]))
  }

  lemma {:induction false} FeedQuiets(phase: Phase, n: nat)
    ensures Results(phase, Quiets(n)) == TimeOuts(n)
    ensures PhaseAfter(phase, Quiets(n)) == if n == 0 then phase else Hunting
    decreases n
  {
    hide Results, PhaseAfter, Feed;
    if n == 0 {
      FeedNothing(phase);
      assert Quiets(0) == Received([]);
    } else {
      QuietResult(phase);
      FeedQuiets(Hunting, n - 1);
      assert Quiets(n) == [Quiet] + Quiets(n - 1);
      ResultsAppend(phase, [Quiet], Quiets(n - 1));
      assert [TimedOut] + TimeOuts(n - 1) == TimeOuts(n);
    }
  }

  /** Silences between the frames lose none of them. */
  lemma {:induction false} ReadSpaced(phase: Phase, gaps: seq<nat>, payloads: seq<seq<Byte>>)
    requires |gaps| == |payloads| && InStep(phase)
    ensures Results(phase, Spaced(gaps, payloads)) == SpacedResults(gaps, payloads)
    decreases |gaps|
  {
    hide Results, PhaseAfter, Received, Frame;
    if gaps == [] {
      FeedNothing(phase);
      assert Received([]) == [];
    } else {
      var quiets, frame := Quiets(gaps[0]), Received(Frame(payloads[0]));
      var rest := Spaced(gaps[1..], payloads[1..]);
      FeedQuiets(phase, gaps[0]);
      ReadFrame(PhaseAfter(phase, quiets), payloads[0]);
      ReadSpaced(Hunting, gaps[1..], payloads[1..]);
      ResultsAppend(phase, quiets, frame + rest);
      ResultsAppend(PhaseAfter(phase, quiets), frame, rest);
    }
  }

  /**
    Resynchronisation with silences: after any events at all, frames with any silences
    between them are all read, in order, except that the first is lost exactly if the noise
    left the reader inside a packet and no silence came before that frame.
    */
  lemma ResynchronisesSpaced(noise: seq<Event>, gaps: seq<nat>, payloads: seq<seq<Byte>>)
    requires |gaps| == |payloads| > 0
    ensures
      var phase := PhaseAfter(Hunting, noise);
      Results(Hunting, noise + Spaced(gaps, payloads))
        == Results(Hunting, noise)
           + if InStep(phase) || gaps[0] > 0 then SpacedResults(gaps, payloads)
             else Feed(phase, Rx(FLAG)).1 + SpacedResults(gaps[1..], payloads[1..])
  {
    hide *;
    var phase := PhaseAfter(Hunting, noise);
    ResultsAppend(Hunting, noise, Spaced(gaps, payloads));
    if gaps[0] > 0 {
      SpacedFromQuiet(phase, gaps, payloads);
    } else if InStep(phase) {
      ReadSpaced(phase, gaps, payloads);
    } else {
      SpacedOutOfStep(phase, gaps, payloads);
    }
  }

  lemma SpacedOutOfStep(phase: Phase, gaps: seq<nat>, payloads: seq<seq<Byte>>)
    requires |gaps| == |payloads| > 0 && gaps[0] == 0 && !InStep(phase)
    ensures Results(phase, Spaced(gaps, payloads))
         == Feed(phase, Rx(FLAG)).1 + SpacedResults(gaps[1..], payloads[1..])
  {
    hide Results, PhaseAfter, Received, Frame, Feed, Escape, CrcField, Crc, SpacedResults;
    var body := payloads[0] + CrcField(Crc(0, payloads[0]));
    EscapedIsPlain(body);
    FeedPacketOutOfStep(phase, Escape(body));
    FrameBody(payloads[0]);
    var frame, rest := Received(Frame(payloads[0])), Spaced(gaps[1..], payloads[1..]);
    assert Spaced(gaps, payloads) == frame + rest by { assert Quiets(0) + (frame + rest) == frame + rest; }
    ResultsAppend(phase, frame, rest);
    ReadSpaced(AfterFlag, gaps[1..], payloads[1..]);
  }

  lemma SpacedFromQuiet(phase: Phase, gaps: seq<nat>, payloads: seq<seq<Byte>>)
    requires |gaps| == |payloads| > 0 && gaps[0] > 0
    ensures Results(phase, Spaced(gaps, payloads)) == SpacedResults(gaps, payloads)
  {
    hide Results, PhaseAfter, Received, Frame;
    var quiets, frame := Quiets(gaps[0]), Received(Frame(payloads[0]));
    var rest := Spaced(gaps[1..], payloads[1..]);
    FeedQuiets(phase, gaps[0]);
    ReadFrame(Hunting, payloads[0]);
    ReadSpaced(Hunting, gaps[1..], payloads[1..]);
    ResultsAppend(phase, quiets, frame + rest);
    ResultsAppend(Hunting, frame, rest);
  }

  lemma QuietResult(phase: Phase)
    ensures Results(phase, [Quiet]) == [TimedOut] && PhaseAfter(phase, [Quiet]) == Hunting
  {
    assert [Quiet][1..] == [];
  }

  // ---------- The reader ----------

  lemma FeedLast(seen: seq<Event>, e: Event)
    ensures Results(Hunting, seen + [e]) == Results(Hunting, seen) + Feed(PhaseAfter(Hunting, seen), e).1
    ensures PhaseAfter(Hunting, seen + [e]) == Feed(PhaseAfter(Hunting, seen), e).0
  {
    hide Feed;
    ResultsAppend(Hunting, seen, [e]);
    assert [e][1..] == [];
  }

  /** The events of one read: they give its result, and all but the last give none. */
  ghost predicate OneRead(events: seq<Event>, r: ReadResult) {
    && events != []
    && Results(Hunting, events) == [r]
    && Results(Hunting, events[..|events| - 1]) == []
    && PhaseAfter(Hunting, events) == Hunting
  }

  /** What a read makes of the events before it: a result from the first of them. */
  ghost predicate Gives(events: seq<Event>, r: ReadResult) {
    exists n :: 0 <= n <= |events| && OneRead(events[..n], r)
  }

  lemma NoResultYet(data: seq<Byte>, n: nat)
    requires n < |Frame(data)|
    ensures Results(Hunting, Received(Frame(data)[..n])) == []
  {
    hide *;
    var body := data + CrcField(Crc(0, data));
    FrameBody(data);
    EscapedIsPlain(body);
    if n == 0 {
      assert Frame(data)[..n] == [];
      FeedNothing(Hunting);
    } else {
      var part := Escape(body)[..n - 1];
      assert Frame(data)[..n] == [FLAG] + part;
      CollectPart(part);
    }
  }

  lemma CollectPart(part: seq<Byte>)
    requires FLAG !in part
    ensures Results(Hunting, Received([FLAG] + part)) == []
  {
    hide Results, PhaseAfter, Received;
    Feed1(Hunting, FLAG);
    FeedBytes(Hunting, [FLAG], part);
    if part == [] {
      FeedNothing(AfterFlag);
    } else {
      Feed1(AfterFlag, part[0]);
      FeedBytes(AfterFlag, [part[0]], part[1..]);
      assert [part[0]] + part[1..] == part;
      FeedPlain(Collecting([FLAG, part[0]]), part[1..]);
    }
  }

  /** A read of a line that begins with a frame takes exactly that frame. */
  lemma FrameGivesPacket(data: seq<Byte>, rest: seq<Event>, r: ReadResult, n: nat)
    requires n <= |Frame(data)| + |rest| && OneRead((Received(Frame(data)) + rest)[..n], r)
    ensures n == |Frame(data)| && r == Packet(data)
  {
    hide Results, PhaseAfter, Received, Frame;
    var frame := Received(Frame(data));
    var events := (frame + rest)[..n];
    ReadFrame(Hunting, data);
    if n < |Frame(data)| {
      assert events == Received(Frame(data)[..n]);
      NoResultYet(data, n);
    } else {
      var before := if n > |Frame(data)| then events[..n - 1] else events;
      var more := before[|Frame(data)|..];
      assert before == frame + more;
      ResultsAppend(Hunting, frame, more);
      FeedNothing(Hunting);
      assert more == [] ==> before == frame;
    }
  }

  lemma QuietGivesTimeout(rest: seq<Event>, r: ReadResult, n: nat)
    requires n <= 1 + |rest| && OneRead(([Quiet] + rest)[..n], r)
    ensures n == 1 && r == TimedOut
  {
    hide Results, PhaseAfter;
    var events := ([Quiet] + rest)[..n];
    QuietResult(Hunting);
    var before := if n > 1 then events[..n - 1] else events;
    assert before == [Quiet] + before[1..];
    ResultsAppend(Hunting, [Quiet], before[1..]);
    assert n == 1 ==> events == [Quiet];
  }

  lemma SpacedFromFrame(gaps: seq<nat>, payloads: seq<seq<Byte>>)
    requires |gaps| == |payloads| > 0 && gaps[0] == 0
    ensures Spaced(gaps, payloads) == Received(Frame(payloads[0])) + Spaced(gaps[1..], payloads[1..])
  {
    hide Received, Frame;
    var rest := Received(Frame(payloads[0])) + Spaced(gaps[1..], payloads[1..]);
    assert Quiets(0) + rest == rest;
  }

  lemma SpacedFromSilence(gaps: seq<nat>, payloads: seq<seq<Byte>>)
    requires |gaps| == |payloads| > 0 && gaps[0] > 0
    ensures Spaced(gaps, payloads) == [Quiet] + Spaced([gaps[0] - 1] + gaps[1..], payloads)
  {
    hide Received, Frame;
    var less, rest := [gaps[0] - 1] + gaps[1..], Received(Frame(payloads[0])) + Spaced(gaps[1..], payloads[1..]);
    assert less[1..] == gaps[1..];
    QuietsFirst(gaps[0], rest);
  }

  lemma QuietsFirst(n: nat, rest: seq<Event>)
    requires n > 0
    ensures Quiets(n) + rest == [Quiet] + (Quiets(n - 1) + rest)
  {
    assert Quiets(n) == [Quiet] + Quiets(n - 1);
  }

  /** A read of frames with silences between them takes a silence or the first frame, and leaves the rest. */
  lemma SpacedGivesFirst(gaps: seq<nat>, payloads: seq<seq<Byte>>, r: ReadResult, n: nat)
    requires |gaps| == |payloads| && n <= |Spaced(gaps, payloads)| && OneRead(Spaced(gaps, payloads)[..n], r)
    ensures payloads != []
    ensures r == if gaps[0] > 0 then TimedOut else Packet(payloads[0])
    ensures Spaced(gaps, payloads)[n..] ==
      if gaps[0] > 0 then Spaced([gaps[0] - 1] + gaps[1..], payloads) else Spaced(gaps[1..], payloads[1..])
  {
    hide *;
    SomethingRead(gaps, payloads, r, n);
    if gaps[0] > 0 {
      SpacedFromSilence(gaps, payloads);
      QuietGivesTimeout(Spaced([gaps[0] - 1] + gaps[1..], payloads), r, n);
    } else {
      SpacedFromFrame(gaps, payloads);
      FrameGivesPacket(payloads[0], Spaced(gaps[1..], payloads[1..]), r, n);
    }
  }

  lemma SomethingRead(gaps: seq<nat>, payloads: seq<seq<Byte>>, r: ReadResult, n: nat)
    requires |gaps| == |payloads| && n <= |Spaced(gaps, payloads)| && OneRead(Spaced(gaps, payloads)[..n], r)
    ensures payloads != []
  {
  }

  /** Decode a raw packet and check its CRC, as a read does when the packet is whole. */
  method CheckPacket(raw: seq<Byte>) returns (r: ReadResult)
    ensures r == Validate(raw)
  {
    var packet := UnescapeBytes(raw);
    var crc := MessageCrc(0, Slice(packet, 1, -3));
    var packetCrc := DecodeLittleEndian(Slice(packet, -3, -1));
    r := if crc != packetCrc then CrcError else Packet(Slice(packet, 1, -3));
  }

  /** The serial line as the host sees it. Once its events run out it stays silent. */
  class Port {
    var pending: seq<Event>

    constructor (events: seq<Event>)
      ensures pending == events
    {
      pending := events;
    }

    method GetByte() returns (e: Event)
      modifies this
      ensures old(pending) == [] ==> e == Quiet && pending == []
      ensures old(pending) != [] ==> e == old(pending)[0] && pending == old(pending)[1..]
    {
      if pending == [] {
        e := Quiet;
      } else {
        e := pending[0];
        pending := pending[1..];
      }
    }

    /** As GetByte, for a read that has already seen some events. */
    method Next(ghost seen: seq<Event>, ghost all: seq<Event>) returns (e: Event, ghost seen': seq<Event>)
      requires seen + pending == all
      requires Results(Hunting, seen) == []
      modifies this
      ensures old(pending) == [] ==> pending == [] && seen' == seen == all && e == Quiet
      ensures old(pending) != [] ==> seen' == seen + [e] && |pending| < |old(pending)|
      ensures seen' + pending == all
      ensures old(pending) != [] ==> Results(Hunting, seen') == Feed(PhaseAfter(Hunting, seen), e).1
      ensures old(pending) != [] ==> PhaseAfter(Hunting, seen') == Feed(PhaseAfter(Hunting, seen), e).0
      ensures old(pending) != [] && e.Quiet? ==> OneRead(seen', TimedOut)
    {
      hide Results, PhaseAfter;
      e := GetByte();
      if old(pending) == [] {
        seen' := seen;
      } else {
        seen' := seen + [e];
        FeedLast(seen, e);
        assert seen'[..|seen'| - 1] == seen;
      }
    }

    /** Read up to a flag, or into a silence. */
    method SkipToFlag(ghost all: seq<Event>) returns (found: bool, ghost seen: seq<Event>)
      requires pending == all
      modifies this
      ensures seen + pending == all
      ensures found ==> Results(Hunting, seen) == [] && PhaseAfter(Hunting, seen) == AfterFlag
      ensures !found ==> OneRead(seen, TimedOut) || (pending == [] && Results(Hunting, all) == [])
    {
      hide Results, PhaseAfter, Validate, OneRead;
      NothingRead();
      seen := [];
      var e;
      e, seen := Next(seen, all);
      while e.Rx? && e.b != FLAG
        invariant seen + pending == all
        invariant e.Quiet? ==> OneRead(seen, TimedOut) || (pending == [] && Results(Hunting, all) == [])
        invariant e.Rx? ==> Results(Hunting, seen) == []
        invariant e.Rx? ==> PhaseAfter(Hunting, seen) == if e.b == FLAG then AfterFlag else Hunting
        decreases |pending|, e.Rx?
      {
        e, seen := Next(seen, all);
      }
      found := e.Rx?;
    }

    /** Collect the rest of a packet, given its first two bytes. */
    method Collect(first: Byte, ghost before: seq<Event>, ghost all: seq<Event>)
      returns (raw: seq<Byte>, done: bool, ghost seen: seq<Event>)
      requires before + [Rx(first)] + pending == all
      requires Results(Hunting, before) == []
      requires PhaseAfter(Hunting, before) == AfterFlag ==> first != FLAG
      requires PhaseAfter(Hunting, before) in {AfterFlag, AfterFlags}
      modifies this
      ensures seen + pending == all
      ensures done ==> OneRead(seen, Validate(raw))
      ensures !done ==> OneRead(seen, TimedOut) || (pending == [] && Results(Hunting, all) == [])
    {
      hide Results, PhaseAfter, Validate;
      FeedLast(before, Rx(first));
      seen := before + [Rx(first)];
      var e := Rx(first);
      raw := [FLAG, first];
      ghost var previous := before;
      assert seen[..|seen| - 1] == previous;
      while e.Rx? && e.b != FLAG
        invariant seen + pending == all
        invariant e.Quiet? ==> OneRead(seen, TimedOut) || (pending == [] && Results(Hunting, all) == [])
        invariant e.Rx? && e.b == FLAG ==> OneRead(seen, Validate(raw))
        invariant e.Rx? && e.b != FLAG ==>
          Results(Hunting, seen) == [] && PhaseAfter(Hunting, seen) == Collecting(raw)
        decreases |pending|, e.Rx?
      {
        previous := seen;
        e, seen := Next(seen, all);
        if e.Rx? {
          raw := raw + [e.b];
          assert seen[..|seen| - 1] == previous;
        }
      }
      done := e.Rx?;
    }

    /**
      Read one packet: skip to a flag, take a second flag as the start of the next
      packet, then collect up to the closing flag, unescape and check the CRC.
      */
    method Read() returns (r: ReadResult)
      modifies this
      ensures |pending| <= |old(pending)|
      ensures
        var n := |old(pending)| - |pending|;
        && pending == old(pending)[n..]
        && (OneRead(old(pending)[..n], r) || (pending == [] && r == TimedOut && Results(Hunting, old(pending)) == []))
    {
      hide Results, PhaseAfter, Validate, OneRead;
      ghost var all := pending;
      var found;
      ghost var seen;
      found, seen := SkipToFlag(all);
      assert seen == all[..|seen|] && pending == all[|seen|..];
      if !found { return TimedOut; }
      var e;
      ghost var before := seen;
      e, seen := Next(seen, all);
      assert seen == all[..|seen|] && pending == all[|seen|..];
      if e.Quiet? { return TimedOut; }
      if e.b == FLAG {
        before := seen;
        e, seen := Next(seen, all);
        assert seen == all[..|seen|] && pending == all[|seen|..];
        if e.Quiet? { return TimedOut; }
      }
      var raw, done;
      raw, done, seen := Collect(e.b, before, all);
      assert seen == all[..|seen|] && pending == all[|seen|..];
      if !done { return TimedOut; }
      r := CheckPacket(raw);
    }

    /**
      Read a number of times, as the flushing loop does until its clock says stop: the
      results of the line in order, and timeouts once there are no more.
      */
    method ReadMany(turns: nat) returns (rs: seq<ReadResult>)
      modifies this
      ensures |rs| == turns
      ensures
        var all := Results(Hunting, old(pending));
        forall i | 0 <= i < turns :: rs[i] == if i < |all| then all[i] else TimedOut
    {
      hide Results, PhaseAfter, Feed;
      rs := [];
      ghost var all := pending;
      ghost var results := Results(Hunting, all);
      ghost var n := 0;
      NothingRead();
      while |rs| < turns
        invariant |rs| <= turns
        invariant n <= |all| && pending == all[n..]
        invariant forall i | 0 <= i < |rs| :: rs[i] == if i < |results| then results[i] else TimedOut
        invariant
          || (PhaseAfter(Hunting, all[..n]) == Hunting && Results(Hunting, all[..n]) == rs)
          || (pending == [] && |results| <= |rs|)
        decreases turns - |rs|
      {
        ghost var before := pending;
        var r := Read();
        ghost var m := |before| - |pending|;
        assert before[..m] == all[n..n + m] && pending == all[n + m..];
        if PhaseAfter(Hunting, all[..n]) == Hunting && Results(Hunting, all[..n]) == rs {
          OneMore(all, n, m, rs, r, pending);
        }
        rs := rs + [r];
        n := n + m;
      }
    }
  }

  /** A read that gives a result gives the next of the line; one that gives none leaves nothing. */
  lemma OneMore(all: seq<Event>, n: nat, m: nat, rs: seq<ReadResult>, r: ReadResult, pending: seq<Event>)
    requires n + m <= |all| && pending == all[n + m..]
    requires PhaseAfter(Hunting, all[..n]) == Hunting && Results(Hunting, all[..n]) == rs
    requires OneRead(all[n..n + m], r) || (pending == [] && r == TimedOut && Results(Hunting, all[n..]) == [])
    ensures
      var results := Results(Hunting, all);
      && (r == if |rs| < |results| then results[|rs|] else TimedOut)
      && ((PhaseAfter(Hunting, all[..n + m]) == Hunting && Results(Hunting, all[..n + m]) == rs + [r])
          || (pending == [] && |results| <= |rs| + 1))
  {
    hide Results, PhaseAfter;
    assert all == all[..n] + all[n..];
    ResultsAppend(Hunting, all[..n], all[n..]);
    if OneRead(all[n..n + m], r) {
      assert all[n..] == all[n..n + m] + all[n + m..];
      ResultsAppend(Hunting, all[n..n + m], all[n + m..]);
      assert all[..n + m] == all[..n] + all[n..n + m];
      ResultsAppend(Hunting, all[..n], all[n..n + m]);
    }
  }

  lemma NothingRead()
    ensures Results(Hunting, []) == [] && PhaseAfter(Hunting, []) == Hunting
  {
  }
}
