/**
  The host side of the serial link above framing: received-packet filters, the bounded
  receive buffer, the acknowledged write and its retries. Each operation is driven by
  what it hears and by the clock readings it makes, given as inputs.
  */
module SerialHost {
  import opened Bytes
  import opened Crc16
  import opened Framing
  import opened Options
  import opened Printf
  import opened SeqTracking

  type Content = seq<Byte>

  const PROTOCOL_ACK: Byte := 67
  const PROTOCOL_PACKET_ACK: Byte := 68
  const PRINTF_TYPE: Byte := 100

  // ---------- Filters ----------

  /** A one-byte field, read as Packet reads a slice: zero if the data is too short. */
  function Field(data: Content, offset: nat): Byte {
    if offset < |data| then data[offset] else 0
  }

  datatype Kind = AckPacket(seqno: int) | PrintfPacket(text: Text) | OtherPacket

  /** What the two filters make of a packet: the ack filter first, then the printf filter. */
  function Classify(data: Content): Kind {
    if Field(data, 0) == PROTOCOL_ACK then AckPacket(Field(data, 1) as int)
    else if Field(data, 8) == PRINTF_TYPE then PrintfPacket(data[9..])
    else OtherPacket
  }

  // ---------- The host's state and its steps ----------

  datatype Host = Host(tracker: seq<Entry>, inQueue: seq<Content>, printer: Printer)

  datatype Turn = KeepWaiting | GotAck | BadAck | EmptyPop

  /** One packet heard while waiting for the acknowledgement of a sequence number. */
  function Hear(h: Host, qsize: nat, data: Content, now: real, expected: int): (Host, Turn) {
    match Classify(data)
    case AckPacket(seqno) =>
      var (tracker, result) := Acked(h.tracker, seqno, now);
      (h.(tracker := tracker),
       if result.BadAckSeqno? then BadAck else if seqno == expected then GotAck else KeepWaiting)
    case PrintfPacket(text) => (h.(printer := Accept(h.printer, text)), KeepWaiting)
    case OtherPacket =>
      if |h.inQueue| >= qsize && h.inQueue == [] then (h, EmptyPop)
      else (h.(inQueue := (if |h.inQueue| >= qsize then h.inQueue[1..] else h.inQueue) + [data]), KeepWaiting)
  }

  /** One turn of a waiting loop: the clock at its test, what the read gives, the clock afterwards. */
  datatype Tick = Tick(clock: real, heard: ReadResult, after: real)

  datatype Attempt = Acknowledged | TimedOutWaiting | ReadFailed | UnknownAck | PoppedEmpty

  /** Wait for an acknowledgement until endTime. After the last tick the line stays silent. */
  function WaitForAck(h: Host, qsize: nat, ticks: seq<Tick>, endTime: real, expected: int): (Host, Attempt)
    decreases |ticks|
  {
    if ticks == [] || ticks[0].clock >= endTime then (h, TimedOutWaiting)
    else
      match ticks[0].heard
      case TimedOut => (h, TimedOutWaiting)
      case CrcError => (h, ReadFailed)
      case Packet(data) =>
        var (next, turn) := Hear(h, qsize, data, ticks[0].after, expected);
        match turn
        case GotAck => (next, Acknowledged)
        case BadAck => (next, UnknownAck)
        case EmptyPop => (next, PoppedEmpty)
        case KeepWaiting => WaitForAck(next, qsize, ticks[1..], endTime, expected)
  }

  /** The DataFrame a write sends. */
  function DataFrame(seqno: Byte, payload: Content): Content {
    [PROTOCOL_PACKET_ACK, seqno, 0] + payload
  }

  /**
    One attempt's inputs: clocks at the retry test, when the time left is computed, when the
    frame is noted and stamped, and when waiting starts.
    */
  datatype Try = Try(clock: real, leftAt: real, sentAt: real, stamp: real, waitFrom: real, ticks: seq<Tick>)

  const ACK_WAIT: real := 0.2

  function AckWait(endTime: Limit, clock: real): real {
    match endTime
    case Forever => ACK_WAIT
    case Until(t) => if t - clock < ACK_WAIT then t - clock else ACK_WAIT
  }

  datatype Limit = Forever | Until(t: real)

  predicate Expired(limit: Limit, clock: real) {
    limit.Until? && clock >= limit.t
  }

  datatype WriteResult = Written | WriteTimedOut | WriteCrashed | StillTrying

  /** One attempt at a write: note the number, send, wait. */
  function TryOnce(h: Host, qsize: nat, seqno: Byte, limit: Limit, t: Try): (Host, Attempt) {
    WaitForAck(h.(tracker := Sent(h.tracker, seqno as int, t.sentAt, t.stamp)), qsize, t.ticks,
               t.waitFrom + AckWait(limit, t.leftAt), seqno as int)
  }

  /**
    A whole write: attempt after attempt with the same sequence number until one is
    acknowledged or time is up, and how many frames that puts on the line.
    StillTrying means the inputs ran out first.
    */
  function WriteRun(h: Host, qsize: nat, seqno: Byte, limit: Limit, tries: seq<Try>): (Host, WriteResult, nat)
    decreases |tries|
  {
    if tries == [] then (h, StillTrying, 0)
    else if Expired(limit, tries[0].clock) then (h, WriteTimedOut, 0)
    else
      var (next, attempt) := TryOnce(h, qsize, seqno, limit, tries[0]);
      match attempt
      case Acknowledged => (next, Written, 1)
      case PoppedEmpty => (next, WriteCrashed, 1)
      case _ =>
        var (last, result, frames) := WriteRun(next, qsize, seqno, limit, tries[1..]);
        (last, result, frames + 1)
  }

  function Copies(frame: seq<Byte>, k: nat): seq<Byte>
    decreases k
  {
    if k == 0 then [] else Copies(frame, k - 1) + frame
  }

  // ---------- Reading ----------

  /** A read that has to go to the line: its filters may take the packet. */
  function HearIdle(h: Host, data: Content): (Host, Option<Content>) {
    match Classify(data)
    case AckPacket(_) => (h, None)
    case PrintfPacket(text) => (h.(printer := Accept(h.printer, text)), None)
    case OtherPacket => (h, Some(data))
  }

  datatype Reply = Handed(data: Content) | Filtered | Raised(error: ReadResult)

  /** One read, given what the line would give if it is asked. */
  function ReadOnce(h: Host, heard: ReadResult): (Host, Reply) {
    if h.inQueue != [] then (h.(inQueue := h.inQueue[1..]), Handed(h.inQueue[0]))
    else if heard.Packet? then
      var (next, r) := HearIdle(h, heard.data);
      (next, if r.Some? then Handed(r.value) else Filtered)
    else (h, Raised(heard))
  }

  // ---------- What the waiting loop, an attempt and a write come to ----------

  /** A turn of the loop hears a packet, and takes the host from one state to the next. */
  predicate Turned(h: Host, next: Host, turn: Turn, qsize: nat, t: Tick, expected: int) {
    t.heard.Packet? && (next, turn) == Hear(h, qsize, t.heard.data, t.after, expected)
  }

  /**
    The wait goes through the states hosts, one packet a turn, and every turn but the last
    goes on waiting. It ends at its first turn that finds the time over, nothing or a wrong
    CRC on the line, or whose packet decides; what the attempt comes to says which.
    */
  lemma {:induction false} WaitMeaning(h: Host, qsize: nat, ticks: seq<Tick>, endTime: real, expected: int)
    returns (hosts: seq<Host>, turns: seq<Turn>)
    ensures |hosts| == |turns| + 1 && |turns| <= |ticks| && hosts[0] == h
    ensures forall k | 0 <= k < |turns| ::
      ticks[k].clock < endTime && Turned(hosts[k], hosts[k + 1], turns[k], qsize, ticks[k], expected)
    ensures forall k | 0 <= k < |turns| - 1 :: turns[k] == KeepWaiting
    ensures
      var (last, attempt) := WaitForAck(h, qsize, ticks, endTime, expected);
      var n := |turns|;
      && last == hosts[n]
      && match attempt
         case Acknowledged => n > 0 && turns[n - 1] == GotAck
         case UnknownAck => n > 0 && turns[n - 1] == BadAck
         case PoppedEmpty => n > 0 && turns[n - 1] == EmptyPop
         case TimedOutWaiting =>
           && (n > 0 ==> turns[n - 1] == KeepWaiting)
           && (n == |ticks| || ticks[n].clock >= endTime || ticks[n].heard == TimedOut)
         case ReadFailed =>
           && (n > 0 ==> turns[n - 1] == KeepWaiting)
           && n < |ticks| && ticks[n].clock < endTime && ticks[n].heard == CrcError
    decreases |ticks|
  {
    hide Hear;
    hosts, turns := [h], [];
    if ticks != [] && ticks[0].clock < endTime && ticks[0].heard.Packet? {
      var (next, turn) := Hear(h, qsize, ticks[0].heard.data, ticks[0].after, expected);
      hosts, turns := [h, next], [turn];
      if turn == KeepWaiting {
        var later, rest := WaitMeaning(next, qsize, ticks[1..], endTime, expected);
        hosts, turns := [h] + later, [turn] + rest;
      }
    }
  }

  /**
    An attempt waits at most 0.2 seconds, and no longer than the write had left when it
    looked; it waits as long as both allow, for the acknowledgement of the number it noted.
    */
  lemma Deadline(h: Host, qsize: nat, seqno: Byte, limit: Limit, t: Try) returns (wait: real)
    ensures wait <= 0.2 && (limit.Until? ==> wait <= limit.t - t.leftAt)
    ensures wait == 0.2 || (limit.Until? && wait == limit.t - t.leftAt)
    ensures TryOnce(h, qsize, seqno, limit, t)
         == WaitForAck(Host(Sent(h.tracker, seqno as int, t.sentAt, t.stamp), h.inQueue, h.printer), qsize, t.ticks,
                       t.waitFrom + wait, seqno as int)
  {
    wait := AckWait(limit, t.leftAt);
  }

  /** What an attempt comes to, and where it takes the host. */
  predicate Tried(h: Host, next: Host, attempt: Attempt, qsize: nat, seqno: Byte, limit: Limit, t: Try) {
    (next, attempt) == TryOnce(h, qsize, seqno, limit, t)
  }

  /** The attempts after which the write goes on. */
  predicate Retries(attempt: Attempt) {
    attempt in {TimedOutWaiting, ReadFailed, UnknownAck}
  }

  /**
    A write goes through the states hosts, one frame an attempt: each attempt starts before
    the limit, and every one but the last is retried. It is over after the first one that is
    not, or at the first test that finds the limit passed; its result says which.
    */
  lemma {:induction false} WriteMeaning(h: Host, qsize: nat, seqno: Byte, limit: Limit, tries: seq<Try>)
    returns (hosts: seq<Host>, attempts: seq<Attempt>)
    ensures |hosts| == |attempts| + 1 && |attempts| <= |tries| && hosts[0] == h
    ensures forall k | 0 <= k < |attempts| ::
      && (limit.Until? ==> tries[k].clock < limit.t)
      && Tried(hosts[k], hosts[k + 1], attempts[k], qsize, seqno, limit, tries[k])
    ensures forall k | 0 <= k < |attempts| - 1 :: Retries(attempts[k])
    ensures
      var (last, result, frames) := WriteRun(h, qsize, seqno, limit, tries);
      && frames == |attempts| && last == hosts[frames]
      && match result
         case Written => frames > 0 && attempts[frames - 1] == Acknowledged
         case WriteCrashed => frames > 0 && attempts[frames - 1] == PoppedEmpty
         case WriteTimedOut =>
           && (frames > 0 ==> Retries(attempts[frames - 1]))
           && frames < |tries| && limit.Until? && tries[frames].clock >= limit.t
         case StillTrying => (frames > 0 ==> Retries(attempts[frames - 1])) && frames == |tries|
    decreases |tries|
  {
    hide TryOnce;
    hosts, attempts := [h], [];
    if tries != [] && !Expired(limit, tries[0].clock) {
      var (next, attempt) := TryOnce(h, qsize, seqno, limit, tries[0]);
      hosts, attempts := [h, next], [attempt];
      if Retries(attempt) {
        var later, rest := WriteMeaning(next, qsize, seqno, limit, tries[1..]);
        hosts, attempts := [h] + later, [attempt] + rest;
      }
    }
  }

  /** So a write with time left sends a frame, and one that gives up found its time over. */
  lemma SendsInTime(h: Host, qsize: nat, seqno: Byte, limit: Limit, tries: seq<Try>)
    ensures
      var (_, result, frames) := WriteRun(h, qsize, seqno, limit, tries);
      && (frames == 0 <==> tries == [] || (limit.Until? && tries[0].clock >= limit.t))
      && (result == WriteTimedOut ==> frames < |tries| && limit.Until? && tries[frames].clock >= limit.t)
      && (limit == Forever ==> result != WriteTimedOut)
  {
    var hosts, attempts := WriteMeaning(h, qsize, seqno, limit, tries);
    if |attempts| > 0 {
      assert Tried(hosts[0], hosts[1], attempts[0], qsize, seqno, limit, tries[0]);
    }
  }

  /** The line carries one whole frame after the other. */
  lemma {:induction false} CopiesAre(frame: seq<Byte>, k: nat, i: nat)
    requires i < k
    ensures |Copies(frame, k)| == k * |frame| && (i + 1) * |frame| <= k * |frame|
    ensures Copies(frame, k)[i * |frame|..(i + 1) * |frame|] == frame
  {
    CopiesLength(frame, k);
    CopiesLength(frame, k - 1);
    WholeFrames(i, k, |frame|);
    if i < k - 1 {
      CopiesAre(frame, k - 1, i);
      SliceOfFirst(Copies(frame, k - 1), frame, i * |frame|, (i + 1) * |frame|);
    }
  }

  lemma WholeFrames(i: nat, k: nat, n: nat)
    requires i < k
    ensures 0 <= i * n && i * n + n == (i + 1) * n <= k * n
  {
    SplitProduct(i, 1, n);
    SplitProduct(i + 1, k - (i + 1), n);
  }

  lemma SplitProduct(a: nat, b: nat, n: nat)
    ensures (a + b) * n == a * n + b * n
    ensures a * n >= 0 && b * n >= 0
  {
  }

  lemma SliceOfFirst<T>(a: seq<T>, b: seq<T>, i: nat, j: nat)
    requires i <= j <= |a|
    ensures (a + b)[i..j] == a[i..j]
  {
  }

  lemma {:induction false} CopiesLength(frame: seq<Byte>, k: nat)
    ensures |Copies(frame, k)| == k * |frame|
  {
    if k > 0 {
      CopiesLength(frame, k - 1);
      SplitProduct(k - 1, 1, |frame|);
    }
  }

  // ---------- The objects ----------

  class SimpleSerial {
    const qsize: nat
    const tracker: SeqTracker
    var inQueue: seq<Content>
    var ack: Option<int>
    var printer: Printer

    constructor (qsize: nat)
      ensures this.qsize == qsize && fresh(tracker)
      ensures View() == Host([], [], Printer([], []))
    {
      this.qsize := qsize;
      tracker := new SeqTracker();
      inQueue := [];
      ack := None;
      printer := Printer([], []);
    }

    ghost function View(): Host
      reads this, tracker
    {
      Host(tracker.queue, inQueue, printer)
    }

    method WriteAckFilter(data: Content) returns (kept: bool)
      modifies this`ack
      ensures kept <==> !Classify(data).AckPacket?
      ensures ack == if kept then old(ack) else Some(Classify(data).seqno)
    {
      kept := Field(data, 0) != PROTOCOL_ACK;
      if !kept {
        ack := Some(Field(data, 1) as int);
      }
    }

    method PrintfFilter(data: Content) returns (kept: bool)
      requires !Classify(data).AckPacket?
      modifies this`printer
      ensures kept <==> Classify(data).OtherPacket?
      ensures printer == if kept then old(printer) else Accept(old(printer), Classify(data).text)
    {
      kept := Field(data, 8) != PRINTF_TYPE;
      if !kept {
        var lines := SplitLines(printer.rest + Strip(data[9..]));
        var printed := printer.printed;
        for k := 0 to |lines| - 1
          invariant printed == printer.printed + lines[..k]
        {
          printed := printed + [lines[k]];
        }
        printer := Printer(printed, lines[|lines| - 1]);
      }
    }

    /** Pass a packet through the filters, until one takes it. */
    method FilterRead(data: Content) returns (kept: bool)
      modifies this`ack, this`printer
      ensures kept <==> Classify(data).OtherPacket?
      ensures ack == if Classify(data).AckPacket? then Some(Classify(data).seqno) else old(ack)
      ensures printer == if Classify(data).PrintfPacket? then Accept(old(printer), Classify(data).text)
                         else old(printer)
    {
      kept := WriteAckFilter(data);
      if kept {
        kept := PrintfFilter(data);
      }
    }

    method GetAck(ticks: seq<Tick>, endTime: real, expected: int) returns (attempt: Attempt)
      modifies this, tracker
      ensures (View(), attempt) == WaitForAck(old(View()), qsize, ticks, endTime, expected)
    {
      hide Classify, Acked, Accept;
      var k := 0;
      while k < |ticks| && ticks[k].clock < endTime
        invariant 0 <= k <= |ticks|
        invariant WaitForAck(View(), qsize, ticks[k..], endTime, expected)
               == WaitForAck(old(View()), qsize, ticks, endTime, expected)
        decreases |ticks| - k
      {
        ack := None;
        match ticks[k].heard {
          case TimedOut => return TimedOutWaiting;
          case CrcError => return ReadFailed;
          case Packet(data) =>
            var kept := FilterRead(data);
            if kept {
              if |inQueue| >= qsize {
                if inQueue == [] { return PoppedEmpty; }
                inQueue := inQueue[1..];
              }
              inQueue := inQueue + [data];
            } else if ack.Some? {
              var result := tracker.SeqnoAcked(ack.value, ticks[k].after);
              if result.BadAckSeqno? { return UnknownAck; }
              if ack.value == expected { return Acknowledged; }
            }
        }
        assert ticks[k..][1..] == ticks[k + 1..];
        k := k + 1;
      }
      return TimedOutWaiting;
    }

    /** One attempt: note the sequence number, put the frame on the line, wait for its acknowledgement. */
    method Write(payload: Content, seqno: Byte, sentAt: real, stamp: real, waitFrom: real, timeout: real,
                 ticks: seq<Tick>)
      returns (attempt: Attempt, line: seq<Byte>)
      modifies this, tracker
      ensures line == Frame(DataFrame(seqno, payload))
      ensures (View(), attempt)
           == WaitForAck(old(View()).(tracker := Sent(old(tracker.queue), seqno as int, sentAt, stamp)),
                         qsize, ticks, waitFrom + timeout, seqno as int)
    {
      line := BuildFrame(DataFrame(seqno, payload));
      tracker.SeqnoSent(seqno as int, sentAt, stamp);
      attempt := GetAck(ticks, waitFrom + timeout, seqno as int);
    }

    /**
      A read: from the buffer if it holds anything, otherwise one packet from the line, which
      a filter may take; an error of the line goes on to the caller and changes nothing.
      */
    method Read(heard: ReadResult) returns (reply: Reply)
      modifies this
      ensures (View(), reply) == ReadOnce(old(View()), heard)
    {
      if inQueue != [] {
        reply := Handed(inQueue[0]);
        inQueue := inQueue[1..];
      } else if heard.Packet? {
        var kept := FilterRead(heard.data);
        reply := if kept then Handed(heard.data) else Filtered;
      } else {
        reply := Raised(heard);
      }
    }
  }

  class Serial {
    const simple: SimpleSerial
    var seqno: int

    constructor (qsize: nat)
      ensures seqno == 0 && simple.qsize == qsize && fresh(simple) && fresh(simple.tracker)
      ensures simple.View() == Host([], [], Printer([], []))
    {
      simple := new SimpleSerial(qsize);
      seqno := 0;
    }

    /** Write a packet, retrying until it is acknowledged or the limit has passed. */
    method Write(payload: Content, limit: Limit, tries: seq<Try>) returns (result: WriteResult, line: seq<Byte>)
      requires 0 <= seqno < 100
      modifies this, simple, simple.tracker
      ensures seqno == (old(seqno) + 1) % 100
      ensures
        var (last, outcome, frames) := WriteRun(old(simple.View()), simple.qsize, ByteOf(seqno), limit, tries);
        && simple.View() == last && result == outcome
        && line == Copies(Frame(DataFrame(ByteOf(seqno), payload)), frames)
    {
      hide *;
      seqno := (seqno + 1) % 100;
      result, line := Retry(payload, ByteOf(seqno), limit, tries);
    }

    /** The retry loop. */
    method Retry(payload: Content, number: Byte, limit: Limit, tries: seq<Try>)
      returns (result: WriteResult, line: seq<Byte>)
      modifies simple, simple.tracker
      ensures
        var (last, outcome, frames) := WriteRun(old(simple.View()), simple.qsize, number, limit, tries);
        && simple.View() == last && result == outcome
        && line == Copies(Frame(DataFrame(number, payload)), frames)
    {
      hide WaitForAck, Sent, Frame, DataFrame, AckWait;
      ghost var frame := Frame(DataFrame(number, payload));
      ghost var whole := WriteRun(simple.View(), simple.qsize, number, limit, tries);
      line := [];
      ghost var sent := 0;
      var k := 0;
      while k < |tries| && !Expired(limit, tries[k].clock)
        invariant 0 <= k <= |tries|
        invariant line == Copies(frame, sent)
        invariant
          var (last, outcome, frames) := WriteRun(simple.View(), simple.qsize, number, limit, tries[k..]);
          (last, outcome, sent + frames) == whole
        decreases |tries| - k
      {
        var t := tries[k];
        assert tries[k..][0] == t && tries[k..][1..] == tries[k + 1..];
        var timeout := AckWait(limit, t.leftAt);
        var attempt, bytes := simple.Write(payload, number, t.sentAt, t.stamp, t.waitFrom, timeout, t.ticks);
        line := line + bytes;
        sent := sent + 1;
        if attempt.Acknowledged? {
          return Written, line;
        }
        if attempt.PoppedEmpty? {
          return WriteCrashed, line;
        }
        k := k + 1;
      }
      result := if k == |tries| then StillTrying else WriteTimedOut;
    }
  }
}
