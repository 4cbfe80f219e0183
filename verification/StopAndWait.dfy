/**
  The acknowledged write over whole runs. The host talks to a mote over a line that
  delivers in order and may lose frames and acknowledgements anywhere, but forges and
  duplicates none; the mote acknowledges each frame it accepts once. Time only moves
  forward. Every action is atomic.
  */
module StopAndWait {
  import opened Bytes
  import opened Framing
  import opened Printf
  import opened SeqTracking
  import opened SerialHost

  /** A data frame on its way to the mote; write says which write sent it (the first is 1). */
  datatype Outgoing = Outgoing(seqno: Byte, payload: Content, write: nat)

  /** What is on its way to the host: an acknowledgement of a frame of some write, or the mote's own packet. */
  datatype Incoming = Ack(seqno: Byte, write: nat) | Report(data: Content)

  function Raw(m: Incoming): Content {
    match m
    case Ack(seqno, _) => [PROTOCOL_ACK, seqno]
    case Report(data) => data
  }

  datatype Acceptance = Acceptance(write: nat, payload: Content)

  /** A write's sequence number. */
  type Number = n: int | 0 <= n < 100

  /** Idle between writes; Retrying at the test of the retry loop; Waiting for an acknowledgement. */
  datatype Phase = Idle | Retrying | Waiting

  datatype System = System(
    host: Host, seqno: Number, qsize: nat, phase: Phase,
    down: seq<Outgoing>, up: seq<Incoming>, now: real,
    // history
    payloads: seq<Content>,           // of every write started
    written: seq<nat>,             // the writes that returned True
    accepted: seq<Acceptance>,     // what the mote accepted
    forgotten: multiset<int>,      // sequence numbers the tracker has dropped as expired
    arrivals: seq<Content>,        // packets the filters left to the application
    handed: seq<Content>,          // packets handed out by read
    delivered: seq<nat>,           // and their positions in arrivals
    overflowed: seq<nat>)          // positions in arrivals pushed out of the full buffer

  function Init(qsize: nat, now: real): System {
    System(Host([], [], Printer([], [])), 0, qsize, Idle, [], [], now, [], [], [], multiset{}, [], [], [], [])
  }

  datatype Action =
    | Pass(until: real)            // time passes
    | StartWrite(payload: Content)    // the application calls write
    | Send(stamp: real)            // an attempt notes its number, stamped a little later, and sends its frame
    | MoteAccepts                  // the next frame reaches the mote, which acknowledges it
    | LoseDown(i: nat)
    | LoseUp(i: nat)
    | MoteReports(data: Content)
    | HearNext                     // the waiting host hears the next packet
    | Abandon                      // the attempt ends: its time is up, or a read failed its CRC
    | FailWrite                    // the retry test finds the write's time up
    | ReadNext                     // the application reads while no write is going on

  predicate Enabled(s: System, a: Action) {
    match a
    case Pass(until) => until >= s.now
    case StartWrite(_) => s.phase.Idle?
    case Send(stamp) => s.phase.Retrying? && s.payloads != [] && stamp >= s.now
    case MoteAccepts => s.down != []
    case LoseDown(i) => i < |s.down|
    case LoseUp(i) => i < |s.up|
    case MoteReports(data) => !Classify(data).AckPacket?
    case HearNext => s.phase.Waiting? && s.up != []
    case Abandon => s.phase.Waiting?
    case FailWrite => s.phase.Retrying?
    case ReadNext => s.phase.Idle? && (s.host.inQueue != [] || s.up != [])
  }

  /** What the tracker's expiry drops at this moment. */
  function Expiring(s: System): multiset<int> {
    Seqnos(Dropped(s.host.tracker, 0, s.now - KEEP_FOR))
  }

  /** The position in the arrivals of the oldest packet in the buffer. */
  function Oldest(s: System): nat {
    if |s.arrivals| >= |s.host.inQueue| then |s.arrivals| - |s.host.inQueue| else 0
  }

  /** Where a write goes on after a packet; an exception that is none of the library's own ends it. */
  function AfterTurn(turn: Turn): Phase {
    match turn
    case GotAck => Idle
    case EmptyPop => Idle
    case BadAck => Retrying
    case KeepWaiting => Waiting
  }

  function Hearing(s: System): System
    requires s.up != []
  {
    var data := Raw(s.up[0]);
    var (host, turn) := Hear(s.host, s.qsize, data, s.now, s.seqno);
    var t := s.(host := host, up := s.up[1..],
                phase := AfterTurn(turn),
                written := if turn.GotAck? then s.written + [|s.payloads|] else s.written);
    match Classify(data)
    case AckPacket(_) => t.(forgotten := s.forgotten + Expiring(s))
    case PrintfPacket(_) => t
    case OtherPacket =>
      t.(arrivals := s.arrivals + [data],
         overflowed := if |s.host.inQueue| >= s.qsize then s.overflowed + [Oldest(s)]
                       else s.overflowed)
  }

  function Reading(s: System): System
    requires s.host.inQueue != [] || s.up != []
  {
    if s.host.inQueue != [] then
      s.(host := s.host.(inQueue := s.host.inQueue[1..]),
         handed := s.handed + [s.host.inQueue[0]],
         delivered := s.delivered + [Oldest(s)])
    else
      var (host, result) := HearIdle(s.host, Raw(s.up[0]));
      var t := s.(host := host, up := s.up[1..]);
      match result
      case None => t
      case Some(data) =>
        t.(arrivals := s.arrivals + [data], handed := s.handed + [data], delivered := s.delivered + [|s.arrivals|])
  }

  function Step(s: System, a: Action): System
    requires Enabled(s, a)
  {
    match a
    case Pass(until) => s.(now := until)
    case StartWrite(payload) =>
      s.(phase := Retrying, seqno := (s.seqno + 1) % 100, payloads := s.payloads + [payload])
    case Send(stamp) =>
      s.(phase := Waiting,
         now := stamp,
         host := s.host.(tracker := Sent(s.host.tracker, s.seqno, s.now, stamp)),
         down := s.down + [Outgoing(ByteOf(s.seqno), s.payloads[|s.payloads| - 1], |s.payloads|)],
         forgotten := s.forgotten + Expiring(s))
    case MoteAccepts =>
      var f := s.down[0];
      s.(down := s.down[1..], up := s.up + [Ack(f.seqno, f.write)],
         accepted := s.accepted + [Acceptance(f.write, f.payload)])
    case LoseDown(i) => s.(down := s.down[..i] + s.down[i + 1..])
    case LoseUp(i) => s.(up := s.up[..i] + s.up[i + 1..])
    case MoteReports(data) => s.(up := s.up + [Report(data)])
    case HearNext => Hearing(s)
    case Abandon => s.(phase := Retrying)
    case FailWrite => s.(phase := Idle)
    case ReadNext => Reading(s)
  }

  // ---------- The receive buffer ----------

  predicate Ascending(s: seq<nat>) {
    forall i, j | 0 <= i < j < |s| :: s[i] < s[j]
  }

  /**
    The buffer is the newest arrivals, no more than its size of them; every earlier
    arrival was either handed out or pushed out, once, in order.
    */
  predicate BufferLaw(qsize: nat, inQueue: seq<Content>, arrivals: seq<Content>, delivered: seq<nat>,
                      overflowed: seq<nat>)
  {
    var n := |arrivals| - |inQueue|;
    && |inQueue| <= qsize
    && n >= 0
    && inQueue == arrivals[n..]
    && Ascending(delivered) && (forall i | 0 <= i < |delivered| :: delivered[i] < n)
    && Ascending(overflowed) && (forall i | 0 <= i < |overflowed| :: overflowed[i] < n)
    && (forall i, j | 0 <= i < |delivered| && 0 <= j < |overflowed| :: delivered[i] != overflowed[j])
    && |delivered| + |overflowed| == n
  }

  /** What was handed out is what arrived at those positions. */
  predicate HandedLaw(handed: seq<Content>, delivered: seq<nat>, arrivals: seq<Content>) {
    && |handed| == |delivered|
    && forall i | 0 <= i < |delivered| :: delivered[i] < |arrivals| && handed[i] == arrivals[delivered[i]]
  }

  predicate Buffered(s: System) {
    && BufferLaw(s.qsize, s.host.inQueue, s.arrivals, s.delivered, s.overflowed)
    && HandedLaw(s.handed, s.delivered, s.arrivals)
  }

  lemma HandedMore(handed: seq<Content>, delivered: seq<nat>, arrivals: seq<Content>, data: Content)
    requires HandedLaw(handed, delivered, arrivals)
    ensures HandedLaw(handed, delivered, arrivals + [data])
    ensures HandedLaw(handed + [data], delivered + [|arrivals|], arrivals + [data])
    ensures forall i: nat | i < |arrivals| :: HandedLaw(handed + [arrivals[i]], delivered + [i], arrivals)
  {
  }

  lemma PacketBuffered(qsize: nat, q: seq<Content>, arrivals: seq<Content>, delivered: seq<nat>, overflowed: seq<nat>,
                       data: Content)
    requires BufferLaw(qsize, q, arrivals, delivered, overflowed)
    ensures
      if qsize == 0 then
        q == [] && BufferLaw(qsize, q, arrivals + [data], delivered, overflowed + [|arrivals|])
      else if |q| >= qsize then
        BufferLaw(qsize, q[1..] + [data], arrivals + [data], delivered, overflowed + [|arrivals| - |q|])
      else BufferLaw(qsize, q + [data], arrivals + [data], delivered, overflowed)
  {
    var n := |arrivals| - |q|;
    if qsize == 0 {
      assert q == (arrivals + [data])[n + 1..];
    } else if |q| >= qsize {
      assert q[1..] + [data] == (arrivals + [data])[n + 1..];
    } else {
      assert q + [data] == (arrivals + [data])[n..];
    }
  }

  lemma PacketPopped(qsize: nat, q: seq<Content>, arrivals: seq<Content>, delivered: seq<nat>, overflowed: seq<nat>)
    requires q != [] && BufferLaw(qsize, q, arrivals, delivered, overflowed)
    ensures BufferLaw(qsize, q[1..], arrivals, delivered + [|arrivals| - |q|], overflowed)
    ensures q[0] == arrivals[|arrivals| - |q|]
  {
    var n := |arrivals| - |q|;
    assert q[1..] == arrivals[n + 1..];
  }

  lemma PacketPassedOn(qsize: nat, arrivals: seq<Content>, delivered: seq<nat>, overflowed: seq<nat>, data: Content)
    requires BufferLaw(qsize, [], arrivals, delivered, overflowed)
    ensures BufferLaw(qsize, [], arrivals + [data], delivered + [|arrivals|], overflowed)
  {
  }

  lemma OldestMeans(s: System)
    requires Buffered(s)
    ensures Oldest(s) == |s.arrivals| - |s.host.inQueue|
  {
  }

  lemma BufferedStep(s: System, a: Action)
    requires Buffered(s) && Enabled(s, a)
    ensures Buffered(Step(s, a))
  {
    hide Classify, Acked, Sent, Accept, Expiring, BufferLaw, HandedLaw, Oldest;
    OldestMeans(s);
    match a
    case HearNext =>
      HandedMore(s.handed, s.delivered, s.arrivals, Raw(s.up[0]));
      PacketBuffered(s.qsize, s.host.inQueue, s.arrivals, s.delivered, s.overflowed, Raw(s.up[0]));
    case ReadNext =>
      HandedMore(s.handed, s.delivered, s.arrivals, if s.up == [] then [] else Raw(s.up[0]));
      if s.host.inQueue != [] {
        PacketPopped(s.qsize, s.host.inQueue, s.arrivals, s.delivered, s.overflowed);
      } else {
        PacketPassedOn(s.qsize, s.arrivals, s.delivered, s.overflowed, Raw(s.up[0]));
      }
    case _ =>
  }

  // ---------- Sequence numbers ----------

  predicate Numbered(s: System) {
    && s.seqno == |s.payloads| % 100
    && (!s.phase.Idle? ==> s.payloads != [])
  }

  lemma NumberedStep(s: System, a: Action)
    requires Numbered(s) && Enabled(s, a)
    ensures Numbered(Step(s, a))
  {
    hide Classify, Acked, Sent, Accept, Expiring, BufferLaw;
  }

  // ---------- Acknowledgements are never more than what is tracked ----------

  function DownSeqnos(down: seq<Outgoing>): multiset<int>
    decreases |down|
  {
    if down == [] then multiset{} else multiset{down[0].seqno as int} + DownSeqnos(down[1..])
  }

  function ReplySeqno(m: Incoming): multiset<int> {
    if m.Ack? then multiset{m.seqno as int} else multiset{}
  }

  function UpSeqnos(up: seq<Incoming>): multiset<int>
    decreases |up|
  {
    if up == [] then multiset{} else ReplySeqno(up[0]) + UpSeqnos(up[1..])
  }

  lemma WithoutOne<T>(s: seq<T>, i: nat, rest: seq<T>)
    requires 0 < i < |s| && rest == s[..i] + s[i + 1..]
    ensures rest != [] && rest[0] == s[0] && rest[1..] == s[1..][..i - 1] + s[1..][i..]
  {
  }

  lemma DownFirst(down: seq<Outgoing>)
    requires down != []
    ensures DownSeqnos(down) == multiset{down[0].seqno as int} + DownSeqnos(down[1..])
  {
  }

  lemma UpFirst(up: seq<Incoming>)
    requires up != []
    ensures UpSeqnos(up) == ReplySeqno(up[0]) + UpSeqnos(up[1..])
  {
  }

  lemma {:induction false} DownSplit(down: seq<Outgoing>, i: nat)
    requires i < |down|
    ensures DownSeqnos(down) == DownSeqnos(down[..i] + down[i + 1..]) + multiset{down[i].seqno as int}
    decreases |down|
  {
    if i > 0 {
      hide DownSeqnos;
      DownSplit(down[1..], i - 1);
      var rest := down[..i] + down[i + 1..];
      WithoutOne(down, i, rest);
      DownFirst(down);
      DownFirst(rest);
      UnionAssociates(multiset{down[0].seqno as int}, DownSeqnos(rest[1..]), multiset{down[i].seqno as int});
    } else {
      assert down[..0] + down[1..] == down[1..];
    }
  }

  lemma {:induction false} UpSplit(up: seq<Incoming>, i: nat)
    requires i < |up|
    ensures UpSeqnos(up) == UpSeqnos(up[..i] + up[i + 1..]) + ReplySeqno(up[i])
    decreases |up|
  {
    hide ReplySeqno;
    if i > 0 {
      hide UpSeqnos;
      UpSplit(up[1..], i - 1);
      var rest := up[..i] + up[i + 1..];
      WithoutOne(up, i, rest);
      UpFirst(up);
      UpFirst(rest);
      UnionAssociates(ReplySeqno(up[0]), UpSeqnos(rest[1..]), ReplySeqno(up[i]));
    } else {
      assert up[..0] + up[1..] == up[1..];
    }
  }

  lemma DownAppended(down: seq<Outgoing>, f: Outgoing)
    ensures DownSeqnos(down + [f]) == DownSeqnos(down) + multiset{f.seqno as int}
  {
    hide DownSeqnos;
    DownSplit(down + [f], |down|);
    assert (down + [f])[..|down|] + (down + [f])[|down| + 1..] == down;
  }

  lemma UpAppended(up: seq<Incoming>, m: Incoming)
    ensures UpSeqnos(up + [m]) == UpSeqnos(up) + ReplySeqno(m)
  {
    hide UpSeqnos, ReplySeqno;
    UpSplit(up + [m], |up|);
    assert (up + [m])[..|up|] + (up + [m])[|up| + 1..] == up;
  }

  /** For every number, as many entries are tracked or were forgotten as frames and acknowledgements are in flight. */
  predicate Conserved(s: System) {
    && DownSeqnos(s.down) + UpSeqnos(s.up) <= Seqnos(s.host.tracker) + s.forgotten
    && forall m | m in s.up && m.Report? :: !Classify(m.data).AckPacket?
  }

  lemma AckClassified(seqno: Byte)
    ensures Classify([PROTOCOL_ACK, seqno]) == AckPacket(seqno as int)
  {
  }

  /** What hearing a packet does to the tracker. */
  lemma HearTracker(h: Host, qsize: nat, data: Content, now: real, expected: int)
    ensures
      var (after, turn) := Hear(h, qsize, data, now, expected);
      match Classify(data)
      case AckPacket(n) =>
        && after == h.(tracker := Acked(h.tracker, n, now).0)
        && turn == (if Acked(h.tracker, n, now).1.BadAckSeqno? then BadAck
                    else if n == expected then GotAck else KeepWaiting)
      case _ => after.tracker == h.tracker && (turn == KeepWaiting || turn == EmptyPop)
    ensures qsize > 0 ==> Hear(h, qsize, data, now, expected).1 != EmptyPop
  {
    hide Classify, Acked, Accept;
  }

  lemma HearAckConserved(s: System)
    requires Buffered(s) && Conserved(s) && s.up != [] && s.up[0].Ack?
    ensures Conserved(Hearing(s))
    ensures Hear(s.host, s.qsize, Raw(s.up[0]), s.now, s.seqno).1.BadAck? ==>
      (s.up[0].seqno as int) in Hearing(s).forgotten
  {
    hide Classify, Seqnos, Acked, Hear, Dropped, DownSeqnos, UpSeqnos, BufferLaw, HandedLaw, Accept;
    var n := s.up[0].seqno as int;
    AckClassified(s.up[0].seqno);
    HearTracker(s.host, s.qsize, Raw(s.up[0]), s.now, s.seqno);
    AckedConserves(s.host.tracker, n, s.now);
    UpFirst(s.up);
    var t := Hearing(s);
    assert t.forgotten == s.forgotten + Expiring(s);
    assert forall m | m in t.up :: m in s.up;
    Balance(DownSeqnos(s.down), UpSeqnos(s.up[1..]), n, Seqnos(s.host.tracker), s.forgotten,
            Seqnos(t.host.tracker), Expiring(s), Acked(s.host.tracker, n, s.now).1.Known?);
  }

  /** The accounting of one acknowledgement. */
  lemma Balance(down: multiset<int>, up: multiset<int>, n: int, tracked: multiset<int>, forgotten: multiset<int>,
                after: multiset<int>, dropped: multiset<int>, known: bool)
    requires down + (multiset{n} + up) <= tracked + forgotten
    requires known ==> after + dropped + multiset{n} == tracked
    requires !known ==> after + dropped == tracked && n !in after
    ensures down + up <= after + (forgotten + dropped)
    ensures !known ==> n in forgotten + dropped
  {
    forall x ensures (down + up)[x] <= (after + (forgotten + dropped))[x] {
      assert (down + (multiset{n} + up))[x] <= (tracked + forgotten)[x];
      assert known ==> (after + dropped + multiset{n})[x] == tracked[x];
      assert !known ==> (after + dropped)[x] == tracked[x];
    }
    if !known {
      assert (down + (multiset{n} + up))[n] <= (tracked + forgotten)[n];
      assert (after + dropped)[n] == tracked[n];
    }
  }

  lemma {:induction false} FewerInFlight(s: System, t: System, gone: multiset<int>)
    requires Conserved(s)
    requires t.host.tracker == s.host.tracker && t.forgotten == s.forgotten
    requires DownSeqnos(s.down) + UpSeqnos(s.up) == DownSeqnos(t.down) + UpSeqnos(t.up) + gone
    requires forall m | m in t.up && m.Report? :: !Classify(m.data).AckPacket?
    ensures Conserved(t)
  {
    hide DownSeqnos, UpSeqnos, Seqnos, Classify;
  }

  lemma SendConserved(s: System, stamp: real)
    requires Buffered(s) && Numbered(s) && Conserved(s) && s.phase.Retrying? && stamp >= s.now
    ensures Conserved(Step(s, Send(stamp)))
  {
    hide Classify, Seqnos, DownSeqnos, UpSeqnos, Sent, Dropped, BufferLaw;
    var t := Step(s, Send(stamp));
    SentConserves(s.host.tracker, s.seqno, s.now, stamp);
    DownAppended(s.down, t.down[|s.down|]);
    SendBalance(DownSeqnos(s.down), UpSeqnos(s.up), s.seqno, Seqnos(s.host.tracker), s.forgotten,
                Seqnos(t.host.tracker), Expiring(s));
  }

  lemma AcceptConserved(s: System)
    requires Buffered(s) && Numbered(s) && Conserved(s) && s.down != []
    ensures Conserved(Step(s, MoteAccepts))
  {
    hide Classify, Seqnos, DownSeqnos, UpSeqnos, BufferLaw, ReplySeqno;
    var t := Step(s, MoteAccepts);
    var f := s.down[0];
    DownSplit(s.down, 0);
    assert s.down[..0] + s.down[1..] == t.down;
    UpAppended(s.up, Ack(f.seqno, f.write));
    ReplyOfAck(f.seqno, f.write);
    assert forall m | m in t.up :: m in s.up || m == Ack(f.seqno, f.write);
    MoveLast(DownSeqnos(t.down), multiset{f.seqno as int}, UpSeqnos(s.up));
    UnionAssociates(DownSeqnos(t.down), UpSeqnos(s.up), multiset{f.seqno as int});
    UnionAssociates(DownSeqnos(t.down), multiset{f.seqno as int}, UpSeqnos(s.up));
  }

  lemma LossConserved(s: System, a: Action)
    requires Buffered(s) && Numbered(s) && Conserved(s) && Enabled(s, a)
    requires a.LoseDown? || a.LoseUp?
    ensures Conserved(Step(s, a))
  {
    hide Classify, Seqnos, DownSeqnos, UpSeqnos, BufferLaw, ReplySeqno;
    var t := Step(s, a);
    if a.LoseDown? {
      DownSplit(s.down, a.i);
      MoveLast(DownSeqnos(t.down), multiset{s.down[a.i].seqno as int}, UpSeqnos(s.up));
      UnionAssociates(DownSeqnos(t.down), multiset{s.down[a.i].seqno as int}, UpSeqnos(s.up));
      FewerInFlight(s, t, multiset{s.down[a.i].seqno as int});
    } else {
      UpSplit(s.up, a.i);
      assert forall m | m in t.up :: m in s.up;
      FewerInFlight(s, t, ReplySeqno(s.up[a.i]));
    }
  }

  lemma HearConserved(s: System)
    requires Buffered(s) && Numbered(s) && Conserved(s) && s.up != []
    ensures Conserved(Hearing(s))
  {
    hide Classify, Seqnos, DownSeqnos, UpSeqnos, Hear, Dropped, BufferLaw;
    if s.up[0].Ack? {
      HearAckConserved(s);
    } else {
      HearTracker(s.host, s.qsize, Raw(s.up[0]), s.now, s.seqno);
      assert s.up[0] in s.up;
      FirstGone(s, Hearing(s));
    }
  }

  lemma ReadConserved(s: System)
    requires Buffered(s) && Numbered(s) && Conserved(s) && (s.host.inQueue != [] || s.up != [])
    ensures Conserved(Reading(s))
  {
    hide Classify, Seqnos, DownSeqnos, UpSeqnos, Accept, BufferLaw;
    if s.host.inQueue == [] {
      FirstGone(s, Reading(s));
    }
  }

  lemma ConservedStep(s: System, a: Action)
    requires Buffered(s) && Numbered(s) && Enabled(s, a) && Conserved(s)
    ensures Conserved(Step(s, a))
  {
    hide Classify, Seqnos, DownSeqnos, UpSeqnos, BufferLaw, HandedLaw, Hear, HearIdle, Sent, Dropped, Accept, Acked;
    match a
    case Send(stamp) => SendConserved(s, stamp);
    case MoteAccepts => AcceptConserved(s);
    case LoseDown(i) => LossConserved(s, a);
    case LoseUp(i) => LossConserved(s, a);
    case MoteReports(data) =>
      var t := Step(s, a);
      UpAppended(s.up, Report(data));
      assert forall m | m in t.up :: m in s.up || m == Report(data);
    case HearNext => HearConserved(s);
    case ReadNext => ReadConserved(s);
    case _ =>
  }

  lemma ReplyOfAck(seqno: Byte, write: nat)
    ensures ReplySeqno(Ack(seqno, write)) == multiset{seqno as int}
  {
  }

  lemma SendBalance(down: multiset<int>, up: multiset<int>, n: int, tracked: multiset<int>, forgotten: multiset<int>,
                    after: multiset<int>, dropped: multiset<int>)
    requires down + up <= tracked + forgotten
    requires after + dropped == tracked + multiset{n}
    ensures (down + multiset{n}) + up <= after + (forgotten + dropped)
  {
    forall x ensures ((down + multiset{n}) + up)[x] <= (after + (forgotten + dropped))[x] {
      assert (down + up)[x] <= (tracked + forgotten)[x];
      assert (after + dropped)[x] == (tracked + multiset{n})[x];
    }
  }

  lemma FirstGone(s: System, t: System)
    requires Conserved(s) && s.up != [] && t.up == s.up[1..] && t.down == s.down
    requires t.host.tracker == s.host.tracker && t.forgotten == s.forgotten
    ensures Conserved(t)
  {
    hide DownSeqnos, UpSeqnos, ReplySeqno, Classify, Seqnos;
    UpSplit(s.up, 0);
    assert s.up[..0] + s.up[1..] == t.up;
    assert forall m | m in t.up :: m in s.up;
    FewerInFlight(s, t, ReplySeqno(s.up[0]));
  }

  // ---------- Which write a frame and an acknowledgement belong to ----------

  function LastWritten(s: System): nat {
    if s.written == [] then 0 else s.written[|s.written| - 1]
  }

  /** The oldest write of which anything can be in flight: the last that returned True, or the first of all. */
  function OldestLive(s: System): nat {
    if LastWritten(s) == 0 then 1 else LastWritten(s)
  }

  /** Fewer than a hundred writes were started since then. */
  predicate Recent(s: System) {
    |s.payloads| - OldestLive(s) < 100
  }

  predicate Stamp(seqno: Byte, write: nat, payloads: seq<Content>) {
    1 <= write <= |payloads| && seqno as int == write % 100
  }

  predicate MoteHas(accepted: seq<Acceptance>, write: nat) {
    exists k :: 0 <= k < |accepted| && accepted[k].write == write
  }

  /** Every frame and acknowledgement carries its write's number, and its payload or proof of acceptance. */
  predicate LabelLaw(down: seq<Outgoing>, up: seq<Incoming>, accepted: seq<Acceptance>, payloads: seq<Content>) {
    && (forall i | 0 <= i < |down| ::
          Stamp(down[i].seqno, down[i].write, payloads) && down[i].payload == payloads[down[i].write - 1])
    && (forall i | 0 <= i < |up| && up[i].Ack? ::
          Stamp(up[i].seqno, up[i].write, payloads) && MoteHas(accepted, up[i].write))
    && (forall i | 0 <= i < |accepted| ::
          1 <= accepted[i].write <= |payloads| && accepted[i].payload == payloads[accepted[i].write - 1])
  }

  /** What is in flight, oldest first, is in the order of the writes, and so is what was accepted. */
  predicate OrderLaw(down: seq<Outgoing>, up: seq<Incoming>, accepted: seq<Acceptance>) {
    && (forall i, j | 0 <= i < j < |down| :: down[i].write <= down[j].write)
    && (forall i, j | 0 <= i < j < |up| && up[i].Ack? && up[j].Ack? :: up[i].write <= up[j].write)
    && (forall i, j | 0 <= i < |up| && up[i].Ack? && 0 <= j < |down| :: up[i].write <= down[j].write)
    && (forall i, j | 0 <= i < j < |accepted| :: accepted[i].write <= accepted[j].write)
    && (forall i, j | 0 <= i < |accepted| && 0 <= j < |down| :: accepted[i].write <= down[j].write)
  }

  predicate Labelled(s: System) {
    LabelLaw(s.down, s.up, s.accepted, s.payloads) && OrderLaw(s.down, s.up, s.accepted)
  }

  lemma MoteKeeps(accepted: seq<Acceptance>, a: Acceptance)
    ensures forall w | MoteHas(accepted, w) :: MoteHas(accepted + [a], w)
    ensures MoteHas(accepted + [a], a.write)
  {
    assert (accepted + [a])[|accepted|] == a;
    forall w | MoteHas(accepted, w) ensures MoteHas(accepted + [a], w) {
      var k :| 0 <= k < |accepted| && accepted[k].write == w;
      assert (accepted + [a])[k].write == w;
    }
  }

  lemma LabelsOfStart(down: seq<Outgoing>, up: seq<Incoming>, accepted: seq<Acceptance>,
                      payloads: seq<Content>, p: Content)
    requires LabelLaw(down, up, accepted, payloads)
    ensures LabelLaw(down, up, accepted, payloads + [p])
  {
    hide MoteHas;
  }

  lemma LabelsOfSend(down: seq<Outgoing>, up: seq<Incoming>, accepted: seq<Acceptance>,
                     payloads: seq<Content>, f: Outgoing)
    requires LabelLaw(down, up, accepted, payloads) && OrderLaw(down, up, accepted)
    requires Stamp(f.seqno, f.write, payloads) && f.write == |payloads| && f.payload == payloads[f.write - 1]
    ensures LabelLaw(down + [f], up, accepted, payloads) && OrderLaw(down + [f], up, accepted)
  {
    hide MoteHas;
  }

  lemma LabelsOfAccept(down: seq<Outgoing>, up: seq<Incoming>, accepted: seq<Acceptance>, payloads: seq<Content>)
    requires down != [] && LabelLaw(down, up, accepted, payloads) && OrderLaw(down, up, accepted)
    ensures
      var f := down[0];
      var more := accepted + [Acceptance(f.write, f.payload)];
      LabelLaw(down[1..], up + [Ack(f.seqno, f.write)], more, payloads)
      && OrderLaw(down[1..], up + [Ack(f.seqno, f.write)], more)
  {
    hide MoteHas;
    MoteKeeps(accepted, Acceptance(down[0].write, down[0].payload));
  }

  lemma LabelsOfLostFrame(down: seq<Outgoing>, up: seq<Incoming>, accepted: seq<Acceptance>, payloads: seq<Content>,
                          i: nat, rest: seq<Outgoing>)
    requires LabelLaw(down, up, accepted, payloads) && OrderLaw(down, up, accepted)
    requires i < |down| && rest == down[..i] + down[i + 1..]
    ensures LabelLaw(rest, up, accepted, payloads) && OrderLaw(rest, up, accepted)
  {
    hide MoteHas, Stamp;
    assert forall j | 0 <= j < |rest| :: rest[j] == if j < i then down[j] else down[j + 1];
  }

  lemma LabelsOfLostReply(down: seq<Outgoing>, up: seq<Incoming>, accepted: seq<Acceptance>, payloads: seq<Content>,
                          i: nat, rest: seq<Incoming>)
    requires LabelLaw(down, up, accepted, payloads) && OrderLaw(down, up, accepted)
    requires i < |up| && rest == up[..i] + up[i + 1..]
    ensures LabelLaw(down, rest, accepted, payloads) && OrderLaw(down, rest, accepted)
  {
    hide MoteHas, Stamp;
    assert forall j | 0 <= j < |rest| :: rest[j] == if j < i then up[j] else up[j + 1];
  }

  lemma LabelsOfReport(down: seq<Outgoing>, up: seq<Incoming>, accepted: seq<Acceptance>,
                       payloads: seq<Content>, data: Content)
    requires LabelLaw(down, up, accepted, payloads) && OrderLaw(down, up, accepted)
    ensures LabelLaw(down, up + [Report(data)], accepted, payloads) && OrderLaw(down, up + [Report(data)], accepted)
  {
    hide MoteHas;
    var r := up + [Report(data)];
    assert forall j | 0 <= j < |r| && r[j].Ack? :: j < |up| && r[j] == up[j];
  }

  lemma LabelledStep(s: System, a: Action)
    requires Buffered(s) && Numbered(s) && Enabled(s, a) && Labelled(s)
    ensures Labelled(Step(s, a))
  {
    hide LabelLaw, OrderLaw, Classify, Hear, HearIdle, Sent, Dropped, BufferLaw, Seqnos;
    match a
    case StartWrite(payload) => LabelsOfStart(s.down, s.up, s.accepted, s.payloads, payload);
    case Send(_) =>
      LabelsOfSend(s.down, s.up, s.accepted, s.payloads,
                   Outgoing(ByteOf(s.seqno), s.payloads[|s.payloads| - 1], |s.payloads|));
    case MoteAccepts => LabelsOfAccept(s.down, s.up, s.accepted, s.payloads);
    case LoseDown(i) => LabelsOfLostFrame(s.down, s.up, s.accepted, s.payloads, i, Step(s, a).down);
    case LoseUp(i) => LabelsOfLostReply(s.down, s.up, s.accepted, s.payloads, i, Step(s, a).up);
    case MoteReports(data) => LabelsOfReport(s.down, s.up, s.accepted, s.payloads, data);
    case HearNext =>
      LabelsOfLostReply(s.down, s.up, s.accepted, s.payloads, 0, s.up[1..]);
    case ReadNext =>
      if s.host.inQueue == [] {
        LabelsOfLostReply(s.down, s.up, s.accepted, s.payloads, 0, s.up[1..]);
      }
    case _ =>
  }

  // ---------- Safety of the acknowledged write ----------

  /** Nothing in flight is older than the last write that returned True. */
  predicate FreshLaw(last: nat, down: seq<Outgoing>, up: seq<Incoming>) {
    && (forall i | 0 <= i < |down| :: last <= down[i].write)
    && (forall i | 0 <= i < |up| && up[i].Ack? :: last <= up[i].write)
  }

  /** Every write that returned True was accepted, and nothing older is still in flight. */
  predicate Safe(s: System) {
    && FreshLaw(LastWritten(s), s.down, s.up)
    && WrittenLaw(s.written, s.accepted, |s.payloads|)
  }

  lemma HearFirstAck(s: System)
    requires Buffered(s) && Numbered(s) && Labelled(s) && Conserved(s) && Safe(s) && Recent(s)
    requires s.phase.Waiting? && s.up != []
    requires Hear(s.host, s.qsize, Raw(s.up[0]), s.now, s.seqno).1.GotAck?
    ensures s.up[0] == Ack(s.up[0].seqno, |s.payloads|) && MoteHas(s.accepted, |s.payloads|)
  {
    hide Classify, Acked, Hear, Seqnos, DownSeqnos, UpSeqnos, BufferLaw, MoteHas;
    HearTracker(s.host, s.qsize, Raw(s.up[0]), s.now, s.seqno);
    assert s.up[0] in s.up;
    assert s.up[0].Ack?;
    AckClassified(s.up[0].seqno);
    SameNumberSameWrite(s.up[0].write, |s.payloads|, OldestLive(s));
  }

  lemma SameNumberSameWrite(older: nat, newer: nat, last: nat)
    requires last <= older <= newer && newer - last < 100 && older % 100 == newer % 100
    ensures older == newer
  {
  }

  lemma FreshOfLostFrame(last: nat, down: seq<Outgoing>, up: seq<Incoming>, i: nat)
    requires FreshLaw(last, down, up) && i < |down|
    ensures FreshLaw(last, down[..i] + down[i + 1..], up)
  {
    var rest := down[..i] + down[i + 1..];
    assert forall j | 0 <= j < |rest| :: rest[j] == if j < i then down[j] else down[j + 1];
  }

  lemma FreshOfLostReply(last: nat, down: seq<Outgoing>, up: seq<Incoming>, i: nat, rest: seq<Incoming>)
    requires FreshLaw(last, down, up) && i < |up| && rest == up[..i] + up[i + 1..]
    ensures FreshLaw(last, down, rest)
  {
    assert forall j | 0 <= j < |rest| :: rest[j] == if j < i then up[j] else up[j + 1];
  }

  lemma FreshOfMore(last: nat, down: seq<Outgoing>, up: seq<Incoming>)
    requires FreshLaw(last, down, up)
    ensures forall f: Outgoing | last <= f.write :: FreshLaw(last, down + [f], up)
    ensures down != [] ==> FreshLaw(last, down[1..], up + [Ack(down[0].seqno, down[0].write)])
    ensures forall data :: FreshLaw(last, down, up + [Report(data)])
  {
  }

  predicate WrittenLaw(written: seq<nat>, accepted: seq<Acceptance>, n: nat) {
    forall i | 0 <= i < |written| :: 1 <= written[i] <= n && MoteHas(accepted, written[i])
  }

  lemma SafeHear(s: System)
    requires Buffered(s) && Numbered(s) && Labelled(s) && Conserved(s) && Safe(s) && Recent(s)
    requires s.phase.Waiting? && s.up != []
    ensures Safe(Hearing(s))
  {
    hide Classify, Hear, Dropped, BufferLaw, Seqnos, MoteHas, DownSeqnos, UpSeqnos, LabelLaw, OrderLaw, FreshLaw;
    FreshOfLostReply(LastWritten(s), s.down, s.up, 0, s.up[1..]);
    if Hear(s.host, s.qsize, Raw(s.up[0]), s.now, s.seqno).1.GotAck? {
      HearFirstAck(s);
      FreshAfter(s);
    }
  }

  lemma SafeStep(s: System, a: Action)
    requires Buffered(s) && Numbered(s) && Labelled(s) && Conserved(s) && Safe(s) && Recent(s) && Enabled(s, a)
    ensures Safe(Step(s, a))
  {
    hide Classify, Hear, HearIdle, Sent, Dropped, BufferLaw, Seqnos, MoteHas, DownSeqnos, UpSeqnos, LabelLaw, OrderLaw,
         FreshLaw;
    var t, last := Step(s, a), LastWritten(s);
    FreshOfMore(last, s.down, s.up);
    match a
    case MoteAccepts =>
      MoteKeeps(s.accepted, Acceptance(s.down[0].write, s.down[0].payload));
    case Send(_) =>
      LastIsStarted(s);
    case LoseDown(i) => FreshOfLostFrame(last, s.down, s.up, i);
    case LoseUp(i) => FreshOfLostReply(last, s.down, s.up, i, t.up);
    case HearNext => SafeHear(s);
    case ReadNext =>
      if s.host.inQueue == [] {
        FreshOfLostReply(last, s.down, s.up, 0, t.up);
      }
    case _ =>
  }

  lemma LastIsStarted(s: System)
    requires Safe(s)
    ensures LastWritten(s) <= |s.payloads|
  {
  }

  /** What is behind an acknowledgement in the line is no older. */
  lemma FreshAfter(s: System)
    requires Labelled(s) && s.up != [] && s.up[0].Ack?
    ensures FreshLaw(s.up[0].write, s.down, s.up[1..])
  {
  }

  // ---------- Whole runs ----------

  predicate Sound(s: System) {
    Buffered(s) && Numbered(s) && Conserved(s) && Labelled(s)
  }

  lemma SoundStep(s: System, a: Action)
    requires Sound(s) && Enabled(s, a)
    ensures Sound(Step(s, a))
  {
    hide Buffered, Numbered, Conserved, Labelled, Enabled;
    BufferedStep(s, a);
    NumberedStep(s, a);
    ConservedStep(s, a);
    LabelledStep(s, a);
  }

  lemma SoundInit(qsize: nat, now: real)
    ensures Sound(Init(qsize, now)) && Safe(Init(qsize, now))
  {
  }

  /** A run: each action enabled where it is taken. */
  ghost predicate Runs(s: System, actions: seq<Action>, t: System)
    decreases |actions|
  {
    if actions == [] then t == s
    else Enabled(s, actions[0]) && Runs(Step(s, actions[0]), actions[1..], t)
  }

  /** A property of every state a run passes through, its last included. */
  ghost predicate Throughout(s: System, actions: seq<Action>, p: System -> bool)
    decreases |actions|
  {
    && p(s)
    && (actions != [] && Enabled(s, actions[0]) ==> Throughout(Step(s, actions[0]), actions[1..], p))
  }

  lemma {:induction false} SoundThroughout(s: System, actions: seq<Action>, t: System)
    requires Sound(s) && Runs(s, actions, t)
    ensures Sound(t)
    decreases |actions|
  {
    hide Buffered, Numbered, Conserved, Labelled, Step, Enabled;
    if actions != [] {
      SoundStep(s, actions[0]);
      SoundThroughout(Step(s, actions[0]), actions[1..], t);
    }
  }

  lemma {:induction false} SafeThroughout(s: System, actions: seq<Action>, t: System)
    requires Sound(s) && Safe(s) && Runs(s, actions, t) && Throughout(s, actions, Recent)
    ensures Safe(t)
    decreases |actions|
  {
    hide Safe, Step, Enabled, Buffered, Numbered, Conserved, Labelled, Recent;
    if actions != [] {
      SoundStep(s, actions[0]);
      SafeStep(s, actions[0]);
      SafeThroughout(Step(s, actions[0]), actions[1..], t);
    }
  }

  /**
    Safety of the acknowledged write: in any run from the start in which fewer than a
    hundred writes are ever started after the last that returned True, every write that
    returned True was accepted by the mote, in a frame carrying exactly its payload.
    */
  lemma WrittenMeansAccepted(qsize: nat, now: real, actions: seq<Action>, t: System, i: nat)
    requires Runs(Init(qsize, now), actions, t)
    requires Throughout(Init(qsize, now), actions, Recent)
    requires i < |t.written|
    ensures 1 <= t.written[i] <= |t.payloads|
    ensures Acceptance(t.written[i], t.payloads[t.written[i] - 1]) in t.accepted
  {
    hide Throughout, Runs, Init, Classify, DownSeqnos, UpSeqnos, Seqnos, BufferLaw;
    SoundInit(qsize, now);
    SafeThroughout(Init(qsize, now), actions, t);
    SoundThroughout(Init(qsize, now), actions, t);
    var k :| 0 <= k < |t.accepted| && t.accepted[k].write == t.written[i];
    assert t.accepted[k] == Acceptance(t.written[i], t.payloads[t.written[i] - 1]);
  }

  /** In every run, retries and losses included, the mote accepts writes in the order they were started. */
  lemma AcceptedInOrder(qsize: nat, now: real, actions: seq<Action>, t: System, i: nat, j: nat)
    requires Runs(Init(qsize, now), actions, t)
    requires i < j < |t.accepted|
    ensures 1 <= t.accepted[i].write <= t.accepted[j].write <= |t.payloads|
    ensures t.accepted[i].payload == t.payloads[t.accepted[i].write - 1]
  {
    hide Runs, Init, Classify, DownSeqnos, UpSeqnos, Seqnos, BufferLaw, MoteHas;
    SoundInit(qsize, now);
    SoundThroughout(Init(qsize, now), actions, t);
  }

  lemma {:induction false} SizeThroughout(s: System, actions: seq<Action>, t: System)
    requires Runs(s, actions, t)
    ensures t.qsize == s.qsize
    decreases |actions|
  {
    hide Classify, Hear, HearIdle, Sent, Dropped, BufferLaw, Seqnos, LabelLaw, OrderLaw, Conserved;
    if actions != [] {
      SizeThroughout(Step(s, actions[0]), actions[1..], t);
    }
  }

  /**
    In every run, with a buffer of any size: the packets read has handed out, and those
    overflow pushed out, are the arrivals at certain positions, each at most once and in
    order; the buffer is exactly the rest.
    */
  lemma ReceiveBufferConserves(qsize: nat, now: real, actions: seq<Action>, t: System)
    requires Runs(Init(qsize, now), actions, t)
    ensures |t.host.inQueue| <= qsize
    ensures |t.delivered| + |t.overflowed| <= |t.arrivals|
    ensures t.host.inQueue == t.arrivals[|t.delivered| + |t.overflowed|..]
    ensures Ascending(t.delivered) && Ascending(t.overflowed)
    ensures forall x | 0 <= x < |t.delivered| + |t.overflowed| :: x in t.delivered <==> x !in t.overflowed
    ensures |t.handed| == |t.delivered|
    ensures forall i | 0 <= i < |t.handed| :: t.delivered[i] < |t.arrivals| && t.handed[i] == t.arrivals[t.delivered[i]]
  {
    hide Runs, Conserved, Labelled, Numbered, BufferLaw, Ascending;
    SoundInit(qsize, now);
    SoundThroughout(Init(qsize, now), actions, t);
    SizeThroughout(Init(qsize, now), actions, t);
    BufferShares(t.qsize, t.host.inQueue, t.arrivals, t.delivered, t.overflowed);
  }

  lemma BufferShares(qsize: nat, q: seq<Content>, arrivals: seq<Content>, delivered: seq<nat>, overflowed: seq<nat>)
    requires BufferLaw(qsize, q, arrivals, delivered, overflowed)
    ensures |q| <= qsize && |delivered| + |overflowed| <= |arrivals|
    ensures q == arrivals[|delivered| + |overflowed|..]
    ensures Ascending(delivered) && Ascending(overflowed)
    ensures forall x | 0 <= x < |delivered| + |overflowed| :: x in delivered <==> x !in overflowed
  {
    Complementary(delivered, overflowed, |delivered| + |overflowed|);
  }

  predicate Below(a: seq<nat>, n: nat) {
    forall i | 0 <= i < |a| :: a[i] < n
  }

  predicate Apart(a: seq<nat>, b: seq<nat>) {
    forall i, j | 0 <= i < |a| && 0 <= j < |b| :: a[i] != b[j]
  }

  lemma {:induction false} AtMost(a: seq<nat>, b: seq<nat>, n: nat)
    requires Ascending(a) && Ascending(b) && Below(a, n) && Below(b, n) && Apart(a, b)
    ensures |a| + |b| <= n
    decreases n
  {
    if a != [] && a[|a| - 1] == n - 1 {
      AtMost(a[..|a| - 1], b, n - 1);
    } else if b != [] && b[|b| - 1] == n - 1 {
      AtMost(a, b[..|b| - 1], n - 1);
    } else if n > 0 {
      AtMost(a, b, n - 1);
    }
  }

  /** Two ascending lists without a common member, n long together, share out the numbers below n. */
  lemma {:induction false} Complementary(a: seq<nat>, b: seq<nat>, n: nat)
    requires Ascending(a) && Ascending(b) && Below(a, n) && Below(b, n) && Apart(a, b)
    requires |a| + |b| == n
    ensures forall x | 0 <= x < n :: x in a <==> x !in b
    decreases n
  {
    if n > 0 {
      if a != [] && a[|a| - 1] == n - 1 {
        var a' := a[..|a| - 1];
        Complementary(a', b, n - 1);
        assert a == a' + [n - 1];
      } else if b != [] && b[|b| - 1] == n - 1 {
        var b' := b[..|b| - 1];
        Complementary(a, b', n - 1);
        assert b == b' + [n - 1];
      } else {
        AtMost(a, b, n - 1);
      }
    }
  }

  // ---------- When acknowledgements are unknown ----------

  predicate Unexpired(s: System) {
    forall i | 0 <= i < |s.host.tracker| :: s.host.tracker[i].sentAt >= s.now - KEEP_FOR
  }

  lemma NothingExpires(s: System)
    requires Unexpired(s)
    ensures Expiring(s) == multiset{}
  {
    assert Dropped(s.host.tracker, 0, s.now - KEEP_FOR) == [];
  }

  lemma NoneForgottenStep(s: System, a: Action)
    requires Sound(s) && Enabled(s, a) && Unexpired(s) && s.forgotten == multiset{}
    ensures Step(s, a).forgotten == multiset{}
  {
    hide Unexpired, Expiring, Conserved, Labelled, Classify, Hear, HearIdle, Sent, BufferLaw;
    NothingExpires(s);
  }

  lemma {:induction false} NoneForgotten(s: System, actions: seq<Action>, t: System)
    requires Sound(s) && Runs(s, actions, t) && Throughout(s, actions, Unexpired) && s.forgotten == multiset{}
    ensures t.forgotten == multiset{}
    decreases |actions|
  {
    hide Buffered, Numbered, Conserved, Labelled, Step, Enabled, Unexpired;
    if actions != [] {
      SoundStep(s, actions[0]);
      NoneForgottenStep(s, actions[0]);
      NoneForgotten(Step(s, actions[0]), actions[1..], t);
    }
  }

  /**
    In any run the host calls an acknowledgement unknown only after the tracker has
    forgotten an entry with its number as expired; if nothing ever expires, it never does.
    */
  lemma UnknownMeansForgotten(qsize: nat, now: real, actions: seq<Action>, t: System)
    requires Runs(Init(qsize, now), actions, t)
    requires t.up != [] && Hear(t.host, t.qsize, Raw(t.up[0]), t.now, t.seqno).1.BadAck?
    ensures t.up[0].Ack? && (t.up[0].seqno as int) in t.forgotten + Expiring(t)
    ensures !Throughout(Init(qsize, now), actions, Unexpired)
  {
    hide Runs, Throughout, Init, Classify, Hear, Seqnos, DownSeqnos, UpSeqnos, Acked, BufferLaw, LabelLaw, OrderLaw;
    var s := Init(qsize, now);
    SoundInit(qsize, now);
    SoundThroughout(s, actions, t);
    HearTracker(t.host, t.qsize, Raw(t.up[0]), t.now, t.seqno);
    assert t.up[0] in t.up;
    AckClassified(t.up[0].seqno);
    HearAckConserved(t);
    assert Hearing(t).forgotten == t.forgotten + Expiring(t);
    if Throughout(s, actions, Unexpired) {
      assert s.forgotten == multiset{} by { NothingForgottenYet(qsize, now); }
      NoneForgotten(s, actions, t);
      LastOfThroughout(s, actions, t, Unexpired);
      NothingExpires(t);
    }
  }

  lemma NothingForgottenYet(qsize: nat, now: real)
    ensures Init(qsize, now).forgotten == multiset{}
  {
  }

  lemma {:induction false} LastOfThroughout(s: System, actions: seq<Action>, t: System, p: System -> bool)
    requires Runs(s, actions, t) && Throughout(s, actions, p)
    ensures p(t)
    decreases |actions|
  {
    hide Buffered, Numbered, Conserved, Labelled, Step, Enabled;
    if actions != [] {
      LastOfThroughout(Step(s, actions[0]), actions[1..], t, p);
    }
  }

  // ---------- The bound of a hundred writes is exact ----------

  predicate WithinHundred(s: System) {
    |s.payloads| - OldestLive(s) <= 100
  }

  /** A run can be continued by any enabled action. */
  lemma {:induction false} Extend(s: System, actions: seq<Action>, t: System, a: Action) returns (more: seq<Action>)
    requires Sound(s) && Runs(s, actions, t) && Throughout(s, actions, WithinHundred)
    requires Enabled(t, a) && Sound(t) && WithinHundred(Step(t, a))
    ensures Runs(s, more, Step(t, a)) && Throughout(s, more, WithinHundred) && Sound(Step(t, a))
    ensures more == actions + [a]
    decreases |actions|
  {
    hide Buffered, Numbered, Conserved, Labelled, Step, Enabled, WithinHundred;
    SoundStep(t, a);
    more := actions + [a];
    if actions == [] {
      assert more[1..] == [];
      assert Throughout(s, [], WithinHundred);
      assert Runs(Step(s, a), [], Step(t, a));
    } else {
      SoundStep(s, actions[0]);
      var rest := Extend(Step(s, actions[0]), actions[1..], t, a);
      assert more[1..] == rest;
    }
  }

  lemma YoungSurvive(queue: seq<Entry>, now: real)
    requires forall i | 0 <= i < |queue| :: queue[i].sentAt == now
    ensures Gc(queue, 0, now - KEEP_FOR) == queue && Dropped(queue, 0, now - KEEP_FOR) == []
  {
  }

  /** The host hears an acknowledgement of the number it waits for, which it has just sent. */
  lemma HearOwnNumber(s: System)
    requires Buffered(s) && s.up != [] && s.up[0].Ack? && s.up[0].seqno as int == s.seqno
    requires forall i | 0 <= i < |s.host.tracker| :: s.host.tracker[i] == Entry(s.seqno, s.now)
    requires s.host.tracker != []
    ensures Hearing(s) == s.(host := s.host.(tracker := s.host.tracker[1..]), up := s.up[1..],
                             phase := Idle, written := s.written + [|s.payloads|])
  {
    hide Gc, Dropped, Classify, BufferLaw;
    AckClassified(s.up[0].seqno);
    YoungSurvive(s.host.tracker, s.now);
    assert s.host.tracker[0].seqno == s.seqno;
    assert IndexOf(s.host.tracker, s.seqno) == 0;
    assert s.host.tracker[..0] + s.host.tracker[1..] == s.host.tracker[1..];
    assert Expiring(s) == multiset{};
    assert s.forgotten + multiset{} == s.forgotten;
  }

  /** Sending once more, when all that is tracked is young. */
  lemma SendYoung(s: System)
    requires Buffered(s) && Numbered(s) && s.phase.Retrying?
    requires forall i | 0 <= i < |s.host.tracker| :: s.host.tracker[i] == Entry(s.seqno, s.now)
    ensures Enabled(s, Send(s.now))
    ensures Step(s, Send(s.now))
         == s.(phase := Waiting,
               host := s.host.(tracker := s.host.tracker + [Entry(s.seqno, s.now)]),
               down := s.down + [Outgoing(ByteOf(s.seqno), s.payloads[|s.payloads| - 1], |s.payloads|)])
  {
    hide Gc, Dropped, BufferLaw, HandedLaw;
    YoungSurvive(s.host.tracker, s.now);
    assert Expiring(s) == multiset{};
    assert s.forgotten + multiset{} == s.forgotten;
  }

  /** A run so far, within the bound. */
  ghost predicate Reached(s: System, actions: seq<Action>, t: System) {
    Sound(s) && Runs(s, actions, t) && Throughout(s, actions, WithinHundred) && Sound(t)
  }

  lemma GoOn(s: System, actions: seq<Action>, t: System, a: Action) returns (more: seq<Action>)
    requires Reached(s, actions, t) && Enabled(t, a) && WithinHundred(Step(t, a))
    ensures Reached(s, more, Step(t, a))
  {
    hide Sound, Runs, Throughout, Enabled, Step, WithinHundred;
    more := Extend(s, actions, t, a);
  }

  /** The start of the first write, with its frame on the line. */
  function FirstSent(qsize: nat, now: real, payload: Content): System {
    Init(qsize, now).(
      host := Host([Entry(1, now)], [], Printer([], [])), seqno := 1, phase := Waiting,
      down := [Outgoing(1, payload, 1)], payloads := [payload])
  }

  /** Its start alone. */
  function FirstStarted(qsize: nat, now: real, payload: Content): System {
    Init(qsize, now).(seqno := 1, phase := Retrying, payloads := [payload])
  }

  lemma StartFirst(qsize: nat, now: real, payload: Content)
    ensures Enabled(Init(qsize, now), StartWrite(payload))
    ensures Step(Init(qsize, now), StartWrite(payload)) == FirstStarted(qsize, now, payload)
    ensures WithinHundred(FirstStarted(qsize, now, payload)) && WithinHundred(FirstSent(qsize, now, payload))
  {
  }

  lemma SendStarted(qsize: nat, now: real, payload: Content)
    ensures Enabled(FirstStarted(qsize, now, payload), Send(now))
    ensures Step(FirstStarted(qsize, now, payload), Send(now)) == FirstSent(qsize, now, payload)
  {
    hide Buffered, Conserved, Labelled, Step, Enabled;
    var t := FirstStarted(qsize, now, payload);
    SoundInit(qsize, now);
    StartFirst(qsize, now, payload);
    SoundStep(Init(qsize, now), StartWrite(payload));
    SendYoung(t);
    assert t.host.tracker + [Entry(1, now)] == [Entry(1, now)];
    ByteOfOne();
  }

  lemma ByteOfOne()
    ensures ByteOf(1) == 1
  {
    ByteOfValue(1);
  }

  lemma SendFirst(qsize: nat, now: real, payload: Content) returns (actions: seq<Action>)
    ensures Reached(Init(qsize, now), actions, FirstSent(qsize, now, payload))
  {
    hide *;
    var s, t := Init(qsize, now), FirstStarted(qsize, now, payload);
    ReachedStart(qsize, now);
    StartFirst(qsize, now, payload);
    actions := GoOn(s, [], s, StartWrite(payload));
    SendStarted(qsize, now, payload);
    actions := GoOn(s, actions, t, Send(now));
  }

  lemma ReachedStart(qsize: nat, now: real)
    ensures Reached(Init(qsize, now), [], Init(qsize, now))
  {
    SoundInit(qsize, now);
  }

  lemma ReachedIsSound(s: System, actions: seq<Action>, t: System)
    requires Reached(s, actions, t)
    ensures Sound(t) && WithinHundred(t)
  {
    hide Sound, Step, Enabled, WithinHundred;
    LastOfThroughout(s, actions, t, WithinHundred);
  }

  /** The first write given up, its one acknowledgement unheard in the line. */
  function FirstUnheard(qsize: nat, now: real, payload: Content): System {
    FirstSent(qsize, now, payload).(
      phase := Idle, down := [], up := [Ack(1, 1)], accepted := [Acceptance(1, payload)])
  }

  lemma LeaveUnheard(qsize: nat, now: real, payload: Content) returns (actions: seq<Action>)
    ensures Reached(Init(qsize, now), actions, FirstUnheard(qsize, now, payload))
  {
    hide Sound, Reached;
    var s, t := Init(qsize, now), FirstSent(qsize, now, payload);
    actions := SendFirst(qsize, now, payload);
    actions := GoOn(s, actions, t, MoteAccepts);
    t := Step(t, MoteAccepts);
    assert t.down == [] && t.up == [Ack(1, 1)] && t.accepted == [Acceptance(1, payload)];
    actions := GoOn(s, actions, t, Abandon);
    t := Step(t, Abandon);
    actions := GoOn(s, actions, t, FailWrite);
    assert Step(t, FailWrite) == FirstUnheard(qsize, now, payload);
  }

  /** The first write sent twice and accepted twice. */
  function FirstTwice(qsize: nat, now: real, payload: Content): System {
    FirstSent(qsize, now, payload).(
      host := Host([Entry(1, now), Entry(1, now)], [], Printer([], [])),
      down := [], up := [Ack(1, 1), Ack(1, 1)],
      accepted := [Acceptance(1, payload), Acceptance(1, payload)])
  }

  lemma SendTwice(qsize: nat, now: real, payload: Content) returns (actions: seq<Action>)
    ensures Reached(Init(qsize, now), actions, FirstTwice(qsize, now, payload))
  {
    hide Buffered, Conserved, Labelled, Reached;
    var s, t := Init(qsize, now), FirstSent(qsize, now, payload);
    actions := SendFirst(qsize, now, payload);
    actions := GoOn(s, actions, t, Abandon);
    t := Step(t, Abandon);
    ReachedIsSound(s, actions, t);
    SendYoung(t);
    actions := GoOn(s, actions, t, Send(now));
    t := Step(t, Send(now));
    assert t.down == [Outgoing(1, payload, 1), Outgoing(1, payload, 1)];
    actions := GoOn(s, actions, t, MoteAccepts);
    t := Step(t, MoteAccepts);
    actions := GoOn(s, actions, t, MoteAccepts);
    assert Step(t, MoteAccepts) == FirstTwice(qsize, now, payload);
  }

  /** The first write returned True, with a second acknowledgement of it left in the line. */
  function FirstDuplicate(qsize: nat, now: real, payload: Content): System {
    FirstUnheard(qsize, now, payload).(
      written := [1], accepted := [Acceptance(1, payload), Acceptance(1, payload)])
  }

  lemma LeaveDuplicate(qsize: nat, now: real, payload: Content) returns (actions: seq<Action>)
    ensures Reached(Init(qsize, now), actions, FirstDuplicate(qsize, now, payload))
  {
    hide Buffered, Conserved, Labelled, Reached, Hearing;
    var s, t := Init(qsize, now), FirstTwice(qsize, now, payload);
    actions := SendTwice(qsize, now, payload);
    ReachedIsSound(s, actions, t);
    HearOwnNumber(t);
    assert Step(t, HearNext) == FirstDuplicate(qsize, now, payload);
    actions := GoOn(s, actions, t, HearNext);
  }

  /** k further writes whose time is up before they send anything. */
  lemma {:induction false} FailWrites(s: System, actions: seq<Action>, t: System, k: nat)
    returns (more: seq<Action>, u: System)
    requires Reached(s, actions, t)
    requires t.phase.Idle? && |t.payloads| + k - OldestLive(t) <= 100
    ensures Reached(s, more, u)
    ensures u == t.(seqno := u.seqno, payloads := u.payloads)
    ensures |u.payloads| == |t.payloads| + k
    decreases k
  {
    hide Sound, Reached;
    more, u := actions, t;
    if k > 0 {
      more := GoOn(s, more, u, StartWrite([]));
      u := Step(u, StartWrite([]));
      more := GoOn(s, more, u, FailWrite);
      u := Step(u, FailWrite);
      more, u := FailWrites(s, more, u, k - 1);
    }
  }

  /** A hundred writes after the first, an acknowledgement of the first answers for the last. */
  lemma HundredLater(s: System, actions: seq<Action>, t: System, last: Content) returns (more: seq<Action>, u: System)
    requires Reached(s, actions, t) && t.phase.Idle? && |t.payloads| == 1 && t.up == [Ack(1, 1)] && t.down == []
    requires t.host.tracker == [Entry(1, t.now)] && OldestLive(t) == 1 && !MoteHas(t.accepted, 101)
    ensures Reached(s, more, u)
    ensures |u.payloads| == 101 && u.payloads[100] == last && u.written == t.written + [101]
    ensures !MoteHas(u.accepted, 101)
  {
    hide Buffered, Conserved, Labelled, Reached, Hearing, MoteHas;
    more, u := FailWrites(s, actions, t, 99);
    more := GoOn(s, more, u, StartWrite(last));
    u := Step(u, StartWrite(last));
    ReachedIsSound(s, more, u);
    SendYoung(u);
    more := GoOn(s, more, u, Send(u.now));
    u := Step(u, Send(u.now));
    assert u.host.tracker == [Entry(1, t.now), Entry(1, t.now)];
    ReachedIsSound(s, more, u);
    HearOwnNumber(u);
    more := GoOn(s, more, u, HearNext);
    u := Step(u, HearNext);
  }

  /**
    With a hundred writes started since the last that returned True, the guarantee
    fails: an acknowledgement left over from that one answers to the same number, and
    the write returns True though the mote never saw its payload.
    */
  lemma HundredIsTooMany(qsize: nat, now: real, first: Content, last: Content) returns (actions: seq<Action>, t: System)
    ensures Runs(Init(qsize, now), actions, t) && Throughout(Init(qsize, now), actions, WithinHundred)
    ensures |t.payloads| == 101 && t.payloads[100] == last && t.written == [1, 101]
    ensures !MoteHas(t.accepted, 101)
  {
    hide Sound, Runs, Throughout;
    actions := LeaveDuplicate(qsize, now, first);
    actions, t := HundredLater(Init(qsize, now), actions, FirstDuplicate(qsize, now, first), last);
  }

  /** Before any write has returned True the first takes the place of the last that did, with the same bound. */
  lemma HundredAndOneWithout(qsize: nat, now: real, first: Content, last: Content)
    returns (actions: seq<Action>, t: System)
    ensures Runs(Init(qsize, now), actions, t) && Throughout(Init(qsize, now), actions, WithinHundred)
    ensures |t.payloads| == 101 && t.payloads[100] == last && t.written == [101]
    ensures !MoteHas(t.accepted, 101)
  {
    hide Sound, Runs, Throughout;
    actions := LeaveUnheard(qsize, now, first);
    actions, t := HundredLater(Init(qsize, now), actions, FirstUnheard(qsize, now, first), last);
  }

  /**
    On a line with nothing left over, one attempt that loses nothing ends the write: it
    returns True and the mote has its payload, whatever the tracker still holds.
    */
  lemma CleanExchange(s: System, stamp: real)
    requires Sound(s) && s.phase.Retrying? && s.payloads != [] && s.down == [] && s.up == [] && stamp >= s.now
    ensures
      var t := Step(Step(Step(s, Send(stamp)), MoteAccepts), HearNext);
      var n := |s.payloads|;
      && t.phase.Idle? && t.up == [] && t.down == []
      && t.written == s.written + [n]
      && t.accepted == s.accepted + [Acceptance(n, s.payloads[n - 1])]
  {
    hide Buffered, Conserved, Labelled, Gc, Dropped, Classify, Hear;
    SoundStep(s, Send(stamp));
    var t := Step(s, Send(stamp));
    SoundStep(t, MoteAccepts);
    var u := Step(t, MoteAccepts);
    HearTracker(u.host, u.qsize, Raw(u.up[0]), u.now, u.seqno);
    AckClassified(u.up[0].seqno);
    assert Entry(s.seqno, stamp) in u.host.tracker by {
      assert u.host.tracker[|u.host.tracker| - 1] == Entry(s.seqno, stamp);
    }
    KnownWhileYoung(u.host.tracker, s.seqno, stamp);
  }

  // ---------- Hearing, without its history ----------

  lemma HearingMeans(s: System)
    requires Buffered(s) && s.up != [] && s.phase.Waiting?
    ensures
      var (host, turn) := Hear(s.host, s.qsize, Raw(s.up[0]), s.now, s.seqno);
      var t := Hearing(s);
      && t.host == host && t.up == s.up[1..] && t.now == s.now && t.qsize == s.qsize
      && t.seqno == s.seqno && t.payloads == s.payloads
      && t.phase == AfterTurn(turn)
      && t.written == (if turn.GotAck? then s.written + [|s.payloads|] else s.written)
  {
    hide Hear, Classify, BufferLaw;
  }
}
