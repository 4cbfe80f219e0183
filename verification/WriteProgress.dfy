/**
  Progress of the acknowledged write. Whatever the line loses, a write sends no more often
  than there were packets on their way and attempts given up; and once nothing is lost or
  given up it ends with True, however many late acknowledgements come first.
  */
module WriteProgress {
  import opened Bytes
  import opened SeqTracking
  import opened SerialHost
  import opened StopAndWait

  // ---------- What is on its way ----------

  /** The numbers of the acknowledgements on their way to the host. */
  function Replies(up: seq<Incoming>): seq<int>
    decreases |up|
  {
    if up == [] then [] else (if up[0].Ack? then [up[0].seqno as int] else []) + Replies(up[1..])
  }

  function Numbers(down: seq<Outgoing>): (r: seq<int>)
    ensures |r| == |down|
    decreases |down|
  {
    if down == [] then [] else [down[0].seqno as int] + Numbers(down[1..])
  }

  /** The numbers the host will hear if nothing is lost and nothing more is sent, in order. */
  function Flow(s: System): seq<int> {
    Replies(s.up) + Numbers(s.down)
  }

  /** How many of the numbers are not n. */
  function Others(flow: seq<int>, n: int): (k: nat)
    ensures k <= |flow|
    decreases |flow|
  {
    if flow == [] then 0 else (if flow[0] == n then 0 else 1) + Others(flow[1..], n)
  }

  lemma RepliesFirst(up: seq<Incoming>)
    requires up != []
    ensures Replies(up) == (if up[0].Ack? then [up[0].seqno as int] else []) + Replies(up[1..])
  {
  }

  lemma {:induction false} RepliesJoin(a: seq<Incoming>, b: seq<Incoming>)
    ensures Replies(a + b) == Replies(a) + Replies(b)
    decreases |a|
  {
    if a == [] {
      assert a + b == b;
    } else {
      hide *;
      RepliesFirst(a);
      RepliesFirst(a + b);
      RepliesJoin(a[1..], b);
      assert (a + b)[1..] == a[1..] + b && (a + b)[0] == a[0];
      Together(if a[0].Ack? then [a[0].seqno as int] else [], Replies(a[1..]), Replies(b));
    }
  }

  lemma Together(x: seq<int>, y: seq<int>, z: seq<int>)
    ensures x + (y + z) == (x + y) + z
  {
  }

  lemma {:induction false} RepliesAreFew(up: seq<Incoming>)
    ensures |Replies(up)| <= |up|
    decreases |up|
  {
    if up != [] {
      RepliesAreFew(up[1..]);
    }
  }

  lemma RepliesAppend(up: seq<Incoming>, m: Incoming)
    ensures Replies(up + [m]) == Replies(up) + (if m.Ack? then [m.seqno as int] else [])
  {
    RepliesJoin(up, [m]);
    assert [m][1..] == [];
  }

  lemma NumbersFirst(down: seq<Outgoing>)
    requires down != []
    ensures Numbers(down) == [down[0].seqno as int] + Numbers(down[1..])
  {
  }

  lemma {:induction false} NumbersJoin(a: seq<Outgoing>, b: seq<Outgoing>)
    ensures Numbers(a + b) == Numbers(a) + Numbers(b)
    decreases |a|
  {
    if a == [] {
      assert a + b == b;
    } else {
      hide *;
      NumbersFirst(a);
      NumbersFirst(a + b);
      NumbersJoin(a[1..], b);
      assert (a + b)[1..] == a[1..] + b && (a + b)[0] == a[0];
      Together([a[0].seqno as int], Numbers(a[1..]), Numbers(b));
    }
  }

  lemma NumbersAppend(down: seq<Outgoing>, f: Outgoing)
    ensures Numbers(down + [f]) == Numbers(down) + [f.seqno as int]
  {
    NumbersJoin(down, [f]);
    assert [f][1..] == [];
  }

  lemma OthersFirst(flow: seq<int>, n: int)
    requires flow != []
    ensures Others(flow, n) == (if flow[0] == n then 0 else 1) + Others(flow[1..], n)
    ensures flow[0] != n && n in flow ==> n in flow[1..]
  {
  }

  lemma {:induction false} OthersJoin(a: seq<int>, b: seq<int>, n: int)
    ensures Others(a + b, n) == Others(a, n) + Others(b, n)
    decreases |a|
  {
    if a == [] {
      assert a + b == b;
    } else {
      hide Others;
      OthersFirst(a, n);
      OthersFirst(a + b, n);
      OthersJoin(a[1..], b, n);
      assert (a + b)[1..] == a[1..] + b;
    }
  }

  lemma OthersAppend(flow: seq<int>, n: int)
    ensures Others(flow + [n], n) == Others(flow, n)
  {
    OthersJoin(flow, [n], n);
    assert [n][1..] == [];
  }

  // ---------- A write under way ----------

  /** No loss, nothing given up, and no other use of the library meanwhile. */
  predicate Lossless(a: Action) {
    a.Pass? || a.Send? || a.MoteAccepts? || a.MoteReports? || a.HearNext?
  }

  /** Anything that can happen during one write: losses, attempts given up and its time running out too. */
  predicate Meanwhile(a: Action) {
    Lossless(a) || a.LoseDown? || a.LoseUp? || a.Abandon? || a.FailWrite?
  }

  /** A run of one write in which no attempt waits longer than the tracker keeps its number. */
  ghost predicate CallRun(s: System, actions: seq<Action>, sentAt: real, t: System)
    decreases |actions|
  {
    if actions == [] then t == s
    else
      var a := actions[0];
      && Enabled(s, a) && Meanwhile(a)
      && (s.phase.Waiting? && a.Pass? ==> a.until <= sentAt + KEEP_FOR)
      && CallRun(Step(s, a), actions[1..], if a.Send? then a.stamp else sentAt, t)
  }

  predicate NothingLost(actions: seq<Action>)
    decreases |actions|
  {
    actions == [] || (Lossless(actions[0]) && NothingLost(actions[1..]))
  }

  /** The write is going on; if it waits, its number is tracked and fresh. */
  ghost predicate Going(s: System, sentAt: real) {
    && Sound(s) && !s.phase.Idle?
    && (s.phase.Waiting? ==> Entry(s.seqno, sentAt) in s.host.tracker && sentAt <= s.now <= sentAt + KEEP_FOR)
  }

  /** If the write waits, its number is on its way. */
  predicate Answered(s: System) {
    s.phase.Waiting? ==> s.seqno in Flow(s)
  }

  /** Attempts still needed at most, if none is given up. */
  function Attempts(s: System): nat {
    Others(Flow(s), s.seqno) + if s.phase.Retrying? then 1 else 0
  }

  /** Steps of the host and the mote still needed at most, if the mote reports nothing more. */
  function Steps(s: System): nat {
    2 * |s.down| + |s.up| + 3 * Attempts(s)
  }

  predicate Ended(s: System, t: System) {
    t.phase.Idle? && t.written == s.written + [|s.payloads|]
  }

  predicate SameCall(s: System, t: System) {
    t.seqno == s.seqno && t.payloads == s.payloads && t.qsize == s.qsize
  }

  lemma AckKeepsOther(queue: seq<Entry>, seqno: int, now: real, e: Entry)
    requires e in queue && e.sentAt >= now - KEEP_FOR && e.seqno != seqno
    ensures e in Acked(queue, seqno, now).0
  {
    hide Gc;
    GcKeepsYoung(queue, 0, now - KEEP_FOR, e);
    var kept := Gc(queue, 0, now - KEEP_FOR);
    var i := IndexOf(kept, seqno);
    if i < |kept| {
      var j :| 0 <= j < |kept| && kept[j] == e;
      assert kept[..i] + kept[i + 1..] == Acked(queue, seqno, now).0;
      assert (kept[..i] + kept[i + 1..])[if j < i then j else j - 1] == e;
    }
  }

  /**
    One packet heard: the write's own number ends it, another may end the attempt, and one of
    the mote's packets the write itself if the buffer has no room at all.
    */
  lemma HearWhileGoing(s: System, sentAt: real)
    requires Going(s, sentAt) && s.phase.Waiting? && s.up != []
    ensures
      var t := Hearing(s);
      && t.up == s.up[1..] && t.down == s.down && t.now == s.now && SameCall(s, t)
      && if s.up[0].Ack? && s.up[0].seqno as int == s.seqno then Ended(s, t)
         else
           && t.written == s.written
           && (if t.phase.Retrying? then s.up[0].Ack?
               else if t.phase.Idle? then s.qsize == 0
               else Entry(s.seqno, sentAt) in t.host.tracker)
  {
    hide Hear, Classify, Acked, Sound, Labelled, Numbered, Flow;
    GoingParts(s, sentAt);
    HearingMeans(s);
    HearTracker(s.host, s.qsize, Raw(s.up[0]), s.now, s.seqno);
    if s.up[0].Ack? {
      var n := s.up[0].seqno as int;
      AckClassified(s.up[0].seqno);
      if n == s.seqno {
        KnownWhileYoung(s.host.tracker, n, sentAt);
      } else {
        AckKeepsOther(s.host.tracker, n, s.now, Entry(s.seqno, sentAt));
      }
    }
  }

  lemma GoingParts(s: System, sentAt: real)
    requires Going(s, sentAt) && s.phase.Waiting?
    ensures Buffered(s)
    ensures forall m | m in s.up && m.Report? :: !Classify(m.data).AckPacket?
    ensures Entry(s.seqno, sentAt) in s.host.tracker && sentAt <= s.now <= sentAt + KEEP_FOR
  {
    hide Buffered, Labelled, Numbered, Classify;
  }

  lemma FlowOfSend(s: System, stamp: real)
    requires Sound(s) && Enabled(s, Send(stamp))
    ensures Flow(Step(s, Send(stamp))) == Flow(s) + [s.seqno]
  {
    hide Sound, Sent, Expiring, Replies, Numbers;
    NumbersAppend(s.down, Outgoing(ByteOf(s.seqno), s.payloads[|s.payloads| - 1], |s.payloads|));
    ByteOfNumber(s.seqno);
  }

  lemma FlowOfAccepts(s: System)
    requires s.down != []
    ensures Flow(Step(s, MoteAccepts)) == Flow(s)
  {
    hide Replies, Numbers;
    NumbersFirst(s.down);
    RepliesAppend(s.up, Ack(s.down[0].seqno, s.down[0].write));
  }

  lemma FlowOfHearing(s: System)
    requires s.phase.Waiting? && s.up != []
    ensures Flow(Hearing(s)) == if s.up[0].Ack? then Flow(s)[1..] else Flow(s)
    ensures s.up[0].Ack? ==> Flow(s) != [] && Flow(s)[0] == s.up[0].seqno as int
  {
    hide Replies, Numbers, Hearing;
    RepliesFirst(s.up);
    UpAfterHearing(s);
  }

  lemma FlowOfLostFrame(s: System, i: nat, n: int)
    requires i < |s.down|
    ensures Others(Flow(Step(s, LoseDown(i))), n) <= Others(Flow(s), n)
  {
    hide Replies, Numbers, Others;
    var a, b, x := s.down[..i], s.down[i + 1..], [s.down[i]];
    assert s.down == a + (x + b);
    NumbersJoin(a, x + b);
    NumbersJoin(x, b);
    NumbersJoin(a, b);
    OthersLess(Replies(s.up) + Numbers(a), Numbers(x), Numbers(b), n);
    Grouped(Replies(s.up), Numbers(a), Numbers(x), Numbers(b));
  }

  lemma FlowOfLostPacket(s: System, i: nat, n: int)
    requires i < |s.up|
    ensures Others(Flow(Step(s, LoseUp(i))), n) <= Others(Flow(s), n)
  {
    hide Replies, Numbers, Others;
    var a, b, x := s.up[..i], s.up[i + 1..], [s.up[i]];
    assert s.up == a + (x + b);
    RepliesJoin(a, x + b);
    RepliesJoin(x, b);
    RepliesJoin(a, b);
    OthersLess(Replies(a), Replies(x), Replies(b) + Numbers(s.down), n);
    Grouped(Replies(a), Replies(x), Replies(b), Numbers(s.down));
  }

  lemma Grouped(a: seq<int>, b: seq<int>, c: seq<int>, d: seq<int>)
    ensures a + (b + (c + d)) == a + b + c + d == a + (b + c) + d == a + b + (c + d)
    ensures a + (b + d) == a + b + d && a + (c + d) == a + c + d
  {
  }

  lemma OthersLess(a: seq<int>, m: seq<int>, b: seq<int>, n: int)
    ensures Others(a + b, n) <= Others(a + m + b, n)
  {
    OthersJoin(a, b, n);
    OthersJoin(a + m, b, n);
    OthersJoin(a, m, n);
  }

  /** What a step does to the numbers on their way. */
  lemma FlowStep(s: System, a: Action)
    requires Sound(s) && Enabled(s, a) && Meanwhile(a)
    ensures
      var t := Step(s, a);
      match a
      case Send(_) => Flow(t) == Flow(s) + [s.seqno]
      case HearNext => Flow(t) == if s.up[0].Ack? then Flow(s)[1..] else Flow(s)
      case LoseDown(_) => Others(Flow(t), s.seqno) <= Others(Flow(s), s.seqno)
      case LoseUp(_) => Others(Flow(t), s.seqno) <= Others(Flow(s), s.seqno)
      case _ => Flow(t) == Flow(s)
    ensures a.HearNext? && s.up[0].Ack? ==> Flow(s) != [] && Flow(s)[0] == s.up[0].seqno as int
  {
    hide Sound, Hearing, Sent, Expiring, Replies, Numbers;
    match a
    case Send(stamp) => FlowOfSend(s, stamp);
    case MoteAccepts => FlowOfAccepts(s);
    case MoteReports(data) => RepliesAppend(s.up, Report(data));
    case HearNext => FlowOfHearing(s);
    case LoseDown(i) => FlowOfLostFrame(s, i, s.seqno);
    case LoseUp(i) => FlowOfLostPacket(s, i, s.seqno);
    case _ =>
  }

  lemma ByteOfNumber(n: Number)
    ensures ByteOf(n) as int == n
  {
    hide ByteOf;
  }

  lemma UpAfterHearing(s: System)
    requires s.up != []
    ensures Hearing(s).up == s.up[1..] && Hearing(s).down == s.down
  {
    hide Hear, Classify;
  }

  /** By how much a step can put off the end. */
  function Delay(a: Action): int {
    if a.MoteReports? then 1 else if a.Abandon? then 3
    else if a.Send? || a.MoteAccepts? || a.HearNext? then -1 else 0
  }

  /**
    A step keeps the write going, with less to do unless the mote reports or the attempt is
    given up, or ends it: with True, by its time or by the exception of a buffer without room.
    */
  lemma GoingStep(s: System, a: Action, sentAt: real)
    requires Going(s, sentAt) && Enabled(s, a) && Meanwhile(a)
    requires s.phase.Waiting? && a.Pass? ==> a.until <= sentAt + KEEP_FOR
    ensures
      var t := Step(s, a);
      && SameCall(s, t)
      && if t.phase.Idle? then
           Ended(s, t) || (t.written == s.written && (a.FailWrite? || s.qsize == 0))
         else
           && Going(t, if a.Send? then a.stamp else sentAt) && t.written == s.written
           && Attempts(t) <= Attempts(s) - (if a.Send? then 1 else 0) + (if a.Abandon? then 1 else 0)
           && Steps(t) <= Steps(s) + Delay(a)
           && (Answered(s) && Lossless(a) ==> Answered(t))
    ensures a.Send? ==> Attempts(s) > 0
  {
    hide Sound, Flow, Hearing, Others, Sent, Expiring;
    SoundStep(s, a);
    FlowStep(s, a);
    match a
    case Send(stamp) =>
      OthersAppend(Flow(s), s.seqno);
      SentLast(s.host.tracker, s.seqno, s.now, stamp);
    case HearNext =>
      HearWhileGoing(s, sentAt);
      if s.up[0].Ack? {
        OthersFirst(Flow(s), s.seqno);
      }
    case _ =>
  }

  lemma SentLast(queue: seq<Entry>, seqno: int, now: real, stamp: real)
    ensures Entry(seqno, stamp) in Sent(queue, seqno, now, stamp)
  {
    hide Gc;
    var r := Sent(queue, seqno, now, stamp);
    assert r[|r| - 1] == Entry(seqno, stamp);
  }

  // ---------- Whole runs ----------

  function Sends(actions: seq<Action>): nat
    decreases |actions|
  {
    if actions == [] then 0 else (if actions[0].Send? then 1 else 0) + Sends(actions[1..])
  }

  function Reports(actions: seq<Action>): nat
    decreases |actions|
  {
    if actions == [] then 0 else (if actions[0].MoteReports? then 1 else 0) + Reports(actions[1..])
  }

  function GivenUp(actions: seq<Action>): nat
    decreases |actions|
  {
    if actions == [] then 0 else (if actions[0].Abandon? then 1 else 0) + GivenUp(actions[1..])
  }

  predicate Fails(actions: seq<Action>)
    decreases |actions|
  {
    actions != [] && (actions[0].FailWrite? || Fails(actions[1..]))
  }

  /** The steps in which a frame or a packet moves on. */
  function Moves(actions: seq<Action>): nat
    decreases |actions|
  {
    if actions == [] then 0
    else (if actions[0].Send? || actions[0].MoteAccepts? || actions[0].HearNext? then 1 else 0) + Moves(actions[1..])
  }

  lemma IdleStep(s: System, a: Action)
    requires s.phase.Idle? && Enabled(s, a) && Meanwhile(a)
    ensures !a.Send? && !a.Abandon? && Step(s, a).phase.Idle? && Step(s, a).written == s.written
  {
  }

  lemma {:induction false} IdleRun(s: System, actions: seq<Action>, sentAt: real, t: System)
    requires s.phase.Idle? && CallRun(s, actions, sentAt, t)
    ensures t.phase.Idle? && t.written == s.written && Sends(actions) == 0
    decreases |actions|
  {
    if actions != [] {
      hide Enabled, Step;
      IdleStep(s, actions[0]);
      IdleRun(Step(s, actions[0]), actions[1..], sentAt, t);
    }
  }

  /** How a run of a write stands when it comes to t. */
  predicate Stands(s: System, actions: seq<Action>, t: System) {
    if t.phase.Idle? then Ended(s, t) || (t.written == s.written && (Fails(actions) || s.qsize == 0))
    else
      && t.written == s.written && SameCall(s, t)
      && Attempts(t) + Sends(actions) <= Attempts(s) + GivenUp(actions)
      && Steps(t) + Moves(actions) <= Steps(s) + Reports(actions) + 3 * GivenUp(actions)
      && (Answered(s) && NothingLost(actions) ==> Steps(t) > 0)
  }

  lemma {:induction false} GoingRun(s: System, actions: seq<Action>, sentAt: real, t: System)
    requires Going(s, sentAt) && CallRun(s, actions, sentAt, t)
    ensures Sends(actions) <= Attempts(s) + GivenUp(actions)
    ensures Stands(s, actions, t)
    decreases |actions|
  {
    if actions == [] {
      StillToDo(s, sentAt);
    } else {
      hide Enabled, Step, Going, Attempts, Steps, Lossless, Answered, Meanwhile, NothingLost;
      hide Sends, Reports, GivenUp, Fails, Moves, Stands;
      var a := actions[0];
      var next, from := Step(s, a), if a.Send? then a.stamp else sentAt;
      GoingStep(s, a, sentAt);
      CountsFirst(actions);
      if next.phase.Idle? {
        IdleRun(next, actions[1..], from, t);
        StandsIdle(s, actions, next, t);
      } else {
        GoingRun(next, actions[1..], from, t);
        StandsBefore(s, actions, next, t);
      }
    }
  }

  lemma CountsFirst(actions: seq<Action>)
    requires actions != []
    ensures
      var a, rest := actions[0], actions[1..];
      && Sends(actions) == (if a.Send? then 1 else 0) + Sends(rest)
      && GivenUp(actions) == (if a.Abandon? then 1 else 0) + GivenUp(rest)
      && Reports(actions) + 3 * GivenUp(actions) - Moves(actions)
           == Delay(a) + Reports(rest) + 3 * GivenUp(rest) - Moves(rest)
      && (Fails(actions) <==> a.FailWrite? || Fails(rest))
      && (NothingLost(actions) <==> Lossless(a) && NothingLost(rest))
  {
    hide Lossless;
  }

  lemma StandsIdle(s: System, actions: seq<Action>, next: System, t: System)
    requires t.phase.Idle? && t.written == next.written && next.phase.Idle?
    requires Ended(s, next) || (next.written == s.written && (Fails(actions) || s.qsize == 0))
    ensures Stands(s, actions, t)
  {
    hide Fails;
  }

  /** How a run stands, seen from one step earlier. */
  lemma StandsBefore(s: System, actions: seq<Action>, next: System, t: System)
    requires actions != [] && Stands(next, actions[1..], t) && SameCall(s, next) && next.written == s.written
    requires Attempts(next) + (if actions[0].Send? then 1 else 0)
          <= Attempts(s) + (if actions[0].Abandon? then 1 else 0)
    requires Steps(next) <= Steps(s) + Delay(actions[0])
    requires Answered(s) && Lossless(actions[0]) ==> Answered(next)
    ensures Stands(s, actions, t)
  {
    hide Sends, Reports, GivenUp, Fails, Moves, NothingLost, Attempts, Steps, Answered, Lossless;
    CountsFirst(actions);
  }

  lemma StillToDo(s: System, sentAt: real)
    requires Going(s, sentAt)
    ensures (Answered(s) ==> Steps(s) > 0) && !s.phase.Idle?
  {
    hide Sound, Flow;
    EmptyFlow(s);
  }

  lemma EmptyFlow(s: System)
    ensures s.up == [] && s.down == [] ==> Flow(s) == []
  {
  }

  lemma FlowIsShort(s: System)
    ensures |Flow(s)| <= |s.up| + |s.down|
  {
    RepliesAreFew(s.up);
  }

  lemma {:induction false} LosslessIsNeither(actions: seq<Action>)
    requires NothingLost(actions)
    ensures GivenUp(actions) == 0 && !Fails(actions)
    decreases |actions|
  {
    if actions != [] {
      LosslessIsNeither(actions[1..]);
    }
  }

  /**
    From any sound state in which a write is about to send, whatever is lost: the write sends
    no more than once for each packet that was on its way, once for each attempt given up, and
    once more; it is over once frames and packets have moved often enough; and unless its time
    ran out or the buffer has no room, it is then over with True.
    */
  lemma AttemptsBounded(s: System, actions: seq<Action>, t: System)
    requires Sound(s) && s.phase.Retrying? && CallRun(s, actions, s.now, t)
    ensures Sends(actions) <= |s.up| + |s.down| + 1 + GivenUp(actions)
    ensures Moves(actions) > 3 + 4 * |s.up| + 5 * |s.down| + Reports(actions) + 3 * GivenUp(actions) ==> t.phase.Idle?
    ensures t.phase.Idle? ==> Ended(s, t) || (t.written == s.written && (Fails(actions) || s.qsize == 0))
  {
    hide Sound, CallRun, Flow;
    GoingRun(s, actions, s.now, t);
    FlowIsShort(s);
  }

  /**
    And in every run that loses nothing and gives nothing up the write returns True once frames
    and packets have moved often enough, whatever acknowledgements, known or unknown, come first.
    */
  lemma LosslessWriteEnds(s: System, actions: seq<Action>, t: System)
    requires Sound(s) && s.phase.Retrying? && s.qsize > 0 && CallRun(s, actions, s.now, t) && NothingLost(actions)
    ensures Sends(actions) <= |s.up| + |s.down| + 1
    ensures Moves(actions) >= 3 + 4 * |s.up| + 5 * |s.down| + Reports(actions) ==> Ended(s, t)
  {
    hide Sound, CallRun, Flow, NothingLost;
    GoingRun(s, actions, s.now, t);
    LosslessIsNeither(actions);
    FlowIsShort(s);
  }

  /** Such a run exists: there is always a step to take, and it ends the write. */
  lemma {:induction false} LosslessWriteCanEnd(s: System, sentAt: real) returns (actions: seq<Action>, t: System)
    requires Going(s, sentAt) && Answered(s) && s.qsize > 0
    ensures CallRun(s, actions, sentAt, t) && NothingLost(actions) && Ended(s, t)
    ensures Sends(actions) <= Attempts(s) && Moves(actions) <= Steps(s) && Reports(actions) == 0
    decreases Steps(s)
  {
    hide Going, Attempts, Steps, Step, Answered;
    var a := NextMove(s, sentAt);
    var next, from := Step(s, a), if a.Send? then a.stamp else sentAt;
    GoingStep(s, a, sentAt);
    if next.phase.Idle? {
      actions, t := [a], next;
      StillToDo(s, sentAt);
      assert [a][1..] == [];
    } else {
      var rest;
      rest, t := LosslessWriteCanEnd(next, from);
      actions := [a] + rest;
      assert actions[1..] == rest;
    }
  }

  lemma NextMove(s: System, sentAt: real) returns (a: Action)
    requires Going(s, sentAt) && Answered(s)
    ensures Enabled(s, a) && Lossless(a) && !a.Pass? && !a.MoteReports? && !a.FailWrite?
  {
    hide Buffered, Conserved, Labelled;
    if s.phase.Retrying? {
      a := Send(s.now);
    } else if s.up != [] {
      a := HearNext;
    } else {
      EmptyFlow(s);
      a := MoteAccepts;
    }
  }
}
