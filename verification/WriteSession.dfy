/**
  The library's own write, retry loop and waiting loops together, as a run of the
  acknowledged-write system, whatever the line and the mote do between the host's steps.
  */
module WriteSession {
  import opened Bytes
  import opened Framing
  import opened SeqTracking
  import opened SerialHost
  import opened StopAndWait

  // ---------- The world between the host's steps ----------

  predicate Outside(a: Action) {
    a.Pass? || a.MoteAccepts? || a.LoseDown? || a.LoseUp? || a.MoteReports?
  }

  ghost predicate Meanwhile(s: System, outside: seq<Action>, t: System) {
    Runs(s, outside, t) && forall i | 0 <= i < |outside| :: Outside(outside[i])
  }

  /** The parts of the system that only the host changes, and its position in a write. */
  predicate SameWrite(s: System, t: System) {
    t.seqno == s.seqno && t.qsize == s.qsize && t.payloads == s.payloads
  }

  predicate HostUntouched(s: System, t: System) {
    SameWrite(s, t) && t.host == s.host && t.phase == s.phase && t.written == s.written && s.now <= t.now
  }

  lemma OutsideStep(s: System, a: Action)
    requires Sound(s) && Enabled(s, a) && Outside(a)
    ensures HostUntouched(s, Step(s, a))
  {
    hide Buffered, Conserved, Labelled;
  }

  lemma {:induction false} OutsideKeeps(s: System, outside: seq<Action>, t: System)
    requires Sound(s) && Meanwhile(s, outside, t)
    ensures Sound(t) && HostUntouched(s, t)
    decreases |outside|
  {
    hide Buffered, Numbered, Conserved, Labelled, Enabled, Step, Outside;
    if outside != [] {
      SoundStep(s, outside[0]);
      OutsideStep(s, outside[0]);
      OutsideKeeps(Step(s, outside[0]), outside[1..], t);
    }
  }

  ghost function Take(s: System, a: Action): System {
    if Enabled(s, a) then Step(s, a) else s
  }

  lemma TakeIsRun(s: System, a: Action)
    requires Sound(s) && Enabled(s, a)
    ensures Take(s, a) == Step(s, a) && Sound(Take(s, a)) && Runs(s, [a], Take(s, a))
  {
    hide Sound, Enabled, Step;
    SoundStep(s, a);
  }

  lemma {:induction false} RunsAppend(s: System, a: seq<Action>, t: System, b: seq<Action>, u: System)
    requires Runs(s, a, t) && Runs(t, b, u)
    ensures Runs(s, a + b, u)
    decreases |a|
  {
    hide Buffered, Numbered, Conserved, Labelled, Enabled, Step;
    if a == [] {
      assert a + b == b;
    } else {
      RunsAppend(Step(s, a[0]), a[1..], t, b, u);
      assert (a + b)[1..] == a[1..] + b;
    }
  }

  predicate NoStart(actions: seq<Action>) {
    forall i | 0 <= i < |actions| :: !actions[i].StartWrite?
  }

  // ---------- Waiting for an acknowledgement ----------

  /** What the world does, what it comes to, the silences on the line, and then one turn of the waiting loop. */
  datatype Moment = Moment(outside: seq<Action>, state: System, gaps: seq<nat>, tick: Tick)

  function TicksOf(moments: seq<Moment>): seq<Tick> {
    if moments == [] then [] else [moments[0].tick] + TicksOf(moments[1..])
  }

  ghost function AfterHearing(m: Moment): System {
    Take(Take(m.state, Pass(m.tick.after)), HearNext)
  }

  /** The turn goes to the line: it is not too late and a packet comes whole. */
  predicate Hears(m: Moment, endTime: real) {
    m.tick.clock < endTime && m.tick.heard.Packet?
  }

  function Raws(up: seq<Incoming>): (payloads: seq<Content>)
    ensures |payloads| == |up|
  {
    seq(|up|, i requires 0 <= i < |up| => Raw(up[i]))
  }

  /** The line in bytes and silences: the packets on their way, framed, with any silences before each. */
  function Line(gaps: seq<nat>, up: seq<Incoming>): seq<Event>
    requires |gaps| == |up|
  {
    Spaced(gaps, Raws(up))
  }

  /**
    A port that holds the line, read once, gives its first packet and holds the line without
    it, or one silence less.
    */
  lemma ReadTakesFirst(gaps: seq<nat>, up: seq<Incoming>, r: ReadResult, n: nat)
    requires |gaps| == |up| && n <= |Line(gaps, up)| && OneRead(Line(gaps, up)[..n], r)
    ensures up != []
    ensures r == if gaps[0] > 0 then TimedOut else Packet(Raw(up[0]))
    ensures Line(gaps, up)[n..] ==
      if gaps[0] > 0 then Line([gaps[0] - 1] + gaps[1..], up) else Line(gaps[1..], up[1..])
  {
    hide OneRead, Spaced, Raw;
    SpacedGivesFirst(gaps, Raws(up), r, n);
    assert up != [] ==> Raws(up)[1..] == Raws(up[1..]);
  }

  lemma GivesFirst(gaps: seq<nat>, up: seq<Incoming>, r: ReadResult)
    requires |gaps| == |up| && Gives(Line(gaps, up), r) && r.Packet?
    ensures up != [] && r == Packet(Raw(up[0]))
  {
    hide OneRead, Line, Raw;
    var n :| 0 <= n <= |Line(gaps, up)| && OneRead(Line(gaps, up)[..n], r);
    ReadTakesFirst(gaps, up, r, n);
  }

  /** The packets among the results of reading, in order. */
  function PacketsOf(results: seq<ReadResult>): seq<Content>
    decreases |results|
  {
    if results == [] then []
    else (if results[0].Packet? then [results[0].data] else []) + PacketsOf(results[1..])
  }

  lemma {:induction false} PacketsOfAppend(a: seq<ReadResult>, b: seq<ReadResult>)
    ensures PacketsOf(a + b) == PacketsOf(a) + PacketsOf(b)
    decreases |a|
  {
    if a == [] {
      assert a + b == b;
    } else {
      hide PacketsOf;
      PacketsOfFirst(a);
      PacketsOfFirst(a + b);
      PacketsOfAppend(a[1..], b);
      assert (a + b)[1..] == a[1..] + b;
      Together(if a[0].Packet? then [a[0].data] else [], PacketsOf(a[1..]), PacketsOf(b));
    }
  }

  lemma PacketsOfFirst(results: seq<ReadResult>)
    requires results != []
    ensures PacketsOf(results) == (if results[0].Packet? then [results[0].data] else []) + PacketsOf(results[1..])
  {
  }

  lemma Together(x: seq<Content>, y: seq<Content>, z: seq<Content>)
    ensures x + (y + z) == (x + y) + z
  {
  }

  lemma {:induction false} NoPackets(results: seq<ReadResult>)
    requires forall i | 0 <= i < |results| :: results[i] == TimedOut
    ensures PacketsOf(results) == []
    decreases |results|
  {
    if results != [] {
      NoPackets(results[1..]);
    }
  }

  lemma {:induction false} SpacedPackets(gaps: seq<nat>, payloads: seq<Content>)
    requires |gaps| == |payloads|
    ensures PacketsOf(SpacedResults(gaps, payloads)) == payloads
    ensures CrcError !in SpacedResults(gaps, payloads)
    decreases |gaps|
  {
    if gaps != [] {
      var rest := SpacedResults(gaps[1..], payloads[1..]);
      SpacedPackets(gaps[1..], payloads[1..]);
      NoPackets(TimeOuts(gaps[0]));
      PacketsOfAppend(TimeOuts(gaps[0]), [Packet(payloads[0])] + rest);
      assert ([Packet(payloads[0])] + rest)[1..] == rest;
      assert [payloads[0]] + payloads[1..] == payloads;
    }
  }

  /**
    A port that holds the packets on their way, framed, with any silences between them, hands
    out exactly these packets when it is read often enough, in order, and none with an error.
    */
  lemma LineHandsOut(gaps: seq<nat>, up: seq<Incoming>, rs: seq<ReadResult>)
    requires |gaps| == |up|
    requires
      var all := Results(Hunting, Line(gaps, up));
      |rs| >= |all| && forall i | 0 <= i < |rs| :: rs[i] == if i < |all| then all[i] else TimedOut
    ensures PacketsOf(rs) == Raws(up) && CrcError !in rs
  {
    hide Results, Spaced, SpacedResults, PacketsOf, Raws;
    var all := Results(Hunting, Line(gaps, up));
    ReadSpaced(Hunting, gaps, Raws(up));
    SpacedPackets(gaps, Raws(up));
    NoPackets(rs[|all|..]);
    PacketsOfAppend(all, rs[|all|..]);
    assert all + rs[|all|..] == rs;
  }

  /** Each packet the waiting loop hears is what a read makes of the line at that moment. */
  ghost predicate FromTheLine(s: System, moments: seq<Moment>, endTime: real)
    decreases |moments|
  {
    moments != [] ==>
      var m := moments[0];
      && Meanwhile(s, m.outside, m.state)
      && (Hears(m, endTime) ==>
            && |m.gaps| == |m.state.up| && Gives(Line(m.gaps, m.state.up), m.tick.heard)
            && m.tick.after >= m.state.now
            && (AfterHearing(m).phase.Waiting? ==> FromTheLine(AfterHearing(m), moments[1..], endTime)))
  }

  ghost function WaitTo(s: System, moments: seq<Moment>, endTime: real): System
    decreases |moments|
  {
    if moments == [] then Take(s, Abandon)
    else if !Hears(moments[0], endTime) then Take(moments[0].state, Abandon)
    else if AfterHearing(moments[0]).phase.Waiting? then WaitTo(AfterHearing(moments[0]), moments[1..], endTime)
    else AfterHearing(moments[0])
  }

  predicate WaitEnds(s: System, t: System, host: Host, attempt: Attempt) {
    && SameWrite(s, t) && t.host == host
    && t.phase == (if attempt.Acknowledged? || attempt.PoppedEmpty? then Idle else Retrying)
    && t.written == (if attempt.Acknowledged? then s.written + [|s.payloads|] else s.written)
  }

  lemma AbandonEnds(s: System)
    requires Sound(s) && s.phase.Waiting?
    ensures Enabled(s, Abandon)
    ensures
      var t := Step(s, Abandon);
      SameWrite(s, t) && t.host == s.host && t.phase == Retrying && t.written == s.written
  {
    hide Buffered, Conserved, Labelled;
  }

  /** One packet heard: the host's turn and the system's step are the same. */
  lemma HearingTurn(s: System, after: real)
    requires Sound(s) && s.phase.Waiting? && s.up != [] && after >= s.now
    ensures
      var t := Take(Take(s, Pass(after)), HearNext);
      var turn := Hear(s.host, s.qsize, Raw(s.up[0]), after, s.seqno).1;
      && Sound(t) && Runs(s, [Pass(after), HearNext], t)
      && SameWrite(s, t) && t.host == Hear(s.host, s.qsize, Raw(s.up[0]), after, s.seqno).0
      && t.phase == AfterTurn(turn)
      && t.written == (if turn.GotAck? then s.written + [|s.payloads|] else s.written)
  {
    hide Buffered, Conserved, Labelled, Numbered, Hear, Classify;
    TakeIsRun(s, Pass(after));
    var at := s.(now := after);
    TakeIsRun(at, HearNext);
    HearingMeans(at);
    RunsAppend(s, [Pass(after)], at, [HearNext], Take(at, HearNext));
    assert [Pass(after)] + [HearNext] == [Pass(after), HearNext];
    HearTracker(s.host, s.qsize, Raw(s.up[0]), after, s.seqno);
    assert Take(s, Pass(after)) == at && Take(at, HearNext) == Hearing(at);
  }

  /** The waiting loop is a run of the system with the same outcome. */
  lemma {:induction false} WaitIsRun(s: System, moments: seq<Moment>, endTime: real) returns (actions: seq<Action>)
    requires Sound(s) && s.phase.Waiting? && FromTheLine(s, moments, endTime)
    ensures Runs(s, actions, WaitTo(s, moments, endTime)) && NoStart(actions) && Sound(WaitTo(s, moments, endTime))
    ensures
      var (host, attempt) := WaitForAck(s.host, s.qsize, TicksOf(moments), endTime, s.seqno);
      WaitEnds(s, WaitTo(s, moments, endTime), host, attempt)
    decreases |moments|
  {
    hide Sound, Enabled, Step, Runs, Hear, Gives, Line;
    if moments == [] {
      AbandonEnds(s);
      TakeIsRun(s, Abandon);
      actions := [Abandon];
    } else {
      var m := moments[0];
      OutsideKeeps(s, m.outside, m.state);
      if !Hears(m, endTime) {
        AbandonEnds(m.state);
        TakeIsRun(m.state, Abandon);
        RunsAppend(s, m.outside, m.state, [Abandon], Take(m.state, Abandon));
        actions := m.outside + [Abandon];
      } else {
        GivesFirst(m.gaps, m.state.up, m.tick.heard);
        HearingTurn(m.state, m.tick.after);
        var next := AfterHearing(m);
        RunsAppend(s, m.outside, m.state, [Pass(m.tick.after), HearNext], next);
        actions := m.outside + [Pass(m.tick.after), HearNext];
        assert TicksOf(moments)[1..] == TicksOf(moments[1..]);
        if next.phase.Waiting? {
          var rest := WaitIsRun(next, moments[1..], endTime);
          RunsAppend(s, actions, next, rest, WaitTo(next, moments[1..], endTime));
          actions := actions + rest;
        }
      }
    }
  }

  // ---------- The retry loop ----------

  /** What the world does, what it comes to, and then one turn of the retry loop with its clock readings. */
  datatype Effort = Effort(outside: seq<Action>, state: System, clock: real, leftAt: real, sentAt: real, stamp: real,
                           waitFrom: real, moments: seq<Moment>)

  function TriesOf(efforts: seq<Effort>): seq<Try> {
    if efforts == [] then []
    else
      var e := efforts[0];
      [Try(e.clock, e.leftAt, e.sentAt, e.stamp, e.waitFrom, TicksOf(e.moments))] + TriesOf(efforts[1..])
  }

  function Deadline(e: Effort, limit: Limit): real {
    e.waitFrom + AckWait(limit, e.leftAt)
  }

  ghost function Sending(e: Effort): System {
    Take(Take(e.state, Pass(e.sentAt)), Send(e.stamp))
  }

  ghost function TryTo(e: Effort, limit: Limit): System {
    WaitTo(Sending(e), e.moments, Deadline(e, limit))
  }

  /** The write's inputs come from the line and from a clock that does not go back. */
  ghost predicate FromTheWorld(s: System, limit: Limit, efforts: seq<Effort>)
    decreases |efforts|
  {
    efforts != [] ==>
      var e := efforts[0];
      && Meanwhile(s, e.outside, e.state)
      && (!Expired(limit, e.clock) ==>
            && e.state.now <= e.sentAt <= e.stamp && FromTheLine(Sending(e), e.moments, Deadline(e, limit))
            && (TryTo(e, limit).phase.Retrying? ==> FromTheWorld(TryTo(e, limit), limit, efforts[1..])))
  }

  ghost function WriteTo(s: System, limit: Limit, efforts: seq<Effort>): System
    decreases |efforts|
  {
    if efforts == [] then s
    else if Expired(limit, efforts[0].clock) then Take(efforts[0].state, FailWrite)
    else if TryTo(efforts[0], limit).phase.Retrying? then WriteTo(TryTo(efforts[0], limit), limit, efforts[1..])
    else TryTo(efforts[0], limit)
  }

  predicate WriteEnds(s: System, t: System, host: Host, result: WriteResult) {
    && SameWrite(s, t) && t.host == host
    && t.phase == (if result.StillTrying? then Retrying else Idle)
    && t.written == (if result.Written? then s.written + [|s.payloads|] else s.written)
  }

  lemma SendingStarts(s: System, sentAt: real, stamp: real)
    requires Sound(s) && s.phase.Retrying? && s.now <= sentAt <= stamp
    ensures
      var t := Take(Take(s, Pass(sentAt)), Send(stamp));
      && Sound(t) && Runs(s, [Pass(sentAt), Send(stamp)], t) && t.phase.Waiting?
      && SameWrite(s, t) && t.written == s.written
      && t.host == s.host.(tracker := Sent(s.host.tracker, s.seqno, sentAt, stamp))
  {
    hide Buffered, Conserved, Labelled, Sent;
    TakeIsRun(s, Pass(sentAt));
    var at := s.(now := sentAt);
    assert Take(s, Pass(sentAt)) == at;
    TakeIsRun(at, Send(stamp));
    RunsAppend(s, [Pass(sentAt)], at, [Send(stamp)], Take(at, Send(stamp)));
    assert [Pass(sentAt)] + [Send(stamp)] == [Pass(sentAt), Send(stamp)];
  }

  lemma SeqnoIsByte(s: System)
    requires Sound(s)
    ensures ByteOf(s.seqno) as int == s.seqno
  {
    hide Buffered, Conserved, Labelled;
  }

  /** One attempt is a run of the system with the same outcome. */
  lemma TryIsRun(s: System, e: Effort, limit: Limit) returns (actions: seq<Action>)
    requires Sound(s) && s.phase.Retrying? && Meanwhile(s, e.outside, e.state)
    requires e.state.now <= e.sentAt <= e.stamp && FromTheLine(Sending(e), e.moments, Deadline(e, limit))
    ensures Runs(s, actions, TryTo(e, limit)) && NoStart(actions) && Sound(TryTo(e, limit))
    ensures
      var (host, attempt) := TryOnce(s.host, s.qsize, ByteOf(s.seqno), limit, TriesOf([e])[0]);
      WaitEnds(s, TryTo(e, limit), host, attempt)
  {
    hide Sound, Enabled, Step, Runs, Sent, Take, WaitForAck, WaitTo, FromTheLine, AckWait;
    OutsideKeeps(s, e.outside, e.state);
    SendingStarts(e.state, e.sentAt, e.stamp);
    SeqnoIsByte(s);
    var rest := WaitIsRun(Sending(e), e.moments, Deadline(e, limit));
    RunsAppend(s, e.outside, e.state, [Pass(e.sentAt), Send(e.stamp)], Sending(e));
    var start := e.outside + [Pass(e.sentAt), Send(e.stamp)];
    RunsAppend(s, start, Sending(e), rest, TryTo(e, limit));
    actions := start + rest;
  }

  lemma TriesEach(efforts: seq<Effort>)
    ensures |TriesOf(efforts)| == 0 <==> efforts == []
    ensures efforts != [] ==>
      && TriesOf(efforts)[0] == TriesOf([efforts[0]])[0] && TriesOf(efforts)[0].clock == efforts[0].clock
      && TriesOf(efforts)[1..] == TriesOf(efforts[1..])
  {
  }

  lemma FailEnds(s: System)
    requires Sound(s) && s.phase.Retrying?
    ensures Enabled(s, FailWrite)
    ensures
      var t := Step(s, FailWrite);
      SameWrite(s, t) && t.host == s.host && t.phase == Idle && t.written == s.written
  {
    hide Buffered, Conserved, Labelled;
  }

  lemma WriteRunMeans(h: Host, qsize: nat, seqno: Byte, limit: Limit, tries: seq<Try>)
    ensures
      var (host, result, _) := WriteRun(h, qsize, seqno, limit, tries);
      if |tries| == 0 then (host, result) == (h, StillTrying)
      else if Expired(limit, tries[0].clock) then (host, result) == (h, WriteTimedOut)
      else
        var (next, attempt) := TryOnce(h, qsize, seqno, limit, tries[0]);
        var (last, outcome, _) := WriteRun(next, qsize, seqno, limit, tries[1..]);
        if attempt.Acknowledged? then (host, result) == (next, Written)
        else if attempt.PoppedEmpty? then (host, result) == (next, WriteCrashed)
        else (host, result) == (last, outcome)
  {
    hide TryOnce, Expired;
    if |tries| != 0 && !Expired(limit, tries[0].clock) {
      var (next, attempt) := TryOnce(h, qsize, seqno, limit, tries[0]);
      var rest := WriteRun(next, qsize, seqno, limit, tries[1..]);
      assert attempt.Acknowledged? || attempt.PoppedEmpty?
          || WriteRun(h, qsize, seqno, limit, tries) == (rest.0, rest.1, rest.2 + 1);
    }
  }

  /** The retry loop is a run of the system with the same result, in which no other write starts. */
  lemma {:induction false} WriteIsRun(s: System, limit: Limit, efforts: seq<Effort>) returns (actions: seq<Action>)
    requires Sound(s) && s.phase.Retrying? && FromTheWorld(s, limit, efforts)
    ensures Runs(s, actions, WriteTo(s, limit, efforts)) && NoStart(actions) && Sound(WriteTo(s, limit, efforts))
    ensures
      var (host, result, _) := WriteRun(s.host, s.qsize, ByteOf(s.seqno), limit, TriesOf(efforts));
      WriteEnds(s, WriteTo(s, limit, efforts), host, result)
    decreases |efforts|
  {
    hide Sound, Enabled, Step, TryOnce, TryTo, FromTheLine, TriesOf, Expired, WriteRun;
    SeqnoIsByte(s);
    TriesEach(efforts);
    WriteRunMeans(s.host, s.qsize, ByteOf(s.seqno), limit, TriesOf(efforts));
    if efforts == [] {
      actions := [];
    } else {
      var e := efforts[0];
      if Expired(limit, e.clock) {
        OutsideKeeps(s, e.outside, e.state);
        FailEnds(e.state);
        TakeIsRun(e.state, FailWrite);
        RunsAppend(s, e.outside, e.state, [FailWrite], Take(e.state, FailWrite));
        actions := e.outside + [FailWrite];
      } else {
        actions := TryIsRun(s, e, limit);
        var next := TryTo(e, limit);
        if next.phase.Retrying? {
          var rest := WriteIsRun(next, limit, efforts[1..]);
          RunsAppend(s, actions, next, rest, WriteTo(next, limit, efforts[1..]));
          actions := actions + rest;
        }
      }
    }
  }

  // ---------- Reading ----------

  /** What the line would give a read: its first packet, if it holds any. */
  function NextHeard(s: System): ReadResult {
    if s.up == [] then TimedOut else Packet(Raw(s.up[0]))
  }

  /**
    A read between writes is a step of the system, and hands out what the step records; on
    a silent line it raises.
    */
  lemma ReadIsStep(s: System)
    requires s.phase.Idle?
    ensures
      var (host, reply) := ReadOnce(s.host, NextHeard(s));
      if s.host.inQueue == [] && s.up == [] then host == s.host && reply == Raised(TimedOut)
      else
        && Enabled(s, ReadNext)
        && Step(s, ReadNext).host == host
        && Step(s, ReadNext).handed == s.handed + if reply.Handed? then [reply.data] else []
  {
    hide Classify;
    assert s.handed + [] == s.handed;
  }

  // ---------- Safety of the library's write ----------

  lemma QuietStep(s: System, a: Action)
    requires Sound(s) && Enabled(s, a) && !a.StartWrite? && Recent(s)
    ensures Recent(Step(s, a))
  {
    hide Conserved, Labelled, Hear, HearIdle, Classify, BufferLaw, Sent, Dropped;
  }

  lemma {:induction false} QuietThroughout(s: System, actions: seq<Action>, t: System)
    requires Sound(s) && Recent(s) && Runs(s, actions, t) && NoStart(actions)
    ensures Throughout(s, actions, Recent)
    decreases |actions|
  {
    hide Buffered, Numbered, Conserved, Labelled, Enabled, Step, Recent;
    if actions != [] {
      SoundStep(s, actions[0]);
      QuietStep(s, actions[0]);
      QuietThroughout(Step(s, actions[0]), actions[1..], t);
    }
  }

  lemma StartsWrite(s: System, payload: Content)
    requires Sound(s) && Safe(s) && Recent(s) && s.phase.Idle?
    ensures Enabled(s, StartWrite(payload))
    ensures
      var t := Step(s, StartWrite(payload));
      && Sound(t) && Safe(t) && t.phase.Retrying? && t.host == s.host && t.written == s.written
      && t.seqno == (s.seqno + 1) % 100 && t.payloads == s.payloads + [payload] && t.qsize == s.qsize
  {
    hide Buffered, Conserved, Labelled, Safe, Recent, Hearing, Reading, Expiring;
    SoundStep(s, StartWrite(payload));
    SafeStep(s, StartWrite(payload));
  }

  lemma LastIsAccepted(t: System, n: nat)
    requires Sound(t) && Safe(t) && t.written != [] && t.written[|t.written| - 1] == n
    ensures 1 <= n <= |t.payloads| && Acceptance(n, t.payloads[n - 1]) in t.accepted
  {
    hide Buffered, Numbered, Conserved, OrderLaw, FreshLaw;
    var k :| 0 <= k < |t.accepted| && t.accepted[k].write == n;
    assert t.accepted[k] == Acceptance(n, t.payloads[n - 1]);
  }

  /**
    Whenever the library's write returns True, after any history and whatever the line, the
    mote and the clock do during it, the mote has accepted a frame carrying exactly the
    payload, if fewer than a hundred writes have been started since the last that returned True.
    */
  lemma WriteTrueMeansAccepted(qsize: nat, now: real, past: seq<Action>, s: System, payload: Content, limit: Limit,
                               efforts: seq<Effort>)
    requires Runs(Init(qsize, now), past, s) && Throughout(Init(qsize, now), past, Recent)
    requires s.phase.Idle? && |s.payloads| + 1 - OldestLive(s) < 100
    requires FromTheWorld(Take(s, StartWrite(payload)), limit, efforts)
    requires WriteRun(s.host, qsize, ByteOf((s.seqno + 1) % 100), limit, TriesOf(efforts)).1 == Written
    ensures Acceptance(|s.payloads| + 1, payload) in WriteTo(Take(s, StartWrite(payload)), limit, efforts).accepted
  {
    hide Init, Runs, Throughout, Sound, Safe, Enabled, Step, FromTheWorld, WriteRun, TriesOf, WriteTo;
    SoundInit(qsize, now);
    SoundThroughout(Init(qsize, now), past, s);
    SafeThroughout(Init(qsize, now), past, s);
    SizeOfRun(qsize, now, past, s);
    StartsWrite(s, payload);
    TakeIsRun(s, StartWrite(payload));
    var begun := Take(s, StartWrite(payload));
    var actions := WriteIsRun(begun, limit, efforts);
    var t := WriteTo(begun, limit, efforts);
    QuietThroughout(begun, actions, t);
    SafeThroughout(begun, actions, t);
    LastIsAccepted(t, |s.payloads| + 1);
  }

  lemma SizeOfRun(qsize: nat, now: real, past: seq<Action>, s: System)
    requires Runs(Init(qsize, now), past, s)
    ensures s.qsize == qsize
  {
    hide Runs;
    SizeThroughout(Init(qsize, now), past, s);
  }
}
