/**
  The host's record of sequence numbers sent and not yet acknowledged: a queue of
  (sequence number, time sent), oldest first, with expiry after a fixed time.
  */
module SeqTracking {

  datatype Entry = Entry(seqno: int, sentAt: real)

  /** Python's list.remove: the first element equal to e goes. */
  function RemoveFirst(queue: seq<Entry>, e: Entry): (r: seq<Entry>)
    requires e in queue
    ensures |r| == |queue| - 1
    decreases |queue|
  {
    if queue[0] == e then queue[1..] else [queue[0]] + RemoveFirst(queue[1..], e)
  }

  lemma {:induction false} RemoveTakesOne(queue: seq<Entry>, e: Entry)
    requires e in queue
    ensures multiset(RemoveFirst(queue, e)) == multiset(queue) - multiset{e}
    decreases |queue|
  {
    assert queue == [queue[0]] + queue[1..];
    if queue[0] != e {
      RemoveTakesOne(queue[1..], e);
    }
  }

  /**
    Dropping expired entries, as the code does it: it removes from the list that it
    iterates over, so each removal makes the iterator skip the next entry.
    */
  function Gc(queue: seq<Entry>, i: nat, cutoff: real): (kept: seq<Entry>)
    ensures |kept| <= |queue|
    decreases |queue| - i
  {
    if i < |queue| && queue[i].sentAt < cutoff then Gc(RemoveFirst(queue, queue[i]), i + 1, cutoff)
    else queue
  }

  /** Exactly the first k entries are expired. */
  ghost predicate ExpiredPrefix(queue: seq<Entry>, k: nat, cutoff: real) {
    && k <= |queue|
    && (forall j | 0 <= j < k :: queue[j].sentAt < cutoff)
    && (forall j | k <= j < |queue| :: queue[j].sentAt >= cutoff)
  }

  ghost predicate InTimeOrder(queue: seq<Entry>) {
    forall i, j | 0 <= i < j < |queue| :: queue[i].sentAt <= queue[j].sentAt
  }

  /** In a queue kept in time order the expired entries form a prefix. */
  lemma {:induction false} OrderedPrefix(queue: seq<Entry>, cutoff: real) returns (k: nat)
    requires InTimeOrder(queue)
    ensures ExpiredPrefix(queue, k, cutoff)
    decreases |queue|
  {
    if queue == [] || queue[0].sentAt >= cutoff {
      k := 0;
    } else {
      var rest := queue[1..];
      k := OrderedPrefix(rest, cutoff);
      k := k + 1;
      assert forall j | 1 <= j < |queue| :: queue[j] == rest[j - 1];
    }
  }

  lemma {:induction false} RemoveFromPrefix(queue: seq<Entry>, k: nat, i: nat)
    requires i < k <= |queue|
    ensures RemoveFirst(queue, queue[i]) == RemoveFirst(queue[..k], queue[i]) + queue[k..]
    decreases |queue|
  {
    if queue[0] != queue[i] {
      RemoveFromPrefix(queue[1..], k - 1, i - 1);
      assert queue[1..][..k - 1] == queue[..k][1..];
      assert queue[1..][k - 1..] == queue[k..];
    } else {
      assert queue[..k][1..] + queue[k..] == queue[1..];
    }
  }

  lemma {:induction false} RemoveKeepsOthers(queue: seq<Entry>, e: Entry)
    requires e in queue
    ensures forall x | x in RemoveFirst(queue, e) :: x in queue
    decreases |queue|
  {
    if queue[0] != e {
      RemoveKeepsOthers(queue[1..], e);
    }
  }

  lemma GcStep(queue: seq<Entry>, i: nat, cutoff: real)
    ensures i < |queue| && queue[i].sentAt < cutoff ==>
      Gc(queue, i, cutoff) == Gc(RemoveFirst(queue, queue[i]), i + 1, cutoff)
    ensures !(i < |queue| && queue[i].sentAt < cutoff) ==> Gc(queue, i, cutoff) == queue
  {
  }

  /** Removing an expired entry leaves one expired entry less, and the rest as they were. */
  lemma RemoveExpired(queue: seq<Entry>, k: nat, i: nat, cutoff: real) returns (removed: seq<Entry>)
    requires ExpiredPrefix(queue, k, cutoff) && i < k
    ensures RemoveFirst(queue, queue[i]) == removed + queue[k..]
    ensures |removed| == k - 1 && ExpiredPrefix(removed + queue[k..], k - 1, cutoff)
    ensures multiset(removed) <= multiset(queue[..k])
  {
    hide RemoveFirst;
    assert queue[i] in queue[..k] by { assert queue[..k][i] == queue[i]; }
    removed := RemoveFirst(queue[..k], queue[i]);
    RemoveFromPrefix(queue, k, i);
    RemoveTakesOne(queue[..k], queue[i]);
    RemoveKeepsOthers(queue[..k], queue[i]);
    forall j | 0 <= j < k - 1 ensures (removed + queue[k..])[j].sentAt < cutoff {
      assert removed[j] in queue[..k];
    }
  }

  /**
    One pass over k expired entries leaves half of them, rounded down, all of them
    entries that were there; everything after the prefix stays as it was.
    */
  lemma {:induction false} GcLeavesHalf(queue: seq<Entry>, k: nat, i: nat, cutoff: real)
    returns (left: seq<Entry>)
    requires ExpiredPrefix(queue, k, cutoff) && i <= k + 1
    ensures Gc(queue, i, cutoff) == left + queue[k..]
    ensures |left| == if i <= k then i + (k - i) / 2 else k
    ensures multiset(left) <= multiset(queue[..k])
    decreases k + 1 - i
  {
    hide Gc, RemoveFirst;
    GcStep(queue, i, cutoff);
    if i < k {
      var removed := RemoveExpired(queue, k, i, cutoff);
      var next := removed + queue[k..];
      left := GcLeavesHalf(next, k - 1, i + 1, cutoff);
      assert next[..k - 1] == removed && next[k - 1..] == queue[k..];
    } else {
      left := queue[..k];
      assert queue == queue[..k] + queue[k..];
    }
  }

  /** No two of the first k entries are the same. */
  ghost predicate DistinctPrefix(queue: seq<Entry>, k: nat) {
    k <= |queue| && forall a, b | 0 <= a < b < k :: queue[a] != queue[b]
  }

  lemma {:induction false} RemoveAt(queue: seq<Entry>, i: nat, e: Entry)
    requires i < |queue| && queue[i] == e && e !in queue[..i]
    ensures RemoveFirst(queue, e) == queue[..i] + queue[i + 1..]
    decreases |queue|
  {
    if i > 0 {
      hide RemoveFirst;
      var first, rest := queue[0], queue[1..];
      assert queue[..i] == [first] + rest[..i - 1];
      RemoveAt(rest, i - 1, e);
      RemoveNotFirst(first, rest, e);
      assert [first] + rest == queue;
    }
  }

  /** What is left of k expired entries from position i on, as an entry's old position. */
  function OldPosition(k: nat, i: nat, j: nat): nat {
    var d := if i < k then k - i else 0;
    if j < i then j else if j < i + d / 2 then i + 2 * (j - i) + 1 else j + (d - d / 2)
  }

  /** An entry's position before the entry at i was removed. */
  function Past(i: nat, j: nat): nat {
    if j < i then j else j + 1
  }

  lemma RemoveDistinct(queue: seq<Entry>, k: nat, i: nat, cutoff: real)
    requires ExpiredPrefix(queue, k, cutoff) && DistinctPrefix(queue, k) && i < k
    ensures
      var next := RemoveFirst(queue, queue[i]);
      && |next| == |queue| - 1 && (forall j | 0 <= j < |next| :: next[j] == queue[Past(i, j)])
      && ExpiredPrefix(next, k - 1, cutoff) && DistinctPrefix(next, k - 1)
  {
    hide RemoveFirst;
    assert queue[i] !in queue[..i];
    RemoveAt(queue, i, queue[i]);
    PrefixWithout(queue, queue[..i] + queue[i + 1..], k, i, cutoff);
  }

  lemma PrefixWithout(queue: seq<Entry>, next: seq<Entry>, k: nat, i: nat, cutoff: real)
    requires ExpiredPrefix(queue, k, cutoff) && DistinctPrefix(queue, k) && i < k
    requires |next| == |queue| - 1 && forall j | 0 <= j < |next| :: next[j] == queue[Past(i, j)]
    ensures ExpiredPrefix(next, k - 1, cutoff) && DistinctPrefix(next, k - 1)
  {
  }

  /** Exactly every second of the expired entries is left: each one removed makes the loop skip the next. */
  lemma {:induction false} GcTakesEverySecond(queue: seq<Entry>, k: nat, i: nat, cutoff: real)
    requires ExpiredPrefix(queue, k, cutoff) && DistinctPrefix(queue, k) && i <= k + 1
    ensures
      var kept := Gc(queue, i, cutoff);
      forall j | 0 <= j < |kept| :: OldPosition(k, i, j) < |queue| && kept[j] == queue[OldPosition(k, i, j)]
    decreases k + 1 - i
  {
    hide Gc, RemoveFirst, OldPosition;
    GcStep(queue, i, cutoff);
    if i < k {
      RemoveDistinct(queue, k, i, cutoff);
      hide ExpiredPrefix, DistinctPrefix;
      var next := RemoveFirst(queue, queue[i]);
      var kept := Gc(next, i + 1, cutoff);
      GcTakesEverySecond(next, k - 1, i + 1, cutoff);
      forall j | 0 <= j < |kept| ensures OldPosition(k, i, j) < |queue| && kept[j] == queue[OldPosition(k, i, j)] {
        OldPositionStep(k, i, j);
        assert next[OldPosition(k - 1, i + 1, j)] == kept[j];
      }
    } else {
      forall j: nat { NothingExpired(k, i, j); }
    }
  }

  lemma NothingExpired(k: nat, i: nat, j: nat)
    requires i >= k
    ensures OldPosition(k, i, j) == j
  {
  }

  lemma OldPositionStep(k: nat, i: nat, j: nat)
    requires i < k
    ensures OldPosition(k, i, j) == Past(i, OldPosition(k - 1, i + 1, j))
  {
  }

  /** The tracker's documentation says expired numbers are forgotten: true of at most one at a time. */
  lemma ForgetsAllIff(queue: seq<Entry>, k: nat, cutoff: real)
    requires ExpiredPrefix(queue, k, cutoff)
    ensures Gc(queue, 0, cutoff) == queue[k..] <==> k <= 1
  {
    var left := GcLeavesHalf(queue, k, 0, cutoff);
    if k <= 1 {
      assert left == [];
    } else {
      assert |Gc(queue, 0, cutoff)| > |queue[k..]|;
    }
  }

  // ---------- Counting what is tracked and what was forgotten ----------

  function Seqnos(queue: seq<Entry>): (m: multiset<int>)
    decreases |queue|
  {
    if queue == [] then multiset{} else multiset{queue[0].seqno} + Seqnos(queue[1..])
  }

  lemma SeqnosOfFirst(e: Entry, rest: seq<Entry>, queue: seq<Entry>)
    requires queue == [e] + rest
    ensures Seqnos(queue) == multiset{e.seqno} + Seqnos(rest)
  {
    assert queue[1..] == rest;
  }

  lemma SeqnosOfNone()
    ensures Seqnos([]) == multiset{}
  {
  }

  lemma UnionAssociates(x: multiset<int>, y: multiset<int>, z: multiset<int>)
    ensures x + (y + z) == (x + y) + z
  {
  }

  lemma {:induction false} SeqnosAppend(a: seq<Entry>, b: seq<Entry>)
    ensures Seqnos(a + b) == Seqnos(a) + Seqnos(b)
    decreases |a|
  {
    hide Seqnos;
    if a == [] {
      SeqnosOfNone();
      assert a + b == b;
    } else {
      SeqnosAppend(a[1..], b);
      SeqnosOfFirst(a[0], a[1..], a);
      assert a + b == [a[0]] + (a[1..] + b);
      SeqnosOfFirst(a[0], a[1..] + b, a + b);
      UnionAssociates(multiset{a[0].seqno}, Seqnos(a[1..]), Seqnos(b));
    }
  }

  lemma {:induction false} SeqnosRemove(queue: seq<Entry>, e: Entry)
    requires e in queue
    ensures Seqnos(queue) == Seqnos(RemoveFirst(queue, e)) + multiset{e.seqno}
    decreases |queue|
  {
    if queue[0] != e {
      SeqnosRemove(queue[1..], e);
      var r := RemoveFirst(queue, e);
      assert r[1..] == RemoveFirst(queue[1..], e);
    }
  }

  /** The entries one pass drops. */
  function Dropped(queue: seq<Entry>, i: nat, cutoff: real): seq<Entry>
    decreases |queue| - i
  {
    if i < |queue| && queue[i].sentAt < cutoff then
      [queue[i]] + Dropped(RemoveFirst(queue, queue[i]), i + 1, cutoff)
    else []
  }

  /** A pass drops only expired entries, and every entry is kept or dropped. */
  lemma {:induction false} GcConserves(queue: seq<Entry>, i: nat, cutoff: real)
    ensures Seqnos(Gc(queue, i, cutoff)) + Seqnos(Dropped(queue, i, cutoff)) == Seqnos(queue)
    ensures forall e | e in Dropped(queue, i, cutoff) :: e in queue && e.sentAt < cutoff
    ensures forall e | e in Gc(queue, i, cutoff) :: e in queue
    decreases |queue| - i
  {
    if i < |queue| && queue[i].sentAt < cutoff {
      var e := queue[i];
      var next := RemoveFirst(queue, e);
      SeqnosRemove(queue, e);
      RemoveKeepsOthers(queue, e);
      GcConserves(next, i + 1, cutoff);
      var dropped := Dropped(next, i + 1, cutoff);
      assert ([e] + dropped)[1..] == dropped;
    }
  }

  lemma {:induction false} RemoveKeepsOrder(queue: seq<Entry>, e: Entry)
    requires InTimeOrder(queue) && e in queue
    ensures InTimeOrder(RemoveFirst(queue, e))
    decreases |queue|
  {
    if queue[0] != e {
      RemoveKeepsOrder(queue[1..], e);
      RemoveKeepsOthers(queue[1..], e);
      var r := RemoveFirst(queue, e);
      forall j | 0 < j < |r| ensures r[0].sentAt <= r[j].sentAt {
        assert r[j] in queue[1..];
      }
      assert forall j | 0 < j < |r| :: r[j] == RemoveFirst(queue[1..], e)[j - 1];
    }
  }

  lemma {:induction false} GcKeepsOrder(queue: seq<Entry>, i: nat, cutoff: real)
    requires InTimeOrder(queue)
    ensures InTimeOrder(Gc(queue, i, cutoff))
    decreases |queue| - i
  {
    if i < |queue| && queue[i].sentAt < cutoff {
      RemoveKeepsOrder(queue, queue[i]);
      GcKeepsOrder(RemoveFirst(queue, queue[i]), i + 1, cutoff);
    }
  }

  // ---------- The tracker's operations ----------

  const KEEP_FOR: real := 15.0

  /** Expiry goes by one clock reading, and the entry is stamped by the next. */
  function Sent(queue: seq<Entry>, seqno: int, now: real, stamp: real): seq<Entry> {
    Gc(queue, 0, now - KEEP_FOR) + [Entry(seqno, stamp)]
  }

  /** The oldest entry with a sequence number. */
  function IndexOf(queue: seq<Entry>, seqno: int): (i: nat)
    ensures i <= |queue|
    ensures forall j | 0 <= j < i :: queue[j].seqno != seqno
    ensures i < |queue| ==> queue[i].seqno == seqno
    decreases |queue|
  {
    if queue == [] || queue[0].seqno == seqno then 0 else 1 + IndexOf(queue[1..], seqno)
  }

  datatype AckResult = Known | BadAckSeqno

  /** An acknowledgement takes the oldest entry with its number, or is a bad one. */
  function Acked(queue: seq<Entry>, seqno: int, now: real): (seq<Entry>, AckResult) {
    var kept := Gc(queue, 0, now - KEEP_FOR);
    var i := IndexOf(kept, seqno);
    if i < |kept| then (kept[..i] + kept[i + 1..], Known) else (kept, BadAckSeqno)
  }

  /**
    Sending keeps what a pass with a cutoff 15 seconds before its clock reading leaves, and
    puts the number behind it with the later reading.
    */
  lemma SentAppends(queue: seq<Entry>, seqno: int, now: real, stamp: real)
    ensures
      var after := Sent(queue, seqno, now, stamp);
      && after != [] && after[|after| - 1] == Entry(seqno, stamp)
      && after[..|after| - 1] == Gc(queue, 0, now - 15.0)
  {
  }

  /** An entry has the number. */
  ghost predicate Tracks(queue: seq<Entry>, seqno: int) {
    exists j :: 0 <= j < |queue| && queue[j].seqno == seqno
  }

  lemma TracksIff(queue: seq<Entry>, seqno: int)
    ensures Tracks(queue, seqno) <==> IndexOf(queue, seqno) < |queue|
  {
    var i := IndexOf(queue, seqno);
    if i < |queue| {
      assert queue[i].seqno == seqno;
    }
  }

  /**
    After the same pass an acknowledgement is known exactly if an entry has its number, and
    then takes the first such entry and leaves the others where they are.
    */
  lemma AckedTakesOldest(queue: seq<Entry>, seqno: int, now: real) returns (i: nat)
    ensures
      var kept := Gc(queue, 0, now - 15.0);
      var (after, result) := Acked(queue, seqno, now);
      && (result == Known <==> Tracks(kept, seqno))
      && (if result == Known then
            && i < |kept| && kept[i].seqno == seqno && (forall j | 0 <= j < i :: kept[j].seqno != seqno)
            && after == kept[..i] + kept[i + 1..]
          else after == kept)
  {
    hide Gc, Tracks;
    var kept := Gc(queue, 0, now - KEEP_FOR);
    i := IndexOf(kept, seqno);
    TracksIff(kept, seqno);
  }

  /** So a number that is the only one tracked is known until 15 seconds after it was sent. */
  lemma KnownFor(seqno: int, sentAt: real, now: real)
    ensures Acked([Entry(seqno, sentAt)], seqno, now).1 == Known <==> now <= sentAt + 15.0
  {
    var queue, none := [Entry(seqno, sentAt)], [];
    assert queue[1..] == none;
    GcStep(queue, 0, now - 15.0);
    GcStep(none, 1, now - 15.0);
    assert RemoveFirst(queue, queue[0]) == none;
    hide Gc, RemoveFirst;
    assert IndexOf(queue, seqno) == 0 && IndexOf(none, seqno) == 0;
  }

  lemma SentConserves(queue: seq<Entry>, seqno: int, now: real, stamp: real)
    ensures Seqnos(Sent(queue, seqno, now, stamp)) + Seqnos(Dropped(queue, 0, now - KEEP_FOR))
         == Seqnos(queue) + multiset{seqno}
  {
    hide Gc, Dropped;
    GcConserves(queue, 0, now - KEEP_FOR);
    SeqnosAppend(Gc(queue, 0, now - KEEP_FOR), [Entry(seqno, stamp)]);
    assert Seqnos([Entry(seqno, stamp)]) == multiset{seqno} by { assert [Entry(seqno, stamp)][1..] == []; }
  }

  lemma SeqnosOf(queue: seq<Entry>, i: nat)
    requires i < |queue|
    ensures Seqnos(queue) == Seqnos(queue[..i] + queue[i + 1..]) + multiset{queue[i].seqno}
  {
    hide Seqnos;
    SeqnosAppend(queue[..i], queue[i..]);
    SeqnosAppend(queue[..i], queue[i + 1..]);
    assert queue[..i] + queue[i..] == queue;
    assert queue[i..] == [queue[i]] + queue[i + 1..];
    SeqnosOfFirst(queue[i], queue[i + 1..], queue[i..]);
    MoveLast(Seqnos(queue[..i]), multiset{queue[i].seqno}, Seqnos(queue[i + 1..]));
  }

  lemma MoveLast(x: multiset<int>, y: multiset<int>, z: multiset<int>)
    ensures x + (y + z) == (x + z) + y
  {
  }

  lemma {:induction false} AbsentFromSeqnos(queue: seq<Entry>, seqno: int)
    requires IndexOf(queue, seqno) == |queue|
    ensures seqno !in Seqnos(queue)
    decreases |queue|
  {
    if queue != [] {
      AbsentFromSeqnos(queue[1..], seqno);
    }
  }

  lemma {:induction false} RemoveKeepsDifferent(queue: seq<Entry>, e: Entry, other: Entry)
    requires e in queue && other in queue && e != other
    ensures other in RemoveFirst(queue, e)
    decreases |queue|
  {
    if queue[0] == e {
      assert other in queue[1..];
    } else if queue[0] != other {
      RemoveKeepsDifferent(queue[1..], e, other);
    }
  }

  /** Expiry never drops an entry that is not expired. */
  lemma {:induction false} GcKeepsYoung(queue: seq<Entry>, i: nat, cutoff: real, e: Entry)
    requires e in queue && e.sentAt >= cutoff
    ensures e in Gc(queue, i, cutoff)
    decreases |queue| - i
  {
    if i < |queue| && queue[i].sentAt < cutoff {
      RemoveKeepsDifferent(queue, queue[i], e);
      GcKeepsYoung(RemoveFirst(queue, queue[i]), i + 1, cutoff, e);
    }
  }

  /** An acknowledgement of a number sent within the keeping time is never a bad one. */
  lemma KnownWhileYoung(queue: seq<Entry>, seqno: int, sentAt: real)
    requires Entry(seqno, sentAt) in queue
    ensures forall now | sentAt <= now <= sentAt + 15.0 :: Acked(queue, seqno, now).1.Known?
  {
    hide Gc;
    forall now | sentAt <= now <= sentAt + KEEP_FOR ensures Acked(queue, seqno, now).1.Known? {
      GcKeepsYoung(queue, 0, now - KEEP_FOR, Entry(seqno, sentAt));
      var kept := Gc(queue, 0, now - KEEP_FOR);
      var j :| 0 <= j < |kept| && kept[j] == Entry(seqno, sentAt);
      assert kept[j].seqno == seqno;
    }
  }

  /** A known acknowledgement takes exactly its own number; a bad one means none was tracked any more. */
  lemma AckedConserves(queue: seq<Entry>, seqno: int, now: real)
    ensures
      var (after, result) := Acked(queue, seqno, now);
      var dropped := Seqnos(Dropped(queue, 0, now - KEEP_FOR));
      && (result.Known? ==> Seqnos(after) + dropped + multiset{seqno} == Seqnos(queue))
      && (result.BadAckSeqno? ==> Seqnos(after) + dropped == Seqnos(queue) && seqno !in Seqnos(after))
  {
    hide Gc, Dropped, Seqnos;
    GcConserves(queue, 0, now - KEEP_FOR);
    var kept := Gc(queue, 0, now - KEEP_FOR);
    var dropped := Seqnos(Dropped(queue, 0, now - KEEP_FOR));
    var i := IndexOf(kept, seqno);
    if i < |kept| {
      SeqnosOf(kept, i);
      MoveLast(Seqnos(kept[..i] + kept[i + 1..]), multiset{seqno}, dropped);
      UnionAssociates(Seqnos(kept[..i] + kept[i + 1..]), multiset{seqno}, dropped);
    } else {
      AbsentFromSeqnos(kept, seqno);
    }
  }

  class SeqTracker {
    var queue: seq<Entry>

    constructor ()
      ensures queue == []
    {
      queue := [];
    }

    /** The loop over the list it shortens; i is the iterator's position. */
    method Collect(now: real)
      modifies this
      ensures queue == Gc(old(queue), 0, now - KEEP_FOR)
    {
      var removeBefore := now - KEEP_FOR;
      var i := 0;
      while i < |queue|
        invariant 0 <= i
        invariant Gc(queue, i, removeBefore) == Gc(old(queue), 0, removeBefore)
        decreases |queue| - i
      {
        var item := queue[i];
        i := i + 1;
        if item.sentAt < removeBefore {
          queue := RemoveFirst(queue, item);
        } else {
          return;
        }
      }
    }

    method SeqnoSent(seqno: int, now: real, stamp: real)
      modifies this
      ensures queue == Sent(old(queue), seqno, now, stamp)
    {
      Collect(now);
      queue := queue + [Entry(seqno, stamp)];
    }

    method SeqnoAcked(seqno: int, now: real) returns (result: AckResult)
      modifies this
      ensures (queue, result) == Acked(old(queue), seqno, now)
    {
      Collect(now);
      ghost var kept := queue;
      var i := 0;
      while i < |queue|
        invariant 0 <= i <= |queue| && queue == kept
        invariant forall j | 0 <= j < i :: queue[j].seqno != seqno
      {
        if queue[i].seqno == seqno {
          RemoveFirstAt(queue, i);
          queue := RemoveFirst(queue, queue[i]);
          return Known;
        }
        i := i + 1;
      }
      return BadAckSeqno;
    }
  }

  lemma RemoveNotFirst(first: Entry, rest: seq<Entry>, e: Entry)
    requires e in rest && first != e
    ensures RemoveFirst([first] + rest, e) == [first] + RemoveFirst(rest, e)
  {
    assert ([first] + rest)[1..] == rest;
  }

  lemma {:induction false} RemoveFirstAt(queue: seq<Entry>, i: nat)
    requires i < |queue|
    requires forall j | 0 <= j < i :: queue[j].seqno != queue[i].seqno
    ensures RemoveFirst(queue, queue[i]) == queue[..i] + queue[i + 1..]
    decreases |queue|
  {
    if i > 0 {
      hide RemoveFirst;
      var rest := queue[1..];
      RemoveFirstAt(rest, i - 1);
      RemoveNotFirst(queue[0], rest, queue[i]);
      assert [queue[0]] + rest == queue;
    }
  }
}
