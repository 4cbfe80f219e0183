/**
  Index arithmetic for a double-ended queue kept in a client's array. The indices are
  8-bit; front and back name the end elements, and both are one past the array when the
  queue is empty. The slots from back to front refine a bounded deque.
  */
module CircularQueue {
  import opened Lists

  datatype Indices = Indices(front: int, back: int, size: int)

  /** What uint8_t keeps of a value. */
  function Truncate(n: int): int {
    n % 256
  }

  function Empty(size: int): Indices {
    Indices(size, size, size)
  }

  predicate Valid(q: Indices) {
    && 1 <= q.size <= 255
    && (q == Empty(q.size) || (0 <= q.front < q.size && 0 <= q.back < q.size))
  }

  // ---------- The header's expressions ----------

  function Inc(q: Indices, n: int): int {
    if n + 1 == q.size then 0 else Truncate(n + 1)
  }

  function Dec(q: Indices, n: int): int {
    if n != 0 then Truncate(n - 1) else Truncate(q.size - 1)
  }

  predicate IsEmpty(q: Indices) {
    q.front == q.size
  }

  predicate IsFull(q: Indices) {
    Dec(q, q.back) == q.front
  }

  function NumElements(q: Indices): int {
    if IsEmpty(q) then 0
    else if q.front >= q.back then Truncate(q.front - q.back + 1)
    else Truncate(q.size + q.front - q.back + 1)
  }

  // ---------- The header's operations ----------

  datatype Status = SUCCESS | FAIL

  function AfterPushFront(q: Indices): (Indices, Status) {
    if IsEmpty(q) then (q.(front := 0, back := 0), SUCCESS)
    else if Inc(q, q.front) == q.back then (q, FAIL)
    else (q.(front := Inc(q, q.front)), SUCCESS)
  }

  function AfterPushBack(q: Indices): (Indices, Status) {
    if IsEmpty(q) then (q.(front := 0, back := 0), SUCCESS)
    else if Dec(q, q.back) == q.front then (q, FAIL)
    else (q.(back := Dec(q, q.back)), SUCCESS)
  }

  function AfterPopFront(q: Indices): (Indices, Status) {
    if IsEmpty(q) then (q, FAIL)
    else if q.front == q.back then (Empty(q.size), FAIL)
    else (q.(front := Dec(q, q.front)), SUCCESS)
  }

  function AfterPopBack(q: Indices): (Indices, Status) {
    if IsEmpty(q) then (q, FAIL)
    else if q.front == q.back then (Empty(q.size), FAIL)
    else (q.(back := Inc(q, q.back)), SUCCESS)
  }

  function AfterForciblyPushFront(q: Indices): Indices {
    if IsEmpty(q) then q.(front := 0, back := 0)
    else q.(front := Inc(q, q.front),
            back := if Inc(q, q.front) == q.back then Inc(q, q.back) else q.back)
  }

  function AfterForciblyPushBack(q: Indices): Indices {
    if IsEmpty(q) then q.(front := 0, back := 0)
    else q.(back := Dec(q, q.back),
            front := if Dec(q, q.back) == q.front then Dec(q, q.front) else q.front)
  }

  // ---------- The slots in use ----------

  function Count(q: Indices): (n: nat)
    requires Valid(q)
    ensures n <= q.size
  {
    if IsEmpty(q) then 0
    else if q.front >= q.back then q.front - q.back + 1
    else q.size + q.front - q.back + 1
  }

  /** Slot i from the back, going round the end of the array. */
  function Slot(q: Indices, i: nat): (k: nat)
    requires Valid(q) && !IsEmpty(q) && i < q.size
    ensures k < q.size
  {
    if q.back + i < q.size then q.back + i else q.back + i - q.size
  }

  /** The slots in use, from back to front. */
  function Slots(q: Indices): (s: seq<nat>)
    requires Valid(q)
    ensures |s| == Count(q)
    ensures forall i | 0 <= i < |s| :: s[i] < q.size
  {
    seq(Count(q), i requires 0 <= i < Count(q) => Slot(q, i))
  }

  lemma SlotsAreDistinct(q: Indices)
    requires Valid(q)
    ensures forall i, j | 0 <= i < j < |Slots(q)| :: Slots(q)[i] != Slots(q)[j]
    ensures !IsEmpty(q) ==> Slots(q)[0] == q.back && Slots(q)[Count(q) - 1] == q.front
  {
  }

  /** Within the array, stepping an index goes round its end and never leaves eight bits. */
  lemma Stepping(q: Indices)
    requires 1 <= q.size <= 255
    ensures forall n | 0 <= n < q.size :: Inc(q, n) == if n == q.size - 1 then 0 else n + 1
    ensures forall n | 0 <= n < q.size :: Dec(q, n) == if n == 0 then q.size - 1 else n - 1
    ensures forall n | 0 <= n < q.size :: Dec(q, Inc(q, n)) == n && Inc(q, Dec(q, n)) == n
  {
  }

  /** The three observers say what the slots say. */
  lemma ObserversAgree(q: Indices)
    requires Valid(q)
    ensures IsEmpty(q) <==> Slots(q) == []
    ensures IsFull(q) <==> |Slots(q)| == q.size
    ensures NumElements(q) == |Slots(q)|
  {
  }

  lemma PushFrontSlots(q: Indices)
    requires Valid(q)
    ensures
      var (r, status) := AfterPushFront(q);
      && Valid(r) && r.size == q.size
      && (status == FAIL <==> |Slots(q)| == q.size)
      && (status == FAIL ==> r == q)
      && (status == SUCCESS ==> Slots(r) == Slots(q) + [r.front])
  {
    hide Inc, Dec;
    Stepping(q);
  }

  lemma PushBackSlots(q: Indices)
    requires Valid(q)
    ensures
      var (r, status) := AfterPushBack(q);
      && Valid(r) && r.size == q.size
      && (status == FAIL <==> |Slots(q)| == q.size)
      && (status == FAIL ==> r == q)
      && (status == SUCCESS ==> Slots(r) == [r.back] + Slots(q))
  {
    hide Inc, Dec;
    Stepping(q);
  }

  /** A pop takes an end slot; it reports FAIL if none was there or none is left. */
  lemma PopFrontSlots(q: Indices)
    requires Valid(q)
    ensures
      var (r, status) := AfterPopFront(q);
      && Valid(r) && r.size == q.size
      && Slots(r) == (if Slots(q) == [] then [] else Slots(q)[..|Slots(q)| - 1])
      && (status == SUCCESS <==> Slots(r) != [])
  {
    hide Inc, Dec;
    Stepping(q);
  }

  lemma PopBackSlots(q: Indices)
    requires Valid(q)
    ensures
      var (r, status) := AfterPopBack(q);
      && Valid(r) && r.size == q.size
      && Slots(r) == (if Slots(q) == [] then [] else Slots(q)[1..])
      && (status == SUCCESS <==> Slots(r) != [])
  {
    hide Inc, Dec;
    Stepping(q);
  }

  lemma ForciblyPushFrontSlots(q: Indices)
    requires Valid(q)
    ensures
      var r := AfterForciblyPushFront(q);
      && Valid(r) && r.size == q.size
      && Slots(r) == (if |Slots(q)| == q.size then Slots(q)[1..] else Slots(q)) + [r.front]
  {
    hide Inc, Dec;
    Stepping(q);
  }

  lemma ForciblyPushBackSlots(q: Indices)
    requires Valid(q)
    ensures
      var r := AfterForciblyPushBack(q);
      && Valid(r) && r.size == q.size
      && Slots(r) == [r.back] + if |Slots(q)| == q.size then Slots(q)[..|Slots(q)| - 1] else Slots(q)
  {
    hide Inc, Dec;
    Stepping(q);
  }

  /** Popping the end just pushed restores the very indices, whether or not the pop reports FAIL. */
  lemma PopFrontUndoesPush(q: Indices)
    requires Valid(q) && |Slots(q)| < q.size
    ensures AfterPopFront(AfterPushFront(q).0).0 == q
  {
    hide Slots;
    assert Count(q) < q.size;
  }

  lemma PopBackUndoesPush(q: Indices)
    requires Valid(q) && |Slots(q)| < q.size
    ensures AfterPopBack(AfterPushBack(q).0).0 == q
  {
    hide Slots;
    assert Count(q) < q.size;
  }

  /**
    A queue of size zero is always empty, yet its pushes report SUCCESS. Its indices, unlike
    any other queue's, step out of eight bits and wrap.
    */
  lemma SizeZeroKeepsNothing()
    ensures IsEmpty(Empty(0)) && Dec(Empty(0), 0) == 255 && Inc(Empty(0), 255) == 0
    ensures AfterPushFront(Empty(0)) == (Empty(0), SUCCESS) && AfterPushBack(Empty(0)) == (Empty(0), SUCCESS)
  {
  }

  // ---------- Refinement of a bounded deque ----------

  datatype Op<T> = PushF(x: T) | PushB(x: T) | PopF | PopB | ForceF(x: T) | ForceB(x: T)

  function Pick<T>(a: seq<T>, slots: seq<nat>): (c: seq<T>)
    requires forall i | 0 <= i < |slots| :: slots[i] < |a|
    ensures |c| == |slots|
  {
    seq(|slots|, i requires 0 <= i < |slots| => a[slots[i]])
  }

  /** The queue's contents in the client's array, from back to front. */
  function Contents<T>(q: Indices, a: seq<T>): (c: seq<T>)
    requires Valid(q) && |a| == q.size
    ensures |c| == |Slots(q)|
  {
    Pick(a, Slots(q))
  }

  function Store<T>(a: seq<T>, i: int, x: T): seq<T> {
    if 0 <= i < |a| then a[i := x] else a
  }

  /** The client: after a push that succeeds it writes the new end's slot. */
  function Run1<T>(q: Indices, a: seq<T>, op: Op<T>): (Indices, seq<T>)
    requires Valid(q) && |a| == q.size
  {
    match op
    case PushF(x) =>
      var (r, status) := AfterPushFront(q);
      (r, if status == SUCCESS then Store(a, r.front, x) else a)
    case PushB(x) =>
      var (r, status) := AfterPushBack(q);
      (r, if status == SUCCESS then Store(a, r.back, x) else a)
    case PopF => (AfterPopFront(q).0, a)
    case PopB => (AfterPopBack(q).0, a)
    case ForceF(x) =>
      var r := AfterForciblyPushFront(q);
      (r, Store(a, r.front, x))
    case ForceB(x) =>
      var r := AfterForciblyPushBack(q);
      (r, Store(a, r.back, x))
  }

  /** The same operations on a deque of at most size items, back first. */
  function Deque1<T>(c: seq<T>, size: nat, op: Op<T>): seq<T>
    requires |c| <= size && size > 0
  {
    match op
    case PushF(x) => if |c| < size then c + [x] else c
    case PushB(x) => if |c| < size then [x] + c else c
    case PopF => if c == [] then c else c[..|c| - 1]
    case PopB => if c == [] then c else c[1..]
    case ForceF(x) => (if |c| < size then c else c[1..]) + [x]
    case ForceB(x) => [x] + if |c| < size then c else c[..|c| - 1]
  }

  lemma PickStored<T>(a: seq<T>, kept: seq<nat>, e: nat, x: T)
    requires e < |a| && e !in kept && forall i | 0 <= i < |kept| :: kept[i] < |a|
    ensures Pick(a[e := x], kept + [e]) == Pick(a, kept) + [x]
    ensures Pick(a[e := x], [e] + kept) == [x] + Pick(a, kept)
  {
  }

  /** The slots as taken from an end, and as changed by a push at an end; a slot pushed was not in use. */
  lemma NewSlot(r: Indices, kept: seq<nat>, e: int)
    requires Valid(r) && (Slots(r) == kept + [e] || Slots(r) == [e] + kept)
    ensures e !in kept && 0 <= e < r.size
  {
    hide Slots, Slot, Count;
    SlotsAreDistinct(r);
    if Slots(r) == kept + [e] {
      assert Slots(r)[|kept|] == e;
      assert forall i | 0 <= i < |kept| :: Slots(r)[i] == kept[i];
    } else {
      assert Slots(r)[0] == e;
      assert forall i | 0 <= i < |kept| :: Slots(r)[i + 1] == kept[i];
    }
  }

  /** What one operation, with the client's write, is to do to the contents. */
  ghost predicate RefinesDeque<T>(q: Indices, a: seq<T>, op: Op<T>)
    requires Valid(q) && |a| == q.size
  {
    var (r, b) := Run1(q, a, op);
    && Valid(r) && r.size == q.size && |b| == q.size
    && Contents(r, b) == Deque1(Contents(q, a), q.size, op)
  }

  lemma PushesRefine<T>(q: Indices, a: seq<T>, x: T)
    requires Valid(q) && |a| == q.size
    ensures RefinesDeque(q, a, PushF(x)) && RefinesDeque(q, a, PushB(x))
  {
    hide Valid, Slots, Count, Pick, IsEmpty, Inc, Dec, AfterPushFront, AfterPushBack;
    FewerThanSize(q);
    PushFrontSlots(q);
    PushBackSlots(q);
    var s := Slots(q);
    if |s| < q.size {
      var f, b := AfterPushFront(q).0, AfterPushBack(q).0;
      NewSlot(f, s, f.front);
      PickStored(a, s, f.front, x);
      NewSlot(b, s, b.back);
      PickStored(a, s, b.back, x);
    }
  }

  lemma PopsRefine<T>(q: Indices, a: seq<T>)
    requires Valid(q) && |a| == q.size
    ensures RefinesDeque(q, a, PopF) && RefinesDeque(q, a, PopB)
  {
    hide Valid, Slots, Count, Pick, IsEmpty, Inc, Dec, AfterPopFront, AfterPopBack;
    FewerThanSize(q);
    PopFrontSlots(q);
    PopBackSlots(q);
    var s := Slots(q);
    if s != [] {
      PickSlice(a, s, 0, |s| - 1);
      PickSlice(a, s, 1, |s|);
    }
  }

  lemma ForciblePushesRefine<T>(q: Indices, a: seq<T>, x: T)
    requires Valid(q) && |a| == q.size
    ensures RefinesDeque(q, a, ForceF(x)) && RefinesDeque(q, a, ForceB(x))
  {
    hide Valid, Slots, Count, Pick, IsEmpty, Inc, Dec, AfterForciblyPushFront, AfterForciblyPushBack;
    FewerThanSize(q);
    ForciblyPushFrontSlots(q);
    ForciblyPushBackSlots(q);
    var s := Slots(q);
    var f, b := AfterForciblyPushFront(q), AfterForciblyPushBack(q);
    var noBack := if |s| == q.size then s[1..] else s;
    var noFront := if |s| == q.size then s[..|s| - 1] else s;
    NewSlot(f, noBack, f.front);
    PickStored(a, noBack, f.front, x);
    NewSlot(b, noFront, b.back);
    PickStored(a, noFront, b.back, x);
    PickSlice(a, s, if |s| == q.size then 1 else 0, |s|);
    PickSlice(a, s, 0, if |s| == q.size then |s| - 1 else |s|);
  }

  /** One operation, with the client's write, does to the contents what it does to a bounded deque. */
  lemma Refines<T>(q: Indices, a: seq<T>, op: Op<T>)
    requires Valid(q) && |a| == q.size
    ensures RefinesDeque(q, a, op)
  {
    hide *;
    match op
    case PushF(x) => PushesRefine(q, a, x);
    case PushB(x) => PushesRefine(q, a, x);
    case PopF => PopsRefine(q, a);
    case PopB => PopsRefine(q, a);
    case ForceF(x) => ForciblePushesRefine(q, a, x);
    case ForceB(x) => ForciblePushesRefine(q, a, x);
  }

  lemma FewerThanSize(q: Indices)
    requires Valid(q)
    ensures |Slots(q)| <= q.size && 1 <= q.size
  {
  }

  lemma PickSlice<T>(a: seq<T>, s: seq<nat>, lo: nat, hi: nat)
    requires lo <= hi <= |s| && forall i | 0 <= i < |s| :: s[i] < |a|
    ensures Pick(a, s[lo..hi]) == Pick(a, s)[lo..hi]
    ensures lo == 0 ==> Pick(a, s[..hi]) == Pick(a, s)[..hi]
    ensures hi == |s| ==> Pick(a, s[lo..]) == Pick(a, s)[lo..]
  {
    assert lo == 0 ==> s[..hi] == s[lo..hi];
    assert hi == |s| ==> s[lo..] == s[lo..hi];
  }

  // ---------- Whole runs ----------

  function RunAll<T>(q: Indices, a: seq<T>, ops: seq<Op<T>>): (Indices, seq<T>)
    requires Valid(q) && |a| == q.size
    decreases |ops|
  {
    if ops == [] then (q, a)
    else
      Refines(q, a, ops[0]);
      var (r, b) := Run1(q, a, ops[0]);
      RunAll(r, b, ops[1..])
  }

  function DequeAll<T>(c: seq<T>, size: nat, ops: seq<Op<T>>): (d: seq<T>)
    requires |c| <= size && size > 0
    ensures |d| <= size
    decreases |ops|
  {
    if ops == [] then c else DequeAll(Deque1(c, size, ops[0]), size, ops[1..])
  }

  /** Every run of operations on the indices and the client's array is one of the bounded deque. */
  lemma {:induction false} RunsRefine<T>(q: Indices, a: seq<T>, ops: seq<Op<T>>)
    requires Valid(q) && |a| == q.size
    ensures
      var (r, b) := RunAll(q, a, ops);
      && Valid(r) && r.size == q.size && |b| == q.size
      && Contents(r, b) == DequeAll(Contents(q, a), q.size, ops)
    decreases |ops|
  {
    hide Valid, Contents, Run1, Deque1, Slots;
    FewerThanSize(q);
    if ops != [] {
      Refines(q, a, ops[0]);
      var (r, b) := Run1(q, a, ops[0]);
      RunsRefine(r, b, ops[1..]);
    }
  }

  function Forced<T>(xs: seq<T>): (ops: seq<Op<T>>)
    ensures |ops| == |xs| && forall i | 0 <= i < |xs| :: ops[i] == ForceF(xs[i])
  {
    seq(|xs|, i requires 0 <= i < |xs| => ForceF(xs[i]))
  }

  function LastOf<T>(s: seq<T>, n: nat): seq<T> {
    if |s| <= n then s else s[|s| - n..]
  }

  /** Keeping the last items before more arrive makes no difference to which are last. */
  lemma LastOfAppended<T>(c: seq<T>, n: nat, xs: seq<T>)
    ensures LastOf(LastOf(c, n) + xs, n) == LastOf(c + xs, n)
  {
  }

  lemma DequeStep<T>(c: seq<T>, size: nat, op: Op<T>, rest: seq<Op<T>>)
    requires |c| <= size && size > 0
    ensures DequeAll(c, size, [op] + rest) == DequeAll(Deque1(c, size, op), size, rest)
  {
    hide Deque1;
    assert ([op] + rest)[1..] == rest;
  }

  lemma ForcedOne<T>(c: seq<T>, size: nat, x: T)
    requires |c| <= size && size > 0
    ensures Deque1(c, size, ForceF(x)) == LastOf(c + [x], size) && |LastOf(c + [x], size)| <= size
  {
  }

  lemma ForcedNone<T>(c: seq<T>, size: nat)
    requires |c| <= size && size > 0
    ensures DequeAll(c, size, Forced([])) == LastOf(c + [], size)
  {
    assert c + [] == c;
  }

  /** A run of forcible pushes keeps exactly the last items, as many as there is room for. */
  lemma {:induction false} ForcedKeepLast<T>(c: seq<T>, size: nat, xs: seq<T>)
    requires |c| <= size && size > 0
    ensures DequeAll(c, size, Forced(xs)) == LastOf(c + xs, size)
    decreases |xs|
  {
    hide *;
    if xs == [] {
      ForcedNone(c, size);
    } else {
      var x, rest := xs[0], xs[1..];
      assert Forced(xs) == [ForceF(x)] + Forced(rest);
      DequeStep(c, size, ForceF(x), Forced(rest));
      ForcedOne(c, size, x);
      ForcedKeepLast(LastOf(c + [x], size), size, rest);
      LastOfAppended(c + [x], size, rest);
      assert c + [x] + rest == c + xs;
    }
  }

  function ForcedBack<T>(xs: seq<T>): (ops: seq<Op<T>>)
    ensures |ops| == |xs| && forall i | 0 <= i < |xs| :: ops[i] == ForceB(xs[i])
  {
    seq(|xs|, i requires 0 <= i < |xs| => ForceB(xs[i]))
  }

  function FirstOf<T>(s: seq<T>, n: nat): seq<T> {
    if |s| <= n then s else s[..n]
  }

  lemma FirstOfPrepended<T>(xs: seq<T>, c: seq<T>, n: nat)
    ensures FirstOf(xs + FirstOf(c, n), n) == FirstOf(xs + c, n)
  {
  }

  lemma ForcedBackOne<T>(c: seq<T>, size: nat, x: T)
    requires |c| <= size && size > 0
    ensures Deque1(c, size, ForceB(x)) == FirstOf([x] + c, size) && |FirstOf([x] + c, size)| <= size
  {
  }

  lemma ForcedBackNone<T>(c: seq<T>, size: nat)
    requires |c| <= size && size > 0
    ensures DequeAll(c, size, ForcedBack([])) == FirstOf(Reversed([]) + c, size)
  {
    assert [] + c == c;
  }

  /** The same at the other end: the newest item is the first. */
  lemma {:induction false} ForcedBackKeepFirst<T>(c: seq<T>, size: nat, xs: seq<T>)
    requires |c| <= size && size > 0
    ensures DequeAll(c, size, ForcedBack(xs)) == FirstOf(Reversed(xs) + c, size)
    decreases |xs|
  {
    hide DequeAll, Deque1, FirstOf, ForcedBack;
    if xs == [] {
      ForcedBackNone(c, size);
    } else {
      var x, rest := xs[0], xs[1..];
      assert ForcedBack(xs) == [ForceB(x)] + ForcedBack(rest);
      DequeStep(c, size, ForceB(x), ForcedBack(rest));
      ForcedBackOne(c, size, x);
      ForcedBackKeepFirst(FirstOf([x] + c, size), size, rest);
      FirstOfPrepended(Reversed(rest), [x] + c, size);
      assert Reversed(xs) + c == Reversed(rest) + ([x] + c);
    }
  }

  /** So a client that only pushes forcibly finds in its slots the last items, oldest at the back. */
  lemma ForcedRun<T>(q: Indices, a: seq<T>, xs: seq<T>)
    requires Valid(q) && |a| == q.size
    ensures
      var (r, b) := RunAll(q, a, Forced(xs));
      Valid(r) && r.size == |b| && Contents(r, b) == LastOf(Contents(q, a) + xs, q.size)
  {
    hide *;
    FewerThanSize(q);
    RunsRefine(q, a, Forced(xs));
    ForcedKeepLast(Contents(q, a), q.size, xs);
  }

  // ---------- The queue the clients hold ----------

  class CircularQueue {
    var front: int
    var back: int
    var size: int

    constructor (size: nat)
      requires size <= 255
      ensures View() == Empty(size)
    {
      front := size;
      back := size;
      this.size := size;
    }

    function View(): Indices
      reads this
    {
      Indices(front, back, size)
    }

    method PushFront() returns (status: Status)
      requires Valid(View())
      modifies this`front, this`back
      ensures Valid(View())
      ensures (View(), status) == AfterPushFront(old(View()))
      ensures status == FAIL <==> |Slots(old(View()))| == size
      ensures status == FAIL ==> View() == old(View())
      ensures status == SUCCESS ==> Slots(View()) == Slots(old(View())) + [front]
    {
      PushFrontSlots(View());
      if IsEmpty(View()) {
        front := 0;
        back := 0;
      } else {
        var newFront := Inc(View(), front);
        if newFront == back {
          return FAIL;
        }
        front := newFront;
      }
      return SUCCESS;
    }

    method PushBack() returns (status: Status)
      requires Valid(View())
      modifies this`front, this`back
      ensures Valid(View())
      ensures (View(), status) == AfterPushBack(old(View()))
      ensures status == FAIL <==> |Slots(old(View()))| == size
      ensures status == FAIL ==> View() == old(View())
      ensures status == SUCCESS ==> Slots(View()) == [back] + Slots(old(View()))
    {
      PushBackSlots(View());
      if IsEmpty(View()) {
        front := 0;
        back := 0;
      } else {
        var newBack := Dec(View(), back);
        if newBack == front {
          return FAIL;
        }
        back := newBack;
      }
      return SUCCESS;
    }

    method PopFront() returns (status: Status)
      requires Valid(View())
      modifies this`front, this`back
      ensures Valid(View())
      ensures (View(), status) == AfterPopFront(old(View()))
      ensures Slots(View()) == if Slots(old(View())) == [] then [] else Slots(old(View()))[..|Slots(old(View()))| - 1]
      ensures status == SUCCESS <==> Slots(View()) != []
    {
      PopFrontSlots(View());
      if IsEmpty(View()) {
        return FAIL;
      }
      if front == back {
        front := size;
        back := size;
        return FAIL;
      }
      front := Dec(View(), front);
      return SUCCESS;
    }

    method PopBack() returns (status: Status)
      requires Valid(View())
      modifies this`front, this`back
      ensures Valid(View())
      ensures (View(), status) == AfterPopBack(old(View()))
      ensures Slots(View()) == if Slots(old(View())) == [] then [] else Slots(old(View()))[1..]
      ensures status == SUCCESS <==> Slots(View()) != []
    {
      PopBackSlots(View());
      if IsEmpty(View()) {
        return FAIL;
      }
      if front == back {
        front := size;
        back := size;
        return FAIL;
      }
      back := Inc(View(), back);
      return SUCCESS;
    }

    method ForciblyPushFront() returns (status: Status)
      requires Valid(View())
      modifies this`front, this`back
      ensures Valid(View())
      ensures View() == AfterForciblyPushFront(old(View()))
      ensures status == SUCCESS
      ensures Slots(View())
           == (if |Slots(old(View()))| == size then Slots(old(View()))[1..] else Slots(old(View()))) + [front]
    {
      ForciblyPushFrontSlots(View());
      if IsEmpty(View()) {
        front := 0;
        back := 0;
      } else {
        var newFront := Inc(View(), front);
        if newFront == back {
          back := Inc(View(), back);
        }
        front := newFront;
      }
      return SUCCESS;
    }

    method ForciblyPushBack() returns (status: Status)
      requires Valid(View())
      modifies this`front, this`back
      ensures Valid(View())
      ensures View() == AfterForciblyPushBack(old(View()))
      ensures status == SUCCESS
      ensures Slots(View())
           == [back] + if |Slots(old(View()))| == size then Slots(old(View()))[..|Slots(old(View()))| - 1]
                       else Slots(old(View()))
    {
      ForciblyPushBackSlots(View());
      if IsEmpty(View()) {
        front := 0;
        back := 0;
      } else {
        var newBack := Dec(View(), back);
        if newBack == front {
          front := Dec(View(), front);
        }
        back := newBack;
      }
      return SUCCESS;
    }
  }
}
