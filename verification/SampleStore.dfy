/**
  The sample store of one oscilloscope mote: an array that grows in steps, slides
  when it is full, restarts when the mote's count falls back, and marks gaps. It is
  proved to agree with the history of messages received. The number of readings per
  message is the parameter n.
  */
module SampleStore {

  /** A message carries n readings, of samples id * n onwards; readings are 16-bit unsigned. */
  datatype Message = Message(id: nat, readings: seq<int>)

  predicate WellFormed(n: nat, m: Message) {
    n > 0 && |m.readings| == n && forall i | 0 <= i < n :: 0 <= m.readings[i] <= 0xffff
  }

  function First(n: nat, m: Message): nat {
    m.id * n
  }

  // ---------- What a history of messages says about a sample ----------

  ghost predicate AllWellFormed(n: nat, history: seq<Message>) {
    n > 0 && forall j | 0 <= j < |history| :: WellFormed(n, history[j])
  }

  /** The latest message that starts at or below x decides: it covers x, or it ended the data before x. */
  ghost function Latest(n: nat, history: seq<Message>, x: int): int
    requires AllWellFormed(n, history)
  {
    if history == [] then -1
    else
      var k := |history| - 1;
      var first := First(n, history[k]);
      if x < first then Latest(n, history[..k], x)
      else if x < first + n then history[k].readings[x - first]
      else -1
  }

  /** Message j gave sample x, and nothing since has overwritten or cut it off. */
  ghost predicate GaveSample(n: nat, history: seq<Message>, j: int, x: int)
    requires AllWellFormed(n, history)
  {
    && 0 <= j < |history|
    && First(n, history[j]) <= x < First(n, history[j]) + n
    && forall k | j < k < |history| :: x < First(n, history[k])
  }

  lemma {:induction false} LatestMeaning(n: nat, history: seq<Message>, x: int)
    requires AllWellFormed(n, history)
    ensures Latest(n, history, x) != -1 <==> exists j :: GaveSample(n, history, j, x)
    ensures forall j :: GaveSample(n, history, j, x)
                    ==> Latest(n, history, x) == history[j].readings[x - First(n, history[j])]
  {
    hide First;
    if history != [] {
      var k := |history| - 1;
      var earlier := history[..k];
      LatestMeaning(n, earlier, x);
      if x < First(n, history[k]) {
        forall j | GaveSample(n, history, j, x) ensures GaveSample(n, earlier, j, x) {
          assert earlier[j] == history[j];
          forall i | j < i < k ensures x < First(n, earlier[i]) {
            assert earlier[i] == history[i];
          }
        }
        forall j | GaveSample(n, earlier, j, x) ensures GaveSample(n, history, j, x) {
          assert earlier[j] == history[j];
          forall i | j < i < |history| ensures x < First(n, history[i]) {
            if i < k { assert earlier[i] == history[i]; }
          }
        }
      } else if x < First(n, history[k]) + n {
        assert GaveSample(n, history, k, x);
        forall j | GaveSample(n, history, j, x) ensures j == k {
          if j < k { assert false; }
        }
      } else {
        forall j ensures !GaveSample(n, history, j, x) {
          if GaveSample(n, history, j, x) && j < k { assert false; }
        }
      }
    }
  }

  // ---------- The window of samples the array holds ----------

  function Increment(n: nat): nat { 100 * n }

  function MaxSize(n: nat): nat { 100 * Increment(n) }

  /** Where the array starts, how long it is (0 before the first message), and where its data ends. */
  datatype Window = Window(start: int, length: int, end: int)

  const EMPTY := Window(0, 0, 0)

  /** A message below the window restarts it. */
  predicate Restarts(w: Window, first: int) {
    w.length == 0 || first < w.start
  }

  function Restarted(n: nat, w: Window, first: int): Window {
    if Restarts(w, first) then Window(first, Increment(n), w.end) else w
  }

  function RoundUp(n: nat, x: int): int
    requires n > 0
  {
    (x + Increment(n) - 1) / Increment(n) * Increment(n)
  }

  function ExtendedLength(n: nat, w: Window, newEnd: int): int
    requires n > 0
  {
    if newEnd <= w.start + w.length || w.length >= MaxSize(n) then w.length
    else if RoundUp(n, newEnd - w.start) >= MaxSize(n) then MaxSize(n)
    else RoundUp(n, newEnd - w.start)
  }

  /** After extending as far as allowed, the new samples still do not fit. */
  predicate Squishes(n: nat, w: Window, first: int)
    requires n > 0
  {
    var r := Restarted(n, w, first);
    first + n > r.start + ExtendedLength(n, r, first + n)
  }

  function NextWindow(n: nat, w: Window, first: int): Window
    requires n > 0
  {
    var r := Restarted(n, w, first);
    var length := ExtendedLength(n, r, first + n);
    Window(if Squishes(n, w, first) then first + Increment(n) - length else r.start, length, first + n)
  }

  ghost function WindowAfter(n: nat, history: seq<Message>): Window
    requires AllWellFormed(n, history)
  {
    if history == [] then EMPTY
    else
      var k := |history| - 1;
      NextWindow(n, WindowAfter(n, history[..k]), First(n, history[k]))
  }

  ghost predicate Multiple(n: nat, x: int) {
    exists k: int :: x == k * n
  }

  lemma MultipleSum(n: nat, x: int, y: int)
    requires Multiple(n, x) && Multiple(n, y)
    ensures Multiple(n, x + y) && Multiple(n, x - y)
  {
    var j: int :| x == j * n;
    var k: int :| y == k * n;
    assert x + y == (j + k) * n;
    assert x - y == (j - k) * n;
  }

  lemma MultipleOfMultiple(n: nat, c: nat, x: int)
    requires Multiple(c * n, x)
    ensures Multiple(n, x)
  {
    var k: int :| x == k * (c * n);
    Associate(k, c, n);
  }

  lemma Associate(k: int, c: nat, n: nat)
    ensures k * (c * n) == (k * c) * n
  {
  }

  /** Multiples of n that are less than n apart the wrong way round are not. */
  lemma MultiplesApart(n: nat, a: int, b: int)
    requires Multiple(n, a) && Multiple(n, b) && a + n > b
    ensures a >= b
  {
    MultipleSum(n, a, b);
    var k: int :| a - b == k * n;
    if k < 0 {
      assert (k + 1) * n <= 0;
    }
  }

  /** What holds of every window that follows a message. */
  ghost predicate Sound(n: nat, w: Window) {
    && n > 0
    && 0 <= w.start < w.end <= w.start + w.length
    && Increment(n) <= w.length <= MaxSize(n)
    && Multiple(Increment(n), w.length)
    && Multiple(n, w.start)
  }

  lemma RoundUpBounds(n: nat, x: int)
    requires n > 0 && x > 0
    ensures x <= RoundUp(n, x) < x + Increment(n)
    ensures Multiple(Increment(n), RoundUp(n, x))
  {
    var inc := Increment(n);
    DivisionBounds(x + inc - 1, inc, (x + inc - 1) / inc);
  }

  lemma DivisionBounds(a: int, b: int, q: int)
    requires b > 0 && q == a / b
    ensures q * b <= a < q * b + b
  {
  }

  lemma MultipleOfFirst(n: nat, m: Message)
    ensures Multiple(n, First(n, m))
  {
  }

  lemma SizesAreMultiples(n: nat)
    ensures Multiple(Increment(n), 0) && Multiple(Increment(n), Increment(n)) && Multiple(Increment(n), MaxSize(n))
    ensures Multiple(n, Increment(n))
  {
    assert 0 == 0 * Increment(n);
    assert Increment(n) == 1 * Increment(n);
    assert MaxSize(n) == 100 * Increment(n);
    assert Increment(n) == 100 * n;
  }

  /** Each message leaves a sound window that ends with its own samples. */
  lemma NextIsSound(n: nat, w: Window, first: nat)
    requires n > 0 && (w.length == 0 || Sound(n, w)) && Multiple(n, first)
    ensures Sound(n, NextWindow(n, w, first))
    ensures NextWindow(n, w, first).start <= first && NextWindow(n, w, first).end == first + n
    ensures if Restarts(w, first) then NextWindow(n, w, first).start == first
            else NextWindow(n, w, first).start >= w.start
    ensures Squishes(n, w, first) ==>
      && !Restarts(w, first)
      && NextWindow(n, w, first).length == MaxSize(n)
      && NextWindow(n, w, first).start > w.start
  {
    hide Multiple;
    SizesAreMultiples(n);
    var r := Restarted(n, w, first);
    if !Restarts(w, first) && first + n > w.start + w.length {
      RoundUpBounds(n, first + n - w.start);
    }
    var length := ExtendedLength(n, r, first + n);
    if Squishes(n, w, first) {
      assert length == MaxSize(n);
      MultipleSum(n, first, Increment(n));
      assert Multiple(100 * n, length);
      MultipleOfMultiple(n, 100, length);
      MultipleSum(n, first + Increment(n), length);
    }
  }

  /**
    The array in numbers: it starts with room for a hundred messages, grows by as many
    hundreds as the samples from its start on need, to ten thousand messages at most, and
    then slides so that a message that does not fit ends the first of its last hundred.
    */
  lemma WindowInNumbers(n: nat, w: Window, first: nat)
    requires n > 0 && (w.length == 0 || Sound(n, w)) && Multiple(n, first)
    ensures
      var next, end := NextWindow(n, w, first), first + n;
      && next.end == end
      && if w.length == 0 || first < w.start then next.start == first && next.length == 100 * n
         else if end <= w.start + w.length then next.start == w.start && next.length == w.length
         else if end <= w.start + 10000 * n then
           && next.start == w.start && Multiple(100 * n, next.length)
           && end <= w.start + next.length < end + 100 * n
         else next.length == 10000 * n && next.start == first - 9900 * n
  {
    hide Multiple, RoundUp;
    var end := first + n;
    SizesAreMultiples(n);
    assert Increment(n) == 100 * n && MaxSize(n) == 10000 * n;
    if !Restarts(w, first) && end > w.start + w.length {
      var size := RoundUp(n, end - w.start);
      RoundUpBounds(n, end - w.start);
      ExtensionGrows(n, w, first, ExtendedLength(n, w, end));
      if end <= w.start + 10000 * n {
        MultipleSum(100 * n, size, 100 * n);
        if size > 10000 * n { MultiplesApart(100 * n, 10000 * n, size); }
      }
    }
  }

  lemma {:induction false} WindowIsSound(n: nat, history: seq<Message>)
    requires AllWellFormed(n, history)
    ensures history == [] <==> WindowAfter(n, history).length == 0
    ensures history == [] ==> WindowAfter(n, history) == EMPTY
    ensures history != [] ==> Sound(n, WindowAfter(n, history))
  {
    hide First, NextWindow;
    if history != [] {
      var k := |history| - 1;
      WindowIsSound(n, history[..k]);
      MultipleOfFirst(n, history[k]);
      NextIsSound(n, WindowAfter(n, history[..k]), First(n, history[k]));
    }
  }

  // ---------- Retention ----------

  ghost function Sample(n: nat, history: seq<Message>, x: int): int
    requires AllWellFormed(n, history)
  {
    if x < WindowAfter(n, history).start then -1 else Latest(n, history, x)
  }

  /**
    A readable sample keeps its value through the next message exactly if that
    message starts above it and does not squish it out.
    */
  lemma Retention(n: nat, history: seq<Message>, m: Message, x: int)
    requires AllWellFormed(n, history) && WellFormed(n, m)
    requires Sample(n, history, x) != -1 && x < First(n, m)
    ensures AllWellFormed(n, history + [m])
    ensures
      var w := WindowAfter(n, history);
      if Squishes(n, w, First(n, m)) && x + MaxSize(n) - Increment(n) < First(n, m) then
        Sample(n, history + [m], x) == -1
      else
        Sample(n, history + [m], x) == Sample(n, history, x)
  {
    hide Multiple, RoundUp;
    var w := WindowAfter(n, history);
    assert (history + [m])[..|history|] == history;
    WindowIsSound(n, history);
    MultipleOfFirst(n, m);
    NextIsSound(n, w, First(n, m));
    if history == [] { assert false; }
  }

  /**
    The same in numbers: a readable sample outlives a message that starts at most 9900
    messages' readings above it, or within ten thousand of the window's start; beyond both it is gone.
    */
  lemma RetentionInNumbers(n: nat, history: seq<Message>, m: Message, x: int)
    requires AllWellFormed(n, history) && WellFormed(n, m)
    requires Sample(n, history, x) != -1 && x < m.id * n
    ensures AllWellFormed(n, history + [m])
    ensures
      if m.id * n <= x + 9900 * n || m.id * n < WindowAfter(n, history).start + 10000 * n then
        Sample(n, history + [m], x) == Sample(n, history, x)
      else
        Sample(n, history + [m], x) == -1
  {
    hide Multiple, RoundUp;
    var w := WindowAfter(n, history);
    Retention(n, history, m, x);
    WindowIsSound(n, history);
    MultipleOfFirst(n, m);
    WindowInNumbers(n, w, First(n, m));
    if history == [] { assert false; }
    MultipleOfTenThousand(n, w.start, First(n, m));
  }

  lemma MultipleOfTenThousand(n: nat, start: int, first: int)
    requires Multiple(n, start) && Multiple(n, first)
    ensures first < start + 10000 * n ==> first + n <= start + 10000 * n
  {
    hide Multiple;
    MultipleOf(n, 10000);
    MultipleSum(n, start, 10000 * n);
    if first < start + 10000 * n {
      MultipleOf(n, 1);
      MultipleSum(n, start + 10000 * n, n);
      MultiplesApart(n, start + 10000 * n - n, first);
    }
  }

  lemma MultipleOf(n: nat, k: int)
    ensures Multiple(n, k * n)
  {
  }

  /** The last message's own readings are always there, and nothing is above them. */
  lemma LastMessageReadable(n: nat, history: seq<Message>, m: Message, x: int)
    requires AllWellFormed(n, history) && WellFormed(n, m) && x >= m.id * n
    ensures AllWellFormed(n, history + [m])
    ensures Sample(n, history + [m], x) == if x < m.id * n + n then m.readings[x - m.id * n] else -1
  {
    hide Multiple, NextWindow;
    LatestOfLast(n, history, m, x);
    WindowOfLast(n, history, m);
    WindowIsSound(n, history);
    MultipleOfFirst(n, m);
    NextIsSound(n, WindowAfter(n, history), First(n, m));
  }

  // ---------- The cost of sliding ----------

  /** Where the window ends: it only moves up, unless the window restarts. */
  function Capacity(w: Window): int {
    w.start + w.length
  }

  /** Array cells the two copies move for one message: the extension's, and the squish's. */
  function CellsMoved(n: nat, w: Window, first: int): int
    requires n > 0
  {
    var r := Restarted(n, w, first);
    var length := ExtendedLength(n, r, first + n);
    (if length != r.length then r.length else 0)
    + (if Squishes(n, w, first) then Remaining(r.start, length, first + Increment(n) - length) else 0)
  }

  /** The cells that hold samples from a new start on. */
  function Remaining(start: int, length: int, newStart: int): int {
    if start + length > newStart then start + length - newStart else 0
  }

  /** The cells moved for a whole history. */
  ghost function AllMoved(n: nat, history: seq<Message>): int
    requires AllWellFormed(n, history)
  {
    if history == [] then 0
    else
      var k := |history| - 1;
      AllMoved(n, history[..k]) + CellsMoved(n, WindowAfter(n, history[..k]), First(n, history[k]))
  }

  ghost predicate NoRestart(n: nat, w: Window, ms: seq<Message>)
    requires n > 0
    decreases |ms|
  {
    ms != [] ==> !Restarts(w, First(n, ms[0])) && NoRestart(n, NextWindow(n, w, First(n, ms[0])), ms[1..])
  }

  ghost function WindowThrough(n: nat, w: Window, ms: seq<Message>): Window
    requires n > 0
    decreases |ms|
  {
    if ms == [] then w else WindowThrough(n, NextWindow(n, w, First(n, ms[0])), ms[1..])
  }

  ghost function SquishCount(n: nat, w: Window, ms: seq<Message>): nat
    requires n > 0
    decreases |ms|
  {
    if ms == [] then 0
    else (if Squishes(n, w, First(n, ms[0])) then 1 else 0)
         + SquishCount(n, NextWindow(n, w, First(n, ms[0])), ms[1..])
  }

  ghost function TotalMoved(n: nat, w: Window, ms: seq<Message>): int
    requires n > 0
    decreases |ms|
  {
    if ms == [] then 0
    else CellsMoved(n, w, First(n, ms[0])) + TotalMoved(n, NextWindow(n, w, First(n, ms[0])), ms[1..])
  }

  /** A squish moves the window's end up by at least one increment: starts are multiples of n. */
  lemma StepAdvances(n: nat, w: Window, first: nat)
    requires Sound(n, w) && Multiple(n, first) && !Restarts(w, first)
    ensures Capacity(NextWindow(n, w, first)) >= Capacity(w) + if Squishes(n, w, first) then Increment(n) else 0
    ensures CellsMoved(n, w, first) <= 99 * (Capacity(NextWindow(n, w, first)) - Capacity(w))
  {
    hide Multiple;
    SizesAreMultiples(n);
    if first + n > Capacity(w) {
      hide RoundUp;
      var length := ExtendedLength(n, w, first + n);
      StartsPastCapacity(n, w, first);
      ExtensionGrows(n, w, first, length);
      if Squishes(n, w, first) {
        MultipleSum(n, w.start, MaxSize(n)) by { MultipleOfMultiple(n, 100, MaxSize(n)); }
        MultiplesApart(n, first, w.start + MaxSize(n));
      }
    }
  }

  lemma StartsPastCapacity(n: nat, w: Window, first: nat)
    requires Sound(n, w) && Multiple(n, first) && first + n > Capacity(w)
    ensures first >= Capacity(w)
  {
    hide Multiple;
    assert Multiple(100 * n, w.length);
    MultipleOfMultiple(n, 100, w.length);
    MultipleSum(n, w.start, w.length);
    MultiplesApart(n, first, Capacity(w));
  }

  lemma ExtensionGrows(n: nat, w: Window, first: nat, length: int)
    requires Sound(n, w) && first + n > Capacity(w)
    requires length == ExtendedLength(n, w, first + n)
    ensures length == w.length == MaxSize(n) || w.length + Increment(n) <= length <= MaxSize(n)
    ensures Squishes(n, w, first) && !Restarts(w, first) ==> length == MaxSize(n)
  {
    hide Multiple, RoundUp;
    SizesAreMultiples(n);
    RoundUpBounds(n, first + n - w.start);
    if length != w.length {
      assert Multiple(Increment(n), length);
      MultipleSum(Increment(n), length, Increment(n));
      MultiplesApart(Increment(n), length - Increment(n), w.length);
    }
  }

  /**
    Amortised sliding: over any run of messages without a restart, each squish takes
    the window's end up by an increment, and all the copying together moves at most 99
    cells per sample number that the window's end advances.
    */
  lemma {:induction false} AmortisedSliding(n: nat, w: Window, ms: seq<Message>)
    requires Sound(n, w) && NoRestart(n, w, ms)
    ensures
      var advance := Capacity(WindowThrough(n, w, ms)) - Capacity(w);
      && Increment(n) * SquishCount(n, w, ms) <= advance
      && TotalMoved(n, w, ms) <= 99 * advance
    decreases |ms|
  {
    hide Multiple, NextWindow, Squishes, CellsMoved, Restarts, First;
    if ms != [] {
      var first := First(n, ms[0]);
      MultipleOfFirst(n, ms[0]);
      StepAdvances(n, w, first);
      NextIsSound(n, w, first);
      AmortisedSliding(n, NextWindow(n, w, first), ms[1..]);
    }
  }

  /** The start of a message that squishes. */
  ghost predicate SquishesAt(n: nat, w: Window, ms: seq<Message>, i: nat)
    requires n > 0 && i < |ms|
  {
    Squishes(n, WindowThrough(n, w, ms[..i]), First(n, ms[i]))
  }

  lemma {:induction false} WindowThroughSnoc(n: nat, w: Window, ms: seq<Message>, m: Message)
    requires n > 0
    ensures WindowThrough(n, w, ms + [m]) == NextWindow(n, WindowThrough(n, w, ms), First(n, m))
    ensures NoRestart(n, w, ms + [m])
       <==> NoRestart(n, w, ms) && !Restarts(WindowThrough(n, w, ms), First(n, m))
    decreases |ms|
  {
    hide NextWindow, Restarts, First;
    if ms == [] {
      assert [m][1..] == [];
    } else {
      WindowThroughSnoc(n, NextWindow(n, w, First(n, ms[0])), ms[1..], m);
      assert (ms + [m])[1..] == ms[1..] + [m];
    }
  }

  lemma {:induction false} NoRestartBefore(n: nat, w: Window, ms: seq<Message>, i: nat)
    requires Sound(n, w) && NoRestart(n, w, ms) && i <= |ms|
    ensures Sound(n, WindowThrough(n, w, ms[..i])) && NoRestart(n, w, ms[..i])
    ensures i < |ms| ==> !Restarts(WindowThrough(n, w, ms[..i]), First(n, ms[i]))
    decreases |ms|
  {
    hide Multiple, NextWindow, Restarts, First;
    if i > 0 {
      var first := First(n, ms[0]);
      MultipleOfFirst(n, ms[0]);
      NextIsSound(n, w, first);
      NoRestartBefore(n, NextWindow(n, w, first), ms[1..], i - 1);
      assert ms[..i][1..] == ms[1..][..i - 1];
    } else {
      assert ms[..0] == [];
    }
  }

  /** What a squish leaves, and what the next one needs. */
  lemma SquishEnds(n: nat, w: Window, first: nat)
    requires Sound(n, w) && Multiple(n, first) && !Restarts(w, first) && Squishes(n, w, first)
    ensures first >= Capacity(w) && Capacity(NextWindow(n, w, first)) == first + Increment(n)
  {
    hide Multiple, RoundUp;
    SizesAreMultiples(n);
    NextIsSound(n, w, first);
    ExtensionGrows(n, w, first, ExtendedLength(n, w, first + n));
    StartsPastCapacity(n, w, first);
  }

  lemma {:induction false} CapacityGrows(n: nat, w: Window, ms: seq<Message>, i: nat, j: nat)
    requires n > 0 && Sound(n, w) && NoRestart(n, w, ms) && i <= j <= |ms|
    ensures Capacity(WindowThrough(n, w, ms[..i])) <= Capacity(WindowThrough(n, w, ms[..j]))
    decreases j - i
  {
    hide Multiple, NextWindow, Squishes, CellsMoved, Restarts, First, Capacity, WindowThrough, NoRestart, Sound;
    if i < j {
      NoRestartBefore(n, w, ms, i);
      MultipleOfFirst(n, ms[i]);
      StepAdvances(n, WindowThrough(n, w, ms[..i]), First(n, ms[i]));
      assert ms[..i] + [ms[i]] == ms[..i + 1];
      WindowThroughSnoc(n, w, ms[..i], ms[i]);
      CapacityGrows(n, w, ms, i + 1, j);
    }
  }

  /** Two squishes of a run without a restart have starts at least an increment apart. */
  lemma SquishesApart(n: nat, w: Window, ms: seq<Message>, i: nat, j: nat)
    requires Sound(n, w) && NoRestart(n, w, ms) && i < j < |ms|
    requires SquishesAt(n, w, ms, i) && SquishesAt(n, w, ms, j)
    ensures First(n, ms[i]) + Increment(n) <= First(n, ms[j])
  {
    SquishOfRun(n, w, ms, i);
    SquishOfRun(n, w, ms, j);
    hide *;
    CapacityGrows(n, w, ms, i + 1, j);
  }

  lemma SquishOfRun(n: nat, w: Window, ms: seq<Message>, i: nat)
    requires n > 0 && Sound(n, w) && NoRestart(n, w, ms) && i < |ms| && SquishesAt(n, w, ms, i)
    ensures First(n, ms[i]) >= Capacity(WindowThrough(n, w, ms[..i]))
    ensures Capacity(WindowThrough(n, w, ms[..i + 1])) == First(n, ms[i]) + Increment(n)
  {
    hide Multiple, NextWindow, Squishes, Restarts, First, Capacity, WindowThrough, NoRestart, Sound;
    NoRestartBefore(n, w, ms, i);
    MultipleOfFirst(n, ms[i]);
    SquishEnds(n, WindowThrough(n, w, ms[..i]), First(n, ms[i]));
    assert ms[..i] + [ms[i]] == ms[..i + 1];
    WindowThroughSnoc(n, w, ms[..i], ms[i]);
  }

  // ---------- The range of the arithmetic ----------

  /** What the code computes on the way for one message, and where it ends up. */
  function Largest(n: nat, w: Window, first: int): int
    requires n > 0
  {
    var roundingSum := first + n - w.start + Increment(n) - 1;
    var squishStart := first + Increment(n);
    var next := NextWindow(n, w, first);
    var a := if roundingSum > squishStart then roundingSum else squishStart;
    var b := if Capacity(next) > next.end then Capacity(next) else next.end;
    if a > b then a else b
  }

  predicate Small(n: nat, w: Window) {
    w.end <= 65536 * n && Capacity(w) <= 65536 * n + Increment(n)
  }

  lemma ExtendedAtMost(n: nat, w: Window, newEnd: int)
    requires n > 0 && newEnd > w.start
    ensures
      var length := ExtendedLength(n, w, newEnd);
      length == w.length || length <= newEnd - w.start + Increment(n)
  {
    hide RoundUp, MaxSize, Increment;
    RoundUpBounds(n, newEnd - w.start);
  }

  /** The window's end stays, or is little more than the message needs. */
  lemma CapacityStep(n: nat, w: Window, first: nat)
    requires n > 0 && (w == EMPTY || Sound(n, w)) && Multiple(n, first)
    ensures
      var next := NextWindow(n, w, first);
      next.end == first + n && (Capacity(next) == Capacity(w) || Capacity(next) <= first + n + Increment(n))
  {
    RestartedMeans(n, w, first);
    hide *;
    NextMeans(n, w, first);
    ExtendedAtMost(n, Restarted(n, w, first), first + n);
  }

  lemma RestartedMeans(n: nat, w: Window, first: nat)
    requires n > 0
    ensures
      var r := Restarted(n, w, first);
      r.start <= first && if Restarts(w, first) then Capacity(r) == first + Increment(n) && r.start == first else r == w
    ensures forall x: Window :: Capacity(x) == x.start + x.length
  {
    hide Increment;
  }

  lemma NextMeans(n: nat, w: Window, first: nat)
    requires n > 0
    ensures
      var next, r := NextWindow(n, w, first), Restarted(n, w, first);
      && next.end == first + n
      && Capacity(next) == if Squishes(n, w, first) then first + Increment(n)
                           else r.start + ExtendedLength(n, r, first + n)
  {
    hide Increment, ExtendedLength, Restarted, Squishes;
  }

  lemma SmallStep(n: nat, w: Window, first: nat)
    requires n > 0 && (w == EMPTY || Sound(n, w)) && Multiple(n, first)
    requires Small(n, w) && first + n <= 65536 * n
    ensures Small(n, NextWindow(n, w, first)) && Largest(n, w, first) <= 65536 * n + Increment(n)
  {
    hide Multiple, RoundUp, NextWindow, Increment;
    CapacityStep(n, w, first);
    assert w.start >= 0;
  }

  /**
    With 16-bit message counts nothing the store computes exceeds 65636 * n: no sample
    number, no array bound, no start of a squish and no sum on the way to a rounding.
    */
  lemma {:induction false} StaysSmall(n: nat, history: seq<Message>, m: Message)
    requires AllWellFormed(n, history)
    requires forall j | 0 <= j < |history| :: history[j].id <= 0xffff
    requires m.id <= 0xffff
    ensures Small(n, WindowAfter(n, history))
    ensures Largest(n, WindowAfter(n, history), First(n, m)) <= 65636 * n
    ensures n <= 32718 ==> Largest(n, WindowAfter(n, history), First(n, m)) < 0x8000_0000
    decreases |history|
  {
    hide Sound, Multiple, Squishes, NextWindow, Small, Restarts, First, Largest;
    if history == [] {
      EmptyIsSmall(n);
    } else {
      var k := |history| - 1;
      StaysSmall(n, history[..k], history[k]);
      WindowIsSound(n, history[..k]);
      MultipleOfFirst(n, history[k]);
      FirstIsSmall(n, history[k]);
      SmallStep(n, WindowAfter(n, history[..k]), First(n, history[k]));
    }
    WindowIsSound(n, history);
    MultipleOfFirst(n, m);
    FirstIsSmall(n, m);
    SmallStep(n, WindowAfter(n, history), First(n, m));
  }

  lemma EmptyIsSmall(n: nat)
    ensures Small(n, EMPTY)
  {
  }

  lemma FirstIsSmall(n: nat, m: Message)
    requires m.id <= 0xffff
    ensures First(n, m) + n <= 65536 * n
  {
    assert (m.id + 1) * n <= 65536 * n by {
      assert (65536 - (m.id + 1)) * n >= 0;
    }
  }

  lemma SoundBounds(n: nat, w: Window)
    ensures Sound(n, w) ==> 0 <= w.start < w.end <= Capacity(w) && Increment(n) <= w.length <= MaxSize(n)
  {
  }

  lemma LatestOfLast(n: nat, history: seq<Message>, m: Message, x: int)
    requires AllWellFormed(n, history) && WellFormed(n, m)
    ensures AllWellFormed(n, history + [m])
    ensures Latest(n, history + [m], x)
         == if x < First(n, m) then Latest(n, history, x)
            else if x < First(n, m) + n then m.readings[x - First(n, m)] else -1
  {
    assert (history + [m])[..|history|] == history;
  }

  lemma AllWithLast(n: nat, history: seq<Message>, m: Message)
    requires AllWellFormed(n, history) && WellFormed(n, m)
    ensures AllWellFormed(n, history + [m])
  {
  }

  lemma WindowOfLast(n: nat, history: seq<Message>, m: Message)
    requires AllWellFormed(n, history) && WellFormed(n, m)
    ensures AllWellFormed(n, history + [m])
    ensures WindowAfter(n, history + [m]) == NextWindow(n, WindowAfter(n, history), First(n, m))
  {
    hide NextWindow, First;
    assert (history + [m])[..|history|] == history;
  }

  lemma MovedOfLast(n: nat, history: seq<Message>, m: Message)
    requires AllWellFormed(n, history) && WellFormed(n, m)
    ensures AllWellFormed(n, history + [m])
    ensures AllMoved(n, history + [m]) == AllMoved(n, history) + CellsMoved(n, WindowAfter(n, history), First(n, m))
  {
    hide CellsMoved, First;
    assert (history + [m])[..|history|] == history;
  }

  lemma AllInParts(n: nat, history: seq<Message>, ms: seq<Message>)
    requires AllWellFormed(n, history + ms)
    ensures AllWellFormed(n, history) && forall i | 0 <= i < |ms| :: WellFormed(n, ms[i])
  {
    hide WellFormed;
    forall i | 0 <= i < |history| ensures WellFormed(n, history[i]) {
      assert (history + ms)[i] == history[i];
    }
    forall i | 0 <= i < |ms| ensures WellFormed(n, ms[i]) {
      assert (history + ms)[|history| + i] == ms[i];
    }
  }

  lemma {:induction false} MovedThrough(n: nat, history: seq<Message>, ms: seq<Message>)
    requires AllWellFormed(n, history + ms) && AllWellFormed(n, history)
    ensures AllMoved(n, history + ms) == AllMoved(n, history) + TotalMoved(n, WindowAfter(n, history), ms)
    ensures WindowAfter(n, history + ms) == WindowThrough(n, WindowAfter(n, history), ms)
    decreases |ms|
  {
    hide CellsMoved, First, NextWindow, WellFormed, AllMoved, WindowAfter;
    if ms == [] {
      assert history + ms == history;
    } else {
      AllInParts(n, history, ms);
      MovedOfLast(n, history, ms[0]);
      WindowOfLast(n, history, ms[0]);
      assert history + [ms[0]] + ms[1..] == history + ms;
      MovedThrough(n, history + [ms[0]], ms[1..]);
    }
  }

  /** So the cells a store has copied grow by at most 99 per sample number its window's end advances. */
  lemma CopyingAmortised(n: nat, history: seq<Message>, ms: seq<Message>)
    requires AllWellFormed(n, history + ms) && AllWellFormed(n, history) && history != []
    requires NoRestart(n, WindowAfter(n, history), ms)
    ensures AllMoved(n, history + ms) - AllMoved(n, history)
         <= 99 * (Capacity(WindowAfter(n, history + ms)) - Capacity(WindowAfter(n, history)))
  {
    hide WellFormed, AllMoved, WindowAfter, NoRestart, Capacity, WindowThrough, TotalMoved, SquishCount;
    WindowIsSound(n, history);
    MovedThrough(n, history, ms);
    AmortisedSliding(n, WindowAfter(n, history), ms);
  }

  // ---------- The store itself ----------

  /** All data received from one mote. */
  class Node {
    const n: nat            // readings per message
    const id: int
    var data: array?<int>   // data[0] is the dataStart'th sample
    var dataStart: int
    var dataEnd: int        // samples dataStart to dataEnd - 1 are held; -1 marks a missing one
    ghost var history: seq<Message>
    ghost var moved: int    // cells copied so far

    ghost function View(): Window
      reads this`data, this`dataStart, this`dataEnd
    {
      Window(dataStart, if data == null then 0 else data.Length, dataEnd)
    }

    /** The array, its bounds and its gaps agree with the history of messages. */
    ghost predicate Valid()
      reads this, data
    {
      && AllWellFormed(n, history)
      && View() == WindowAfter(n, history)
      && moved == AllMoved(n, history)
      && (data == null <==> history == [])
      && (data != null ==> Sound(n, View()))
      && (forall x :: dataStart <= x < dataEnd ==> Cell(x) == Latest(n, history, x))
      && (forall x :: x >= dataEnd ==> Latest(n, history, x) == -1)
    }

    constructor (n: nat, id: int)
      requires n > 0
      ensures Valid() && history == [] && this.n == n && this.id == id && data == null
    {
      this.n := n;
      this.id := id;
      data := null;
      dataStart := 0;
      dataEnd := 0;
      history := [];
      moved := 0;
    }

    /** The array's cell for sample x, if it has one. */
    ghost function Cell(x: int): int
      reads this`data, this`dataStart, data
    {
      if data != null && 0 <= x - dataStart < data.Length then data[x - dataStart] else -1
    }

    /** Move the data into a longer array. */
    method Extend(newLength: nat)
      requires data != null && data.Length <= newLength
      modifies this`data, this`moved
      ensures data != null && fresh(data) && data.Length == newLength
      ensures moved == old(moved) + old(data.Length)
      ensures forall x :: x < dataStart + old(data.Length) ==> Cell(x) == old(Cell(x))
    {
      var newData := new int[newLength](i => 0);
      forall i | 0 <= i < data.Length {
        newData[i] := data[i];
      }
      moved := moved + data.Length;
      data := newData;
    }

    /** Slide the data within the array, so that it starts at a higher sample. */
    method Squish(newStart: int)
      requires data != null && dataStart <= newStart
      modifies this`dataStart, this`moved, data
      ensures dataStart == newStart
      ensures moved == old(moved) + Remaining(old(dataStart), data.Length, newStart)
      ensures forall x :: newStart <= x < old(dataStart) + data.Length ==> Cell(x) == old(Cell(x))
    {
      if dataStart + data.Length > newStart {
        var shift := newStart - dataStart;
        forall i | 0 <= i < data.Length - shift {
          data[i] := data[i + shift];
        }
        moved := moved + (data.Length - shift);
      }
      dataStart := newStart;
    }

    /** Restart, extend or squish, so that samples newDataIndex to newEnd - 1 have cells. */
    method MakeRoom(newDataIndex: nat, newEnd: nat)
      requires n > 0 && newEnd == newDataIndex + n && Multiple(n, newDataIndex)
      requires if data == null then View() == EMPTY else Sound(n, View())
      modifies this`data, this`dataStart, this`moved, data
      ensures data != null && (data == old(data) || fresh(data))
      ensures moved == old(moved) + CellsMoved(n, old(View()), newDataIndex)
      ensures Window(dataStart, data.Length, newEnd) == NextWindow(n, old(View()), newDataIndex)
      ensures forall x :: dataStart <= x < newDataIndex && x < old(Capacity(View())) ==> Cell(x) == old(Cell(x))
      ensures dataStart < newDataIndex ==> old(data) != null && old(dataStart) <= dataStart
    {
      hide Multiple, RoundUp, Sound;
      ghost var w := View();
      NextIsSound(n, w, newDataIndex);
      SoundBounds(n, w);
      if newDataIndex < dataStart || data == null {
        dataStart := newDataIndex;
        data := new int[Increment(n)](i => 0);
      }
      if newEnd > dataStart + data.Length {
        if data.Length < MaxSize(n) {
          var newLength := RoundUp(n, newEnd - dataStart);
          if newLength >= MaxSize(n) {
            newLength := MaxSize(n);
          }
          ExtensionGrows(n, w, newDataIndex, newLength);
          Extend(newLength);
        }
        if newEnd > dataStart + data.Length {
          Squish(newDataIndex + Increment(n) - data.Length);
        }
      }
    }

    /** Mark the samples between the data held and a new index as missing. */
    method MarkGap(newDataIndex: int)
      requires data != null && dataStart <= newDataIndex <= dataStart + data.Length
      modifies data
      ensures forall x :: dataStart <= x < newDataIndex ==> Cell(x) == if x < dataEnd then old(Cell(x)) else -1
    {
      var i := if dataEnd < dataStart then dataStart else dataEnd;
      ghost var from := i;
      while i < newDataIndex
        invariant from <= i && (from < newDataIndex ==> i <= newDataIndex)
        invariant forall x :: dataStart <= x < from ==> Cell(x) == old(Cell(x))
        invariant forall x :: dataStart <= x < i && from <= x ==> Cell(x) == -1
      {
        label Turn:
        data[i - dataStart] := -1;
        assert forall x :: Cell(x) == if x == i then -1 else old@Turn(Cell(x));
        i := i + 1;
      }
    }

    /** Make room for samples newDataIndex to newEnd - 1, dropping newer data. */
    method SetEnd(newDataIndex: nat, newEnd: nat)
      requires n > 0 && newEnd == newDataIndex + n && Multiple(n, newDataIndex)
      requires if data == null then View() == EMPTY else Sound(n, View())
      modifies this`data, this`dataStart, this`dataEnd, this`moved, data
      ensures data != null && (data == old(data) || fresh(data))
      ensures moved == old(moved) + CellsMoved(n, old(View()), newDataIndex)
      ensures View() == NextWindow(n, old(View()), newDataIndex) && Sound(n, View())
      ensures dataStart <= newDataIndex && dataEnd == newEnd
      ensures forall x :: dataStart <= x < newDataIndex ==>
        Cell(x) == if x < old(dataEnd) then old(Cell(x)) else -1
    {
      hide NextWindow, Multiple, CellsMoved;
      NextIsSound(n, View(), newDataIndex);
      MakeRoom(newDataIndex, newEnd);
      MarkGap(newDataIndex);
      dataEnd := newEnd;
    }

    /** Store a message's readings in their cells. */
    method Store(start: int, readings: seq<int>)
      requires data != null && dataStart <= start && start + |readings| <= dataStart + data.Length
      modifies data
      ensures forall x :: Cell(x) == if start <= x < start + |readings| then readings[x - start] else old(Cell(x))
    {
      for i := 0 to |readings|
        invariant forall x :: Cell(x) == if start <= x < start + i then readings[x - start] else old(Cell(x))
      {
        label Turn:
        data[start - dataStart + i] := readings[i];
        assert forall x :: Cell(x) == if x == start + i then readings[i] else old@Turn(Cell(x));
      }
    }

    /** A message of n readings, of samples messageId * n onwards. */
    method Update(messageId: nat, readings: seq<int>)
      requires Valid() && WellFormed(n, Message(messageId, readings))
      modifies this`data, this`dataStart, this`dataEnd, this`history, this`moved, data
      ensures Valid() && data != null && (data == old(data) || fresh(data))
      ensures history == old(history) + [Message(messageId, readings)]
    {
      hide Multiple, NextWindow, Sound, Latest, Cell, CellsMoved;
      ghost var m := Message(messageId, readings);
      var start := messageId * n;
      assert start == First(n, m);
      MultipleOfFirst(n, m);
      NextIsSound(n, View(), start);
      SetEnd(start, start + n);
      SoundBounds(n, View());
      Store(start, readings);
      history := history + [m];
      forall x ensures Latest(n, history, x)
                    == if x < start then Latest(n, old(history), x)
                       else if x < start + n then readings[x - start] else -1 {
        LatestOfLast(n, old(history), m, x);
      }
      WindowOfLast(n, old(history), m);
      MovedOfLast(n, old(history), m);
      AllWithLast(n, old(history), m);
    }

    /** The value of sample x, or -1 if it is missing. */
    method GetData(x: int) returns (r: int)
      requires Valid()
      ensures r == Sample(n, history, x)
    {
      if x < dataStart || x >= dataEnd {
        r := -1;
      } else {
        r := data[x - dataStart];
      }
    }

    /** The number of the last sample known, or -1 before any message. */
    method MaxX() returns (r: int)
      requires Valid()
      ensures r == if history == [] then -1 else First(n, history[|history| - 1]) + n - 1
    {
      hide Multiple;
      WindowIsSound(n, history);
      if history != [] {
        ghost var k := |history| - 1;
        WindowIsSound(n, history[..k]);
        MultipleOfFirst(n, history[k]);
        NextIsSound(n, WindowAfter(n, history[..k]), First(n, history[k]));
      }
      r := dataEnd - 1;
    }
  }
}
