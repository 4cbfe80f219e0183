/**
  The oscilloscope's data and the views derived from it: the growable index of motes'
  sample stores, the table of motes, and the visible range of the graph. Messages,
  the user's clears and zooms, and the sampling period are its steps.
  */
module Oscilloscope {
  import opened SampleStore

  // ---------- The messages heard since the last clear ----------

  datatype Heard = Heard(mote: nat, m: Message)

  ghost predicate LogOk(n: nat, log: seq<Heard>) {
    n > 0 && forall j | 0 <= j < |log| :: WellFormed(n, log[j].m)
  }

  /** A mote's own messages, in order. */
  ghost function From(log: seq<Heard>, mote: int): seq<Message> {
    if log == [] then []
    else
      var k := |log| - 1;
      From(log[..k], mote) + if log[k].mote == mote then [log[k].m] else []
  }

  lemma LogOkLast(n: nat, log: seq<Heard>, e: Heard)
    requires LogOk(n, log) && WellFormed(n, e.m)
    ensures LogOk(n, log + [e])
  {
  }

  lemma FromLast(log: seq<Heard>, e: Heard, mote: int)
    ensures From(log + [e], mote) == if e.mote == mote then From(log, mote) + [e.m] else From(log, mote)
  {
    assert (log + [e])[..|log|] == log;
  }

  lemma FromLastOfAll(log: seq<Heard>, e: Heard)
    ensures forall mote :: From(log + [e], mote) != [] <==> mote == e.mote || From(log, mote) != []
  {
    hide From;
    forall mote {
      FromLast(log, e, mote);
    }
  }

  lemma {:induction false} FromWellFormed(n: nat, log: seq<Heard>, mote: int)
    requires LogOk(n, log)
    ensures AllWellFormed(n, From(log, mote))
  {
    if log != [] { FromWellFormed(n, log[..|log| - 1], mote); }
  }

  /** What the log says sample x of a mote is, -1 if it says nothing or the sample has been squished out. */
  ghost function Shown(n: nat, log: seq<Heard>, mote: int, x: int): int
    requires LogOk(n, log)
  {
    FromWellFormed(n, log, mote);
    Sample(n, From(log, mote), x)
  }

  /** Entry j gave the sample, and no later message of the same mote starts at or below it. */
  ghost predicate EntryGave(n: nat, log: seq<Heard>, mote: int, j: int, x: int)
    requires LogOk(n, log)
  {
    && 0 <= j < |log| && log[j].mote == mote
    && First(n, log[j].m) <= x < First(n, log[j].m) + n
    && forall k | j < k < |log| && log[k].mote == mote :: x < First(n, log[k].m)
  }

  lemma EntryGaveStep(n: nat, log: seq<Heard>, mote: int, j: int, x: int)
    requires LogOk(n, log) && log != []
    ensures var k := |log| - 1;
      EntryGave(n, log, mote, j, x) <==>
        if log[k].mote == mote && First(n, log[k].m) <= x then j == k && x < First(n, log[k].m) + n
        else EntryGave(n, log[..k], mote, j, x)
    ensures EntryGave(n, log[..|log| - 1], mote, j, x) ==> 0 <= j < |log| - 1 && log[..|log| - 1][j] == log[j]
  {
    hide First;
    var k := |log| - 1;
    var earlier := log[..k];
    assert forall i | 0 <= i < k :: earlier[i] == log[i];
  }

  /**
    The index of stores refines the log: a mote's readable samples are those an entry of
    that mote gave, whatever the other motes sent in between.
    */
  lemma {:induction false} LatestOfLog(n: nat, log: seq<Heard>, mote: int, x: int)
    requires LogOk(n, log)
    ensures AllWellFormed(n, From(log, mote))
    ensures Latest(n, From(log, mote), x) != -1 <==> exists j :: EntryGave(n, log, mote, j, x)
    ensures forall j :: EntryGave(n, log, mote, j, x)
                    ==> Latest(n, From(log, mote), x) == log[j].m.readings[x - First(n, log[j].m)]
  {
    FromWellFormed(n, log, mote);
    if log != [] {
      hide First, Latest, From, EntryGave;
      var k := |log| - 1;
      var earlier := log[..k];
      LatestOfLog(n, earlier, mote, x);
      assert earlier + [log[k]] == log;
      FromLast(earlier, log[k], mote);
      if log[k].mote == mote {
        LatestOfLast(n, From(earlier, mote), log[k].m, x);
      }
      forall j
        ensures EntryGave(n, log, mote, j, x) <==>
          if log[k].mote == mote && First(n, log[k].m) <= x then j == k && x < First(n, log[k].m) + n
          else EntryGave(n, earlier, mote, j, x)
        ensures EntryGave(n, earlier, mote, j, x) ==> 0 <= j < k && earlier[j] == log[j]
      {
        EntryGaveStep(n, log, mote, j, x);
      }
      if log[k].mote == mote && First(n, log[k].m) <= x {
        assert x < First(n, log[k].m) + n ==> EntryGave(n, log, mote, k, x);
      }
    }
  }

  // ---------- The newest sample number ----------

  ghost function LastSample(n: nat, h: seq<Message>): int
    requires h != []
  {
    First(n, h[|h| - 1]) + n - 1
  }

  /** The largest sample number any mote last sent, 0 if there are no motes. */
  ghost predicate IsNewest(n: nat, log: seq<Heard>, max: int) {
    && max >= 0
    && (forall mote :: From(log, mote) != [] ==> LastSample(n, From(log, mote)) <= max)
    && (max == 0 || exists mote :: From(log, mote) != [] && LastSample(n, From(log, mote)) == max)
  }

  /** The same for the motes below an index. */
  ghost predicate NewestBelow(n: nat, log: seq<Heard>, i: int, max: int) {
    && max >= 0
    && (forall mote | 0 <= mote < i && From(log, mote) != [] :: LastSample(n, From(log, mote)) <= max)
    && (max == 0 || exists mote :: From(log, mote) != [] && LastSample(n, From(log, mote)) == max)
  }

  lemma NewestOfNone(n: nat, log: seq<Heard>)
    ensures NewestBelow(n, log, 0, 0)
  {
  }

  lemma NewestNext(n: nat, log: seq<Heard>, i: nat, max: int)
    requires NewestBelow(n, log, i, max)
    ensures From(log, i) == [] ==> NewestBelow(n, log, i + 1, max)
    ensures From(log, i) != [] ==>
      var last := LastSample(n, From(log, i));
      NewestBelow(n, log, i + 1, if last > max then last else max)
  {
    hide From, LastSample;
  }

  lemma NewestOfAll(n: nat, log: seq<Heard>, i: nat, max: int)
    requires NewestBelow(n, log, i, max) && forall mote :: From(log, mote) != [] ==> 0 <= mote < i
    ensures max >= 0 && IsNewest(n, log, max)
  {
    hide From, LastSample;
  }

  lemma NewestIsUnique(n: nat, log: seq<Heard>, a: int, b: int)
    requires IsNewest(n, log, a) && IsNewest(n, log, b)
    ensures a == b
  {
  }

  // ---------- The index of stores ----------

  /** The node keeps a mote's history. */
  ghost predicate Keeps(node: Node, n: nat, mote: int, history: seq<Message>)
    reads node, node.data
  {
    node.n == n && node.id == mote && node.Valid() && node.history == history
  }

  function Grown(length: nat, mote: nat): nat {
    if mote < length then length else if mote >= length * 2 then mote + 1 else length * 2
  }

  /** The data of all motes, in an array indexed by mote; null where there is none. */
  class Data {
    const n: nat
    var nodes: array<Node?>
    ghost var log: seq<Heard>
    ghost var Repr: set<object>

    /** The nodes keep the messages of their motes, each in an array of its own. */
    ghost predicate Consistent()
      reads this, Repr
    {
      && n > 0 && nodes.Length >= 256 && LogOk(n, log)
      && this !in Repr && nodes in Repr
      && (forall i | 0 <= i < nodes.Length && nodes[i] != null ::
            && nodes[i] in Repr && (nodes[i].data == null || nodes[i].data in Repr)
            && Keeps(nodes[i], n, i, From(log, i)))
      && (forall i, j | 0 <= i < j < nodes.Length && nodes[i] != null && nodes[j] != null ::
            nodes[i] != nodes[j] && (nodes[i].data == null || nodes[i].data != nodes[j].data))
      && (forall i :: From(log, i) != [] ==> 0 <= i < nodes.Length && nodes[i] != null)
    }

    /** And the motes that have nodes are those heard from. */
    ghost predicate Valid()
      reads this, Repr
    {
      Consistent() && forall i | 0 <= i < nodes.Length && nodes[i] != null :: From(log, i) != []
    }

    constructor (n: nat)
      requires n > 0
      ensures Valid() && this.n == n && log == [] && fresh(Repr) && nodes.Length == 256
    {
      this.n := n;
      var fresh256 := new Node?[256](i => null);
      nodes := fresh256;
      log := [];
      Repr := {fresh256};
    }

    /** Make the index long enough for a mote; it loses no node. */
    method Grow(mote: nat)
      requires Valid()
      modifies this`nodes, this`Repr
      ensures Valid() && fresh(Repr - old(Repr))
      ensures nodes.Length == Grown(old(nodes.Length), mote) && mote < nodes.Length
      ensures mote < old(nodes.Length) ==> nodes.Length == old(nodes.Length)
      ensures mote >= old(nodes.Length) ==>
        nodes.Length >= 2 * old(nodes.Length) && (nodes.Length == 2 * old(nodes.Length) || nodes.Length == mote + 1)
      ensures forall i | 0 <= i < nodes.Length :: nodes[i] == if i < old(nodes.Length) then old(nodes[i]) else null
    {
      hide Keeps, From;
      if mote >= nodes.Length {
        var newLength := nodes.Length * 2;
        if mote >= newLength {
          newLength := mote + 1;
        }
        var newNodes := new Node?[newLength](i => null);
        forall i | 0 <= i < nodes.Length {
          newNodes[i] := nodes[i];
        }
        nodes := newNodes;
        Repr := Repr + {newNodes};
      }
    }

    /** The node of a mote; a mote not heard before gets one, and the table hears of it. */
    method NodeFor(mote: nat, table: MoteTable) returns (node: Node)
      requires Valid() && mote < nodes.Length
      requires table !in Repr && table.Valid() && (mote in table.motes <==> From(log, mote) != [])
      modifies this`Repr, nodes, table
      ensures Consistent() && fresh(Repr - old(Repr)) && table.Valid()
      ensures node == nodes[mote] && forall i | 0 <= i < nodes.Length && i != mote :: nodes[i] == old(nodes[i])
      ensures mote in table.motes && forall i | i != mote :: i in table.motes <==> i in old(table.motes)
      ensures From(log, mote) != [] ==> unchanged(table)
      ensures From(log, mote) == [] ==> table.colorOf == old(table.colorOf[mote := Cycle(table.cycleIndex)])
    {
      hide From, Keeps, Node.Valid, Node.View, WellFormed;
      var known := nodes[mote];
      if known == null {
        node := new Node(n, mote);
        KeepsIf(node, n, mote, From(log, mote));
        nodes[mote] := node;
        Repr := Repr + {node};
        table.NewNode(mote);
      } else {
        node := known;
      }
    }

    /** The message goes to the mote's own history, and to no other. */
    method Receive(mote: nat, messageId: nat, readings: seq<int>)
      requires Consistent() && WellFormed(n, Message(messageId, readings))
      requires mote < nodes.Length && nodes[mote] != null
      requires forall i | 0 <= i < nodes.Length && i != mote && nodes[i] != null :: From(log, i) != []
      modifies this`Repr, this`log, nodes[mote], nodes[mote].data
      ensures Valid() && fresh(Repr - old(Repr))
      ensures log == old(log) + [Heard(mote, Message(messageId, readings))]
    {
      hide Keeps, From, Node.Valid, Node.View, WellFormed;
      LogOkLast(n, log, Heard(mote, Message(messageId, readings)));
      var node := nodes[mote];
      KeepsMeans(node, n, mote, From(log, mote));
      ghost var e := Heard(mote, Message(messageId, readings));
      node.Update(messageId, readings);
      forall i ensures From(log + [e], i) == if i == mote then From(log, i) + [e.m] else From(log, i) {
        FromLast(log, e, i);
      }
      KeepsIf(node, n, mote, From(log + [e], mote));
      log := log + [e];
      Repr := Repr + {node.data};
    }

    /** A message from a mote, which may be new and beyond the end of the index. */
    method Update(mote: nat, messageId: nat, readings: seq<int>, table: MoteTable)
      requires Valid() && WellFormed(n, Message(messageId, readings))
      requires table !in Repr && table.Valid() && (mote in table.motes <==> From(log, mote) != [])
      modifies this`nodes, this`Repr, this`log, Repr, table
      ensures Valid() && fresh(Repr - old(Repr)) && table.Valid()
      ensures log == old(log) + [Heard(mote, Message(messageId, readings))]
      ensures nodes.Length == Grown(old(nodes.Length), mote)
      ensures mote in table.motes && forall i | i != mote :: i in table.motes <==> i in old(table.motes)
      ensures old(From(log, mote)) != [] ==> unchanged(table)
      ensures old(From(log, mote)) == [] ==> table.colorOf == old(table.colorOf[mote := Cycle(table.cycleIndex)])
    {
      hide Keeps, From;
      Grow(mote);
      var node := NodeFor(mote, table);
      Receive(mote, messageId, readings);
    }

    /** The value of a mote's sample x, or -1 if it is missing. */
    method GetData(mote: nat, x: int) returns (r: int)
      requires Valid()
      ensures r == Shown(n, log, mote, x)
    {
      FromWellFormed(n, log, mote);
      if mote >= nodes.Length || nodes[mote] == null {
        r := -1;
      } else {
        r := nodes[mote].GetData(x);
      }
    }

    /** The number of a mote's last sample, 0 for an unknown mote. */
    method MaxXOf(mote: nat) returns (r: int)
      requires Valid()
      ensures r == if From(log, mote) == [] then 0 else LastSample(n, From(log, mote))
    {
      hide From;
      if mote >= nodes.Length || nodes[mote] == null {
        r := 0;
      } else {
        r := LastOfNode(mote);
      }
    }

    method LastOfNode(mote: nat) returns (r: int)
      requires Valid() && mote < nodes.Length && nodes[mote] != null
      ensures From(log, mote) != [] && r == LastSample(n, From(log, mote))
    {
      hide From;
      r := nodes[mote].MaxX();
    }

    /** The largest last sample number of any mote, 0 if there are none. */
    method MaxX() returns (max: int)
      requires Valid()
      ensures max >= 0 && IsNewest(n, log, max)
    {
      hide From, LastSample, NewestBelow, IsNewest;
      max := 0;
      NewestOfNone(n, log);
      for i := 0 to nodes.Length
        invariant NewestBelow(n, log, i, max)
      {
        NewestNext(n, log, i, max);
        if nodes[i] != null {
          var nmax := LastOfNode(i);
          if nmax > max {
            max := nmax;
          }
        }
      }
      NewestOfAll(n, log, nodes.Length, max);
    }
  }

  lemma KeepsMeans(node: Node, n: nat, mote: int, history: seq<Message>)
    requires Keeps(node, n, mote, history)
    ensures node.n == n && node.id == mote && node.Valid() && node.history == history
  {
  }

  lemma KeepsIf(node: Node, n: nat, mote: int, history: seq<Message>)
    requires node.n == n && node.id == mote && node.Valid() && node.history == history
    ensures Keeps(node, n, mote, history)
  {
  }

  // ---------- The table of motes ----------

  datatype Color = RED | WHITE | GREEN | MAGENTA | YELLOW | GRAY | Chosen(rgb: nat)

  const CYCLE := [RED, WHITE, GREEN, MAGENTA, YELLOW, GRAY, YELLOW]

  /** The k'th mote ever added starts with this color. */
  function Cycle(k: nat): Color {
    CYCLE[k % |CYCLE|]
  }

  /** The cycle has seven places, and gives yellow twice. */
  lemma CycleIs(q: nat, r: nat)
    requires r < 7
    ensures Cycle(7 * q + r) ==
      if r == 0 then RED else if r == 1 then WHITE else if r == 2 then GREEN else if r == 3 then MAGENTA
      else if r == 5 then GRAY else YELLOW
  {
    assert (7 * q + r) % 7 == r;
  }

  ghost predicate Ascending(motes: seq<int>) {
    forall i, j | 0 <= i < j < |motes| :: motes[i] < motes[j]
  }

  function InsertAt<T>(s: seq<T>, i: nat, x: T): (r: seq<T>)
    requires i <= |s|
    ensures |r| == |s| + 1 && r[i] == x
    ensures forall k | 0 <= k < i :: r[k] == s[k]
    ensures forall k | i < k < |r| :: r[k] == s[k - 1]
  {
    s[..i] + [x] + s[i..]
  }

  lemma InsertAscending(s: seq<int>, i: nat, x: int)
    requires Ascending(s) && i <= |s|
    requires (forall j | 0 <= j < i :: s[j] < x) && (i == |s| || x < s[i])
    ensures Ascending(InsertAt(s, i, x))
    ensures forall y :: y in InsertAt(s, i, x) <==> y == x || y in s
  {
  }

  /** Each row has its mote's color, and no other mote has one. */
  ghost predicate Colored(motes: seq<int>, colors: seq<Color>, colorOf: map<int, Color>) {
    && |colors| == |motes|
    && (forall i | 0 <= i < |motes| :: motes[i] in colorOf && colors[i] == colorOf[motes[i]])
    && (forall mote | mote in colorOf :: mote in motes)
  }

  lemma InsertColored(motes: seq<int>, colors: seq<Color>, colorOf: map<int, Color>, i: nat, mote: int, color: Color)
    requires Colored(motes, colors, colorOf) && i <= |motes| && mote !in motes
    ensures |colors| == |motes|
    ensures Colored(InsertAt(motes, i, mote), InsertAt(colors, i, color), colorOf[mote := color])
  {
    var rows := InsertAt(motes, i, mote);
    forall m | m in colorOf ensures m in rows {
      var k :| 0 <= k < |motes| && motes[k] == m;
      assert rows[if k < i then k else k + 1] == m;
    }
  }

  /** The rows of the mote table. */
  class MoteTable {
    var motes: seq<int>
    var colors: seq<Color>
    var cycleIndex: nat
    ghost var colorOf: map<int, Color>  // the color a mote got when it was added, or was last given

    /** The motes are in order, each with its own color. */
    ghost predicate Valid()
      reads this
    {
      Ascending(motes) && Colored(motes, colors, colorOf)
    }

    constructor ()
      ensures Valid() && motes == [] && cycleIndex == 0
    {
      motes := [];
      colors := [];
      cycleIndex := 0;
      colorOf := map[];
    }

    /** A new mote takes its place in the order, and the next color of the cycle. */
    method NewNode(mote: int)
      requires Valid() && mote !in motes
      modifies this
      ensures Valid() && cycleIndex == old(cycleIndex) + 1
      ensures forall x :: x in motes <==> x == mote || x in old(motes)
      ensures colorOf == old(colorOf)[mote := Cycle(old(cycleIndex))]
    {
      hide InsertAt, Colored, Cycle;
      var i, len := 0, |motes|;
      while !(i == len || mote < motes[i])
        invariant 0 <= i <= len
        invariant forall j | 0 <= j < i :: motes[j] < mote
        decreases len - i
      {
        i := i + 1;
      }
      InsertAscending(motes, i, mote);
      InsertColored(motes, colors, colorOf, i, mote, Cycle(cycleIndex));
      motes := InsertAt(motes, i, mote);
      colors := InsertAt(colors, i, Cycle(cycleIndex));
      colorOf := colorOf[mote := Cycle(cycleIndex)];
      cycleIndex := cycleIndex + 1;
    }

    /** The user gives the mote in a row a color; the others keep theirs. */
    method SetValueAt(color: Color, row: nat)
      requires Valid() && row < |motes|
      modifies this`colors, this`colorOf
      ensures Valid()
      ensures colorOf == old(colorOf)[motes[row] := color]
    {
      colors := colors[row := color];
      colorOf := colorOf[motes[row] := color];
    }

    /** Remove all motes. The cycle of colors goes on where it was. */
    method Clear()
      modifies this`motes, this`colors, this`colorOf
      ensures Valid() && motes == []
    {
      motes := [];
      colors := [];
      colorOf := map[];
    }
  }

  // ---------- The visible range of the graph ----------

  const MIN_WIDTH := 50

  function Shl(x: int, k: nat): int
    decreases k
  {
    if k == 0 then x else Shl(2 * x, k - 1)
  }

  function Pow2(k: nat): nat {
    if k == 0 then 1 else 2 * Pow2(k - 1)
  }

  /** Shifting left multiplies by a power of two. */
  lemma {:induction false} ShlIsPow2(x: int, k: nat)
    ensures Shl(x, k) == x * Pow2(k)
    decreases k
  {
    if k > 0 {
      ShlIsPow2(2 * x, k - 1);
      Double(x, Pow2(k - 1));
    }
  }

  lemma Double(x: int, p: int)
    ensures 2 * x * p == x * (2 * p)
  {
  }

  datatype Range = Range(gx0: int, gx1: int, scale: nat)

  /** The range has the width of its scale and starts no lower than 0. */
  predicate Framed(g: Range) {
    0 <= g.gx0 && g.gx1 - g.gx0 == Shl(MIN_WIDTH, g.scale)
  }

  predicate Shows(g: Range, max: int) {
    Framed(g) && g.gx0 <= max <= g.gx1
  }

  /** The newest sample is at the three-quarter point, or as near as starting at 0 allows. */
  predicate Placed(g: Range, max: int) {
    var width := g.gx1 - g.gx0;
    if max + width / 4 <= width then g.gx0 == 0 else g.gx1 == max + width / 4
  }

  /**
    In numbers: a range is 50 times a power of two wide, and the newest sample it is placed
    by has three quarters of the range below it, or less if the range starts at 0.
    */
  lemma RangeInNumbers(g: Range, max: int)
    ensures Framed(g) <==> 0 <= g.gx0 && g.gx1 - g.gx0 == 50 * Pow2(g.scale)
    ensures Shows(g, max) <==> Framed(g) && g.gx0 <= max && max <= g.gx1
    ensures Framed(g) && Placed(g, max) ==>
      && 4 * (max - g.gx0) < 3 * (g.gx1 - g.gx0) + 4
      && (g.gx0 > 0 ==> 4 * (max - g.gx0) >= 3 * (g.gx1 - g.gx0))
  {
    ShlIsPow2(MIN_WIDTH, g.scale);
  }

  lemma {:induction false} WidthGrows(k: nat, x: nat)
    requires x > 0
    ensures Shl(x, k) >= x
  {
    if k > 0 { WidthGrows(k - 1, 2 * x); }
  }

  /** A range follows the newest sample: it stays if it shows it, and is placed anew if it does not. */
  predicate Scrolled(before: Range, after: Range, max: int) {
    if before.gx0 <= max <= before.gx1 then after == before
    else Placed(after, max) && after.scale == before.scale && after.gx1 - after.gx0 == before.gx1 - before.gx0
  }

  /** The graph's bounds on the x-axis. */
  class Graph {
    var gx0: int
    var gx1: int
    var scale: nat

    function View(): Range
      reads this
    {
      Range(gx0, gx1, scale)
    }

    constructor ()
      ensures Shows(View(), 0) && View() == Range(0, 200, 2)
    {
      ShlIsPow2(MIN_WIDTH, 2);
      gx0 := 0;
      gx1 := Shl(MIN_WIDTH, 2);
      scale := 2;
    }

    /** Put sample max at the three-quarter point, or as near as starting at 0 allows. */
    method Recenter(max: nat)
      requires gx1 - gx0 == Shl(MIN_WIDTH, scale)
      modifies this`gx0, this`gx1
      ensures Shows(View(), max) && Placed(View(), max) && gx1 - gx0 == old(gx1 - gx0)
    {
      WidthGrows(scale, MIN_WIDTH);
      var scrollby := (gx1 - gx0) / 4 + (max - gx1);
      gx0 := gx0 + scrollby;
      gx1 := gx1 + scrollby;
      if gx0 < 0 {
        gx1 := gx1 - gx0;
        gx0 := 0;
      }
    }

    /** New data: scroll only if the newest sample cannot be seen. */
    method NewData(max: nat)
      requires Framed(View())
      modifies this`gx0, this`gx1
      ensures Shows(View(), max)
      ensures Scrolled(old(View()), View(), max)
      ensures old(gx0) <= max <= old(gx1) ==> View() == old(View())
      ensures max < old(gx0) || max > old(gx1) ==> Placed(View(), max) && gx1 - gx0 == old(gx1 - gx0)
    {
      if max > gx1 || max < gx0 {
        Recenter(max);
      }
    }

    /** The user zooms: each step doubles the width. */
    method SetScale(newScale: nat, max: nat)
      modifies this
      ensures Shows(View(), max) && Placed(View(), max)
      ensures scale == newScale && gx1 - gx0 == 50 * Pow2(newScale)
    {
      ShlIsPow2(MIN_WIDTH, newScale);
      gx1 := gx0 + Shl(MIN_WIDTH, newScale);
      scale := newScale;
      Recenter(max);
    }
  }

  // ---------- The sampling period ----------

  /** The period and its version as the program knows them, and the broadcasts it has made. */
  datatype Period = Period(version: int, interval: int, sent: seq<(int, int)>)

  /** A mote tells its version and period: a newer one is adopted, an older one is answered with ours. */
  function HearPeriod(p: Period, version: int, interval: int): Period {
    if version > p.version then Period(version, interval, p.sent)
    else if version < p.version then p.(sent := p.sent + [(p.version, p.interval)])
    else p
  }

  function HearAll(p: Period, heard: seq<(int, int)>): Period {
    if heard == [] then p
    else
      var k := |heard| - 1;
      HearPeriod(HearAll(p, heard[..k]), heard[k].0, heard[k].1)
  }

  /** The first of the messages with the newest version, if that is newer than p's. */
  ghost predicate FirstNewest(p: Period, heard: seq<(int, int)>, j: int) {
    && 0 <= j < |heard| && heard[j].0 > p.version
    && (forall i | 0 <= i < j :: heard[i].0 < heard[j].0)
    && (forall i | j < i < |heard| :: heard[i].0 <= heard[j].0)
  }

  /** The messages up to one, and that one. */
  lemma HearLast(p: Period, heard: seq<(int, int)>, k: nat)
    requires k < |heard|
    ensures HearAll(p, heard[..k + 1]) == HearPeriod(HearAll(p, heard[..k]), heard[k].0, heard[k].1)
  {
    assert heard[..k + 1][..k] == heard[..k];
  }

  /**
    Exactly the messages older than what was known before them are answered, each at once
    and with the version and the period then in force.
    */
  lemma AnswersOlder(p: Period, heard: seq<(int, int)>, k: nat)
    requires k < |heard|
    ensures
      var before, after := HearAll(p, heard[..k]), HearAll(p, heard[..k + 1]);
      if heard[k].0 < p.version || exists i :: 0 <= i < k && heard[k].0 < heard[i].0 then
        after.sent == before.sent + [(before.version, before.interval)]
      else
        after.sent == before.sent
  {
    HearLast(p, heard, k);
    var j := NewestPeriod(p, heard[..k]);
    if j >= 0 {
      assert heard[..k][j] == heard[j];
    }
    assert forall i | 0 <= i < k :: heard[..k][i] == heard[i];
  }

  /**
    The period in force is the one p had, if no message was newer, or that of the first
    message with the newest version.
    */
  lemma {:induction false} NewestPeriod(p: Period, heard: seq<(int, int)>) returns (j: int)
    ensures
      var q := HearAll(p, heard);
      if j < 0 then
        (q.version, q.interval) == (p.version, p.interval) && forall i | 0 <= i < |heard| :: heard[i].0 <= p.version
      else
        FirstNewest(p, heard, j) && (q.version, q.interval) == heard[j]
  {
    j := -1;
    if heard != [] {
      var k := |heard| - 1;
      j := NewestPeriod(p, heard[..k]);
      if heard[k].0 > HearAll(p, heard[..k]).version {
        j := k;
      }
    }
  }

  // ---------- The program ----------

  class Oscilloscope {
    const n: nat
    var data: Data
    const table: MoteTable
    const graph: Graph
    var version: int
    var interval: int
    var sent: seq<(int, int)>

    /** The views agree with the data. */
    ghost predicate Valid()
      reads this, data, data.Repr, table, graph
    {
      && n > 0 && data.n == n && data.Valid() && this !in data.Repr && table !in data.Repr && graph !in data.Repr
      && table.Valid() && (forall mote :: mote in table.motes <==> From(data.log, mote) != [])
      && Framed(graph.View()) && (forall max :: IsNewest(n, data.log, max) ==> Shows(graph.View(), max))
    }

    function PeriodView(): Period
      reads this
    {
      Period(version, interval, sent)
    }

    constructor (n: nat, defaultInterval: int)
      requires n > 0
      ensures Valid() && fresh(data) && fresh(data.Repr) && fresh(table) && fresh(graph)
      ensures data.log == [] && graph.View() == Range(0, 200, 2) && PeriodView() == Period(-1, defaultInterval, [])
    {
      this.n := n;
      data := new Data(n);
      table := new MoteTable();
      graph := new Graph();
      version := -1;
      interval := defaultInterval;
      sent := [];
    }

    method PeriodUpdate(moteVersion: int, moteInterval: int)
      modifies this`version, this`interval, this`sent
      ensures PeriodView() == HearPeriod(old(PeriodView()), moteVersion, moteInterval)
    {
      if moteVersion > version {
        version := moteVersion;
        interval := moteInterval;
      } else if moteVersion < version {
        sent := sent + [(version, interval)];
      }
    }

    /** The user sets the period; values outside 16 bits, and 0, are refused. A new period outdates all others. */
    method SetInterval(newPeriod: int) returns (ok: bool)
      modifies this`version, this`interval, this`sent
      ensures ok <==> 1 <= newPeriod <= 65535
      ensures ok ==> version == old(version) + 1 && interval == newPeriod && sent == old(sent) + [(version, newPeriod)]
      ensures !ok ==> PeriodView() == old(PeriodView())
    {
      if newPeriod < 1 || newPeriod > 65535 {
        return false;
      }
      interval := newPeriod;
      version := version + 1;
      sent := sent + [(version, interval)];
      return true;
    }

    /** Scroll the graph to the newest sample of any mote, if it is out of sight. */
    method NewData()
      requires data.n == n && data.Valid() && graph !in data.Repr
      requires Framed(graph.View())
      modifies graph`gx0, graph`gx1
      ensures Framed(graph.View()) && forall max :: IsNewest(n, data.log, max) ==> Shows(graph.View(), max)
      ensures forall max :: IsNewest(n, data.log, max) ==> Scrolled(old(graph.View()), graph.View(), max)
    {
      var max := data.MaxX();
      hide IsNewest;
      graph.NewData(max);
      forall other | IsNewest(n, data.log, other) ensures other == max {
        NewestIsUnique(n, data.log, other, max);
      }
    }

    /** A message from a mote: the views follow the data. */
    method MessageReceived(id: nat, count: nat, moteVersion: int, moteInterval: int, readings: seq<int>)
      requires Valid() && WellFormed(n, Message(count, readings))
      modifies this`version, this`interval, this`sent, data, data.Repr, table, graph`gx0, graph`gx1
      ensures Valid() && data == old(data) && fresh(data.Repr - old(data.Repr))
      ensures data.log == old(data.log) + [Heard(id, Message(count, readings))]
      ensures PeriodView() == HearPeriod(old(PeriodView()), moteVersion, moteInterval)
      ensures forall max :: IsNewest(n, data.log, max) ==> Scrolled(old(graph.View()), graph.View(), max)
    {
      hide Scrolled, From, IsNewest, Framed, Shows, Data.Consistent, MoteTable.Valid;
      PeriodUpdate(moteVersion, moteInterval);
      FromLastOfAll(data.log, Heard(id, Message(count, readings)));
      data.Update(id, count, readings, table);
      NewData();
    }

    /** The user clears all data: no mote is left, and the graph starts at 0. */
    method ClearData()
      requires Valid()
      modifies this`data, table, graph`gx0, graph`gx1
      ensures Valid() && fresh(data) && fresh(data.Repr)
      ensures data.log == [] && table.motes == [] && graph.gx0 == 0
    {
      hide Data.Consistent, Shl;
      table.Clear();
      data := new Data(n);
      NewData();
      assert IsNewest(n, data.log, 0);
    }

    /** The user zooms. */
    method SetScale(newScale: nat)
      requires Valid()
      modifies graph
      ensures Valid() && graph.scale == newScale && graph.gx1 - graph.gx0 == 50 * Pow2(newScale)
      ensures forall max :: IsNewest(n, data.log, max) ==> Placed(graph.View(), max)
    {
      hide Pow2, Placed, From, IsNewest, Framed, Shl, Data.Valid, MoteTable.Valid;
      var max := data.MaxX();
      graph.SetScale(newScale, max);
      forall other | IsNewest(n, data.log, other) ensures other == max {
        NewestIsUnique(n, data.log, other, max);
      }
    }
  }
}
