/**
  The host's printf filter: texts arrive cut into packets, padded with NUL bytes, and
  come out as lines. However they were cut, the lines are those of the whole text.
  */
module Printf {

  import opened Bytes

  type Text = seq<Byte>

  const NEWLINE: Byte := 10

  // ---------- Splitting ----------

  /** A byte put in front of a text already split. */
  function Push(b: Byte, lines: seq<Text>): (r: seq<Text>)
    requires lines != []
    ensures r != []
  {
    if b == NEWLINE then [[]] + lines else [[b] + lines[0]] + lines[1..]
  }

  /** Python's split('\n'): the pieces between newlines, at least one. */
  function Split(text: Text): (lines: seq<Text>)
    ensures lines != []
    decreases |text|
  {
    if text == [] then [[]] else Push(text[0], Split(text[1..]))
  }

  function Join(lines: seq<Text>): Text
    requires lines != []
    decreases |lines|
  {
    if |lines| == 1 then lines[0] else lines[0] + [NEWLINE] + Join(lines[1..])
  }

  lemma {:induction false} JoinPrefixed(b: Byte, lines: seq<Text>)
    requires lines != []
    ensures Join([[b] + lines[0]] + lines[1..]) == [b] + Join(lines)
  {
    var more := [[b] + lines[0]] + lines[1..];
    assert more[1..] == lines[1..];
  }

  /** Joining puts the byte 10 between two pieces. */
  lemma JoinTwo(a: Text, b: Text)
    ensures Join([a, b]) == a + [10] + b
  {
    assert [a, b][1..] == [b];
  }

  /** Splitting is the one way to undo joining: its pieces hold no newline and rejoin to the text. */
  lemma {:induction false} SplitJoins(text: Text)
    ensures Join(Split(text)) == text
    ensures forall i | 0 <= i < |Split(text)| :: 10 !in Split(text)[i]
    decreases |text|
  {
    if text != [] {
      var rest := Split(text[1..]);
      SplitJoins(text[1..]);
      if text[0] == NEWLINE {
        assert ([[]] + rest)[1..] == rest;
      } else {
        JoinPrefixed(text[0], rest);
      }
    }
  }

  /** The text a cut falls into belongs to the last piece before it and the first piece after. */
  function Glue(a: seq<Text>, b: seq<Text>): seq<Text>
    requires a != [] && b != []
  {
    a[..|a| - 1] + [a[|a| - 1] + b[0]] + b[1..]
  }

  lemma GlueCons(first: Text, x: seq<Text>, y: seq<Text>)
    requires x != [] && y != []
    ensures Glue([first] + x, y) == [first] + Glue(x, y)
  {
    var m := |x| - 1;
    var more := [first] + x;
    assert more[..m + 1] == [first] + x[..m];
    assert more[m + 1] == x[m];
  }

  lemma GlueSingle(first: Text, y: seq<Text>)
    requires y != []
    ensures Glue([first], y) == [first + y[0]] + y[1..]
  {
    assert [first][..0] == [];
  }

  lemma GluePush(b: Byte, x: seq<Text>, y: seq<Text>)
    requires x != [] && y != []
    ensures Glue(Push(b, x), y) == Push(b, Glue(x, y))
  {
    hide Glue;
    if b == NEWLINE {
      GlueCons([], x, y);
    } else if |x| == 1 {
      assert x == [x[0]];
      assert Push(b, x) == [[b] + x[0]];
      assert ([x[0] + y[0]] + y[1..])[1..] == y[1..];
      GlueSingle(x[0], y);
      GlueSingle([b] + x[0], y);
      assert ([b] + x[0]) + y[0] == [b] + (x[0] + y[0]);
    } else {
      assert x == [x[0]] + x[1..];
      GlueCons(x[0], x[1..], y);
      GlueCons([b] + x[0], x[1..], y);
    }
  }

  lemma GlueNothing(y: seq<Text>)
    requires y != []
    ensures Glue([[]], y) == y
  {
    var x: seq<Text> := [[]];
    assert x[..0] == [] && x[0] + y[0] == y[0];
  }

  lemma {:induction false} SplitAppend(a: Text, b: Text)
    ensures Split(a + b) == Glue(Split(a), Split(b))
    decreases |a|
  {
    hide Push;
    if a == [] {
      assert a + b == b;
      GlueNothing(Split(b));
    } else {
      SplitAppend(a[1..], b);
      assert (a + b)[1..] == a[1..] + b;
      GluePush(a[0], Split(a[1..]), Split(b));
    }
  }

  lemma SplitOfNone()
    ensures Split([]) == [[]]
  {
  }

  lemma SplitOne(b: Byte)
    ensures Split([b]) == if b == NEWLINE then [[], []] else [[b]]
  {
    assert [b][1..] == [];
    var none: seq<Text> := [[]];
    assert Split([]) == none;
    assert Split([b]) == Push(b, none);
    assert [b] + none[0] == [b] && none[1..] == [];
  }

  lemma SplitByte(a: Text, b: Byte)
    ensures Split(a + [b])
         == if b == NEWLINE then Split(a) + [[]]
            else Split(a)[..|Split(a)| - 1] + [Split(a)[|Split(a)| - 1] + [b]]
  {
    hide Split, Glue;
    SplitAppend(a, [b]);
    SplitOne(b);
    if b == NEWLINE {
      GlueEnd(Split(a));
    } else {
      GlueByte(Split(a), b);
    }
  }

  lemma GlueEnd(x: seq<Text>)
    requires x != []
    ensures Glue(x, [[], []]) == x + [[]]
  {
    assert x[|x| - 1] + [] == x[|x| - 1];
  }

  lemma GlueByte(x: seq<Text>, b: Byte)
    requires x != []
    ensures Glue(x, [[b]]) == x[..|x| - 1] + [x[|x| - 1] + [b]]
  {
  }

  method SplitLines(text: Text) returns (lines: seq<Text>)
    ensures lines == Split(text)
  {
    hide Split;
    SplitOfNone();
    var line: Text := [];
    lines := [];
    for k := 0 to |text|
      invariant lines + [line] == Split(text[..k])
    {
      SplitByte(text[..k], text[k]);
      assert text[..k + 1] == text[..k] + [text[k]];
      if text[k] == NEWLINE {
        lines := lines + [line];
        line := [];
      } else {
        line := line + [text[k]];
      }
    }
    assert text[..|text|] == text;
    lines := lines + [line];
  }

  // ---------- Stripping ----------

  function DropStart(text: Text): Text
    decreases |text|
  {
    if text != [] && text[0] == 0 then DropStart(text[1..]) else text
  }

  function DropEnd(text: Text): Text
    decreases |text|
  {
    if text != [] && text[|text| - 1] == 0 then DropEnd(text[..|text| - 1]) else text
  }

  /** Python's strip('\0'). */
  function Strip(text: Text): Text {
    DropEnd(DropStart(text))
  }

  predicate AllNul(text: Text) {
    forall i | 0 <= i < |text| :: text[i] == 0
  }

  lemma {:induction false} DropStartMeaning(text: Text) returns (before: Text)
    ensures text == before + DropStart(text) && AllNul(before)
    ensures DropStart(text) != [] ==> DropStart(text)[0] != 0
    decreases |text|
  {
    before := [];
    if text != [] && text[0] == 0 {
      before := DropStartMeaning(text[1..]);
      before := [text[0]] + before;
    }
  }

  lemma {:induction false} DropEndMeaning(text: Text) returns (after: Text)
    ensures text == DropEnd(text) + after && AllNul(after)
    ensures DropEnd(text) != [] ==> DropEnd(text)[|DropEnd(text)| - 1] != 0
    decreases |text|
  {
    after := [];
    if text != [] && text[|text| - 1] == 0 {
      after := DropEndMeaning(text[..|text| - 1]);
      after := after + [text[|text| - 1]];
    }
  }

  /** Stripping takes NUL bytes off both ends, all of them, and nothing else. */
  lemma StripMeaning(text: Text) returns (before: Text, after: Text)
    ensures text == before + Strip(text) + after && AllNul(before) && AllNul(after)
    ensures Strip(text) != [] ==> Strip(text)[0] != 0 && Strip(text)[|Strip(text)| - 1] != 0
  {
    hide DropStart, DropEnd;
    before := DropStartMeaning(text);
    after := DropEndMeaning(DropStart(text));
    if Strip(text) != [] {
      assert DropStart(text)[0] == Strip(text)[0];
    }
  }

  // ---------- The filter over a stream of packets ----------

  datatype Printer = Printer(printed: seq<Text>, rest: Text)

  function Accept(p: Printer, text: Text): Printer {
    var lines := Split(p.rest + Strip(text));
    Printer(p.printed + lines[..|lines| - 1], lines[|lines| - 1])
  }

  function AcceptAll(p: Printer, texts: seq<Text>): Printer
    decreases |texts|
  {
    if texts == [] then p else AcceptAll(Accept(p, texts[0]), texts[1..])
  }

  function WholeText(texts: seq<Text>): Text
    decreases |texts|
  {
    if texts == [] then [] else Strip(texts[0]) + WholeText(texts[1..])
  }

  lemma GlueLast(lines: seq<Text>, y: seq<Text>)
    requires lines != [] && y != []
    ensures Glue(lines, y) == lines[..|lines| - 1] + Glue([lines[|lines| - 1]], y)
  {
    assert [lines[|lines| - 1]][..0] == [];
  }

  /** One packet more: what is printed and kept, with the split of the rest, stays the same. */
  lemma AcceptStep(p: Printer, text: Text, rest: Text)
    ensures
      var q := Accept(p, text);
      && q.printed + Split(q.rest + rest) == p.printed + Split(p.rest + Strip(text) + rest)
      && NEWLINE !in q.rest
  {
    hide Split, Strip, Glue;
    var first := p.rest + Strip(text);
    var q := Accept(p, text);
    var lines := Split(first);
    SplitJoins(first);
    SplitAppend(first, rest);
    SplitAppend(q.rest, rest);
    OneLine(q.rest);
    GlueLast(lines, Split(rest));
    assert (p.printed + lines[..|lines| - 1]) + Split(q.rest + rest)
        == p.printed + (lines[..|lines| - 1] + Split(q.rest + rest));
  }

  lemma {:induction false} StreamFrom(p: Printer, texts: seq<Text>)
    requires NEWLINE !in p.rest
    ensures
      var q := AcceptAll(p, texts);
      && q.printed + [q.rest] == p.printed + Split(p.rest + WholeText(texts))
      && NEWLINE !in q.rest
    decreases |texts|
  {
    hide Split, Strip, Accept;
    if texts == [] {
      OneLine(p.rest);
      assert p.rest + [] == p.rest;
    } else {
      var whole := WholeText(texts[1..]);
      AcceptStep(p, texts[0], whole);
      StreamFrom(Accept(p, texts[0]), texts[1..]);
      assert p.rest + WholeText(texts) == p.rest + Strip(texts[0]) + whole;
    }
  }

  lemma {:induction false} OneLine(text: Text)
    requires NEWLINE !in text
    ensures Split(text) == [text]
    decreases |text|
  {
    if text != [] {
      OneLine(text[1..]);
      assert [text[0]] + text[1..] == text;
    }
  }

  /**
    Over any stream of packets, the printed lines with the kept remainder are the
    newline split of the whole text, so how the text was cut makes no difference; and
    the remainder never holds a newline.
    */
  lemma StreamingEqualsBatch(texts: seq<Text>)
    ensures
      var q := AcceptAll(Printer([], []), texts);
      q.printed + [q.rest] == Split(WholeText(texts)) && NEWLINE !in q.rest
  {
    StreamFrom(Printer([], []), texts);
    assert [] + WholeText(texts) == WholeText(texts);
  }
}
