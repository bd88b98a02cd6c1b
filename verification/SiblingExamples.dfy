/** Reports whose canonical text depends on the order of siblings, and one where it could but
    does not: inputs for both sides of `SiblingOrder.OrderInvariantIff`. */
module SiblingExamples {
  import opened Ordering
  import opened Text
  import opened SchemaLine
  import opened DiagnosticForest
  import opened SchemaReport
  import opened SiblingOrder

  const NOTE := "  note"

  /** A head with a one-letter name. */
  function Head(name: char, message: string): string {
    AT + ['\'', name, '\''] + ": " + message
  }

  function PlainBlock(name: char): Block {
    Block(Head(name, "x"), [])
  }

  function ColonBlock(name: char): Block {
    Block(Head(name, "q:"), [Opaque(NOTE)])
  }

  predicate Letter(c: char) {
    'a' <= c <= 'z'
  }

  lemma PlainDiagnostic(quoted: string, message: string)
    requires IsToken(quoted)
    ensures ParseDiagnostic(AT + quoted + ": " + message) == Some(Diagnostic(0, message))
  {
    hide ClosingQuote, Quoted, IsToken;
    assert Quoted(quoted) == Some(QuotedText(quoted, "")) by { TokenQuoted(quoted); }
    var line := AT + quoted + ": " + message;
    LeadingSpacesUnique(line, 0);
    assert line[0..] == line;
    assert line[|AT|..] == quoted + (": " + message);
    QuotedLocal(quoted, ": " + message);
    assert (": " + message)[2..] == message;
  }

  lemma TokenQuoted(quoted: string)
    requires IsToken(quoted)
    ensures Quoted(quoted) == Some(QuotedText(quoted, ""))
  {
  }

  lemma LetterToken(c: char)
    requires c != '\'' && c != '\\'
    ensures IsToken(['\'', c, '\''])
  {
    var t := ['\'', c, '\''];
    assert t[1..] == [c, '\''];
    assert t[1..][1..] == ['\''];
    assert ClosingQuote(['\'']) == Some(1);
    assert ClosingQuote(t[1..]) == Some(2);
    assert t[..3] == t && t[3..] == "";
  }

  lemma {:induction false} LexBelowPrefix(p: string, x: string, y: string)
    ensures LexLe(p + x, p + y) <==> LexLe(x, y)
  {
    hide LexLe;
    if p == [] {
      assert p + x == x && p + y == y;
    } else {
      LexBelowPrefix(p[1..], x, y);
      LexBelowChar(p[0], p[1..] + x, p[1..] + y);
      assert p + x == [p[0]] + (p[1..] + x) && p + y == [p[0]] + (p[1..] + y);
    }
  }

  lemma LexBelowChar(c: char, x: string, y: string)
    ensures LexLe([c] + x, [c] + y) <==> LexLe(x, y)
  {
    assert ([c] + x)[1..] == x && ([c] + y)[1..] == y;
  }

  lemma NotePlain()
    ensures OneLine(NOTE) && !IsDiagnostic(NOTE) && LeadingSpaces(NOTE) == 2
  {
    assert NOTE[0] == ' ' && NOTE[1] == ' ' && NOTE[2] == 'n';
    LeadingSpacesUnique(NOTE, 2);
    assert |NOTE[2..]| < |AT|;
  }

  lemma PlainProperty()
    ensures Properties("x") == "x"
  {
    assert TrimRight("x") == "x";
  }

  lemma HeadParsed(name: char, message: string)
    requires Letter(name)
    ensures ParseDiagnostic(Head(name, message)) == Some(Diagnostic(0, message))
  {
    hide ParseDiagnostic, IsToken;
    LetterToken(name);
    PlainDiagnostic(['\'', name, '\''], message);
  }

  lemma HeadShape(name: char)
    requires Letter(name)
    ensures OneLine(Head(name, "x")) && OneLine(Head(name, "q:"))
    ensures !EndsWithColon(Head(name, "x")) && EndsWithColon(Head(name, "q:"))
  {
  }

  lemma ExampleBlocks(name: char)
    requires Letter(name)
    ensures WellFormedBlock(PlainBlock(name), 0) && WellFormedBlock(ColonBlock(name), 0)
    ensures AllOneLine(PrintBlock(PlainBlock(name))) && AllOneLine(PrintBlock(ColonBlock(name)))
    ensures PrintBlock(ColonBlock(name)) == [Head(name, "q:"), NOTE]
    ensures CanonicalBlock(PlainBlock(name)) == PlainBlock(name)
    ensures CanonicalBlock(ColonBlock(name)) == ColonBlock(name)
  {
    hide ParseDiagnostic, LeadingSpaces, OneLine, EndsWithColon, Properties, Head;
    HeadParsed(name, "x");
    HeadParsed(name, "q:");
    HeadShape(name);
    NotePlain();
    ConsItem(Opaque(NOTE), [], 0);
    assert [Opaque(NOTE)] + [] == [Opaque(NOTE)];
    PlainProperty();
    ColonHeadKept(Head(name, "q:"));
    PlainHeadKept(name);
    assert PrintItems([Opaque(NOTE)]) == [NOTE];
    assert CanonicalItems([Opaque(NOTE)]) == [Opaque(NOTE)];
  }

  lemma PlainHeadKept(name: char)
    requires Letter(name)
    ensures CanonicalLine(Head(name, "x")) == Head(name, "x")
  {
    hide ParseDiagnostic, Properties;
    HeadParsed(name, "x");
    PlainProperty();
    var h := Head(name, "x");
    assert h[..|h| - 1] + "x" == h;
  }

  lemma NameDecides(c: char, d: char, x: string, y: string)
    requires c < d
    ensures LexLe(AT + (['\'', c] + x), AT + (['\'', d] + y)) && !LexLe(AT + (['\'', d] + y), AT + (['\'', c] + x))
  {
    LexBelowPrefix(AT, ['\'', c] + x, ['\'', d] + y);
    LexBelowPrefix(AT, ['\'', d] + y, ['\'', c] + x);
    hide LexLe;
    assert ['\'', c] + x == ['\''] + ([c] + x) && ['\'', d] + y == ['\''] + ([d] + y);
    LexBelowChar('\'', [c] + x, [d] + y);
    LexBelowChar('\'', [d] + y, [c] + x);
    CharDecides(c, d, x, y);
  }

  lemma CharDecides(c: char, d: char, x: string, y: string)
    requires c < d
    ensures LexLe([c] + x, [d] + y) && !LexLe([d] + y, [c] + x)
  {
  }

  /** Both texts begin with the name, after a common prefix. */
  lemma TextStarts(name: char, b: Block) returns (t: string)
    requires b == PlainBlock(name) || b == ColonBlock(name)
    requires Letter(name)
    ensures BlockText(b) == AT + (['\'', name] + t)
  {
    ExampleBlocks(name);
    HeadStarts(name, "x");
    HeadStarts(name, "q:");
    assert BlockText(b) == Join(PrintBlock(b), "\n");
    hide Head, BlockText, CanonicalBlock, WellFormedBlock;
    if b == PlainBlock(name) {
      t := "'" + ": " + "x";
      assert PrintBlock(b) == [b.head];
      assert BlockText(b) == b.head;
    } else {
      t := ("'" + ": " + "q:") + "\n" + NOTE;
      JoinTwo(b.head, NOTE);
      Regroup(name, "'" + ": " + "q:", NOTE);
    }
  }

  lemma JoinTwo(x: string, y: string)
    ensures Join([x, y], "\n") == x + "\n" + y
  {
    assert [x, y][1..] == [y];
  }

  lemma Regroup(name: char, x: string, y: string)
    ensures AT + (['\'', name] + x) + "\n" + y == AT + (['\'', name] + (x + "\n" + y))
  {
  }

  lemma HeadStarts(name: char, message: string)
    ensures Head(name, message) == AT + (['\'', name] + ("'" + ": " + message))
  {
  }

  lemma NameOrders(c: char, d: char, x: Block, y: Block)
    requires Letter(c) && Letter(d) && c < d
    requires x == PlainBlock(c) || x == ColonBlock(c)
    requires y == PlainBlock(d) || y == ColonBlock(d)
    ensures BlockLe(x, y) && !BlockLe(y, x) && x != y
  {
    hide BlockText, LexLe, PlainBlock, ColonBlock;
    var s := TextStarts(c, x);
    var t := TextStarts(d, y);
    NameDecides(c, d, s, t);
  }

  ghost predicate Named(b: Block, name: char) {
    Letter(name) && (b == PlainBlock(name) || b == ColonBlock(name))
  }

  ghost predicate IsExample(b: Block) {
    exists c :: Named(b, c)
  }

  lemma IsExampleBlock(b: Block)
    requires IsExample(b)
    ensures WellFormedBlock(b, 0) && AllOneLine(PrintBlock(b)) && CanonicalBlock(b) == b
  {
    hide PlainBlock, ColonBlock, WellFormedBlock, AllOneLine, PrintBlock, CanonicalBlock;
    var c :| Named(b, c);
    ExampleBlocks(c);
  }

  lemma ExampleReadable(a: seq<Block>)
    requires forall i | 0 <= i < |a| :: IsExample(a[i])
    ensures WellFormed(a, 0) && AllOneLine(PrintForest(a))
    ensures CanonicalEach(a) == a
  {
    hide *;
    forall i | 0 <= i < |a|
      ensures WellFormedBlock(a[i], 0) && AllOneLine(PrintBlock(a[i])) && CanonicalBlock(a[i]) == a[i]
    {
      IsExampleBlock(a[i]);
    }
    WellFormedEach(a, 0);
    OneLineEach(a);
  }

  lemma LeastIs(a: seq<Block>, k: nat)
    requires k < |a| && CanonicalEach(a) == a
    requires forall i | 0 <= i < |a| && i != k :: !BlockLe(a[i], a[k])
    ensures Least(a) == a[k]
  {
    hide BlockLe, CanonicalBlock, Sort;
    var j := SortedPlace(a, k);
    CanonicalElements(a);
    var first := Canonical(a)[0];
    assert first in Canonical(a);
    var i :| 0 <= i < |a| && first == CanonicalBlock(a[i]);
    BlockOrder();
    assert j > 0 ==> BlockLe(first, Canonical(a)[j]);
  }

  lemma ExampleStarts(name: char, n: nat, values: bool)
    requires Letter(name) && n > 0
    ensures Starts(PlainBlock(name), n, values) == values && !Starts(ColonBlock(name), n, values)
    ensures Exposed(ColonBlock(name)) && !Trails(ColonBlock(name))
    ensures PlainBlock(name) != ColonBlock(name)
  {
    hide Head;
    HeadShape(name);
    ExampleBlocks(name);
  }

  /** Example blocks in the order of their names. */
  lemma ExamplesInOrder(a: seq<Block>, names: string)
    requires |a| == |names| > 0 && forall i | 0 <= i < |a| :: Named(a[i], names[i])
    requires forall i | 0 < i < |a| :: names[0] < names[i]
    ensures WellFormed(a, 0) && AllOneLine(PrintForest(a)) && Least(a) == a[0]
    ensures forall i | 0 < i < |a| :: a[i] != a[0]
  {
    hide PlainBlock, ColonBlock, WellFormed, PrintForest, AllOneLine, BlockLe, CanonicalEach, Least, Letter;
    forall i | 0 <= i < |a| ensures IsExample(a[i]) {
      assert Named(a[i], names[i]);
    }
    ExampleReadable(a);
    forall i | 0 < i < |a| ensures !BlockLe(a[i], a[0]) && a[i] != a[0] {
      assert Named(a[0], names[0]) && Named(a[i], names[i]);
      NameOrders(names[0], names[i], a[0], a[i]);
    }
    LeastIs(a, 0);
  }

  lemma ExamplePair(x: Block, y: Block, c: char, d: char)
    requires Named(x, c) && Named(y, d) && c < d
    ensures WellFormed([x, y], 0) && AllOneLine(PrintForest([x, y])) && Least([x, y]) == x && x != y
  {
    hide *;
    ExamplesInOrder([x, y], [c, d]);
    assert [x, y][1] != [x, y][0];
  }

  /** A block that would not start canonicalising is the first, or nothing is tolerant. */
  lemma LaterNotTolerant(a: seq<Block>, i: nat, values: bool)
    requires i < |a| && !Starts(a[i], |a|, values) && a[i] != Least(a)
    ensures !Tolerant(a, [], values)
  {
    hide Least, Starts, Report, Trails, Without;
  }

  lemma BehindNotTolerant(a: seq<Block>, i: nat)
    requires i < |a| && !Starts(a[i], |a|, true) && !Trails(a[i]) && !Tolerant(Without(a, i), [], false)
    ensures !Tolerant(a, [], true)
  {
    hide Least, Starts, Report, Trails, Without;
  }

  lemma LastTolerant(b: Block, name: char)
    requires Letter(name) && b == PlainBlock(name)
    ensures Tolerant([b], [], false)
  {
    hide PlainBlock, ColonBlock, BlockLe, CanonicalEach, Least, Starts;
    assert Named([b][0], name);
    assert IsExample([b][0]);
    ExampleReadable([b]);
    LeastIs([b], 0);
    NoReport();
    assert Without([b], 0) == [];
  }

  lemma PairTolerant(x: Block, y: Block)
    requires x == Least([x, y]) && Starts(y, 2, true) && !Trails(x) && Tolerant([y], [], false)
    ensures Tolerant([x, y], [], true)
  {
    hide Least, Starts, Report, Trails;
    assert Without([x, y], 0) == [y];
  }

  /** `schemaError` is not invariant under rearranging siblings: of two diagnostics, the one whose
      head ends with a colon and has a note below it must not come first. */
  lemma OrderMatters()
    ensures var a := [PlainBlock('b'), ColonBlock('d')];
            WellFormed(a, 0) && !OrderInvariant(a, [])
  {
    hide *;
    var a := [PlainBlock('b'), ColonBlock('d')];
    Letters();
    ExamplePair(a[0], a[1], 'b', 'd');
    ExampleStarts('d', 2, true);
    LaterNotTolerant(a, 1, true);
    Unlike(a, 0, 1);
    OrderInvariantIff(a, []);
  }

  lemma Letters()
    ensures Letter('b') && Letter('d') && Letter('f') && Stop([], 0)
    ensures forall c :: Letter(c) ==> Named(PlainBlock(c), c) && Named(ColonBlock(c), c)
  {
    hide PlainBlock, ColonBlock;
  }

  lemma Unlike(a: seq<Block>, i: nat, j: nat)
    requires i < j < |a| && a[i] != a[j]
    ensures !AllAlike(a)
  {
  }

  /** The same two diagnostics with their names exchanged may come in any order. */
  lemma OrderTolerated()
    ensures var a := [ColonBlock('b'), PlainBlock('d')];
            WellFormed(a, 0) && Exposed(a[0]) && OrderInvariant(a, [])
  {
    hide *;
    var a := [ColonBlock('b'), PlainBlock('d')];
    Letters();
    ExamplePair(a[0], a[1], 'b', 'd');
    ExampleStarts('b', 2, true);
    ExampleStarts('d', 2, true);
    LastTolerant(a[1], 'd');
    PairTolerant(a[0], a[1]);
    OrderInvariantIff(a, []);
  }

  /** With a third diagnostic they may not, although the one with the colon still comes first in
      canonical order: printed first, it leaves the other two as they are. */
  lemma OrderMattersBehind()
    ensures var a := [ColonBlock('b'), PlainBlock('d'), PlainBlock('f')];
            WellFormed(a, 0) && Least(a) == a[0] && !OrderInvariant(a, [])
  {
    hide *;
    var a := [ColonBlock('b'), PlainBlock('d'), PlainBlock('f')];
    Letters();
    ThreeExamples(a);
    ExampleStarts('b', 3, true);
    ExampleStarts('f', 2, false);
    WithoutFirst(a);
    ExamplePair(a[1], a[2], 'd', 'f');
    LaterNotTolerant([a[1], a[2]], 1, false);
    BehindNotTolerant(a, 0);
    Unlike(a, 1, 2);
    OrderInvariantIff(a, []);
  }

  lemma WithoutFirst(a: seq<Block>)
    requires |a| == 3
    ensures Without(a, 0) == [a[1], a[2]]
  {
  }

  lemma ThreeExamples(a: seq<Block>)
    requires a == [ColonBlock('b'), PlainBlock('d'), PlainBlock('f')]
    ensures WellFormed(a, 0) && AllOneLine(PrintForest(a)) && Least(a) == a[0]
  {
    hide *;
    Letters();
    ExamplesInOrder(a, "bdf");
  }
}
