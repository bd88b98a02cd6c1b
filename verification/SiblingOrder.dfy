/** When `schemaError` forgets the order of sibling diagnostics, and when it does not. */
module SiblingOrder {
  import opened Ordering
  import opened Text
  import opened SchemaLine
  import opened DiagnosticForest
  import opened SchemaReport

  // ---------- forests that differ in order only ----------

  /** Equal lines, or diagnostics that list the same properties in another order. */
  ghost predicate SimilarHead(a: string, b: string) {
    a == b ||
    (IsDiagnostic(a) && IsDiagnostic(b) &&
     var p, q := ParseDiagnostic(a).value.message, ParseDiagnostic(b).value.message;
     a[..|a| - |p|] == b[..|b| - |q|] && SameProperties(p, q))
  }

  /** `c` arranges the siblings of `b`, and each block of `a` is similar to the one in its place. */
  ghost predicate Arranges(a: seq<Block>, b: seq<Block>, c: seq<Block>)
    decreases a, 3
  {
    |a| == |c| && multiset(b) == multiset(c) && SimilarEach(a, c)
  }

  ghost predicate SimilarEach(a: seq<Block>, c: seq<Block>)
    requires |a| == |c|
    decreases a, 2
  {
    a == [] || (SimilarBlock(a[0], c[0]) && SimilarEach(a[1..], c[1..]))
  }

  /** Two forests that differ by permuting sibling blocks and property tokens, at any depth. */
  ghost predicate SimilarForest(a: seq<Block>, b: seq<Block>)
    decreases a, 4
  {
    exists c: seq<Block> :: Arranges(a, b, c)
  }

  ghost predicate SimilarBlock(a: Block, b: Block)
    decreases a, 1
  {
    SimilarHead(a.head, b.head) && |a.items| == |b.items| && SimilarItems(a.items, b.items)
  }

  ghost predicate SimilarItems(a: seq<Item>, b: seq<Item>)
    requires |a| == |b|
    decreases a, 0
  {
    a == [] || (SimilarItem(a[0], b[0]) && SimilarItems(a[1..], b[1..]))
  }

  ghost predicate SimilarItem(a: Item, b: Item)
    decreases a, 5
  {
    match a
    case Opaque(_) => a == b
    case Children(depth, blocks) => b.Children? && depth == b.depth && SimilarForest(blocks, b.blocks)
  }

  // ---------- similar forests have the same canonical text ----------

  lemma SimilarHeadsAgree(a: string, b: string)
    requires SimilarHead(a, b)
    ensures CanonicalLine(a) == CanonicalLine(b)
  {
    if a != b {
      PropertiesCanonical(ParseDiagnostic(a).value.message, ParseDiagnostic(b).value.message);
    }
  }

  function CanonicalTexts(blocks: seq<Block>): seq<string> {
    Texts(CanonicalEach(blocks))
  }

  lemma TextsKeepMultiset(a: seq<Block>, b: seq<Block>)
    requires multiset(a) == multiset(b)
    ensures multiset(CanonicalTexts(a)) == multiset(CanonicalTexts(b))
  {
    hide BlockText, CanonicalBlock;
    var f := (b: Block) => BlockText(CanonicalBlock(b));
    MapKeepsMultiset(a, b, f);
    assert CanonicalTexts(a) == Map(a, f);
    assert CanonicalTexts(b) == Map(b, f);
  }

  lemma {:induction false} SimilarForestsAgree(a: seq<Block>, b: seq<Block>)
    requires SimilarForest(a, b)
    ensures |a| == |b|
    ensures ForestText(Canonical(a)) == ForestText(Canonical(b))
    decreases a, 4
  {
    var c :| Arranges(a, b, c);
    assert |multiset(b)| == |multiset(c)|;
    SimilarEachAgree(a, c);
    TextsKeepMultiset(b, c);
    LexIsTotalOrder();
    SortForgetsOrder(CanonicalTexts(b), CanonicalTexts(c), LexLe);
    if a == [] {
      assert a == b;
    } else {
      SortedTextsAreForestText(a);
      SortedTextsAreForestText(b);
    }
  }

  lemma {:induction false} SimilarEachAgree(a: seq<Block>, c: seq<Block>)
    requires |a| == |c| && SimilarEach(a, c)
    ensures CanonicalTexts(a) == CanonicalTexts(c)
    decreases a, 2
  {
    if a != [] {
      SimilarBlocksAgree(a[0], c[0]);
      SimilarEachAgree(a[1..], c[1..]);
    }
  }

  lemma {:induction false} SimilarBlocksAgree(a: Block, b: Block)
    requires SimilarBlock(a, b)
    ensures BlockText(CanonicalBlock(a)) == BlockText(CanonicalBlock(b))
    decreases a, 1
  {
    SimilarHeadsAgree(a.head, b.head);
    SimilarItemsAgree(a.items, b.items);
    var x, y := PrintItems(CanonicalItems(a.items)), PrintItems(CanonicalItems(b.items));
    hide PrintItems, CanonicalItems, CanonicalLine, Join;
    JoinPair([CanonicalLine(a.head)], x, [CanonicalLine(b.head)], y);
  }

  lemma JoinPair(x: seq<string>, y: seq<string>, u: seq<string>, v: seq<string>)
    requires (x == [] <==> u == []) && (y == [] <==> v == [])
    requires Join(x, "\n") == Join(u, "\n") && Join(y, "\n") == Join(v, "\n")
    ensures Join(x + y, "\n") == Join(u + v, "\n")
  {
    if x == [] {
      assert x + y == y && u + v == v;
    } else if y == [] {
      assert x + y == x && u + v == u;
    } else {
      JoinAppend(x, y, "\n");
      JoinAppend(u, v, "\n");
    }
  }

  lemma {:induction false} SimilarItemsAgree(a: seq<Item>, b: seq<Item>)
    requires |a| == |b| && SimilarItems(a, b)
    ensures var x, y := PrintItems(CanonicalItems(a)), PrintItems(CanonicalItems(b));
            (x == [] <==> y == []) && Join(x, "\n") == Join(y, "\n")
    decreases a, 0
  {
    if a != [] {
      SimilarItemsAgree(a[1..], b[1..]);
      SimilarItemAgrees(a[0], b[0]);
      var x, y := CanonicalItems(a), CanonicalItems(b);
      assert x[1..] == CanonicalItems(a[1..]) && y[1..] == CanonicalItems(b[1..]);
      hide SimilarItem, PrintItem, CanonicalItem, Join;
      JoinPair(PrintItem(x[0]), PrintItems(x[1..]), PrintItem(y[0]), PrintItems(y[1..]));
    }
  }

  lemma {:induction false} SimilarItemAgrees(a: Item, b: Item)
    requires SimilarItem(a, b)
    ensures var x, y := PrintItem(CanonicalItem(a)), PrintItem(CanonicalItem(b));
            (x == [] <==> y == []) && Join(x, "\n") == Join(y, "\n")
    decreases a, 5
  {
    if a.Children? {
      SimilarForestsAgree(a.blocks, b.blocks);
      CanonicalElements(a.blocks);
      CanonicalElements(b.blocks);
      PrintFirst(Canonical(a.blocks));
      PrintFirst(Canonical(b.blocks));
    }
  }

  // ---------- the report of a forest, where diagnostics are canonicalised ----------

  /** The source starts canonicalising at a forest only if its first line does not end with a
      colon, or is followed by an unindented diagnostic. */
  predicate Reached(blocks: seq<Block>, post: seq<string>)
    requires blocks != []
  {
    PrintFirst(blocks);
    Values(PrintForest(blocks) + post, true)
  }

  lemma ReachedReport(blocks: seq<Block>, indent: nat, post: seq<string>)
    requires blocks != [] && WellFormed(blocks, indent) && Stop(post, indent) && Reached(blocks, post)
    ensures Report(PrintForest(blocks) + post, true) == PrintForest(Canonical(blocks)) + Report(post, true)
  {
    var lines := PrintForest(blocks) + post;
    PrintFirst(blocks);
    assert WellFormedBlock(blocks[0], indent);
    PrintedForestParses(blocks, indent, post);
    hide ParseForest, Canonical, WellFormed, PrintForest, EndsWithColon, ParseDiagnostic;
    ReportForest(lines, true);
    assert lines[|PrintForest(blocks)|..] == post;
  }

  /** The order of siblings and of property tokens, at any depth, leaves no trace in the report:
      similar forests in the same place give the same lines. */
  lemma OrderForgotten(a: seq<Block>, b: seq<Block>, indent: nat, post: seq<string>)
    requires a != [] && WellFormed(a, indent) && WellFormed(b, indent) && SimilarForest(a, b)
    requires AllOneLine(PrintForest(a)) && AllOneLine(PrintForest(b))
    requires Stop(post, indent) && b != [] && Reached(a, post) && Reached(b, post)
    ensures Report(PrintForest(a) + post, true) == Report(PrintForest(b) + post, true)
  {
    ReachedReport(a, indent, post);
    ReachedReport(b, indent, post);
    SimilarForestsAgree(a, b);
    CanonicalOneLine(a);
    CanonicalOneLine(b);
    NonemptyForest(a);
    NonemptyForest(b);
    hide Report, Canonical, PrintForest, WellFormed, SimilarForest, Reached;
    JoinThenSplit(PrintForest(Canonical(a)));
    JoinThenSplit(PrintForest(Canonical(b)));
  }

  // ---------- a forest below a chart heading ----------

  /** A line no forest can contain. */
  predicate Heading(line: string) {
    !IsDiagnostic(line) && LeadingSpaces(line) == 0
  }

  lemma {:induction false} ParseBeforeHeading(pre: seq<string>, t: seq<string>, u: seq<string>, d: nat)
    requires t != [] && u != [] && t[0] == u[0] && Heading(t[0])
    ensures ParseForest(pre + t, d) == ParseForest(pre + u, d)
    ensures ParseForest(pre + t, d).1 <= |pre|
    decreases |pre|, 0
  {
    hide ParseForest, ParseItems, ParseDiagnostic, LeadingSpaces;
    if pre == [] {
      assert pre + t == t && pre + u == u;
      NoForest(t, d);
      NoForest(u, d);
    } else if !At(pre[0], d) {
      NoForest(pre + t, d);
      NoForest(pre + u, d);
    } else {
      hide At, IsDiagnostic, Heading, Depth;
      var below := pre[1..];
      assert (pre + t)[1..] == below + t && (pre + u)[1..] == below + u;
      ItemsBeforeHeading(below, t, u, d);
      var (items, k) := ParseItems(below + t, d);
      assert (pre + t)[1 + k..] == pre[1 + k..] + t && (pre + u)[1 + k..] == pre[1 + k..] + u;
      ParseBeforeHeading(pre[1 + k..], t, u, d);
      assert (pre + t)[0] == pre[0] && (pre + u)[0] == pre[0];
      ParseCons(pre + t, items, k, d);
      ParseCons(pre + u, items, k, d);
    }
  }

  lemma {:induction false} ItemsBeforeHeading(pre: seq<string>, t: seq<string>, u: seq<string>, d: nat)
    requires t != [] && u != [] && t[0] == u[0] && Heading(t[0])
    ensures ParseItems(pre + t, d) == ParseItems(pre + u, d)
    ensures ParseItems(pre + t, d).1 <= |pre|
    decreases |pre|, 1
  {
    hide ParseDiagnostic, LeadingSpaces, ParseForest;
    if pre == [] {
      assert pre + t == t && pre + u == u;
    } else if IsDiagnostic(pre[0]) {
      var depth := Depth(pre[0]);
      if depth > d {
        ParseBeforeHeading(pre, t, u, depth);
        AtOwnDepth(pre[0]);
        var k := ParseForest(pre + t, depth).1;
        assert (pre + t)[0] == pre[0] && (pre + u)[0] == pre[0];
        assert (pre + t)[k..] == pre[k..] + t && (pre + u)[k..] == pre[k..] + u;
        hide Depth, IsDiagnostic, At, Heading;
        ItemsBeforeHeading(pre[k..], t, u, d);
      }
    } else {
      hide Depth, At, Heading;
      assert (pre + t)[1..] == pre[1..] + t && (pre + u)[1..] == pre[1..] + u;
      ItemsBeforeHeading(pre[1..], t, u, d);
    }
  }

  /** What is printed up to and including a heading ending with a colon depends on nothing after
      it, and whether the lines after it are canonicalised depends on the first of them alone. */
  lemma {:induction false} HeadingSeparates(pre: seq<string>, heading: string, x: seq<string>, values: bool)
    requires Heading(heading) && EndsWithColon(heading)
    ensures Report(pre + [heading] + x, values) ==
            Report(pre + [heading], values) + Report(x, x != [] && Unindented(x[0]))
    decreases |pre|
  {
    hide ParseDiagnostic, LeadingSpaces, ParseForest, Canonical, PrintForest, Report;
    var whole, part := pre + [heading] + x, pre + [heading];
    var v := Values(whole, values);
    if pre == [] {
      assert whole[1..] == x && part[1..] == [];
      ReportLine(whole, values);
      ReportLine(part, values);
      NoReport();
    } else if v && IsDiagnostic(pre[0]) {
      var d := Depth(pre[0]);
      var t := [heading] + x;
      assert whole == pre + t;
      ParseBeforeHeading(pre, t, [heading], d);
      var used := ParseForest(whole, d).1;
      AtOwnDepth(pre[0]);
      assert whole[used..] == pre[used..] + [heading] + x && part[used..] == pre[used..] + [heading];
      HeadingSeparates(pre[used..], heading, x, true);
      ReportForest(whole, values);
      ReportForest(part, values);
    } else {
      assert whole[1..] == pre[1..] + [heading] + x && part[1..] == pre[1..] + [heading];
      HeadingSeparates(pre[1..], heading, x, v);
      ReportLine(whole, values);
      ReportLine(part, values);
    }
  }

  lemma NoReport()
    ensures Report([], false) == [] && Report([], true) == []
  {
  }

  /** Charts whose diagnostics differ in order only are reported alike, wherever they stand. */
  lemma ChartOrderForgotten(pre: seq<string>, heading: string, a: seq<Block>, b: seq<Block>, post: seq<string>, values: bool)
    requires Heading(heading) && EndsWithColon(heading)
    requires a != [] && b != [] && WellFormed(a, 0) && WellFormed(b, 0) && SimilarForest(a, b)
    requires AllOneLine(PrintForest(a)) && AllOneLine(PrintForest(b))
    requires Stop(post, 0) && Reached(a, post) && Reached(b, post)
    ensures Report(pre + [heading] + (PrintForest(a) + post), values) ==
            Report(pre + [heading] + (PrintForest(b) + post), values)
  {
    OrderForgotten(a, b, 0, post);
    PrintFirst(a);
    PrintFirst(b);
    assert WellFormedBlock(a[0], 0) && WellFormedBlock(b[0], 0);
    hide Report, PrintForest, Canonical, ParseDiagnostic;
    HeadingSeparates(pre, heading, PrintForest(a) + post, values);
    HeadingSeparates(pre, heading, PrintForest(b) + post, values);
  }

  // ---------- the report of a forest that starts with a given block ----------

  /** Put first, this block keeps the source from canonicalising its forest. */
  predicate Exposed(b: Block) {
    EndsWithColon(b.head) && b.items != []
  }

  /** Whether the source canonicalises a forest of `n` blocks that has `b` in front, where it
      did so before (`values`) or not: a colon is taken for the end of a chart heading. */
  predicate Starts(b: Block, n: nat, values: bool) {
    if EndsWithColon(b.head) then b.items == [] && n > 1 else values
  }

  /** The last line of the block ends with a colon. */
  predicate Trails(b: Block) {
    var lines := PrintBlock(b);
    EndsWithColon(lines[|lines| - 1])
  }

  lemma ItemsNotUnindented(items: seq<Item>, indent: nat)
    requires WellFormedItems(items, indent)
    ensures forall l | l in PrintItems(items) :: !Unindented(l)
    decreases items, 0
  {
    hide ParseDiagnostic, LeadingSpaces;
    if items != [] {
      assert WellFormedItem(items[0], indent);
      ItemsNotUnindented(items[1..], indent);
      if items[0].Children? { ForestNotUnindented(items[0].blocks, items[0].depth); }
    }
  }

  lemma ForestNotUnindented(blocks: seq<Block>, indent: nat)
    requires WellFormed(blocks, indent) && indent > 0
    ensures forall l | l in PrintForest(blocks) :: !Unindented(l)
    decreases blocks, 0
  {
    hide ParseDiagnostic, LeadingSpaces;
    if blocks != [] {
      assert WellFormedBlock(blocks[0], indent);
      ItemsNotUnindented(blocks[0].items, indent);
      ForestNotUnindented(blocks[1..], indent);
    }
  }

  /** The line after the head of the first block. */
  lemma SecondLine(b: Block, rest: seq<Block>, post: seq<string>)
    requires WellFormed([b] + rest, 0) && Stop(post, 0)
    ensures var lines := PrintBlock(b) + (PrintForest(rest) + post);
            |lines| > 1 && Unindented(lines[1]) <==> b.items == [] && rest != []
  {
    BlocksAt(b, rest);
    PrintFirst(rest);
    ItemsNotUnindented(b.items, 0);
    PrintItemsFirst(b.items, 0);
    assert rest == [] && post != [] ==> !Unindented(post[0]);
    hide ParseDiagnostic, LeadingSpaces, WellFormed, PrintForest, PrintItems, WellFormedItems, Unindented, Stop;
    var below := PrintForest(rest) + post;
    if b.items == [] {
      assert PrintBlock(b) + below == [b.head] + below;
    } else {
      assert (PrintBlock(b) + below)[1] == PrintItems(b.items)[0];
      assert PrintItems(b.items)[0] in PrintItems(b.items);
    }
  }

  lemma BlocksAt(b: Block, rest: seq<Block>)
    requires WellFormed([b] + rest, 0)
    ensures Unindented(b.head) && WellFormedItems(b.items, 0) && WellFormedBlock(b, 0) && WellFormed(rest, 0)
    ensures rest != [] ==> Unindented(rest[0].head)
  {
    hide ParseDiagnostic, WellFormedItems;
    assert ([b] + rest)[1..] == rest;
  }

  lemma FirstValues(b: Block, rest: seq<Block>, post: seq<string>, values: bool)
    requires WellFormed([b] + rest, 0) && Stop(post, 0)
    ensures Values(PrintBlock(b) + (PrintForest(rest) + post), values) <==> Starts(b, 1 + |rest|, values)
    ensures PrintForest([b] + rest) + post == PrintBlock(b) + (PrintForest(rest) + post)
  {
    hide *;
    SecondLine(b, rest, post);
    PrintCons(b, rest);
    ValuesOf(PrintBlock(b) + (PrintForest(rest) + post), b, 1 + |rest|, values);
  }

  lemma ValuesOf(lines: seq<string>, b: Block, n: nat, values: bool)
    requires lines != [] && lines[0] == b.head
    requires |lines| > 1 && Unindented(lines[1]) <==> b.items == [] && n > 1
    ensures Values(lines, values) <==> Starts(b, n, values)
  {
    hide Unindented, EndsWithColon;
  }

  lemma StartedReport(b: Block, rest: seq<Block>, post: seq<string>, values: bool)
    requires WellFormed([b] + rest, 0) && Stop(post, 0) && Starts(b, 1 + |rest|, values)
    ensures Report(PrintForest([b] + rest) + post, values) ==
            PrintForest(Canonical([b] + rest)) + Report(post, true)
  {
    var blocks := [b] + rest;
    var lines := PrintForest(blocks) + post;
    FirstValues(b, rest, post, values);
    assert WellFormedBlock(blocks[0], 0);
    PrintedForestParses(blocks, 0, post);
    hide ParseForest, Canonical, WellFormed, PrintForest, EndsWithColon, ParseDiagnostic;
    ReportForest(lines, values);
    assert lines[|PrintForest(blocks)|..] == post;
  }

  /** Where diagnostics are not canonicalised, lines are printed as they are up to the next
      unindented diagnostic. A colon just before that one is taken for the end of a heading. */
  lemma {:induction false} PlainLines(lines: seq<string>, rest: seq<string>)
    requires lines != [] && forall l | l in lines :: !Unindented(l)
    ensures Report(lines + rest, false) ==
            lines + Report(rest, rest != [] && Unindented(rest[0]) && EndsWithColon(lines[|lines| - 1]))
    decreases |lines|
  {
    hide ParseDiagnostic, LeadingSpaces, EndsWithColon, Report, ParseForest, Canonical, PrintForest;
    var whole := lines + rest;
    assert whole[0] == lines[0];
    if |lines| > 1 {
      assert whole[1..] == lines[1..] + rest;
      assert whole[1] == lines[1] && lines[1] in lines;
      PlainLines(lines[1..], rest);
      ReportLine(whole, false);
      assert lines == [lines[0]] + lines[1..];
    } else {
      assert whole[1..] == rest && lines == [lines[0]];
      if Values(whole, false) && IsDiagnostic(lines[0]) {
        LoneLine(lines[0], rest);
        ReportForest(whole, false);
      } else {
        ReportLine(whole, false);
      }
    }
  }

  lemma LoneLine(line: string, rest: seq<string>)
    requires IsDiagnostic(line) && !Unindented(line) && EndsWithColon(line)
    requires rest != [] && Unindented(rest[0])
    ensures var (blocks, used) := ParseForest([line] + rest, Depth(line));
            PrintForest(Canonical(blocks)) == [line] && used == 1
  {
    hide ParseDiagnostic, LeadingSpaces, CanonicalLine, EndsWithColon, ParseForest;
    var d := Depth(line);
    assert ([line] + rest)[1..] == rest;
    assert ParseItems(rest, d) == ([], 0);
    ParseCons([line] + rest, [], 0, d);
    NoForest(rest, d);
    ColonHeadKept(line);
    assert [Block(line, [])] + [] == [Block(line, [])];
    CanonicalOne(Block(line, []));
  }

  lemma CanonicalOne(b: Block)
    ensures Canonical([b]) == [CanonicalBlock(b)]
    ensures PrintForest(Canonical([b])) == PrintBlock(CanonicalBlock(b))
  {
    hide CanonicalBlock, PrintBlock;
    assert CanonicalEach([b]) == [CanonicalBlock(b)];
    assert Sort([CanonicalBlock(b)], BlockLe) == [CanonicalBlock(b)];
    assert [CanonicalBlock(b)][1..] == [];
  }

  /** A block that does not start canonicalising is printed as it is. */
  lemma KeptReport(b: Block, rest: seq<Block>, post: seq<string>, values: bool)
    requires WellFormed([b] + rest, 0) && Stop(post, 0) && !Starts(b, 1 + |rest|, values)
    ensures Report(PrintForest([b] + rest) + post, values) ==
            PrintBlock(b) + Report(PrintForest(rest) + post, Trails(b) && rest != [])
  {
    FirstValues(b, rest, post, values);
    BlocksAt(b, rest);
    ItemsNotUnindented(b.items, 0);
    PrintItemsFirst(b.items, 0);
    RestStarts(rest, post);
    hide *;
    var below := PrintForest(rest) + post;
    var items := PrintItems(b.items);
    BlockLines(b, below);
    ReportLine(PrintBlock(b) + below, values);
    if items == [] {
      assert items + below == below;
      NoTrail(b, |rest|, values);
    } else {
      PlainLines(items, below);
      Together(b.head, items, Report(below, Trails(b) && rest != []));
    }
  }

  lemma BlockLines(b: Block, below: seq<string>)
    ensures PrintBlock(b) == [b.head] + PrintItems(b.items)
    ensures (PrintBlock(b) + below)[1..] == PrintItems(b.items) + below && (PrintBlock(b) + below)[0] == b.head
    ensures PrintItems(b.items) != [] ==>
              (Trails(b) <==> EndsWithColon(PrintItems(b.items)[|PrintItems(b.items)| - 1]))
  {
    hide PrintItems, EndsWithColon;
  }

  lemma Together(head: string, items: seq<string>, more: seq<string>)
    ensures [head] + (items + more) == [head] + items + more
  {
  }

  lemma RestStarts(rest: seq<Block>, post: seq<string>)
    requires WellFormed(rest, 0) && Stop(post, 0)
    ensures var below := PrintForest(rest) + post;
            below != [] && Unindented(below[0]) <==> rest != []
  {
    hide ParseDiagnostic, LeadingSpaces;
    PrintFirst(rest);
    if rest != [] { assert WellFormedBlock(rest[0], 0); }
  }

  lemma NoTrail(b: Block, more: nat, values: bool)
    requires !Starts(b, 1 + more, values) && b.items == []
    ensures !values || EndsWithColon(b.head)
    ensures !(Trails(b) && more > 0)
  {
    assert PrintBlock(b) == [b.head];
  }

  // ---------- exactly when rearranging siblings leaves no trace ----------

  /** Every arrangement of the siblings gives the same report. */
  ghost predicate OrderInvariant(a: seq<Block>, post: seq<string>) {
    forall b: seq<Block> | multiset(b) == multiset(a) ::
      Report(PrintForest(b) + post, true) == Report(PrintForest(a) + post, true)
  }

  /** Every arrangement is reported in canonical form, with canonicalising on after it. */
  ghost predicate ReportedCanonical(a: seq<Block>, post: seq<string>, values: bool) {
    forall b: seq<Block> | multiset(b) == multiset(a) ::
      Report(PrintForest(b) + post, values) == PrintForest(Canonical(a)) + Report(post, true)
  }

  /** Every block that would not start canonicalising is the one that comes first in canonical
      order, and without it the others are tolerant in turn. */
  predicate Tolerant(a: seq<Block>, post: seq<string>, values: bool)
    decreases |a|
  {
    if a == [] then values || Report(post, false) == Report(post, true)
    else forall i | 0 <= i < |a| && !Starts(a[i], |a|, values) ::
      a[i] == Least(a) && Tolerant(Without(a, i), post, Trails(a[i]) && |a| > 1)
  }

  /** The block that canonical order puts first. */
  function Least(a: seq<Block>): Block
    requires a != []
  {
    CanonicalElements(a);
    Canonical(a)[0]
  }

  function Without(a: seq<Block>, i: nat): (b: seq<Block>)
    requires i < |a|
    ensures |b| == |a| - 1
  {
    a[..i] + a[i + 1..]
  }

  predicate AllAlike(a: seq<Block>) {
    forall i, j | 0 <= i < j < |a| :: a[i] == a[j]
  }

  lemma RearrangedWellFormed(a: seq<Block>, b: seq<Block>, indent: nat)
    requires WellFormed(a, indent) && multiset(a) == multiset(b)
    ensures WellFormed(b, indent) && |a| == |b|
    ensures AllOneLine(PrintForest(a)) ==> AllOneLine(PrintForest(b))
    ensures SimilarForest(a, b)
  {
    hide WellFormedBlock, PrintBlock;
    assert |multiset(a)| == |multiset(b)|;
    WellFormedEach(a, indent);
    OneLineEach(a);
    forall i | 0 <= i < |b|
      ensures WellFormedBlock(b[i], indent)
      ensures AllOneLine(PrintForest(a)) ==> AllOneLine(PrintBlock(b[i]))
    {
      assert b[i] in multiset(b);
      assert b[i] in a;
    }
    WellFormedEach(b, indent);
    OneLineEach(b);
    SimilarToItself(a);
    assert Arranges(a, b, a);
  }

  lemma {:induction false} SimilarToItself(a: seq<Block>)
    ensures SimilarEach(a, a) && SimilarForest(a, a)
    decreases a, 2
  {
    if a != [] {
      SimilarItemsToThemselves(a[0].items);
      SimilarToItself(a[1..]);
    }
    assert Arranges(a, a, a);
  }

  lemma {:induction false} SimilarItemsToThemselves(items: seq<Item>)
    ensures SimilarItems(items, items)
    decreases items, 0
  {
    if items != [] {
      if items[0].Children? { SimilarToItself(items[0].blocks); }
      SimilarItemsToThemselves(items[1..]);
    }
  }

  lemma ColonHeadKept(line: string)
    requires EndsWithColon(line)
    ensures CanonicalLine(line) == line
  {
    hide Properties, ParseDiagnostic;
    if IsDiagnostic(line) { ColonMessageKept(ParseDiagnostic(line).value.message); }
  }

  lemma ColonMessageKept(message: string)
    requires message == "" || EndsWithColon(message)
    ensures Properties(message) == message
  {
    if message == "" {
      EmptyMessage();
    } else {
      hide ParseProperties;
      ColonIsNoList(message);
    }
  }

  lemma EmptyMessage()
    ensures Properties("") == ""
  {
    assert TrimRight("") == "";
  }

  /** What is needed to read a printed forest in front of `post`. */
  ghost predicate Readable(a: seq<Block>, post: seq<string>) {
    WellFormed(a, 0) && AllOneLine(PrintForest(a)) && Stop(post, 0)
  }

  lemma FrontOf(a: seq<Block>, i: nat, post: seq<string>, rest: seq<Block>)
    requires i < |a| && Readable(a, post) && multiset(rest) == multiset(Without(a, i))
    ensures multiset([a[i]] + rest) == multiset(a) && |rest| == |a| - 1
    ensures Readable([a[i]] + rest, post) && Readable(rest, post)
  {
    hide WellFormedBlock, PrintBlock;
    var b := [a[i]] + rest;
    RemoveOne(a, i);
    assert multiset(b) == multiset{a[i]} + multiset(rest);
    RearrangedWellFormed(a, b, 0);
    assert b[1..] == rest;
    OneLineAppend(PrintBlock(b[0]), PrintForest(b[1..]));
  }

  lemma RestOf(a: seq<Block>, b: seq<Block>) returns (i: nat)
    requires multiset(b) == multiset(a) && b != []
    ensures i < |a| && a[i] == b[0] && |a| == |b| && multiset(b[1..]) == multiset(Without(a, i))
  {
    assert |multiset(a)| == |multiset(b)|;
    i := IndexIn(b[0], a, multiset(b));
    RemoveBoth(b, a, i);
  }

  /** Rearranged forests print the same once canonical. */
  lemma CanonicalPrint(a: seq<Block>, b: seq<Block>)
    requires WellFormed(a, 0) && AllOneLine(PrintForest(a)) && multiset(a) == multiset(b)
    ensures PrintForest(Canonical(a)) == PrintForest(Canonical(b))
  {
    RearrangedWellFormed(a, b, 0);
    SimilarForestsAgree(a, b);
    CanonicalOneLine(a);
    CanonicalOneLine(b);
    if a != [] {
      NonemptyForest(a);
      NonemptyForest(b);
      hide Canonical, PrintForest, WellFormed, SimilarForest;
      JoinThenSplit(PrintForest(Canonical(a)));
      JoinThenSplit(PrintForest(Canonical(b)));
    }
  }

  /** The canonical forest is the block it begins with and the canonical form of the others. */
  lemma LeastOff(a: seq<Block>, i: nat)
    requires i < |a| && a[i] == Least(a) && WellFormed(a, 0) && AllOneLine(PrintForest(a))
    ensures PrintForest(Canonical(a)) == PrintBlock(a[i]) + PrintForest(Canonical(Without(a, i)))
  {
    hide *;
    var rest := Without(a, i);
    WithoutOne(a, i);
    CanonicalPrint(a, [a[i]] + rest);
    LeastIsLeast(a, i);
    SortedFront(a[i], rest);
    PrintCons(a[i], Canonical(rest));
  }

  lemma WithoutOne(a: seq<Block>, i: nat)
    requires i < |a|
    ensures multiset([a[i]] + Without(a, i)) == multiset(a)
    ensures forall b | b in Without(a, i) :: b in a
  {
    RemoveOne(a, i);
    assert multiset([a[i]] + Without(a, i)) == multiset{a[i]} + multiset(Without(a, i));
  }

  lemma SortedFront(b: Block, rest: seq<Block>)
    requires CanonicalBlock(b) == b && forall c | c in rest :: BlockLe(b, CanonicalBlock(c))
    ensures Canonical([b] + rest) == [b] + Canonical(rest)
  {
    hide BlockLe, CanonicalBlock;
    assert ([b] + rest)[1..] == rest;
    var each := CanonicalEach([b] + rest);
    assert each[0] == b && each[1..] == CanonicalEach(rest);
    var more := Canonical(rest);
    if more != [] {
      CanonicalElements(rest);
      assert more[0] in more;
      var k :| 0 <= k < |rest| && more[0] == CanonicalBlock(rest[k]);
      assert rest[k] in rest;
    }
  }

  lemma PrintCons(b: Block, more: seq<Block>)
    ensures PrintForest([b] + more) == PrintBlock(b) + PrintForest(more)
  {
    assert ([b] + more)[1..] == more;
  }

  lemma LeastIsLeast(a: seq<Block>, i: nat)
    requires i < |a| && a[i] == Least(a)
    ensures CanonicalBlock(a[i]) == a[i]
    ensures forall b | b in a :: BlockLe(a[i], CanonicalBlock(b))
  {
    hide BlockLe, CanonicalBlock, Canonical;
    CanonicalElements(a);
    CanonicalIsCanonical(a);
    BlockOrder();
    forall b | b in a ensures BlockLe(a[i], CanonicalBlock(b)) {
      var m :| 0 <= m < |a| && a[m] == b;
      var j := SortedPlace(a, m);
      assert j > 0 ==> BlockLe(Canonical(a)[0], Canonical(a)[j]);
    }
  }

  lemma SortedPlace(a: seq<Block>, k: nat) returns (j: nat)
    requires k < |a|
    ensures j < |Canonical(a)| && Canonical(a)[j] == CanonicalBlock(a[k])
    ensures SortedBy(Canonical(a), BlockLe)
  {
    hide BlockLe, CanonicalBlock, Sort;
    BlockOrder();
    SortSpec(CanonicalEach(a), BlockLe);
    var sorted := Canonical(a);
    assert CanonicalEach(a)[k] == CanonicalBlock(a[k]);
    assert CanonicalBlock(a[k]) in multiset(CanonicalEach(a));
    assert CanonicalBlock(a[k]) in multiset(sorted);
    j :| 0 <= j < |sorted| && sorted[j] == CanonicalBlock(a[k]);
  }

  /** A block in front can be told from what is printed. */
  lemma SameFirstBlock(x: Block, s: seq<string>, y: Block, t: seq<string>)
    requires WellFormedBlock(x, 0) && WellFormedBlock(y, 0) && ItemsEnd(s, 0) && ItemsEnd(t, 0)
    requires PrintBlock(x) + s == PrintBlock(y) + t
    ensures x == y
  {
    hide ParseItems, PrintItems, WellFormedItems, ItemsEnd, At;
    PrintedItemsParse(x.items, 0, s);
    PrintedItemsParse(y.items, 0, t);
    var lines := PrintBlock(x) + s;
    assert lines[0] == x.head == y.head;
    assert lines[1..] == PrintItems(x.items) + s;
    assert lines[1..] == PrintItems(y.items) + t;
  }

  /** Nothing in the report of a forest continues the block printed before it. */
  lemma ReportEnds(rest: seq<Block>, post: seq<string>, values: bool)
    requires WellFormed(rest, 0) && Stop(post, 0)
    ensures ItemsEnd(Report(PrintForest(rest) + post, values), 0)
    ensures ItemsEnd(PrintForest(rest) + Report(post, values), 0)
  {
    hide Report, PrintForest, ItemsEnd, ParseDiagnostic, LeadingSpaces;
    RestEnds(rest, post);
    EndsAlike(PrintForest(rest) + post, values);
    PrintFirst(rest);
    if rest == [] {
      assert PrintForest(rest) + post == post;
      assert PrintForest(rest) + Report(post, values) == Report(post, values);
    } else {
      EndsAtHead(PrintForest(rest), post, Report(post, values));
    }
  }

  lemma RestEnds(rest: seq<Block>, post: seq<string>)
    requires WellFormed(rest, 0) && Stop(post, 0)
    ensures ItemsEnd(PrintForest(rest) + post, 0)
  {
    hide ParseDiagnostic, LeadingSpaces;
    PrintFirst(rest);
    if rest != [] { assert WellFormedBlock(rest[0], 0); }
  }

  lemma EndsAlike(lines: seq<string>, values: bool)
    requires ItemsEnd(lines, 0)
    ensures ItemsEnd(Report(lines, values), 0)
  {
    hide Report, ParseDiagnostic, LeadingSpaces;
    ReportFirst(lines, values);
  }

  lemma EndsAtHead(lines: seq<string>, s: seq<string>, t: seq<string>)
    requires lines != [] && ItemsEnd(lines + s, 0)
    ensures ItemsEnd(lines + t, 0)
  {
    hide ParseDiagnostic, LeadingSpaces;
    assert (lines + s)[0] == lines[0] == (lines + t)[0];
  }

  lemma FirstPrinted(a: seq<Block>, i: nat, post: seq<string>, values: bool)
    requires i < |a| && Readable(a, post) && !Starts(a[i], |a|, values)
    requires Report(PrintForest([a[i]] + Without(a, i)) + post, values) == PrintForest(Canonical(a)) + Report(post, true)
    ensures a[i] == Least(a)
  {
    hide *;
    var rest := Without(a, i);
    FrontOf(a, i, post, rest);
    ReadableParts([a[i]] + rest, post);
    ReadableParts(a, post);
    KeptReport(a[i], rest, post, values);
    ReportEnds(rest, post, Trails(a[i]) && rest != []);
    LeastPrinted(a, post);
    ReportEnds(Canonical(a)[1..], post, true);
    SameFirstBlock(a[i], Report(PrintForest(rest) + post, Trails(a[i]) && rest != []),
                   Least(a), PrintForest(Canonical(a)[1..]) + Report(post, true));
  }

  lemma ReadableParts(a: seq<Block>, post: seq<string>)
    requires Readable(a, post)
    ensures WellFormed(a, 0) && AllOneLine(PrintForest(a)) && Stop(post, 0)
    ensures a != [] ==> WellFormedBlock(a[0], 0) && WellFormed(a[1..], 0)
  {
  }

  lemma LeastPrinted(a: seq<Block>, post: seq<string>)
    requires a != [] && WellFormed(a, 0)
    ensures |Canonical(a)| > 0 && WellFormedBlock(Least(a), 0) && WellFormed(Canonical(a)[1..], 0)
    ensures PrintForest(Canonical(a)) + Report(post, true) ==
            PrintBlock(Least(a)) + (PrintForest(Canonical(a)[1..]) + Report(post, true))
  {
    hide *;
    CanonicalWellFormed(a, 0);
    LeastHead(a);
    var sorted := Canonical(a);
    assert sorted == [sorted[0]] + sorted[1..];
    BlocksAt(sorted[0], sorted[1..]);
    PrintCons(sorted[0], sorted[1..]);
  }

  lemma LeastHead(a: seq<Block>)
    requires a != []
    ensures |Canonical(a)| > 0 && Least(a) == Canonical(a)[0]
  {
    hide Canonical;
    CanonicalElements(a);
  }

  /** One step of `TolerantIff`: what putting one block first asks of the others. */
  lemma {:induction false} KeptFirstIff(a: seq<Block>, i: nat, post: seq<string>, values: bool)
    requires i < |a| && Readable(a, post) && !Starts(a[i], |a|, values) && a[i] == Least(a)
    ensures ReportedCanonical(Without(a, i), post, Trails(a[i]) && |a| > 1) <==>
            forall c: seq<Block> | multiset(c) == multiset(Without(a, i)) ::
              Report(PrintForest([a[i]] + c) + post, values) == PrintForest(Canonical(a)) + Report(post, true)
  {
    var rest := Without(a, i);
    var w := Trails(a[i]) && |a| > 1;
    hide Canonical, PrintForest, PrintBlock, Report, Starts, Trails, Readable, Least, Without;
    forall c: seq<Block> | multiset(c) == multiset(rest)
      ensures Report(PrintForest(c) + post, w) == PrintForest(Canonical(rest)) + Report(post, true) <==>
              Report(PrintForest([a[i]] + c) + post, values) == PrintForest(Canonical(a)) + Report(post, true)
    {
      KeptFirst(a, i, c, post, values);
    }
  }

  lemma KeptFirst(a: seq<Block>, i: nat, c: seq<Block>, post: seq<string>, values: bool)
    requires i < |a| && Readable(a, post) && !Starts(a[i], |a|, values) && a[i] == Least(a)
    requires multiset(c) == multiset(Without(a, i))
    ensures Report(PrintForest(c) + post, Trails(a[i]) && |a| > 1) == PrintForest(Canonical(Without(a, i))) + Report(post, true) <==>
            Report(PrintForest([a[i]] + c) + post, values) == PrintForest(Canonical(a)) + Report(post, true)
  {
    hide *;
    ReadableParts(a, post);
    LeastOff(a, i);
    FrontOf(a, i, post, c);
    ReadableParts([a[i]] + c, post);
    KeptReport(a[i], c, post, values);
    var p, x, y := PrintBlock(a[i]), PrintForest(Canonical(Without(a, i))), Report(post, true);
    assert p + x + y == p + (x + y);
    SamePrefix(p, Report(PrintForest(c) + post, Trails(a[i]) && |a| > 1), x + y);
  }

  lemma SamePrefix(p: seq<string>, x: seq<string>, y: seq<string>)
    ensures p + x == p + y <==> x == y
  {
    assert (p + x)[|p|..] == x && (p + y)[|p|..] == y;
  }

  lemma {:induction false} TolerantIff(a: seq<Block>, post: seq<string>, values: bool)
    requires Readable(a, post)
    ensures Tolerant(a, post, values) <==> ReportedCanonical(a, post, values)
    decreases |a|
  {
    hide Canonical, PrintForest, Report, Starts, Trails, Readable, Least, Without;
    if a == [] {
      NothingReported(post, values);
    } else {
      forall i | 0 <= i < |a| && !Starts(a[i], |a|, values)
        ensures ReportedCanonical(a, post, values) ==> a[i] == Least(a)
        ensures a[i] == Least(a) ==>
                  (Tolerant(Without(a, i), post, Trails(a[i]) && |a| > 1) <==> FrontReported(a, i, post, values))
      {
        FrontOf(a, i, post, Without(a, i));
        TolerantIff(Without(a, i), post, Trails(a[i]) && |a| > 1);
        if ReportedCanonical(a, post, values) { FirstPrinted(a, i, post, values); }
        if a[i] == Least(a) { KeptFirstIff(a, i, post, values); }
      }
      FrontsReported(a, post, values);
    }
  }

  /** Every arrangement with this block first is reported in canonical form. */
  ghost predicate FrontReported(a: seq<Block>, i: nat, post: seq<string>, values: bool)
    requires i < |a|
  {
    forall c: seq<Block> | multiset(c) == multiset(Without(a, i)) ::
      Report(PrintForest([a[i]] + c) + post, values) == PrintForest(Canonical(a)) + Report(post, true)
  }

  lemma FrontsReported(a: seq<Block>, post: seq<string>, values: bool)
    requires a != [] && Readable(a, post)
    ensures ReportedCanonical(a, post, values) <==>
            forall i | 0 <= i < |a| && !Starts(a[i], |a|, values) :: FrontReported(a, i, post, values)
  {
    hide Canonical, PrintForest, Report, Starts, Readable, Without;
    if ReportedCanonical(a, post, values) {
      forall i, c: seq<Block> | 0 <= i < |a| && multiset(c) == multiset(Without(a, i))
        ensures Report(PrintForest([a[i]] + c) + post, values) == PrintForest(Canonical(a)) + Report(post, true)
      {
        FrontOf(a, i, post, c);
      }
    }
    if forall i | 0 <= i < |a| && !Starts(a[i], |a|, values) :: FrontReported(a, i, post, values) {
      forall b: seq<Block> | multiset(b) == multiset(a)
        ensures Report(PrintForest(b) + post, values) == PrintForest(Canonical(a)) + Report(post, true)
      {
        assert |multiset(a)| == |multiset(b)|;
        var i := RestOf(a, b);
        assert b == [a[i]] + b[1..];
        if Starts(a[i], |a|, values) {
          FrontOf(a, i, post, b[1..]);
          StartedFront(a[i], b[1..], post, values);
          CanonicalPrintOf(a, b, post);
        } else {
          assert FrontReported(a, i, post, values);
        }
      }
    }
  }

  lemma StartedFront(b: Block, rest: seq<Block>, post: seq<string>, values: bool)
    requires Readable([b] + rest, post) && Starts(b, 1 + |rest|, values)
    ensures Report(PrintForest([b] + rest) + post, values) ==
            PrintForest(Canonical([b] + rest)) + Report(post, true)
  {
    hide Report, Canonical, PrintForest;
    StartedReport(b, rest, post, values);
  }

  lemma CanonicalPrintOf(a: seq<Block>, b: seq<Block>, post: seq<string>)
    requires Readable(a, post) && multiset(a) == multiset(b)
    ensures PrintForest(Canonical(a)) == PrintForest(Canonical(b))
  {
    CanonicalPrint(a, b);
  }

  lemma NothingReported(post: seq<string>, values: bool)
    ensures Tolerant([], post, values) <==> ReportedCanonical([], post, values)
  {
    hide Report;
    assert Canonical([]) == [] && PrintForest([]) == [];
    assert [] + post == post && [] + Report(post, true) == Report(post, true);
    forall b: seq<Block> | multiset(b) == multiset([])
      ensures Report(PrintForest(b) + post, values) == Report(post, values)
    {
      assert |multiset(b)| == |b|;
    }
  }

  /** The order of the diagnostics at the start of a chart's values leaves no trace exactly when
      they are all alike, or each of them that would be taken for a heading is the first in
      canonical order and the others tolerate that it is printed as it is. */
  lemma OrderInvariantIff(a: seq<Block>, post: seq<string>)
    requires WellFormed(a, 0) && Stop(post, 0) && AllOneLine(PrintForest(a))
    ensures OrderInvariant(a, post) <==> AllAlike(a) || Tolerant(a, post, true)
  {
    hide Canonical, PrintForest, Report, Trails, WellFormed, AllOneLine, Stop, Least, Without, EndsWithColon, Tolerant;
    assert Readable(a, post);
    TolerantIff(a, post, true);
    if AllAlike(a) {
      forall b: seq<Block> | multiset(b) == multiset(a)
        ensures Report(PrintForest(b) + post, true) == Report(PrintForest(a) + post, true)
      {
        AlikeArranged(a, b);
      }
    } else if i :| 0 <= i < |a| && Starts(a[i], |a|, true) {
      var b := [a[i]] + Without(a, i);
      FrontOf(a, i, post, Without(a, i));
      StartedFront(a[i], Without(a, i), post, true);
      CanonicalPrintOf(a, b, post);
    } else {
      var i, j :| 0 <= i < j < |a| && a[i] != a[j];
      KeptApart(a, i, j, post);
      if Tolerant(a, post, true) {
        TolerantFirst(a, i, post);
        TolerantFirst(a, j, post);
      }
    }
  }

  lemma TolerantFirst(a: seq<Block>, i: nat, post: seq<string>)
    requires i < |a| && Tolerant(a, post, true) && !Starts(a[i], |a|, true)
    ensures a[i] == Least(a)
  {
    hide Least, Starts, Report;
  }

  lemma AlikeArranged(a: seq<Block>, b: seq<Block>)
    requires AllAlike(a) && multiset(b) == multiset(a)
    ensures b == a
  {
    assert |multiset(a)| == |multiset(b)|;
    forall i | 0 <= i < |b| ensures b[i] == a[i] {
      assert b[i] in multiset(a);
      var k :| 0 <= k < |a| && a[k] == b[i];
      assert k < i || i < k || k == i;
    }
  }

  /** Two blocks that are printed as they are cannot both come first unseen. */
  lemma KeptApart(a: seq<Block>, i: nat, j: nat, post: seq<string>)
    requires i < |a| && j < |a| && a[i] != a[j] && Readable(a, post)
    requires !Starts(a[i], |a|, true) && !Starts(a[j], |a|, true)
    ensures !OrderInvariant(a, post)
  {
    hide Canonical, PrintForest, PrintBlock, Report, Starts, Trails, ItemsEnd, WellFormedBlock;
    var u, v := [a[i]] + Without(a, i), [a[j]] + Without(a, j);
    FrontOf(a, i, post, Without(a, i));
    FrontOf(a, j, post, Without(a, j));
    KeptReport(a[i], Without(a, i), post, true);
    KeptReport(a[j], Without(a, j), post, true);
    var p, q := Trails(a[i]) && Without(a, i) != [], Trails(a[j]) && Without(a, j) != [];
    ReportEnds(Without(a, i), post, p);
    ReportEnds(Without(a, j), post, q);
    assert WellFormedBlock(u[0], 0) && WellFormedBlock(v[0], 0);
    if OrderInvariant(a, post) {
      assert Report(PrintForest(u) + post, true) == Report(PrintForest(v) + post, true);
      SameFirstBlock(a[i], Report(PrintForest(Without(a, i)) + post, p), a[j], Report(PrintForest(Without(a, j)) + post, q));
    }
  }

  /** Where no head ends with a colon above lines of its own, order never shows. */
  lemma UnexposedInvariant(a: seq<Block>, post: seq<string>)
    requires WellFormed(a, 0) && Stop(post, 0) && AllOneLine(PrintForest(a))
    requires forall i | 0 <= i < |a| :: !Exposed(a[i])
    ensures OrderInvariant(a, post)
  {
    hide Report, WellFormed, AllOneLine, EndsWithColon, Least;
    OrderInvariantIff(a, post);
  }
}
