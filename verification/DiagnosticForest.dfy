/** The indentation parser, sorter and printer of pkg/helm/schema_error.go, 83-118.

    The source parses lines and prints sorted text in one recursion. Here the same lines are read
    into a forest of diagnostic blocks, the forest is sorted, and the sorted forest is printed;
    method `SchemaForest` is the source's loop, proved to compute that composition. */
module DiagnosticForest {
  import opened Ordering
  import opened Text
  import opened SchemaLine

  /** What a block holds below its head: an opaque continuation line, or a deeper forest. */
  datatype Item = Opaque(line: string) | Children(depth: nat, blocks: seq<Block>)
  datatype Block = Block(head: string, items: seq<Item>)

  predicate IsDiagnostic(line: string) {
    ParseDiagnostic(line).Some?
  }

  predicate At(line: string, indent: nat) {
    IsDiagnostic(line) && ParseDiagnostic(line).value.indent == indent
  }

  function Depth(line: string): nat
    requires IsDiagnostic(line)
  {
    ParseDiagnostic(line).value.indent
  }

  // ---------- parsing ----------

  function ParseForest(lines: seq<string>, indent: nat): (r: (seq<Block>, nat))
    ensures r.1 <= |lines|
    ensures lines != [] && At(lines[0], indent) ==> r.0 != [] && r.1 > 0
    decreases |lines|, 0
  {
    if lines == [] || !At(lines[0], indent) then ([], 0)
    else
      var (items, k) := ParseItems(lines[1..], indent);
      var (more, m) := ParseForest(lines[1 + k..], indent);
      ([Block(lines[0], items)] + more, 1 + k + m)
  }

  function ParseItems(lines: seq<string>, indent: nat): (r: (seq<Item>, nat))
    ensures r.1 <= |lines|
    decreases |lines|, 1
  {
    if lines == [] then ([], 0)
    else if IsDiagnostic(lines[0]) then
      if Depth(lines[0]) <= indent then ([], 0)
      else
        var (blocks, k) := ParseForest(lines, Depth(lines[0]));
        var (more, m) := ParseItems(lines[k..], indent);
        ([Children(Depth(lines[0]), blocks)] + more, k + m)
    else if LeadingSpaces(lines[0]) > indent then
      var (more, m) := ParseItems(lines[1..], indent);
      ([Opaque(lines[0])] + more, 1 + m)
    else ([], 0)
  }

  // ---------- printing ----------

  function PrintForest(blocks: seq<Block>): seq<string>
    decreases blocks, 0
  {
    if blocks == [] then [] else PrintBlock(blocks[0]) + PrintForest(blocks[1..])
  }

  function PrintBlock(b: Block): (lines: seq<string>)
    ensures lines != [] && lines[0] == b.head
    decreases b, 1
  {
    [b.head] + PrintItems(b.items)
  }

  function PrintItems(items: seq<Item>): seq<string>
    decreases items, 0
  {
    if items == [] then [] else PrintItem(items[0]) + PrintItems(items[1..])
  }

  function PrintItem(item: Item): seq<string>
    decreases item, 1
  {
    match item
    case Opaque(line) => [line]
    case Children(_, blocks) => PrintForest(blocks)
  }

  function BlockText(b: Block): string {
    Join(PrintBlock(b), "\n")
  }

  function ForestText(blocks: seq<Block>): string {
    Join(PrintForest(blocks), "\n")
  }

  // ---------- the canonical forest ----------

  predicate BlockLe(a: Block, b: Block) {
    LexLe(BlockText(a), BlockText(b))
  }

  function Canonical(blocks: seq<Block>): seq<Block>
    decreases blocks, 2
  {
    Sort(CanonicalEach(blocks), BlockLe)
  }

  function CanonicalEach(blocks: seq<Block>): (r: seq<Block>)
    ensures |r| == |blocks|
    ensures forall i | 0 <= i < |blocks| :: r[i] == CanonicalBlock(blocks[i])
    decreases blocks, 0
  {
    if blocks == [] then [] else [CanonicalBlock(blocks[0])] + CanonicalEach(blocks[1..])
  }

  function CanonicalBlock(b: Block): Block
    decreases b, 1
  {
    Block(CanonicalLine(b.head), CanonicalItems(b.items))
  }

  function CanonicalItems(items: seq<Item>): (r: seq<Item>)
    ensures |r| == |items|
    decreases items, 0
  {
    if items == [] then [] else [CanonicalItem(items[0])] + CanonicalItems(items[1..])
  }

  function CanonicalItem(item: Item): Item
    decreases item, 3
  {
    match item
    case Opaque(_) => item
    case Children(depth, blocks) => Children(depth, Canonical(blocks))
  }

  // ---------- well-formed forests: those a parse can produce ----------

  /** `line` cannot be read as part of a forest at depth `d`. */
  predicate StopsForest(line: string, d: nat) {
    if IsDiagnostic(line) then Depth(line) < d else LeadingSpaces(line) <= d
  }

  predicate Stop(rest: seq<string>, d: nat) {
    rest == [] || StopsForest(rest[0], d)
  }

  /** `rest` cannot continue the items of a block at depth `indent`. */
  predicate ItemsEnd(rest: seq<string>, indent: nat) {
    rest == [] || (if IsDiagnostic(rest[0]) then Depth(rest[0]) <= indent else LeadingSpaces(rest[0]) <= indent)
  }

  predicate WellFormed(blocks: seq<Block>, indent: nat)
    decreases blocks, 0
  {
    blocks == [] || (WellFormedBlock(blocks[0], indent) && WellFormed(blocks[1..], indent))
  }

  predicate WellFormedBlock(b: Block, indent: nat)
    decreases b, 1
  {
    At(b.head, indent) && WellFormedItems(b.items, indent)
  }

  predicate WellFormedItems(items: seq<Item>, indent: nat)
    decreases items, 0
  {
    items == [] ||
    (WellFormedItem(items[0], indent) && WellFormedItems(items[1..], indent) &&
     (items[0].Children? ==> Stop(PrintItems(items[1..]), items[0].depth)))
  }

  predicate WellFormedItem(item: Item, indent: nat)
    decreases item, 1
  {
    match item
    case Opaque(line) => !IsDiagnostic(line) && LeadingSpaces(line) > indent
    case Children(depth, blocks) => depth > indent && blocks != [] && WellFormed(blocks, depth)
  }

  // ---------- parse and print are inverse ----------

  lemma {:induction false} ParsedForestPrints(lines: seq<string>, indent: nat)
    requires ItemsEnd(lines, indent)
    ensures PrintForest(ParseForest(lines, indent).0) == lines[..ParseForest(lines, indent).1]
    ensures WellFormed(ParseForest(lines, indent).0, indent)
    ensures Stop(lines[ParseForest(lines, indent).1..], indent)
    decreases |lines|, 0
  {
    hide ParseForest, ParseItems, PrintForest, WellFormed, PrintItems, WellFormedItems, ParseDiagnostic, LeadingSpaces;
    if lines == [] || !At(lines[0], indent) {
      NoForest(lines, indent);
      EmptyForest(indent);
    } else {
      hide At, IsDiagnostic, Depth;
      var (items, k) := ParseItems(lines[1..], indent);
      ParsedItemsPrint(lines[1..], indent);
      ParseCons(lines, items, k, indent);
      assert lines[1..][k..] == lines[1 + k..];
      ParsedForestPrints(lines[1 + k..], indent);
      var (more, m) := ParseForest(lines[1 + k..], indent);
      assert lines[1 + k..][m..] == lines[1 + k + m..];
      assert lines[..1 + k + m] == [lines[0]] + lines[1..][..k] + lines[1 + k..][..m];
      ConsBlock(Block(lines[0], items), more, indent);
    }
  }

  lemma EmptyForest(indent: nat)
    ensures PrintForest([]) == [] && WellFormed([], indent)
  {
  }

  lemma ConsBlock(b: Block, more: seq<Block>, indent: nat)
    ensures PrintForest([b] + more) == [b.head] + PrintItems(b.items) + PrintForest(more)
    ensures WellFormed([b] + more, indent) <==>
              At(b.head, indent) && WellFormedItems(b.items, indent) && WellFormed(more, indent)
  {
    assert ([b] + more)[1..] == more;
  }

  lemma {:induction false} ParsedItemsPrint(lines: seq<string>, indent: nat)
    ensures PrintItems(ParseItems(lines, indent).0) == lines[..ParseItems(lines, indent).1]
    ensures WellFormedItems(ParseItems(lines, indent).0, indent)
    ensures ItemsEnd(lines[ParseItems(lines, indent).1..], indent)
    decreases |lines|, 1
  {
    hide ParseForest, PrintItems, WellFormedItems, ParseDiagnostic, LeadingSpaces, WellFormed, PrintForest;
    if lines == [] {
      NoItems(indent);
    } else if IsDiagnostic(lines[0]) {
      var d := Depth(lines[0]);
      if d <= indent {
        NoItems(indent);
      } else {
        var (blocks, k) := ParseForest(lines, d);
        ParsedForestPrints(lines, d);
        var (more, m) := ParseItems(lines[k..], indent);
        ParsedItemsPrint(lines[k..], indent);
        hide ParseItems, At, IsDiagnostic, Depth;
        assert lines[k..][m..] == lines[k + m..];
        assert lines[..k + m] == lines[..k] + lines[k..][..m];
        assert PrintItems(more) != [] ==> PrintItems(more)[0] == lines[k..][0];
        ConsItem(Children(d, blocks), more, indent);
      }
    } else if LeadingSpaces(lines[0]) > indent {
      var (more, m) := ParseItems(lines[1..], indent);
      ParsedItemsPrint(lines[1..], indent);
      assert lines[1..][m..] == lines[1 + m..];
      assert lines[..1 + m] == [lines[0]] + lines[1..][..m];
      ConsItem(Opaque(lines[0]), more, indent);
    } else {
      NoItems(indent);
    }
  }

  lemma NoItems(indent: nat)
    ensures PrintItems([]) == [] && WellFormedItems([], indent)
  {
  }

  lemma ConsItem(item: Item, more: seq<Item>, indent: nat)
    ensures PrintItems([item] + more) == PrintItem(item) + PrintItems(more)
    ensures WellFormedItems([item] + more, indent) <==>
              WellFormedItem(item, indent) && WellFormedItems(more, indent) &&
              (item.Children? ==> Stop(PrintItems(more), item.depth))
  {
    assert ([item] + more)[1..] == more;
  }

  lemma {:induction false} PrintFirst(blocks: seq<Block>)
    ensures PrintForest(blocks) == [] <==> blocks == []
    ensures blocks != [] ==> PrintForest(blocks)[0] == blocks[0].head
  {
  }

  lemma PrintItemsFirst(items: seq<Item>, indent: nat)
    requires WellFormedItems(items, indent)
    ensures PrintItems(items) == [] <==> items == []
    ensures items != [] && items[0].Opaque? ==> PrintItems(items)[0] == items[0].line
    ensures items != [] && items[0].Children? ==>
              items[0].blocks != [] && PrintItems(items)[0] == items[0].blocks[0].head
  {
    hide ParseDiagnostic, LeadingSpaces;
    if items != [] && items[0].Children? {
      assert WellFormedItem(items[0], indent);
      PrintFirst(items[0].blocks);
    }
  }

  /** A well-formed forest is parsed back from its print, whatever stops it. */
  lemma {:induction false} PrintedForestParses(blocks: seq<Block>, indent: nat, rest: seq<string>)
    requires WellFormed(blocks, indent) && Stop(rest, indent)
    ensures ParseForest(PrintForest(blocks) + rest, indent) == (blocks, |PrintForest(blocks)|)
    decreases blocks, 0
  {
    hide ParseDiagnostic, LeadingSpaces, ParseItems, PrintItems, WellFormedItems;
    var lines := PrintForest(blocks) + rest;
    if blocks == [] {
      assert lines == rest;
    } else {
      var b := blocks[0];
      var below := PrintForest(blocks[1..]) + rest;
      var items := PrintItems(b.items);
      assert [b] + blocks[1..] == blocks;
      ConsBlock(b, blocks[1..], indent);
      assert lines == [b.head] + (items + below);
      assert ItemsEnd(below, indent) by {
        PrintFirst(blocks[1..]);
        assert blocks[1..] != [] ==> WellFormedBlock(blocks[1], indent);
      }
      PrintedItemsParse(b.items, indent, below);
      PrintedForestParses(blocks[1..], indent, rest);
      assert lines[1..] == items + below;
      assert lines[1 + |items|..] == below;
      ParseCons(lines, b.items, |items|, indent);
    }
  }

  lemma ParseCons(lines: seq<string>, items: seq<Item>, k: nat, indent: nat)
    requires lines != [] && At(lines[0], indent) && k < |lines|
    requires ParseItems(lines[1..], indent) == (items, k)
    ensures ParseForest(lines, indent) ==
            ([Block(lines[0], items)] + ParseForest(lines[1 + k..], indent).0,
             1 + k + ParseForest(lines[1 + k..], indent).1)
  {
    hide ParseDiagnostic, LeadingSpaces, ParseItems, Depth, At, IsDiagnostic;
    assert lines[1 + k..] == lines[1 + ParseItems(lines[1..], indent).1..];
  }

  lemma {:induction false} PrintedItemsParse(items: seq<Item>, indent: nat, rest: seq<string>)
    requires WellFormedItems(items, indent) && ItemsEnd(rest, indent)
    ensures ParseItems(PrintItems(items) + rest, indent) == (items, |PrintItems(items)|)
    decreases items, 0
  {
    hide ParseDiagnostic, LeadingSpaces, ParseForest, PrintForest;
    var lines := PrintItems(items) + rest;
    PrintItemsFirst(items, indent);
    if items == [] {
      assert lines == rest;
    } else {
      var below := PrintItems(items[1..]) + rest;
      assert lines == PrintItem(items[0]) + below;
      PrintItemsFirst(items[1..], indent);
      PrintedItemsParse(items[1..], indent, rest);
      assert [items[0]] + items[1..] == items;
      match items[0]
      case Opaque(line) =>
        assert lines[1..] == below;
      case Children(depth, blocks) =>
        assert PrintItem(items[0]) == PrintForest(blocks);
        PrintFirst(blocks);
        assert WellFormedItem(items[0], indent);
        assert WellFormed(blocks, depth);
        assert WellFormedBlock(blocks[0], depth);
        assert Stop(below, depth);
        PrintedForestParses(blocks, depth, below);
        assert lines[|PrintForest(blocks)|..] == below;
    }
  }

  // ---------- the canonical forest is canonical ----------

  lemma BlockOrder()
    ensures TotalPreorder(BlockLe)
  {
    hide BlockText;
    LexIsTotalOrder();
  }

  /** Each block is canonical and the blocks are in the order of their texts. */
  ghost predicate IsCanonical(blocks: seq<Block>) {
    && (forall i | 0 <= i < |blocks| :: CanonicalBlock(blocks[i]) == blocks[i])
    && SortedBy(blocks, BlockLe)
  }

  lemma CanonicalFixed(blocks: seq<Block>)
    requires IsCanonical(blocks)
    ensures Canonical(blocks) == blocks
  {
    assert CanonicalEach(blocks) == blocks;
    SortOfSorted(blocks, BlockLe);
  }

  lemma CanonicalElements(blocks: seq<Block>)
    ensures SortedBy(Canonical(blocks), BlockLe)
    ensures |Canonical(blocks)| == |blocks|
    ensures forall b | b in Canonical(blocks) :: exists i :: 0 <= i < |blocks| && b == CanonicalBlock(blocks[i])
  {
    BlockOrder();
    var each := CanonicalEach(blocks);
    SortSpec(each, BlockLe);
    forall b | b in Canonical(blocks)
      ensures exists i :: 0 <= i < |blocks| && b == CanonicalBlock(blocks[i])
    {
      assert b in multiset(Canonical(blocks));
      assert b in each;
      var i :| 0 <= i < |each| && each[i] == b;
      assert b == CanonicalBlock(blocks[i]);
    }
  }

  lemma {:induction false} CanonicalIsCanonical(blocks: seq<Block>)
    ensures IsCanonical(Canonical(blocks))
    decreases blocks, 2
  {
    CanonicalElements(blocks);
    var sorted := Canonical(blocks);
    forall k | 0 <= k < |sorted| ensures CanonicalBlock(sorted[k]) == sorted[k] {
      assert sorted[k] in Canonical(blocks);
      var i :| 0 <= i < |blocks| && sorted[k] == CanonicalBlock(blocks[i]);
      CanonicalBlockSettled(blocks[i]);
    }
  }

  lemma {:induction false} CanonicalBlockSettled(b: Block)
    ensures CanonicalBlock(CanonicalBlock(b)) == CanonicalBlock(b)
    decreases b, 1
  {
    CanonicalLineSettled(b.head);
    CanonicalItemsSettled(b.items);
  }

  lemma {:induction false} CanonicalItemsSettled(items: seq<Item>)
    ensures CanonicalItems(CanonicalItems(items)) == CanonicalItems(items)
    decreases items, 0
  {
    if items != [] {
      CanonicalItemsSettled(items[1..]);
      if items[0].Children? {
        CanonicalIsCanonical(items[0].blocks);
        CanonicalFixed(Canonical(items[0].blocks));
      }
    }
  }

  // ---------- the canonical forest is well formed ----------

  lemma {:induction false} WellFormedEach(blocks: seq<Block>, indent: nat)
    ensures WellFormed(blocks, indent) <==>
              forall i | 0 <= i < |blocks| :: WellFormedBlock(blocks[i], indent)
  {
    hide WellFormedBlock;
    if blocks != [] {
      WellFormedEach(blocks[1..], indent);
      assert blocks == [blocks[0]] + blocks[1..];
    }
  }

  lemma {:induction false} CanonicalWellFormed(blocks: seq<Block>, indent: nat)
    requires WellFormed(blocks, indent)
    ensures WellFormed(Canonical(blocks), indent)
    decreases blocks, 2
  {
    CanonicalElements(blocks);
    WellFormedEach(blocks, indent);
    var sorted := Canonical(blocks);
    forall k | 0 <= k < |sorted| ensures WellFormedBlock(sorted[k], indent) {
      assert sorted[k] in Canonical(blocks);
      var i :| 0 <= i < |blocks| && sorted[k] == CanonicalBlock(blocks[i]);
      CanonicalBlockWellFormed(blocks[i], indent);
    }
    WellFormedEach(sorted, indent);
  }

  lemma {:induction false} CanonicalBlockWellFormed(b: Block, indent: nat)
    requires WellFormedBlock(b, indent)
    ensures WellFormedBlock(CanonicalBlock(b), indent)
    decreases b, 1
  {
    CanonicalLineSettled(b.head);
    CanonicalItemsWellFormed(b.items, indent);
  }

  lemma {:induction false} CanonicalItemsWellFormed(items: seq<Item>, indent: nat)
    requires WellFormedItems(items, indent)
    ensures WellFormedItems(CanonicalItems(items), indent)
    ensures forall d :: Stop(PrintItems(items), d) ==> Stop(PrintItems(CanonicalItems(items)), d)
    decreases items, 0
  {
    hide ParseDiagnostic, LeadingSpaces, CanonicalLine, Sort;
    if items != [] {
      var rest := items[1..];
      CanonicalItemsWellFormed(rest, indent);
      PrintItemsFirst(items, indent);
      assert WellFormedItem(items[0], indent);
      if items[0].Children? {
        CanonicalWellFormed(items[0].blocks, items[0].depth);
        CanonicalElements(items[0].blocks);
        assert WellFormed(items[0].blocks, items[0].depth);
      }
      ConsItem(CanonicalItem(items[0]), CanonicalItems(rest), indent);
      PrintItemsFirst(CanonicalItems(items), indent);
      if items[0].Children? {
        var d := items[0].depth;
        WellFormedEach(items[0].blocks, d);
        WellFormedEach(Canonical(items[0].blocks), d);
        assert WellFormedBlock(items[0].blocks[0], d);
        assert WellFormedBlock(Canonical(items[0].blocks)[0], d);
      }
    }
  }

  // ---------- the loops of the source compute the canonical text ----------

  function Texts(blocks: seq<Block>): (r: seq<string>)
    ensures |r| == |blocks|
    ensures forall i | 0 <= i < |r| :: r[i] == BlockText(blocks[i])
  {
    if blocks == [] then [] else [BlockText(blocks[0])] + Texts(blocks[1..])
  }

  lemma {:induction false} TextsOfInsert(b: Block, blocks: seq<Block>)
    ensures Texts(Insert(b, blocks, BlockLe)) == Insert(BlockText(b), Texts(blocks), LexLe)
  {
    hide BlockText, LexLe;
    if blocks != [] {
      TextsOfInsert(b, blocks[1..]);
      assert Texts([b] + blocks) == [BlockText(b)] + Texts(blocks);
    }
  }

  /** Sorting blocks by their texts is sorting their texts. */
  lemma {:induction false} TextsOfSort(blocks: seq<Block>)
    ensures Texts(Sort(blocks, BlockLe)) == Sort(Texts(blocks), LexLe)
  {
    if blocks != [] {
      TextsOfSort(blocks[1..]);
      TextsOfInsert(blocks[0], Sort(blocks[1..], BlockLe));
    }
  }

  lemma {:induction false} JoinTexts(blocks: seq<Block>)
    requires blocks != []
    ensures Join(Texts(blocks), "\n") == ForestText(blocks)
  {
    hide PrintBlock;
    if |blocks| == 1 {
      assert PrintForest(blocks) == PrintBlock(blocks[0]);
    } else {
      JoinTexts(blocks[1..]);
      PrintFirst(blocks[1..]);
      JoinAppend(PrintBlock(blocks[0]), PrintForest(blocks[1..]), "\n");
    }
  }

  /** The text the source builds for a forest: sorted block texts, joined. */
  lemma SortedTextsAreForestText(blocks: seq<Block>)
    requires blocks != []
    ensures Join(Sort(Texts(CanonicalEach(blocks)), LexLe), "\n") == ForestText(Canonical(blocks))
  {
    TextsOfSort(CanonicalEach(blocks));
    CanonicalElements(blocks);
    JoinTexts(Canonical(blocks));
  }

  ghost predicate ForestRead(lines: seq<string>, i: nat, indent: nat, blocks: seq<Block>) {
    && i <= |lines|
    && var left := ParseForest(lines[i..], indent);
      ParseForest(lines, indent) == (blocks + left.0, i + left.1)
  }

  lemma ForestReadStart(lines: seq<string>, indent: nat)
    ensures ForestRead(lines, 0, indent, [])
  {
    hide ParseForest;
    assert lines[0..] == lines;
    assert [] + ParseForest(lines, indent).0 == ParseForest(lines, indent).0;
  }

  lemma ForestReadBlock(lines: seq<string>, i: nat, indent: nat, blocks: seq<Block>)
    requires ForestRead(lines, i, indent, blocks) && i < |lines| && At(lines[i], indent)
    ensures var (items, k) := ParseItems(lines[i + 1..], indent);
            ForestRead(lines, i + 1 + k, indent, blocks + [Block(lines[i], items)])
  {
    hide ParseForest, ParseItems, IsDiagnostic, ParseDiagnostic;
    var (items, k) := ParseItems(lines[i + 1..], indent);
    assert lines[i..][1..] == lines[i + 1..];
    ParseCons(lines[i..], items, k, indent);
    assert lines[i..][1 + k..] == lines[i + 1 + k..];
    var left := ParseForest(lines[i + 1 + k..], indent);
    assert blocks + ([Block(lines[i], items)] + left.0) == blocks + [Block(lines[i], items)] + left.0;
  }

  lemma ForestReadEnd(lines: seq<string>, i: nat, indent: nat, blocks: seq<Block>)
    requires ForestRead(lines, i, indent, blocks) && (i == |lines| || !At(lines[i], indent))
    ensures ParseForest(lines, indent) == (blocks, i)
  {
    NoForest(lines[i..], indent);
    hide ParseForest;
    assert blocks + [] == blocks;
  }

  lemma NoForest(lines: seq<string>, indent: nat)
    requires lines == [] || !At(lines[0], indent)
    ensures ParseForest(lines, indent) == ([], 0)
  {
    hide ParseItems, At;
  }

  lemma CanonicalTextsSnoc(blocks: seq<Block>, b: Block)
    ensures Texts(CanonicalEach(blocks + [b])) == Texts(CanonicalEach(blocks)) + [BlockText(CanonicalBlock(b))]
  {
    hide BlockText, CanonicalBlock;
    assert CanonicalEach(blocks + [b]) == CanonicalEach(blocks) + [CanonicalBlock(b)];
  }

  /** `schemaForest`: reads the forest at `indent` that `lines` begins with, and returns its
      canonical text and how many lines it took. */
  method SchemaForest(lines: seq<string>, indent: nat) returns (text: string, consumed: nat)
    requires lines != [] && At(lines[0], indent)
    ensures consumed == ParseForest(lines, indent).1 && 0 < consumed <= |lines|
    ensures text == ForestText(Canonical(ParseForest(lines, indent).0))
    decreases |lines|, 1
  {
    hide *;
    var texts: seq<string> := [];
    ghost var blocks: seq<Block> := [];
    var i := 0;
    ForestReadStart(lines, indent);
    assert texts == Texts(CanonicalEach(blocks));
    while i < |lines| && At(lines[i], indent)
      invariant 0 <= i <= |lines|
      invariant ForestRead(lines, i, indent, blocks)
      invariant texts == Texts(CanonicalEach(blocks))
    {
      ForestReadBlock(lines, i, indent, blocks);
      var block, next := SchemaBlock(lines, i, indent);
      ghost var b := Block(lines[i], ParseItems(lines[i + 1..], indent).0);
      CanonicalTextsSnoc(blocks, b);
      blocks := blocks + [b];
      texts := texts + [block];
      i := next;
    }
    ForestReadEnd(lines, i, indent, blocks);
    SortedTextsAreForestText(blocks);
    return Join(Sort(texts, LexLe), "\n"), i;
  }

  ghost predicate ItemsRead(lines: seq<string>, next: nat, indent: nat, items: seq<Item>) {
    && next <= |lines|
    && var left := ParseItems(lines[next..], indent);
      ParseItems(lines, indent) == (items + left.0, next + left.1)
  }

  lemma ItemsReadStart(lines: seq<string>, indent: nat)
    ensures ItemsRead(lines, 0, indent, [])
  {
    hide ParseItems;
    assert lines[0..] == lines;
    assert [] + ParseItems(lines, indent).0 == ParseItems(lines, indent).0;
  }

  lemma ItemsReadOpaque(lines: seq<string>, next: nat, indent: nat, items: seq<Item>)
    requires ItemsRead(lines, next, indent, items) && next < |lines|
    requires !IsDiagnostic(lines[next]) && LeadingSpaces(lines[next]) > indent
    ensures ItemsRead(lines, next + 1, indent, items + [Opaque(lines[next])])
  {
    hide IsDiagnostic, LeadingSpaces, Depth, ParseForest;
    assert lines[next..][1..] == lines[next + 1..];
    var left := ParseItems(lines[next + 1..], indent);
    assert items + ([Opaque(lines[next])] + left.0) == items + [Opaque(lines[next])] + left.0;
  }

  lemma ItemsReadChildren(lines: seq<string>, next: nat, indent: nat, items: seq<Item>)
    requires ItemsRead(lines, next, indent, items) && next < |lines|
    requires IsDiagnostic(lines[next]) && Depth(lines[next]) > indent
    ensures At(lines[next..][0], Depth(lines[next]))
    ensures var (blocks, k) := ParseForest(lines[next..], Depth(lines[next]));
            ItemsRead(lines, next + k, indent, items + [Children(Depth(lines[next]), blocks)])
  {
    assert At(lines[next..][0], Depth(lines[next]));
    hide IsDiagnostic, LeadingSpaces, Depth, ParseForest;
    var (blocks, k) := ParseForest(lines[next..], Depth(lines[next]));
    assert lines[next..][k..] == lines[next + k..];
    var item := Children(Depth(lines[next]), blocks);
    var left := ParseItems(lines[next + k..], indent);
    assert items + ([item] + left.0) == items + [item] + left.0;
  }

  lemma ItemsReadEnd(lines: seq<string>, next: nat, indent: nat, items: seq<Item>)
    requires ItemsRead(lines, next, indent, items) && ItemsEnd(lines[next..], indent)
    ensures ParseItems(lines, indent) == (items, next)
  {
    assert items + [] == items;
  }

  lemma {:induction false} PrintItemsSnoc(items: seq<Item>, item: Item)
    ensures PrintItems(items + [item]) == PrintItems(items) + PrintItem(item)
    ensures CanonicalItems(items + [item]) == CanonicalItems(items) + [CanonicalItem(item)]
  {
    hide PrintItem, CanonicalItem;
    if items == [] {
      assert items + [item] == [item];
      assert [item][1..] == [];
    } else {
      assert (items + [item])[1..] == items[1..] + [item];
      PrintItemsSnoc(items[1..], item);
    }
  }

  lemma CanonicalBlockSnoc(head: string, items: seq<Item>, item: Item)
    requires PrintItem(CanonicalItem(item)) != []
    ensures BlockText(CanonicalBlock(Block(head, items + [item]))) ==
            BlockText(CanonicalBlock(Block(head, items))) + "\n" + Join(PrintItem(CanonicalItem(item)), "\n")
  {
    hide PrintItem, CanonicalItem, CanonicalLine, Join;
    PrintItemsSnoc(items, item);
    PrintItemsSnoc(CanonicalItems(items), CanonicalItem(item));
    var b := CanonicalBlock(Block(head, items));
    assert PrintBlock(CanonicalBlock(Block(head, items + [item]))) == PrintBlock(b) + PrintItem(CanonicalItem(item));
    JoinAppend(PrintBlock(b), PrintItem(CanonicalItem(item)), "\n");
  }

  lemma ChildrenText(depth: nat, blocks: seq<Block>)
    requires blocks != []
    ensures PrintItem(CanonicalItem(Children(depth, blocks))) != []
    ensures Join(PrintItem(CanonicalItem(Children(depth, blocks))), "\n") == ForestText(Canonical(blocks))
  {
    CanonicalElements(blocks);
    PrintFirst(Canonical(blocks));
  }

  /** The inner loop of `schemaForest`: one diagnostic at `lines[i]` and everything below it. */
  method SchemaBlock(lines: seq<string>, i: nat, indent: nat) returns (text: string, next: nat)
    requires i < |lines| && At(lines[i], indent)
    ensures next == i + 1 + ParseItems(lines[i + 1..], indent).1
    ensures text == BlockText(CanonicalBlock(Block(lines[i], ParseItems(lines[i + 1..], indent).0)))
    decreases |lines| - i, 0
  {
    hide *;
    HeadOf(lines[i], indent);
    var message := ParseDiagnostic(lines[i]).value.message;
    var head := SchemaProperties(message);
    var block := [lines[i][..|lines[i]| - |message|] + head];
    ghost var below := lines[i + 1..];
    ghost var items: seq<Item> := [];
    HeadText(lines[i]);
    JoinOne(block[0]);
    ItemsReadStart(below, indent);
    next := i + 1;
    while next < |lines|
      invariant i < next <= |lines|
      invariant ItemsRead(below, next - i - 1, indent, items)
      invariant block != [] && Join(block, "\n") == BlockText(CanonicalBlock(Block(lines[i], items)))
    {
      ghost var item: Item;
      var part: string;
      assert below[next - i - 1..] == lines[next..];
      if IsDiagnostic(lines[next]) {
        var depth := Depth(lines[next]);
        if depth <= indent {
          break;
        }
        ItemsReadChildren(below, next - i - 1, indent, items);
        var consumed;
        part, consumed := SchemaForest(lines[next..], depth);
        item := Children(depth, ParseForest(lines[next..], depth).0);
        ChildrenText(depth, item.blocks);
        next := next + consumed;
      } else if LeadingSpaces(lines[next]) > indent {
        ItemsReadOpaque(below, next - i - 1, indent, items);
        item := Opaque(lines[next]);
        part := lines[next];
        OpaqueText(part);
        next := next + 1;
      } else {
        break;
      }
      CanonicalBlockSnoc(lines[i], items, item);
      JoinAppend(block, [part], "\n");
      JoinOne(part);
      items := items + [item];
      block := block + [part];
    }
    ItemsEndAt(lines, next, indent);
    assert below[next - i - 1..] == lines[next..];
    ItemsReadEnd(below, next - i - 1, indent, items);
    text := Join(block, "\n");
  }

  lemma HeadOf(line: string, indent: nat)
    requires At(line, indent)
    ensures ParseDiagnostic(line).Some?
    ensures |ParseDiagnostic(line).value.message| < |line|
    ensures CanonicalLine(line) ==
            line[..|line| - |ParseDiagnostic(line).value.message|] + Properties(ParseDiagnostic(line).value.message)
  {
  }

  lemma HeadText(line: string)
    ensures BlockText(CanonicalBlock(Block(line, []))) == CanonicalLine(line)
  {
    hide CanonicalLine;
    assert PrintBlock(CanonicalBlock(Block(line, []))) == [CanonicalLine(line)];
  }

  lemma JoinOne(part: string)
    ensures Join([part], "\n") == part
  {
  }

  lemma OpaqueText(line: string)
    ensures PrintItem(CanonicalItem(Opaque(line))) == [line]
    ensures Join(PrintItem(CanonicalItem(Opaque(line))), "\n") == line
  {
  }

  lemma ItemsEndAt(lines: seq<string>, next: nat, indent: nat)
    requires next <= |lines|
    requires next < |lines| ==> if IsDiagnostic(lines[next]) then Depth(lines[next]) <= indent
                               else LeadingSpaces(lines[next]) <= indent
    ensures ItemsEnd(lines[next..], indent)
  {
    if next < |lines| { assert lines[next..][0] == lines[next]; }
  }
}
