/** `schemaError` (pkg/helm/schema_error.go, 18-54): the canonical text of a whole report. */
module SchemaReport {
  import opened Ordering
  import opened Text
  import opened SchemaLine
  import opened DiagnosticForest

  /** In pieces, since the verifier knows the characters of short literals only. */
  const PREAMBLE :=
    "values don't meet the" + " specifications of" + " the schema(s) in" + " the following" + " chart(s):"

  predicate EndsWithColon(line: string) {
    line != "" && line[|line| - 1] == ':'
  }

  predicate Unindented(line: string) {
    At(line, 0)
  }

  /** Whether diagnostics are being canonicalised once the head of `lines` has been looked at. */
  predicate Values(lines: seq<string>, values: bool)
    requires lines != []
  {
    if EndsWithColon(lines[0]) then |lines| > 1 && Unindented(lines[1]) else values
  }

  function Report(lines: seq<string>, values: bool): seq<string>
    decreases |lines|
  {
    if lines == [] then []
    else
      var v := Values(lines, values);
      if v && IsDiagnostic(lines[0]) then
        var (blocks, used) := ParseForest(lines, Depth(lines[0]));
        PrintForest(Canonical(blocks)) + Report(lines[used..], v)
      else [lines[0]] + Report(lines[1..], v)
  }

  function SchemaText(text: string): string {
    if HasPrefix(text, PREAMBLE + "\n") then Join(Report(SplitLines(text), false), "\n") else text
  }

  // ---------- every line is kept ----------

  /** The lines of a report with their property tokens in order, and how often each occurs. */
  function LineBag(lines: seq<string>): multiset<string> {
    if lines == [] then multiset{} else multiset{CanonicalLine(lines[0])} + LineBag(lines[1..])
  }

  lemma {:induction false} LineBagAppend(a: seq<string>, b: seq<string>)
    ensures LineBag(a + b) == LineBag(a) + LineBag(b)
  {
    if a == [] {
      assert a + b == b;
    } else {
      assert (a + b)[1..] == a[1..] + b;
      LineBagAppend(a[1..], b);
    }
  }

  function ForestBag(blocks: seq<Block>): multiset<string> {
    LineBag(PrintForest(blocks))
  }

  lemma {:induction false} ForestBagInsert(b: Block, blocks: seq<Block>)
    ensures ForestBag(Insert(b, blocks, BlockLe)) == LineBag(PrintBlock(b)) + ForestBag(blocks)
  {
    hide PrintBlock, BlockLe, LineBag;
    if blocks == [] || BlockLe(b, blocks[0]) {
      assert ([b] + blocks)[1..] == blocks;
      assert Insert(b, blocks, BlockLe) == [b] + blocks;
      LineBagAppend(PrintBlock(b), PrintForest(blocks));
    } else {
      ForestBagInsert(b, blocks[1..]);
      var more := Insert(b, blocks[1..], BlockLe);
      assert ([blocks[0]] + more)[1..] == more;
      LineBagAppend(PrintBlock(blocks[0]), PrintForest(more));
      LineBagAppend(PrintBlock(blocks[0]), PrintForest(blocks[1..]));
    }
  }

  lemma {:induction false} ForestBagSort(blocks: seq<Block>)
    ensures ForestBag(Sort(blocks, BlockLe)) == ForestBag(blocks)
  {
    hide PrintBlock, BlockLe, LineBag;
    if blocks != [] {
      ForestBagSort(blocks[1..]);
      ForestBagInsert(blocks[0], Sort(blocks[1..], BlockLe));
      LineBagAppend(PrintBlock(blocks[0]), PrintForest(blocks[1..]));
    }
  }

  lemma {:induction false} CanonicalKeepsLines(blocks: seq<Block>)
    ensures ForestBag(Canonical(blocks)) == ForestBag(blocks)
    decreases blocks, 2
  {
    ForestBagSort(CanonicalEach(blocks));
    CanonicalEachKeepsLines(blocks);
  }

  lemma {:induction false} CanonicalEachKeepsLines(blocks: seq<Block>)
    ensures ForestBag(CanonicalEach(blocks)) == ForestBag(blocks)
    decreases blocks, 0
  {
    hide PrintBlock, LineBag;
    if blocks != [] {
      CanonicalBlockKeepsLines(blocks[0]);
      CanonicalEachKeepsLines(blocks[1..]);
      var each := CanonicalEach(blocks);
      assert each[1..] == CanonicalEach(blocks[1..]);
      LineBagAppend(PrintBlock(each[0]), PrintForest(each[1..]));
      LineBagAppend(PrintBlock(blocks[0]), PrintForest(blocks[1..]));
    }
  }

  lemma {:induction false} CanonicalBlockKeepsLines(b: Block)
    ensures LineBag(PrintBlock(CanonicalBlock(b))) == LineBag(PrintBlock(b))
    decreases b, 1
  {
    CanonicalLineSettled(b.head);
    CanonicalItemsKeepLines(b.items);
    LineBagAppend([b.head], PrintItems(b.items));
    LineBagAppend([CanonicalLine(b.head)], PrintItems(CanonicalItems(b.items)));
    hide CanonicalLine;
    assert LineBag([b.head]) == multiset{CanonicalLine(b.head)};
    assert LineBag([CanonicalLine(b.head)]) == multiset{CanonicalLine(CanonicalLine(b.head))};
  }

  lemma {:induction false} CanonicalItemsKeepLines(items: seq<Item>)
    ensures LineBag(PrintItems(CanonicalItems(items))) == LineBag(PrintItems(items))
    decreases items, 0
  {
    if items != [] {
      var rest := items[1..];
      CanonicalItemsKeepLines(rest);
      if items[0].Children? { CanonicalKeepsLines(items[0].blocks); }
      hide LineBag, Canonical;
      assert CanonicalItems(items)[1..] == CanonicalItems(rest);
      LineBagAppend(PrintItem(items[0]), PrintItems(rest));
      LineBagAppend(PrintItem(CanonicalItem(items[0])), PrintItems(CanonicalItems(rest)));
    }
  }

  /** A report keeps its lines, up to the order of lines and of property tokens. */
  lemma {:induction false} ReportKeepsLines(lines: seq<string>, values: bool)
    ensures LineBag(Report(lines, values)) == LineBag(lines)
    decreases |lines|
  {
    hide LineBag, Canonical, ParseForest, ParseDiagnostic, EndsWithColon;
    if lines == [] {
    } else if Values(lines, values) && IsDiagnostic(lines[0]) {
      var (blocks, used) := ParseForest(lines, Depth(lines[0]));
      ParsedForestPrints(lines, Depth(lines[0]));
      CanonicalKeepsLines(blocks);
      ReportKeepsLines(lines[used..], true);
      LineBagAppend(PrintForest(Canonical(blocks)), Report(lines[used..], true));
      assert lines == lines[..used] + lines[used..];
      LineBagAppend(lines[..used], lines[used..]);
    } else {
      var v := Values(lines, values);
      ReportKeepsLines(lines[1..], v);
      assert lines == [lines[0]] + lines[1..];
      LineBagAppend([lines[0]], lines[1..]);
      LineBagAppend([lines[0]], Report(lines[1..], v));
    }
  }

  // ---------- reading a canonical forest again, from any of its lines ----------

  /** The forest that starts `lines` is canonical and takes at most `limit` of them. */
  ghost predicate Settled(lines: seq<string>, limit: int)
    requires lines != [] && IsDiagnostic(lines[0])
  {
    var (blocks, used) := ParseForest(lines, Depth(lines[0]));
    IsCanonical(blocks) && used <= limit
  }

  lemma {:induction false} SettledForest(blocks: seq<Block>, indent: nat, rest: seq<string>, i: nat)
    requires WellFormed(blocks, indent) && IsCanonical(blocks) && Stop(rest, indent)
    requires i < |PrintForest(blocks)| && IsDiagnostic(PrintForest(blocks)[i])
    ensures Settled((PrintForest(blocks) + rest)[i..], |PrintForest(blocks)| - i)
    decreases blocks, 0
  {
    hide ParseDiagnostic, LeadingSpaces, CanonicalLine, ParseForest, ParseItems, WellFormedItems, BlockLe, PrintItems;
    var lines := PrintForest(blocks) + rest;
    var b := blocks[0];
    var below := PrintForest(blocks[1..]) + rest;
    var items := PrintItems(b.items);
    var n := 1 + |items|;
    assert PrintForest(blocks) == [b.head] + items + PrintForest(blocks[1..]);
    assert lines == [b.head] + items + below;
    if i == 0 {
      assert lines[0..] == lines;
      PrintedForestParses(blocks, indent, rest);
      assert WellFormedBlock(b, indent);
    } else if i < n {
      assert lines[i..] == (items + below)[i - 1..];
      assert items[i - 1] == PrintForest(blocks)[i];
      assert CanonicalBlock(b) == b;
      assert ItemsEnd(below, indent) by {
        PrintFirst(blocks[1..]);
        assert blocks[1..] != [] ==> WellFormedBlock(blocks[1], indent);
      }
      SettledItems(b.items, indent, below, i - 1);
    } else {
      assert lines[i..] == below[i - n..];
      assert PrintForest(blocks[1..])[i - n] == PrintForest(blocks)[i];
      SettledForest(blocks[1..], indent, rest, i - n);
    }
  }

  lemma {:induction false} SettledItems(items: seq<Item>, indent: nat, rest: seq<string>, i: nat)
    requires WellFormedItems(items, indent) && CanonicalItems(items) == items && ItemsEnd(rest, indent)
    requires i < |PrintItems(items)| && IsDiagnostic(PrintItems(items)[i])
    ensures Settled((PrintItems(items) + rest)[i..], |PrintItems(items)| - i)
    decreases items, 0
  {
    hide ParseDiagnostic, LeadingSpaces, ParseForest, ParseItems, Canonical, IsCanonical, PrintForest;
    var lines := PrintItems(items) + rest;
    var first := PrintItem(items[0]);
    var below := PrintItems(items[1..]) + rest;
    assert lines == first + below;
    assert WellFormedItem(items[0], indent);
    assert CanonicalItem(items[0]) == items[0];
    if i < |first| {
      var blocks, depth := items[0].blocks, items[0].depth;
      CanonicalIsCanonical(blocks);
      assert first == PrintForest(blocks);
      assert first[i] == PrintItems(items)[i];
      PrintItemsFirst(items[1..], indent);
      StopBelow(items, indent, rest);
      SettledForest(blocks, depth, below, i);
    } else {
      assert CanonicalItems(items)[1..] == CanonicalItems(items[1..]);
      assert lines[i..] == below[i - |first|..];
      assert PrintItems(items[1..])[i - |first|] == PrintItems(items)[i];
      SettledItems(items[1..], indent, rest, i - |first|);
    }
  }

  lemma StopBelow(items: seq<Item>, indent: nat, rest: seq<string>)
    requires WellFormedItems(items, indent) && ItemsEnd(rest, indent)
    requires items != [] && items[0].Children?
    ensures Stop(PrintItems(items[1..]) + rest, items[0].depth)
  {
    hide ParseDiagnostic, LeadingSpaces, PrintItems;
    assert WellFormedItem(items[0], indent);
    if PrintItems(items[1..]) == [] {
      assert PrintItems(items[1..]) + rest == rest;
    }
  }

  /** Lines of a canonical forest are printed as they are, wherever reading starts and whether
      or not diagnostics are being canonicalised there. */
  lemma {:induction false} ReportOfSettled(blocks: seq<Block>, indent: nat, rest: seq<string>, i: nat, values: bool)
    requires WellFormed(blocks, indent) && IsCanonical(blocks) && Stop(rest, indent)
    requires i <= |PrintForest(blocks)|
    requires Report(rest, true) == rest && Report(rest, false) == rest
    ensures Report((PrintForest(blocks) + rest)[i..], values) == (PrintForest(blocks) + rest)[i..]
    decreases |PrintForest(blocks)| - i
  {
    hide ParseDiagnostic, LeadingSpaces, CanonicalLine, ParseForest, WellFormed, BlockLe, PrintForest, Canonical, IsCanonical, EndsWithColon;
    var n := |PrintForest(blocks)|;
    var s := (PrintForest(blocks) + rest)[i..];
    if i == n {
      assert s == rest;
    } else if Values(s, values) && IsDiagnostic(s[0]) {
      assert s[0] == PrintForest(blocks)[i];
      SettledForest(blocks, indent, rest, i);
      var (found, used) := ParseForest(s, Depth(s[0]));
      CanonicalFixed(found);
      ParsedForestPrints(s, Depth(s[0]));
      assert s[used..] == (PrintForest(blocks) + rest)[i + used..];
      ReportOfSettled(blocks, indent, rest, i + used, true);
      assert s == s[..used] + s[used..];
    } else {
      assert s[1..] == (PrintForest(blocks) + rest)[i + 1..];
      ReportOfSettled(blocks, indent, rest, i + 1, Values(s, values));
      assert s == [s[0]] + s[1..];
    }
  }

  /** The first line of a report is the first line read, or another diagnostic as deep. */
  lemma ReportFirst(lines: seq<string>, values: bool)
    ensures lines == [] ==> Report(lines, values) == []
    ensures lines != [] ==>
              var out := Report(lines, values);
              && out != [] && IsDiagnostic(out[0]) == IsDiagnostic(lines[0])
              && (if IsDiagnostic(lines[0]) then Depth(out[0]) == Depth(lines[0]) else out[0] == lines[0])
  {
    hide ParseDiagnostic, LeadingSpaces, CanonicalLine, ParseForest, Canonical, EndsWithColon;
    if lines != [] && Values(lines, values) && IsDiagnostic(lines[0]) {
      var d := Depth(lines[0]);
      var blocks := ParseForest(lines, d).0;
      ParsedForestPrints(lines, d);
      CanonicalWellFormed(blocks, d);
      CanonicalElements(blocks);
      PrintFirst(Canonical(blocks));
      WellFormedEach(Canonical(blocks), d);
      assert WellFormedBlock(Canonical(blocks)[0], d);
    }
  }

  /** A report is settled: reporting it again changes nothing, even when diagnostics are
      canonicalised in fewer places the second time. */
  lemma {:induction false} ReportSettled(lines: seq<string>, values: bool, again: bool)
    requires again ==> values
    ensures Report(Report(lines, values), again) == Report(lines, values)
    decreases |lines|
  {
    hide ParseDiagnostic, LeadingSpaces, CanonicalLine, ParseForest, Canonical, EndsWithColon;
    if lines == [] {
    } else if Values(lines, values) && IsDiagnostic(lines[0]) {
      var d := Depth(lines[0]);
      var (blocks, used) := ParseForest(lines, d);
      ParsedForestPrints(lines, d);
      CanonicalWellFormed(blocks, d);
      CanonicalIsCanonical(blocks);
      var rest := Report(lines[used..], true);
      ReportSettled(lines[used..], true, true);
      ReportSettled(lines[used..], true, false);
      ReportFirst(lines[used..], true);
      assert Stop(rest, d);
      var out := PrintForest(Canonical(blocks)) + rest;
      assert out[0..] == out;
      ReportOfSettled(Canonical(blocks), d, rest, 0, again);
    } else {
      var v := Values(lines, values);
      var more := Report(lines[1..], v);
      var out := [lines[0]] + more;
      ReportFirst(lines[1..], v);
      assert out[1..] == more;
      assert Values(out, again) ==> v;
      ReportSettled(lines[1..], v, Values(out, again));
    }
  }

  // ---------- the text of a report ----------

  lemma {:induction false} OneLineEach(blocks: seq<Block>)
    ensures AllOneLine(PrintForest(blocks)) <==>
              forall i | 0 <= i < |blocks| :: AllOneLine(PrintBlock(blocks[i]))
  {
    hide PrintBlock, OneLine;
    if blocks != [] {
      OneLineEach(blocks[1..]);
      OneLineAppend(PrintBlock(blocks[0]), PrintForest(blocks[1..]));
      assert blocks == [blocks[0]] + blocks[1..];
    }
  }

  lemma OneLineAppend(a: seq<string>, b: seq<string>)
    ensures AllOneLine(a + b) <==> AllOneLine(a) && AllOneLine(b)
  {
    hide OneLine;
    assert forall i | 0 <= i < |a| :: (a + b)[i] == a[i];
    assert forall i | 0 <= i < |b| :: (a + b)[|a| + i] == b[i];
  }

  lemma {:induction false} CanonicalOneLine(blocks: seq<Block>)
    requires AllOneLine(PrintForest(blocks))
    ensures AllOneLine(PrintForest(Canonical(blocks)))
    decreases blocks, 2
  {
    CanonicalElements(blocks);
    OneLineEach(blocks);
    var sorted := Canonical(blocks);
    forall k | 0 <= k < |sorted| ensures AllOneLine(PrintBlock(sorted[k])) {
      assert sorted[k] in Canonical(blocks);
      var i :| 0 <= i < |blocks| && sorted[k] == CanonicalBlock(blocks[i]);
      CanonicalBlockOneLine(blocks[i]);
    }
    OneLineEach(sorted);
  }

  lemma {:induction false} CanonicalBlockOneLine(b: Block)
    requires AllOneLine(PrintBlock(b))
    ensures AllOneLine(PrintBlock(CanonicalBlock(b)))
    decreases b, 1
  {
    hide OneLine, CanonicalLine;
    assert PrintBlock(b)[0] == b.head;
    CanonicalLineOneLine(b.head);
    OneLineAppend([b.head], PrintItems(b.items));
    OneLineAppend([CanonicalLine(b.head)], PrintItems(CanonicalItems(b.items)));
    CanonicalItemsOneLine(b.items);
  }

  lemma {:induction false} CanonicalItemsOneLine(items: seq<Item>)
    requires AllOneLine(PrintItems(items))
    ensures AllOneLine(PrintItems(CanonicalItems(items)))
    decreases items, 0
  {
    hide OneLine, Canonical;
    if items != [] {
      OneLineAppend(PrintItem(items[0]), PrintItems(items[1..]));
      CanonicalItemsOneLine(items[1..]);
      if items[0].Children? { CanonicalOneLine(items[0].blocks); }
      assert CanonicalItems(items)[1..] == CanonicalItems(items[1..]);
      OneLineAppend(PrintItem(CanonicalItem(items[0])), PrintItems(CanonicalItems(items[1..])));
    }
  }

  lemma {:induction false} ReportOneLine(lines: seq<string>, values: bool)
    requires AllOneLine(lines)
    ensures AllOneLine(Report(lines, values))
    decreases |lines|
  {
    hide ParseDiagnostic, OneLine, Canonical, ParseForest, EndsWithColon;
    if lines == [] {
    } else if Values(lines, values) && IsDiagnostic(lines[0]) {
      var (blocks, used) := ParseForest(lines, Depth(lines[0]));
      ParsedForestPrints(lines, Depth(lines[0]));
      CanonicalOneLine(blocks);
      ReportOneLine(lines[used..], true);
      OneLineAppend(PrintForest(Canonical(blocks)), Report(lines[used..], true));
    } else {
      ReportOneLine(lines[1..], Values(lines, values));
      OneLineAppend([lines[0]], Report(lines[1..], Values(lines, values)));
    }
  }

  lemma PreambleIsPlain()
    ensures OneLine(PREAMBLE) && !IsDiagnostic(PREAMBLE)
  {
    assert PREAMBLE[0] == 'v';
    assert LeadingSpaces(PREAMBLE) == 0;
    assert PREAMBLE[0..][..|AT|][0] == 'v';
    assert AT[0] == '-';
  }

  /** The lines of a report that begins with the preamble, before and after. */
  lemma PreambleKept(text: string)
    requires HasPrefix(text, PREAMBLE + "\n")
    ensures var out := Report(SplitLines(text), false);
            && |out| > 1 && out[0] == PREAMBLE
            && AllOneLine(out)
  {
    SplitThenJoin(text);
    PreambleIsPlain();
    var body := text[|PREAMBLE + "\n"|..];
    assert text == PREAMBLE + "\n" + body;
    SplitPrependsLine(PREAMBLE, body);
    hide ParseDiagnostic, ParseForest, Canonical, IsDiagnostic, EndsWithColon, SplitLines, Join, OneLine;
    var lines := SplitLines(text);
    assert lines[1..] == SplitLines(body);
    ReportFirst(lines[1..], Values(lines, false));
    ReportOneLine(lines, false);
  }

  /** `schemaError` is idempotent: a canonical report is left as it is. */
  lemma SchemaTextIdempotent(text: string)
    ensures SchemaText(SchemaText(text)) == SchemaText(text)
  {
    if HasPrefix(text, PREAMBLE + "\n") {
      PreambleKept(text);
      var out := Report(SplitLines(text), false);
      ReportSettled(SplitLines(text), false, false);
      JoinThenSplit(out);
      hide Report;
      assert Join(out, "\n") == (PREAMBLE + "\n") + Join(out[1..], "\n");
    }
  }

  ghost predicate Printed(lines: seq<string>, i: nat, values: bool, printed: seq<string>) {
    i <= |lines| && Report(lines, false) == printed + Report(lines[i..], values)
  }

  lemma PrintedStart(lines: seq<string>)
    ensures Printed(lines, 0, false, [])
  {
    hide Report;
    assert lines[0..] == lines;
    assert [] + Report(lines, false) == Report(lines, false);
  }

  lemma ReportForest(lines: seq<string>, values: bool)
    requires lines != [] && Values(lines, values) && IsDiagnostic(lines[0])
    ensures var (blocks, used) := ParseForest(lines, Depth(lines[0]));
            Report(lines, values) == PrintForest(Canonical(blocks)) + Report(lines[used..], true)
  {
    hide ParseDiagnostic, ParseForest, Canonical, IsDiagnostic, EndsWithColon, PrintForest, Depth;
  }

  lemma ReportLine(lines: seq<string>, values: bool)
    requires lines != [] && !(Values(lines, values) && IsDiagnostic(lines[0]))
    ensures Report(lines, values) == [lines[0]] + Report(lines[1..], Values(lines, values))
  {
    hide ParseDiagnostic, ParseForest, Canonical, IsDiagnostic, EndsWithColon, PrintForest, Depth;
  }

  lemma PrintedExtend(lines: seq<string>, i: nat, values: bool, printed: seq<string>,
                      group: seq<string>, next: nat, after: bool)
    requires Printed(lines, i, values, printed) && next <= |lines|
    requires Report(lines[i..], values) == group + Report(lines[next..], after)
    ensures Printed(lines, next, after, printed + group)
  {
    hide Report;
    var more := Report(lines[next..], after);
    assert printed + (group + more) == printed + group + more;
  }

  lemma AtOwnDepth(line: string)
    requires IsDiagnostic(line)
    ensures At(line, Depth(line))
  {
  }

  lemma NonemptyForest(blocks: seq<Block>)
    requires blocks != []
    ensures PrintForest(Canonical(blocks)) != []
  {
    CanonicalElements(blocks);
    PrintFirst(Canonical(blocks));
  }

  lemma PrintedForest(lines: seq<string>, i: nat, values: bool, printed: seq<string>)
    requires Printed(lines, i, values, printed) && i < |lines|
    requires Values(lines[i..], values) && IsDiagnostic(lines[i])
    ensures var (blocks, used) := ParseForest(lines[i..], Depth(lines[i]));
            && PrintForest(Canonical(blocks)) != [] && At(lines[i..][0], Depth(lines[i]))
            && Printed(lines, i + used, true, printed + PrintForest(Canonical(blocks)))
  {
    hide *;
    AtOwnDepth(lines[i]);
    assert lines[i..][0] == lines[i];
    var (blocks, used) := ParseForest(lines[i..], Depth(lines[i]));
    NonemptyForest(blocks);
    assert lines[i..][used..] == lines[i + used..];
    ReportForest(lines[i..], values);
    PrintedExtend(lines, i, values, printed, PrintForest(Canonical(blocks)), i + used, true);
  }

  lemma PrintedLine(lines: seq<string>, i: nat, values: bool, printed: seq<string>)
    requires Printed(lines, i, values, printed) && i < |lines|
    requires !(Values(lines[i..], values) && IsDiagnostic(lines[i]))
    ensures Printed(lines, i + 1, Values(lines[i..], values), printed + [lines[i]])
  {
    hide ParseDiagnostic, ParseForest, Canonical, IsDiagnostic, EndsWithColon;
    assert lines[i..][1..] == lines[i + 1..];
    var more := Report(lines[i + 1..], Values(lines[i..], values));
    assert printed + ([lines[i]] + more) == printed + [lines[i]] + more;
  }

  lemma PrintedEnd(lines: seq<string>, values: bool, printed: seq<string>)
    requires Printed(lines, |lines|, values, printed)
    ensures Report(lines, false) == printed
  {
    assert printed + [] == printed;
  }

  /** `schemaError` on the text of an error; `wrapped` tells whether it returned a display error
      around the original one. */
  method CanonicalErrorText(text: string) returns (canonical: string, wrapped: bool)
    ensures canonical == SchemaText(text)
    ensures wrapped <==> canonical != text
  {
    hide Report, ParseForest, Canonical, PrintForest, LeadingSpaces, ParseDiagnostic, Printed;
    if !HasPrefix(text, PREAMBLE + "\n") {
      return text, false;
    }
    var lines := SplitLines(text);
    var out: seq<string> := [];
    ghost var printed: seq<string> := [];
    var values := false;
    var i := 0;
    PrintedStart(lines);
    while i < |lines|
      invariant 0 <= i <= |lines|
      invariant Printed(lines, i, values, printed)
      invariant (i == 0 ==> out == printed == []) && (i > 0 ==> out != [] && printed != [])
      invariant Join(out, "\n") == Join(printed, "\n")
    {
      var line := lines[i];
      ghost var before := values;
      if EndsWithColon(line) {
        values := false;
        if i + 1 < |lines| {
          values := Unindented(lines[i + 1]);
        }
      }
      assert values == Values(lines[i..], before);
      var part: string;
      ghost var group: seq<string>;
      if IsDiagnostic(line) && values {
        PrintedForest(lines, i, before, printed);
        group := PrintForest(Canonical(ParseForest(lines[i..], Depth(line)).0));
        var consumed;
        part, consumed := SchemaForest(lines[i..], Depth(line));
        i := i + consumed;
      } else {
        PrintedLine(lines, i, before, printed);
        part, group := line, [line];
        i := i + 1;
      }
      JoinGroup(out, printed, part, group);
      out, printed := out + [part], printed + group;
    }
    PrintedEnd(lines, values, printed);
    canonical := Join(out, "\n");
    wrapped := canonical != text;
  }

  lemma JoinGroup(out: seq<string>, printed: seq<string>, part: string, group: seq<string>)
    requires out == [] <==> printed == []
    requires Join(out, "\n") == Join(printed, "\n")
    requires group != [] && part == Join(group, "\n")
    ensures Join(out + [part], "\n") == Join(printed + group, "\n")
  {
    if out == [] {
      assert out + [part] == [part] && printed + group == group;
    } else {
      JoinAppend(out, [part], "\n");
      JoinAppend(printed, group, "\n");
    }
  }
}
