/** Which texts `schemaError` rewrites, with the texts written out: quotations, diagnostic heads, the three
    kinds of property lists, and a whole report (pkg/helm/schema_error.go, 18-76 and 120-195). */
module SchemaTexts {
  import opened Ordering
  import opened Text
  import opened SchemaLine
  import opened DiagnosticForest
  import opened SchemaReport
  import opened SiblingOrder

  // ---------- quotations ----------

  /** A character of a quoted text: one that stands for itself, or an escape Go accepts between single quotes. */
  predicate Unit(u: string) {
    || (|u| == 1 && u[0] != '\'' && u[0] != '\\')
    || (|u| == 2 && u[0] == '\\' && u[1] in "abfnrtv\\'")
    || (|u| == 4 && u[0] == '\\' && u[1] == 'x' && AllHex(u[2..]))
    || (|u| == 6 && u[0] == '\\' && u[1] == 'u' && AllHex(u[2..]) && IsRune(HexValue(u[2..])))
    || (|u| == 10 && u[0] == '\\' && u[1] == 'U' && AllHex(u[2..]) && IsRune(HexValue(u[2..])))
    || (|u| == 4 && u[0] == '\\' && '0' <= u[1] <= '3' && '0' <= u[2] <= '7' && '0' <= u[3] <= '7')
  }

  /** A code point that is no surrogate. */
  predicate IsRune(v: nat) {
    v <= 1114111 && !(55296 <= v <= 57343)
  }

  /** The hexadecimal digits, and the number that such digits are. */
  lemma HexLaw(s: string, c: char, k: nat)
    requires k < 16 && AllHex(s) && (c == "0123456789abcdef"[k] || c == "0123456789ABCDEF"[k])
    ensures IsHex(c) && AllHex(s + [c]) && HexValue(s + [c]) == HexValue(s) * 16 + k && HexValue("") == 0
  {
    assert (s + [c])[..|s|] == s;
    assert "0123456789abcdef"[10..] == "abcdef" && "0123456789ABCDEF"[10..] == "ABCDEF";
    HexDigits(c, k);
  }

  lemma HexDigits(c: char, k: nat)
    requires k < 16 && (c == "0123456789abcdef"[k] || c == "0123456789ABCDEF"[k])
    ensures IsHex(c) && HexDigit(c) == k
  {
    var low, high := "0123456789abcdef", "0123456789ABCDEF";
    assert forall i | 0 <= i < 10 :: low[i] as int == '0' as int + i && high[i] == low[i];
    assert forall i | 10 <= i < 16 :: low[i] as int == 'a' as int + i - 10 && high[i] as int == 'A' as int + i - 10;
  }

  lemma HexOnly(c: char)
    requires IsHex(c)
    ensures c in "0123456789abcdef" || c in "0123456789ABCDEF"
  {
    var k := HexDigit(c);
    if k < 10 {
      assert "0123456789abcdef"[k] == c;
    } else if 'a' <= c <= 'f' {
      assert "0123456789abcdef"[k] == c;
    } else {
      assert "0123456789ABCDEF"[k] == c;
    }
  }

  predicate Units(units: seq<string>) {
    forall i | 0 <= i < |units| :: Unit(units[i])
  }

  function Concat(units: seq<string>): string {
    if units == [] then "" else units[0] + Concat(units[1..])
  }

  /** A text between single quotes, with no quote of its own but escaped ones. */
  ghost predicate Quotation(token: string) {
    exists units :: Units(units) && token == "'" + Concat(units) + "'"
  }

  lemma UnitWidth(u: string, more: string)
    requires Unit(u)
    ensures UnquoteWidth(u + more) == |u| && (u + more)[0] != '\''
  {
    var s := u + more;
    assert forall i | 0 <= i < |u| :: s[i] == u[i];
    if |u| > 2 { assert s[2..|u|] == u[2..]; }
  }

  lemma WidthUnit(s: string)
    requires UnquoteWidth(s) > 0
    ensures Unit(s[..UnquoteWidth(s)])
  {
    var w := UnquoteWidth(s);
    var u := s[..w];
    assert forall i | 0 <= i < w :: u[i] == s[i];
    if w > 2 { assert u[2..] == s[2..w]; }
  }

  lemma {:induction false} UnitsClose(units: seq<string>, more: string)
    requires Units(units)
    ensures ClosingQuote(Concat(units) + "'" + more) == Some(|Concat(units)| + 1)
  {
    hide Unit, UnquoteWidth;
    var s := Concat(units) + "'" + more;
    if units == [] {
      assert s == "'" + more;
    } else {
      var tail := Concat(units[1..]) + "'" + more;
      assert s == units[0] + tail;
      UnitWidth(units[0], tail);
      UnitsClose(units[1..], more);
      assert s[|units[0]|..] == tail;
    }
  }

  lemma {:induction false} ClosedUnits(rest: string) returns (units: seq<string>)
    requires ClosingQuote(rest).Some?
    ensures Units(units) && rest[..ClosingQuote(rest).value] == Concat(units) + "'"
    decreases |rest|
  {
    hide Unit, UnquoteWidth;
    var e := ClosingQuote(rest).value;
    if rest[0] == '\'' {
      units := [];
      assert rest[..1] == "'";
    } else {
      var w := UnquoteWidth(rest);
      var more := ClosedUnits(rest[w..]);
      WidthUnit(rest);
      units := [rest[..w]] + more;
      assert units[1..] == more;
      assert rest[..e] == rest[..w] + rest[w..][..e - w];
    }
  }

  /** What `schemaQuoted` finds is the quotation the text begins with; no two quotations begin a text. */
  lemma QuotedIff(text: string, token: string, rest: string)
    ensures Quoted(text) == Some(QuotedText(token, rest)) <==> Quotation(token) && text == token + rest
  {
    hide Unit, UnquoteWidth, ClosingQuote;
    if Quoted(text).Some? {
      var units := ClosedUnits(text[1..]);
      var e := ClosingQuote(text[1..]).value;
      assert text[..e + 1] == "'" + text[1..][..e] == "'" + Concat(units) + "'";
      assert Quotation(Quoted(text).value.value);
    }
    if Quotation(token) && text == token + rest {
      var units :| Units(units) && token == "'" + Concat(units) + "'";
      UnitsClose(units, rest);
      assert text[1..] == Concat(units) + "'" + rest;
      assert text[0] == '\'' && HasPrefix(text, "'");
      assert text[..|token|] == token && text[|token|..] == rest;
    }
  }

  lemma TokenIff(token: string)
    ensures IsToken(token) <==> Quotation(token)
  {
    hide Quoted, Quotation;
    QuotedIff(token, token, "");
    assert token + "" == token;
  }

  // ---------- diagnostic heads ----------

  function Spaces(n: nat): string {
    seq(n, _ => ' ')
  }

  /** A line is a diagnostic when it is an even number of spaces, "- at ", a quotation, ": " and a message. */
  lemma DiagnosticIff(line: string, n: nat, message: string)
    ensures ParseDiagnostic(line) == Some(Diagnostic(n, message)) <==>
              n % 2 == 0 && exists at :: Quotation(at) && line == Spaces(n) + "- at " + at + ": " + message
  {
    hide Quoted, Quotation;
    var d := ParseDiagnostic(line);
    if d.Some? {
      var indent := LeadingSpaces(line);
      var at := Quoted(line[indent..][5..]).value;
      assert AT == "- at " && |AT| == 5;
      QuotedIff(line[indent..][5..], at.value, at.rest);
      assert line[..indent] == Spaces(indent);
      assert line[indent..] == "- at " + line[indent..][5..];
      assert at.rest == ": " + d.value.message;
      assert line == Spaces(indent) + "- at " + at.value + ": " + d.value.message;
    }
    if n % 2 == 0 && exists at :: Quotation(at) && line == Spaces(n) + "- at " + at + ": " + message {
      var at :| Quotation(at) && line == Spaces(n) + "- at " + at + ": " + message;
      DiagnosticRead(line, n, at, message);
    }
  }

  lemma DiagnosticRead(line: string, n: nat, at: string, message: string)
    requires n % 2 == 0 && Quotation(at) && line == Spaces(n) + "- at " + at + ": " + message
    ensures ParseDiagnostic(line) == Some(Diagnostic(n, message))
  {
    hide Quoted, Quotation;
    LeadingSpacesUnique(line, n);
    assert line[n..] == "- at " + (at + ": " + message);
    assert line[n..][5..] == at + (": " + message);
    QuotedIff(line[n..][5..], at, ": " + message);
    assert (": " + message)[2..] == message;
  }

  // ---------- property lists ----------

  /** The three kinds of lists: what stands before the quotations and what after them. */
  ghost predicate ListForm(before: string, after: string) {
    || (before == "missing properties " && after == "")
    || (before == "additional properties " && after == " not allowed")
    || (before == "properties " && exists trigger :: Quotation(trigger) && after == " required, if " + trigger + " exists")
  }

  /** The message lists these properties, and blanks may follow. */
  ghost predicate Lists(message: string, before: string, tokens: seq<string>, after: string, blanks: string) {
    && message == before + Join(tokens, ", ") + after + blanks
    && ListForm(before, after)
    && tokens != [] && (forall i | 0 <= i < |tokens| :: Quotation(tokens[i]))
    && (forall i | 0 <= i < |blanks| :: blanks[i] in " \t\r")
  }

  lemma AcceptedIff(before: string, after: string)
    ensures before in {MISSING, ADDITIONAL, DEPENDENT} && AcceptedRest(before, after) <==> ListForm(before, after)
  {
    assert DEPENDENT[0] == 'p' && MISSING[0] == 'm' && ADDITIONAL[0] == 'a';
    TriggerIff(after);
    hide Quoted, Quotation, HasPrefix;
  }

  lemma TriggerIff(after: string)
    ensures (HasPrefix(after, REQUIRED_IF) && Quoted(after[|REQUIRED_IF|..]).Some? &&
             Quoted(after[|REQUIRED_IF|..]).value.rest == EXISTS) <==>
            (exists trigger :: Quotation(trigger) && after == " required, if " + trigger + " exists")
  {
    hide Quoted, Quotation;
    var n := |REQUIRED_IF|;
    if HasPrefix(after, REQUIRED_IF) && Quoted(after[n..]).Some? {
      var q := Quoted(after[n..]).value;
      QuotedIff(after[n..], q.value, q.rest);
      assert after == REQUIRED_IF + after[n..];
      if q.rest == EXISTS { assert after == " required, if " + q.value + " exists"; }
    }
    if exists trigger :: Quotation(trigger) && after == " required, if " + trigger + " exists" {
      var trigger :| Quotation(trigger) && after == " required, if " + trigger + " exists";
      assert after[..n] == REQUIRED_IF && after[n..] == trigger + EXISTS;
      QuotedIff(after[n..], trigger, EXISTS);
    }
  }

  lemma ListedRegular(message: string, before: string, tokens: seq<string>, after: string, blanks: string)
    requires Lists(message, before, tokens, after, blanks)
    ensures var p := PropertyList(before, tokens, after, blanks); p.Regular() && p.Print() == message
  {
    hide Join, IsToken, Quotation, AcceptedRest, ListForm;
    AcceptedIff(before, after);
    forall i | 0 <= i < |tokens| ensures IsToken(tokens[i]) { TokenIff(tokens[i]); }
  }

  /** A list of one of the three kinds comes out with its quotations in order and everything else as it was. */
  lemma ListSorted(message: string, before: string, tokens: seq<string>, after: string, blanks: string, sorted: seq<string>)
    requires Lists(message, before, tokens, after, blanks)
    requires multiset(sorted) == multiset(tokens) && SortedBy(sorted, LexLe)
    ensures Properties(message) == before + Join(sorted, ", ") + after + blanks
  {
    var p := PropertyList(before, tokens, after, blanks);
    ListedRegular(message, before, tokens, after, blanks);
    PrintThenParse(p);
    LexIsTotalOrder();
    SortSpec(tokens, LexLe);
    SortedIsUnique(Sort(tokens, LexLe), sorted, LexLe);
    hide Lists, ParseProperties, Join, LexLe, Sort;
  }

  lemma ParsedLists(message: string)
    requires ParseProperties(message).Some?
    ensures var p := ParseProperties(message).value; Lists(message, p.prefix, p.tokens, p.rest, p.trail)
  {
    var p := ParseProperties(message).value;
    ParseThenPrint(message);
    hide ParseProperties, Join, IsToken, Quotation, AcceptedRest, ListForm;
    AcceptedIff(p.prefix, p.rest);
    forall i | 0 <= i < |p.tokens| ensures Quotation(p.tokens[i]) { TokenIff(p.tokens[i]); }
  }

  /** Every other message is left as it is. */
  lemma OtherMessagesKept(message: string)
    requires forall before, tokens, after, blanks :: !Lists(message, before, tokens, after, blanks)
    ensures Properties(message) == message
  {
    hide Lists, ParseProperties;
    if ParseProperties(message).Some? { ParsedLists(message); }
  }

  // ---------- which lines a forest takes ----------

  /** A deeper diagnostic, or another line indented beyond `d`. */
  predicate Below(line: string, d: nat) {
    if IsDiagnostic(line) then Depth(line) > d else LeadingSpaces(line) > d
  }

  lemma ItemsStep(lines: seq<string>, d: nat)
    ensures lines == [] ==> ParseItems(lines, d).1 == 0
    ensures lines != [] && !Below(lines[0], d) ==> ParseItems(lines, d).1 == 0
    ensures lines != [] && Below(lines[0], d) ==>
              var k := if IsDiagnostic(lines[0]) then ParseForest(lines, Depth(lines[0])).1 else 1;
              0 < k <= |lines| && ParseItems(lines, d).1 == k + ParseItems(lines[k..], d).1
  {
    hide ParseForest, LeadingSpaces, ParseDiagnostic;
    if lines != [] && IsDiagnostic(lines[0]) { AtOwnDepth(lines[0]); }
  }

  lemma DeeperBelow(l: string, e: nat, d: nat)
    requires e > d && (At(l, e) || Below(l, e))
    ensures Below(l, d)
  {
    hide ParseDiagnostic, LeadingSpaces;
  }

  lemma {:induction false} ItemsTake(lines: seq<string>, d: nat)
    ensures var k := ParseItems(lines, d).1;
            && (forall l | l in lines[..k] :: Below(l, d))
            && (k < |lines| ==> !Below(lines[k], d))
    decreases |lines|, 1
  {
    ItemsStep(lines, d);
    if lines != [] && Below(lines[0], d) {
      var k := 1;
      if IsDiagnostic(lines[0]) {
        var e := Depth(lines[0]);
        k := ParseForest(lines, e).1;
        AtOwnDepth(lines[0]);
        ForestTakes(lines, e);
        forall l | l in lines[..k] ensures Below(l, d) { DeeperBelow(l, e, d); }
      }
      hide *;
      ItemsTake(lines[k..], d);
      var m := ParseItems(lines[k..], d).1;
      assert lines[..k + m] == lines[..k] + lines[k..][..m];
    }
  }

  /** A forest reaches to the first line that is neither one of its heads nor below them, and its
      blocks begin at the diagnostics of its own depth. */
  lemma {:induction false} ForestTakes(lines: seq<string>, d: nat)
    requires lines != [] && At(lines[0], d)
    ensures var (blocks, n) := ParseForest(lines, d);
            && (forall l | l in lines[..n] :: At(l, d) || Below(l, d))
            && (n < |lines| ==> !At(lines[n], d) && !Below(lines[n], d))
            && Heads(blocks) == AtDepth(lines[..n], d)
    decreases |lines|, 0
  {
    hide ParseDiagnostic, LeadingSpaces, ParseItems, ParseForest;
    var (items, k) := ParseItems(lines[1..], d);
    ItemsTake(lines[1..], d);
    ParseCons(lines, items, k, d);
    var rest := lines[1 + k..];
    var (more, m) := ParseForest(rest, d);
    if rest != [] && At(rest[0], d) { ForestTakes(rest, d); } else { NoForest(rest, d); }
    var n := 1 + k + m;
    ThreeSlices(lines, k, m);
    BelowOnly(lines[1..][..k], rest[..m], d);
    assert ([Block(lines[0], items)] + more)[1..] == more;
    hide Below, IsDiagnostic, Depth;
  }

  lemma ThreeSlices(lines: seq<string>, k: nat, m: nat)
    requires 1 + k + m <= |lines|
    ensures lines[..1 + k + m] == [lines[0]] + (lines[1..][..k] + lines[1 + k..][..m])
    ensures lines[..1 + k + m][1..] == lines[1..][..k] + lines[1 + k..][..m]
  {
  }

  function Heads(blocks: seq<Block>): seq<string> {
    if blocks == [] then [] else [blocks[0].head] + Heads(blocks[1..])
  }

  function AtDepth(lines: seq<string>, d: nat): seq<string> {
    if lines == [] then []
    else (if At(lines[0], d) then [lines[0]] else []) + AtDepth(lines[1..], d)
  }

  lemma {:induction false} BelowOnly(lines: seq<string>, more: seq<string>, d: nat)
    requires forall l | l in lines :: Below(l, d)
    ensures AtDepth(lines + more, d) == AtDepth(more, d)
  {
    if lines == [] {
      assert lines + more == more;
    } else {
      assert Below(lines[0], d);
      assert (lines + more)[1..] == lines[1..] + more;
      hide ParseDiagnostic, LeadingSpaces;
      BelowOnly(lines[1..], more, d);
    }
  }

  // ---------- a whole report ----------

  /** One diagnostic below the heading of a chart. */
  function OneDiagnostic(heading: string, at: string, message: string): string {
    "values don't meet the" + " specifications of" + " the schema(s) in" + " the following" + " chart(s):" + "\n" +
    (heading + "\n" + ("- at " + at + ": " + message))
  }

  /** In a report with the preamble Helm writes, a diagnostic below a chart heading has its message in order. */
  lemma ReportedInOrder(heading: string, at: string, message: string)
    requires OneLine(heading) && EndsWithColon(heading) && !IsDiagnostic(heading)
    requires Quotation(at) && OneLine(at) && OneLine(message)
    ensures SchemaText(OneDiagnostic(heading, at, message)) == OneDiagnostic(heading, at, Properties(message))
  {
    var line := "- at " + at + ": " + message;
    DiagnosticLine(at, message);
    PreambleIsPlain();
    hide ParseDiagnostic, Properties, Report, Quotation, EndsWithColon, OneLine, CanonicalLine;
    ReportSplit(heading, line);
    ReportSplit(heading, CanonicalLine(line));
    ThreeLines(heading, line);
    JoinThree(PREAMBLE, heading, CanonicalLine(line));
  }

  /** In particular properties that are not allowed are listed in order, and so they are for the other kinds. */
  lemma ListReportedInOrder(heading: string, at: string, message: string, before: string, tokens: seq<string>, after: string,
                            blanks: string, sorted: seq<string>)
    requires OneLine(heading) && EndsWithColon(heading) && !IsDiagnostic(heading)
    requires Quotation(at) && OneLine(at) && OneLine(message)
    requires Lists(message, before, tokens, after, blanks)
    requires multiset(sorted) == multiset(tokens) && SortedBy(sorted, LexLe)
    ensures SchemaText(OneDiagnostic(heading, at, message)) ==
            OneDiagnostic(heading, at, before + Join(sorted, ", ") + after + blanks)
  {
    hide *;
    ReportedInOrder(heading, at, message);
    ListSorted(message, before, tokens, after, blanks, sorted);
  }

  lemma DiagnosticLine(at: string, message: string)
    requires Quotation(at) && OneLine(at) && OneLine(message)
    ensures var line := "- at " + at + ": " + message;
            && OneLine(line) && Unindented(line) && Depth(line) == 0
            && CanonicalLine(line) == "- at " + at + ": " + Properties(message)
            && OneLine(CanonicalLine(line))
  {
    hide ParseDiagnostic, Properties, Quotation;
    var line := "- at " + at + ": " + message;
    assert Spaces(0) == "" && line == Spaces(0) + "- at " + at + ": " + message;
    DiagnosticRead(line, 0, at, message);
    assert line[..|line| - |message|] == "- at " + at + ": ";
    CanonicalLineOneLine(line);
  }

  lemma ReportSplit(heading: string, line: string)
    requires OneLine(PREAMBLE) && OneLine(heading) && OneLine(line)
    ensures SplitLines(PREAMBLE + "\n" + (heading + "\n" + line)) == [PREAMBLE, heading, line]
    ensures HasPrefix(PREAMBLE + "\n" + (heading + "\n" + line), PREAMBLE + "\n")
  {
    hide OneLine;
    SplitPrependsLine(PREAMBLE, heading + "\n" + line);
    SplitPrependsLine(heading, line);
    SplitOneLine(line);
  }

  lemma JoinThree(a: string, b: string, c: string)
    ensures Join([a, b, c], "\n") == a + "\n" + (b + "\n" + c)
  {
    assert [a, b, c][1..] == [b, c] && [b, c][1..] == [c];
    assert Join([b, c], "\n") == b + "\n" + c;
  }

  lemma ThreeLines(heading: string, line: string)
    requires EndsWithColon(heading) && !IsDiagnostic(heading) && Unindented(line) && !IsDiagnostic(PREAMBLE)
    ensures Report([PREAMBLE, heading, line], false) == [PREAMBLE, heading, CanonicalLine(line)]
  {
    hide ParseDiagnostic, EndsWithColon, ParseForest, Canonical, CanonicalLine, PrintForest;
    var all, two, one := [PREAMBLE, heading, line], [heading, line], [line];
    assert all[1..] == two && two[1..] == one && one[1..] == [];
    LastLine(line);
    ReportLine(two, false);
    ReportLine(all, false);
  }

  lemma LastLine(line: string)
    requires Unindented(line)
    ensures Report([line], true) == [CanonicalLine(line)]
  {
    assert [line][1..] == [];
    NoReport();
    if EndsWithColon(line) { ColonHeadKept(line); } else { LoneForest(line); }
    hide ParseDiagnostic, CanonicalLine, ParseForest, Report, EndsWithColon, Canonical, PrintForest;
    if EndsWithColon(line) { ReportLine([line], true); } else { ReportForest([line], true); }
  }

  lemma LoneForest(line: string)
    requires Unindented(line)
    ensures var (blocks, used) := ParseForest([line], 0);
            PrintForest(Canonical(blocks)) == [CanonicalLine(line)] && used == 1
  {
    hide ParseDiagnostic, LeadingSpaces, CanonicalLine, ParseForest;
    assert [line][1..] == [];
    assert ParseItems([], 0) == ([], 0);
    ParseCons([line], [], 0, 0);
    NoForest([], 0);
    var b := Block(line, []);
    assert [b] + [] == [b];
    CanonicalOne(b);
    assert PrintBlock(CanonicalBlock(b)) == [CanonicalLine(line)];
  }
}
