/** One line of a Helm schema report: quoted text, property lists and diagnostic heads
    (pkg/helm/schema_error.go, 62-76 and 120-195). Characters stand for bytes: stepping over a
    multi-byte rune one byte at a time reaches the same place, as none of its bytes is ASCII. */
module SchemaLine {
  import opened Ordering
  import opened Text

  predicate IsHex(c: char) {
    '0' <= c <= '9' || 'a' <= c <= 'f' || 'A' <= c <= 'F'
  }

  function HexDigit(c: char): nat
    requires IsHex(c)
  {
    if '0' <= c <= '9' then c as int - '0' as int
    else if 'a' <= c <= 'f' then c as int - 'a' as int + 10
    else c as int - 'A' as int + 10
  }

  predicate AllHex(s: string) {
    forall i | 0 <= i < |s| :: IsHex(s[i])
  }

  function HexValue(s: string): nat
    requires AllHex(s)
  {
    if s == "" then 0 else HexValue(s[..|s| - 1]) * 16 + HexDigit(s[|s| - 1])
  }

  predicate ValidRune(v: nat) {
    v < 0xD800 || 0xDFFF < v <= 0x10FFFF
  }

  predicate IsOctal(c: char) {
    '0' <= c <= '7'
  }

  /** How many characters `strconv.UnquoteChar(s, '\'')` consumes; 0 when it fails. */
  function UnquoteWidth(s: string): (w: nat)
    ensures w <= |s|
  {
    if s == "" || s[0] == '\'' then 0
    else if s[0] != '\\' then 1
    else if |s| < 2 then 0
    else if s[1] in {'a', 'b', 'f', 'n', 'r', 't', 'v', '\\', '\''} then 2
    else if s[1] == 'x' then if |s| >= 4 && AllHex(s[2..4]) then 4 else 0
    else if s[1] == 'u' then if |s| >= 6 && AllHex(s[2..6]) && ValidRune(HexValue(s[2..6])) then 6 else 0
    else if s[1] == 'U' then if |s| >= 10 && AllHex(s[2..10]) && ValidRune(HexValue(s[2..10])) then 10 else 0
    else if IsOctal(s[1]) then
      if |s| >= 4 && IsOctal(s[2]) && IsOctal(s[3]) && s[1] <= '3' then 4 else 0
    else 0
  }

  /** Whether unquoting succeeds depends on the consumed characters alone. */
  lemma UnquoteLocal(s: string, t: string)
    requires UnquoteWidth(s) > 0
    requires |t| >= UnquoteWidth(s) && t[..UnquoteWidth(s)] == s[..UnquoteWidth(s)]
    ensures UnquoteWidth(t) == UnquoteWidth(s)
  {
    var w := UnquoteWidth(s);
    assert forall i | 0 <= i < w :: t[i] == s[..w][i];
    if w > 2 {
      assert t[2..w] == t[..w][2..] == s[..w][2..] == s[2..w];
    }
  }

  /** Number of characters up to and including the closing quote, starting inside a quote. */
  function ClosingQuote(rest: string): (end: Option<nat>)
    ensures end.Some? ==> 0 < end.value <= |rest|
  {
    if rest == "" then None
    else if rest[0] == '\'' then Some(1)
    else
      var w := UnquoteWidth(rest);
      if w == 0 then None
      else match ClosingQuote(rest[w..])
        case None => None
        case Some(e) => Some(w + e)
  }

  lemma {:induction false} ClosingQuoteLocal(s: string, t: string)
    requires ClosingQuote(s).Some?
    requires |t| >= ClosingQuote(s).value && t[..ClosingQuote(s).value] == s[..ClosingQuote(s).value]
    ensures ClosingQuote(t) == ClosingQuote(s)
    decreases |s|
  {
    hide UnquoteWidth;
    var e := ClosingQuote(s).value;
    assert t[0] == t[..e][0] == s[0];
    if s[0] != '\'' {
      var w := UnquoteWidth(s);
      assert t[..w] == t[..e][..w] == s[..w];
      UnquoteLocal(s, t);
      assert t[w..][..e - w] == t[..e][w..] == s[w..][..e - w];
      ClosingQuoteLocal(s[w..], t[w..]);
    }
  }

  datatype QuotedText = QuotedText(value: string, rest: string)

  function Quoted(text: string): (q: Option<QuotedText>)
    ensures q.Some? ==> |q.value.value| >= 2 && text == q.value.value + q.value.rest
  {
    if !HasPrefix(text, "'") then None
    else match ClosingQuote(text[1..])
      case None => None
      case Some(e) => Some(QuotedText(text[..e + 1], text[e + 1..]))
  }

  /** The scan of `schemaQuoted`, which walks `rest` to the closing quote. */
  method SchemaQuoted(text: string) returns (q: Option<QuotedText>)
    ensures q == Quoted(text)
  {
    if !HasPrefix(text, "'") {
      return None;
    }
    var rest := text[1..];
    while rest != ""
      invariant |rest| < |text| && rest == text[|text| - |rest|..]
      invariant ClosingQuote(text[1..]) == match ClosingQuote(rest)
                                           case None => None
                                           case Some(e) => Some(|text| - |rest| - 1 + e)
      decreases |rest|
    {
      if rest[0] == '\'' {
        var end := |text| - |rest| + 1;
        return Some(QuotedText(text[..end], text[end..]));
      }
      var w := UnquoteWidth(rest);
      if w == 0 {
        return None;
      }
      rest := rest[w..];
    }
    return None;
  }

  /** A complete quotation, nothing after it. */
  predicate IsToken(t: string) {
    Quoted(t) == Some(QuotedText(t, ""))
  }

  /** A quotation is read back from any text it begins. */
  lemma QuotedLocal(text: string, more: string)
    requires Quoted(text).Some?
    ensures Quoted(Quoted(text).value.value + more) == Some(QuotedText(Quoted(text).value.value, more))
    ensures IsToken(Quoted(text).value.value)
  {
    var q := Quoted(text).value.value;
    var e := ClosingQuote(text[1..]).value;
    var t := q + more;
    assert q == text[..e + 1];
    assert t[..1] == text[..1];
    assert t[1..][..e] == text[1..][..e];
    ClosingQuoteLocal(text[1..], t[1..]);
    assert q[1..][..e] == text[1..][..e];
    ClosingQuoteLocal(text[1..], q[1..]);
    assert q[..e + 1] == q && q[e + 1..] == "";
    assert t[..e + 1] == q && t[e + 1..] == more;
  }

  // ---------- property lists ----------

  predicate IsTrailing(c: char) {
    c == ' ' || c == '\t' || c == '\r'
  }

  function TrimRight(s: string): (r: string)
    ensures |r| <= |s| && r == s[..|r|]
    ensures r != "" ==> !IsTrailing(r[|r| - 1])
    ensures forall i | |r| <= i < |s| :: IsTrailing(s[i])
  {
    if s != "" && IsTrailing(s[|s| - 1]) then TrimRight(s[..|s| - 1]) else s
  }

  lemma {:induction false} TrimRightOf(core: string, trail: string)
    requires core != "" && !IsTrailing(core[|core| - 1])
    requires forall i | 0 <= i < |trail| :: IsTrailing(trail[i])
    ensures TrimRight(core + trail) == core
    decreases |trail|
  {
    if trail == "" {
      assert core + trail == core;
    } else {
      assert (core + trail)[..|core + trail| - 1] == core + trail[..|trail| - 1];
      TrimRightOf(core, trail[..|trail| - 1]);
    }
  }

  const MISSING := "missing properties "
  const ADDITIONAL := "additional properties "
  const DEPENDENT := "properties "
  const NOT_ALLOWED := " not allowed"
  const REQUIRED_IF := " required, if "
  const EXISTS := " exists"

  function ListPrefix(core: string): (p: Option<string>)
    ensures p.Some? ==> HasPrefix(core, p.value)
  {
    if HasPrefix(core, MISSING) then Some(MISSING)
    else if HasPrefix(core, ADDITIONAL) then Some(ADDITIONAL)
    else if HasPrefix(core, DEPENDENT) then Some(DEPENDENT)
    else None
  }

  /** The comma-separated quotations `rest` begins with, and what follows them. */
  function Tokens(rest: string): (r: Option<(seq<string>, string)>)
    decreases |rest|
  {
    match Quoted(rest)
    case None => None
    case Some(q) =>
      if HasPrefix(q.rest, ", ") then
        Found([q.value], Tokens(q.rest[2..]))
      else Some(([q.value], q.rest))
  }

  function Found(before: seq<string>, r: Option<(seq<string>, string)>): Option<(seq<string>, string)> {
    match r
    case None => None
    case Some(more) => Some((before + more.0, more.1))
  }

  /** What may follow the tokens of a list with this prefix. */
  predicate AcceptedRest(prefix: string, rest: string) {
    if prefix == MISSING then rest == ""
    else if prefix == ADDITIONAL then rest == NOT_ALLOWED
    else HasPrefix(rest, REQUIRED_IF) && match Quoted(rest[|REQUIRED_IF|..])
      case None => false
      case Some(q) => q.rest == EXISTS
  }

  datatype PropertyList = PropertyList(prefix: string, tokens: seq<string>, rest: string, trail: string) {
    predicate Regular() {
      && prefix in {MISSING, ADDITIONAL, DEPENDENT}
      && tokens != [] && (forall i | 0 <= i < |tokens| :: IsToken(tokens[i]))
      && AcceptedRest(prefix, rest)
      && (forall i | 0 <= i < |trail| :: IsTrailing(trail[i]))
    }

    function Print(): string {
      prefix + Join(tokens, ", ") + rest + trail
    }

    function Canonical(): PropertyList {
      this.(tokens := Sort(tokens, LexLe))
    }
  }

  function ParseProperties(message: string): Option<PropertyList> {
    var core := TrimRight(message);
    match ListPrefix(core)
    case None => None
    case Some(prefix) =>
      match Tokens(core[|prefix|..])
      case None => None
      case Some(found) =>
        if AcceptedRest(prefix, found.1)
        then Some(PropertyList(prefix, found.0, found.1, message[|core|..]))
        else None
  }

  function Properties(message: string): string {
    match ParseProperties(message)
    case None => message
    case Some(list) => list.Canonical().Print()
  }

  /** `schemaProperties`: the loop collects tokens, then checks what follows and sorts. */
  method SchemaProperties(message: string) returns (out: string)
    ensures out == Properties(message)
  {
    var core := TrimRight(message);
    var prefix;
    if HasPrefix(core, MISSING) {
      prefix := MISSING;
    } else if HasPrefix(core, ADDITIONAL) {
      prefix := ADDITIONAL;
    } else if HasPrefix(core, DEPENDENT) {
      prefix := DEPENDENT;
    } else {
      return message;
    }
    assert ListPrefix(core) == Some(prefix);
    var rest := core[|prefix|..];
    var tokens: seq<string> := [];
    PropertiesOf(message, core, prefix);
    hide Quoted, Tokens, TrimRight, ListPrefix, Properties, ParseProperties, Sort;
    FoundNothing(Tokens(rest));
    while true
      invariant Tokens(core[|prefix|..]) == Found(tokens, Tokens(rest))
      decreases |rest|
    {
      var quoted := SchemaQuoted(rest);
      TokensStep(tokens, rest);
      if quoted.None? {
        return message;
      }
      tokens := tokens + [quoted.value.value];
      rest := quoted.value.rest;
      if HasPrefix(rest, ", ") {
        rest := rest[2..];
      } else {
        break;
      }
    }
    assert Tokens(core[|prefix|..]) == Some((tokens, rest));
    if prefix == MISSING {
      if rest != "" { return message; }
    } else if prefix == ADDITIONAL {
      if rest != NOT_ALLOWED { return message; }
    } else {
      if !HasPrefix(rest, REQUIRED_IF) { return message; }
      var trigger := SchemaQuoted(rest[|REQUIRED_IF|..]);
      if trigger.None? || trigger.value.rest != EXISTS { return message; }
    }
    out := prefix + Join(Sort(tokens, LexLe), ", ") + rest + message[|core|..];
  }

  lemma PropertiesOf(message: string, core: string, prefix: string)
    requires core == TrimRight(message) && ListPrefix(core) == Some(prefix)
    ensures Properties(message) ==
            match Tokens(core[|prefix|..])
            case None => message
            case Some(found) =>
              if AcceptedRest(prefix, found.1)
              then prefix + Join(Sort(found.0, LexLe), ", ") + found.1 + message[|core|..]
              else message
  {
    hide Quoted, Tokens, AcceptedRest, TrimRight, Sort, Join;
  }

  lemma FoundNothing(r: Option<(seq<string>, string)>)
    ensures Found([], r) == r
  {
    if r.Some? { assert [] + r.value.0 == r.value.0; }
  }

  lemma TokensStep(before: seq<string>, rest: string)
    ensures Found(before, Tokens(rest)) ==
            match Quoted(rest)
            case None => None
            case Some(q) =>
              if HasPrefix(q.rest, ", ") then Found(before + [q.value], Tokens(q.rest[2..]))
              else Some((before + [q.value], q.rest))
  {
    if Quoted(rest).Some? {
      var q := Quoted(rest).value;
      if HasPrefix(q.rest, ", ") && Tokens(q.rest[2..]).Some? {
        var more := Tokens(q.rest[2..]).value.0;
        assert before + ([q.value] + more) == before + [q.value] + more;
      }
    }
  }

  lemma {:induction false} TokensPrint(rest: string)
    requires Tokens(rest).Some?
    ensures var (tokens, tail) := Tokens(rest).value;
            && tokens != [] && (forall i | 0 <= i < |tokens| :: IsToken(tokens[i]))
            && rest == Join(tokens, ", ") + tail
    decreases |rest|
  {
    hide Quoted;
    var q := Quoted(rest).value;
    QuotedLocal(rest, "");
    if HasPrefix(q.rest, ", ") {
      TokensPrint(q.rest[2..]);
      var (tokens, tail) := Tokens(q.rest[2..]).value;
      assert ([q.value] + tokens)[1..] == tokens;
      assert q.rest == ", " + q.rest[2..];
      calc {
        rest;
        q.value + (", " + (Join(tokens, ", ") + tail));
        Join([q.value] + tokens, ", ") + tail;
      }
    }
  }

  lemma {:induction false} TokensOfPrinted(tokens: seq<string>, tail: string)
    requires tokens != [] && forall i | 0 <= i < |tokens| :: IsToken(tokens[i])
    requires !HasPrefix(tail, ", ")
    ensures Tokens(Join(tokens, ", ") + tail) == Some((tokens, tail))
  {
    hide Quoted;
    if |tokens| == 1 {
      QuotedLocal(tokens[0], tail);
      assert tokens == [tokens[0]];
    } else {
      var more := Join(tokens[1..], ", ") + tail;
      QuotedLocal(tokens[0], ", " + more);
      assert Join(tokens, ", ") + tail == tokens[0] + (", " + more) by {
        assert Join(tokens, ", ") == tokens[0] + ", " + Join(tokens[1..], ", ");
      }
      assert (", " + more)[2..] == more;
      TokensOfPrinted(tokens[1..], tail);
      assert [tokens[0]] + tokens[1..] == tokens;
    }
  }

  lemma PrintOf(p: PropertyList)
    ensures p.Print() == p.prefix + (Join(p.tokens, ", ") + p.rest) + p.trail
  {
    hide Join;
  }

  /** Parsing loses nothing: a recognised message is the print of its list. */
  lemma ParseThenPrint(message: string)
    requires ParseProperties(message).Some?
    ensures ParseProperties(message).value.Regular()
    ensures ParseProperties(message).value.Print() == message
  {
    hide Quoted, Tokens, IsToken, AcceptedRest;
    var core := TrimRight(message);
    var p := ParseProperties(message).value;
    TokensPrint(core[|p.prefix|..]);
    hide *;
    assert core == p.prefix + core[|p.prefix|..];
    assert message == core + p.trail;
    PrintOf(p);
  }

  lemma RestEnd(prefix: string, rest: string)
    requires AcceptedRest(prefix, rest)
    ensures !HasPrefix(rest, ", ")
    ensures rest != "" ==> rest[|rest| - 1] in {'d', 's'}
  {
    if prefix != MISSING && prefix != ADDITIONAL {
      var q := Quoted(rest[|REQUIRED_IF|..]).value;
      assert rest[|rest| - 1] == q.rest[|q.rest| - 1];
      assert rest[..|REQUIRED_IF|][0] == ' ';
    }
    assert rest != "" ==> rest[0] == ' ';
    assert |rest| >= 2 ==> rest[..2][0] == rest[0];
  }

  lemma {:induction false} JoinEndsWithQuote(tokens: seq<string>)
    requires tokens != [] && forall i | 0 <= i < |tokens| :: IsToken(tokens[i])
    ensures Join(tokens, ", ") != ""
    ensures Join(tokens, ", ")[|Join(tokens, ", ")| - 1] == '\''
  {
    if |tokens| == 1 {
      TokenEnd(tokens[0][1..]);
    } else {
      JoinEndsWithQuote(tokens[1..]);
    }
  }

  lemma {:induction false} TokenEnd(rest: string)
    requires ClosingQuote(rest).Some?
    ensures rest[ClosingQuote(rest).value - 1] == '\''
    decreases |rest|
  {
    if rest[0] != '\'' {
      TokenEnd(rest[UnquoteWidth(rest)..]);
    }
  }

  /** Printing loses nothing either: a regular list is parsed back from its print. */
  lemma PrintThenParse(p: PropertyList)
    requires p.Regular()
    ensures ParseProperties(p.Print()) == Some(p)
  {
    hide Quoted, Tokens, IsToken, AcceptedRest, TrimRight, ListPrefix;
    var body := Join(p.tokens, ", ") + p.rest;
    var core := p.prefix + body;
    RestEnd(p.prefix, p.rest);
    JoinEndsWithQuote(p.tokens);
    PrintOf(p);
    TokensOfPrinted(p.tokens, p.rest);
    hide Join;
    assert core[|core| - 1] == body[|body| - 1];
    TrimRightOf(core, p.trail);
    assert core[..|p.prefix|] == p.prefix && core[|p.prefix|..] == body;
    PrefixesExclude(p.prefix, core);
    assert (core + p.trail)[|core|..] == p.trail;
  }

  lemma PrefixesExclude(prefix: string, core: string)
    requires prefix in {MISSING, ADDITIONAL, DEPENDENT}
    requires HasPrefix(core, prefix)
    ensures ListPrefix(core) == Some(prefix)
  {
    assert core[0] == prefix[0];
    if HasPrefix(core, MISSING) { assert core[0] == MISSING[0] == 'm'; }
    if HasPrefix(core, ADDITIONAL) { assert core[0] == ADDITIONAL[0] == 'a'; }
    if HasPrefix(core, DEPENDENT) { assert core[0] == DEPENDENT[0] == 'p'; }
  }

  lemma CanonicalRegular(p: PropertyList)
    requires p.Regular()
    ensures p.Canonical().Regular()
    ensures p.Canonical().Canonical() == p.Canonical()
  {
    LexIsTotalOrder();
    var sorted := Sort(p.tokens, LexLe);
    SortSpec(p.tokens, LexLe);
    forall i | 0 <= i < |sorted| ensures IsToken(sorted[i]) {
      assert sorted[i] in multiset(sorted);
      assert sorted[i] in p.tokens;
    }
    SortOfSorted(sorted, LexLe);
  }

  /** Two messages that list the same properties, in any order. */
  ghost predicate SameProperties(a: string, b: string) {
    a == b ||
    (ParseProperties(a).Some? && ParseProperties(b).Some? &&
     var p, q := ParseProperties(a).value, ParseProperties(b).value;
     p.prefix == q.prefix && p.rest == q.rest && p.trail == q.trail && multiset(p.tokens) == multiset(q.tokens))
  }

  /** `schemaProperties` is a canonical form for reordering tokens: it equates exactly the
      messages that differ by such a reordering, stays in its class and is idempotent. */
  lemma PropertiesCanonical(a: string, b: string)
    ensures Properties(a) == Properties(b) <==> SameProperties(a, b)
    ensures SameProperties(a, Properties(a))
    ensures Properties(Properties(a)) == Properties(a)
  {
    hide Quoted, Tokens, IsToken, AcceptedRest;
    LexIsTotalOrder();
    PropertiesParse(a);
    PropertiesParse(b);
    if ParseProperties(a).Some? {
      SortSpec(ParseProperties(a).value.tokens, LexLe);
    }
    if ParseProperties(a).Some? && ParseProperties(b).Some? {
      var p, q := ParseProperties(a).value, ParseProperties(b).value;
      SortForgetsOrder(p.tokens, q.tokens, LexLe);
    }
  }

  lemma PropertiesParse(a: string)
    ensures ParseProperties(Properties(a)) ==
            match ParseProperties(a) case None => None case Some(p) => Some(p.Canonical())
    ensures ParseProperties(a).Some? ==>
              ParseProperties(a).value.Canonical().Canonical() == ParseProperties(a).value.Canonical()
  {
    if ParseProperties(a).Some? {
      var p := ParseProperties(a).value;
      ParseThenPrint(a);
      CanonicalRegular(p);
      PrintThenParse(p.Canonical());
    }
  }

  lemma EndOfList(message: string)
    requires ParseProperties(message).Some?
    ensures message != ""
    ensures IsTrailing(message[|message| - 1]) || message[|message| - 1] in {'d', 's', '\''}
  {
    var p := ParseProperties(message).value;
    ParseThenPrint(message);
    RestEnd(p.prefix, p.rest);
    JoinEndsWithQuote(p.tokens);
    var body := p.prefix + Join(p.tokens, ", ");
    hide ParseProperties, AcceptedRest, Join;
    assert message == body + p.rest + p.trail;
  }

  /** A message ending with a colon lists no properties. */
  lemma ColonIsNoList(message: string)
    requires message != "" && message[|message| - 1] == ':'
    ensures ParseProperties(message) == None
  {
    hide ParseProperties;
    if ParseProperties(message).Some? { EndOfList(message); }
  }

  // ---------- diagnostic heads ----------

  function LeadingSpaces(line: string): (n: nat)
    ensures n <= |line|
    ensures forall i | 0 <= i < n :: line[i] == ' '
    ensures n < |line| ==> line[n] != ' '
  {
    if line == "" || line[0] != ' ' then 0 else 1 + LeadingSpaces(line[1..])
  }

  lemma {:induction false} LeadingSpacesUnique(line: string, n: nat)
    requires n < |line| && line[n] != ' ' && forall i | 0 <= i < n :: line[i] == ' '
    ensures LeadingSpaces(line) == n
  {
  }

  datatype Diagnostic = Diagnostic(indent: nat, message: string)

  const AT := "- at "

  /** `schemaDiagnostic`: an even indent, a quoted location and a message. */
  function ParseDiagnostic(line: string): (d: Option<Diagnostic>)
    ensures d.Some? ==> d.value.indent == LeadingSpaces(line) && |d.value.message| < |line|
    ensures d.Some? ==> d.value.message == line[|line| - |d.value.message|..]
  {
    var indent := LeadingSpaces(line);
    var trimmed := line[indent..];
    if !HasPrefix(trimmed, AT) || indent % 2 != 0 then None
    else match Quoted(trimmed[|AT|..])
      case None => None
      case Some(q) =>
        if HasPrefix(q.rest, ": ") then Some(Diagnostic(indent, q.rest[2..])) else None
  }

  /** Replacing the message of a diagnostic replaces it in what is parsed, and nothing else. */
  lemma DiagnosticWithMessage(line: string, message: string)
    requires ParseDiagnostic(line).Some?
    ensures ParseDiagnostic(line[..|line| - |ParseDiagnostic(line).value.message|] + message) ==
            Some(Diagnostic(ParseDiagnostic(line).value.indent, message))
  {
    hide ClosingQuote, Quoted, IsToken;
    var d := ParseDiagnostic(line).value;
    var body := line[d.indent..][|AT|..];
    var q := Quoted(body).value;
    var changed := line[..|line| - |d.message|] + message;
    assert q.rest == ": " + d.message;
    assert line == line[..d.indent] + AT + q.value + ": " + d.message;
    assert changed == line[..d.indent] + AT + q.value + ": " + message;
    LeadingSpacesUnique(changed, d.indent);
    assert changed[d.indent..] == AT + q.value + ": " + message;
    assert changed[d.indent..][|AT|..] == q.value + (": " + message);
    QuotedLocal(body, ": " + message);
    assert (": " + message)[2..] == message;
  }

  /** A line with the property tokens of its diagnostic sorted; other lines are kept. */
  function CanonicalLine(line: string): string {
    match ParseDiagnostic(line)
    case None => line
    case Some(d) => line[..|line| - |d.message|] + Properties(d.message)
  }

  lemma CanonicalLineSettled(line: string)
    ensures CanonicalLine(CanonicalLine(line)) == CanonicalLine(line)
    ensures ParseDiagnostic(CanonicalLine(line)).Some? == ParseDiagnostic(line).Some?
    ensures ParseDiagnostic(line).Some? ==>
              ParseDiagnostic(CanonicalLine(line)).value.indent == ParseDiagnostic(line).value.indent
  {
    if ParseDiagnostic(line).Some? {
      var d := ParseDiagnostic(line).value;
      var head := line[..|line| - |d.message|];
      DiagnosticWithMessage(line, Properties(d.message));
      PropertiesCanonical(d.message, d.message);
      assert (head + Properties(d.message))[..|head|] == head;
    }
  }

  lemma {:induction false} JoinOneLine(parts: seq<string>, sep: string)
    requires OneLine(sep) && AllOneLine(parts)
    ensures OneLine(Join(parts, sep))
  {
    if |parts| > 1 { JoinOneLine(parts[1..], sep); }
  }

  lemma PropertiesOneLine(message: string)
    requires OneLine(message)
    ensures OneLine(Properties(message))
  {
    hide Quoted, Tokens, IsToken, AcceptedRest, TrimRight;
    if ParseProperties(message).Some? {
      var p := ParseProperties(message).value;
      ParseThenPrint(message);
      hide ParseProperties;
      assert p.Print() == p.prefix + Join(p.tokens, ", ") + (p.rest + p.trail);
      TokensOneLine(p.tokens, p.prefix, p.rest + p.trail);
      LexIsTotalOrder();
      SortSpec(p.tokens, LexLe);
      var sorted := Sort(p.tokens, LexLe);
      forall i | 0 <= i < |sorted| ensures OneLine(sorted[i]) {
        assert sorted[i] in multiset(sorted);
        assert sorted[i] in p.tokens;
      }
      JoinOneLine(sorted, ", ");
      assert p.Canonical().Print() == p.prefix + Join(sorted, ", ") + (p.rest + p.trail);
    }
  }

  lemma CanonicalLineOneLine(line: string)
    requires OneLine(line)
    ensures OneLine(CanonicalLine(line))
  {
    hide Properties;
    if ParseDiagnostic(line).Some? {
      PropertiesOneLine(ParseDiagnostic(line).value.message);
    }
  }

  lemma {:induction false} TokensOneLine(tokens: seq<string>, before: string, after: string)
    requires OneLine(before + Join(tokens, ", ") + after)
    ensures AllOneLine(tokens) && OneLine(before) && OneLine(after)
  {
    var s := before + Join(tokens, ", ") + after;
    forall c | c in before || c in Join(tokens, ", ") || c in after ensures c in s {}
    if |tokens| > 1 {
      assert Join(tokens, ", ") == (tokens[0] + ", ") + Join(tokens[1..], ", ") + "";
      TokensOneLine(tokens[1..], tokens[0] + ", ", "");
    }
  }
}
