/** The two views of a diff (internal/output/html.go, 210-298, 323-340 and 441-507): neither loses, repeats or
    reorders a line of either side, and both fold the same runs away. */
module DiffRows {
  import opened Text

  /** A line as shown: its text, and how it is marked up. */
  datatype Html = Html(text: string, markup: string)

  datatype Tag = Equal | Delete | Insert | Replace

  datatype Opcode = Opcode(tag: Tag, i1: nat, i2: nat, j1: nat, j2: nat)

  type Groups = seq<seq<Opcode>>

  datatype RowKind = Context | Added | Deleted | Blank

  datatype Row =
    | Expander(fold: nat, count: nat)
    | Line(folded: Option<nat>, kind: RowKind, oldNo: nat, newNo: nat, html: Html)

  datatype Cell = Cell(kind: RowKind, no: nat, html: Html)

  datatype SideRow =
    | SideExpander(fold: nat, count: nat)
    | SideLine(folded: Option<nat>, left: Cell, right: Cell)

  const EMPTY := Html("", "")
  const NO_CELL := Cell(Blank, 0, EMPTY)

  // ---------- what grouped opcodes promise ----------

  ghost predicate SameText(ah: seq<Html>, bh: seq<Html>, i: nat, j: nat, n: nat) {
    && i + n <= |ah| && j + n <= |bh|
    && forall k, l | i <= k < i + n && l == j + (k - i) :: ah[k].text == bh[l].text
  }

  ghost predicate WellFormed(ah: seq<Html>, bh: seq<Html>, op: Opcode) {
    && op.i1 <= op.i2 <= |ah| && op.j1 <= op.j2 <= |bh|
    && match op.tag
       case Equal => op.i2 - op.i1 == op.j2 - op.j1 && SameText(ah, bh, op.i1, op.j1, op.i2 - op.i1)
       case Delete => op.j1 == op.j2
       case Insert => op.i1 == op.i2
       case Replace => true
  }

  /** Each opcode starts where the one before it ends. */
  ghost predicate Consecutive(ah: seq<Html>, bh: seq<Html>, group: seq<Opcode>) {
    && group != []
    && (forall k | 0 <= k < |group| :: WellFormed(ah, bh, group[k]))
    && forall k | 0 < k < |group| :: group[k].i1 == group[k - 1].i2 && group[k].j1 == group[k - 1].j2
  }

  function Last(group: seq<Opcode>): Opcode
    requires group != []
  {
    group[|group| - 1]
  }

  /** Where group g - 1 ends; before the first group, the start of both sides. */
  function EndBefore(groups: Groups, g: nat): (nat, nat)
    requires g <= |groups| && forall k | 0 <= k < |groups| :: groups[k] != []
  {
    if g == 0 then (0, 0) else (Last(groups[g - 1]).i2, Last(groups[g - 1]).j2)
  }

  /** Where group g starts; after the last group, the end of both sides. */
  function StartOf(groups: Groups, g: nat, n: nat, m: nat): (nat, nat)
    requires g <= |groups| && forall k | 0 <= k < |groups| :: groups[k] != []
  {
    if g == |groups| then (n, m) else (groups[g][0].i1, groups[g][0].j1)
  }

  /** Between the groups, before the first and after the last lie runs of equal lines. */
  ghost predicate Grouped(ah: seq<Html>, bh: seq<Html>, groups: Groups) {
    && (forall g | 0 <= g < |groups| :: Consecutive(ah, bh, groups[g]))
    && forall g | 0 <= g <= |groups| ::
      var (i, j) := EndBefore(groups, g); var (x, y) := StartOf(groups, g, |ah|, |bh|);
      i <= x && j <= y && x - i == y - j && SameText(ah, bh, i, j, x - i)
  }

  // ---------- the lines of a view ----------

  /** Line numbers with their text, of one side, from lo up to hi. */
  function Lines(h: seq<Html>, lo: nat, hi: nat): (s: seq<(nat, string)>)
    requires lo <= hi <= |h|
    ensures |s| == hi - lo
  {
    seq(hi - lo, k requires 0 <= k < hi - lo => var no: nat := lo + k + 1; (no, h[lo + k].text))
  }

  lemma LinesJoin(h: seq<Html>, lo: nat, mid: nat, hi: nat)
    requires lo <= mid <= hi <= |h|
    ensures Lines(h, lo, mid) + Lines(h, mid, hi) == Lines(h, lo, hi)
  {
  }

  lemma OneLine(h: seq<Html>, lo: nat, hi: nat)
    requires lo <= hi < |h|
    ensures Lines(h, lo, hi) + [(hi + 1, h[hi].text)] == Lines(h, lo, hi + 1)
  {
  }

  function OldOf(rows: seq<Row>): seq<(nat, string)> {
    if rows == [] then []
    else
      var r := rows[|rows| - 1];
      OldOf(rows[..|rows| - 1]) + (if r.Line? && (r.kind == Context || r.kind == Deleted) then [(r.oldNo, r.html.text)] else [])
  }

  function NewOf(rows: seq<Row>): seq<(nat, string)> {
    if rows == [] then []
    else
      var r := rows[|rows| - 1];
      NewOf(rows[..|rows| - 1]) + (if r.Line? && (r.kind == Context || r.kind == Added) then [(r.newNo, r.html.text)] else [])
  }

  function FoldsOf(rows: seq<Row>): seq<(nat, nat)> {
    if rows == [] then []
    else
      var r := rows[|rows| - 1];
      FoldsOf(rows[..|rows| - 1]) + (if r.Expander? then [(r.fold, r.count)] else [])
  }

  function LeftOf(rows: seq<SideRow>): seq<(nat, string)> {
    if rows == [] then []
    else
      var r := rows[|rows| - 1];
      LeftOf(rows[..|rows| - 1]) + (if r.SideLine? && (r.left.kind == Context || r.left.kind == Deleted) then [(r.left.no, r.left.html.text)] else [])
  }

  function RightOf(rows: seq<SideRow>): seq<(nat, string)> {
    if rows == [] then []
    else
      var r := rows[|rows| - 1];
      RightOf(rows[..|rows| - 1]) + (if r.SideLine? && (r.right.kind == Context || r.right.kind == Added) then [(r.right.no, r.right.html.text)] else [])
  }

  function SideFoldsOf(rows: seq<SideRow>): seq<(nat, nat)> {
    if rows == [] then []
    else
      var r := rows[|rows| - 1];
      SideFoldsOf(rows[..|rows| - 1]) + (if r.SideExpander? then [(r.fold, r.count)] else [])
  }

  lemma OneMoreRow(rows: seq<Row>, r: Row)
    ensures OldOf(rows + [r]) == OldOf(rows) + (if r.Line? && (r.kind == Context || r.kind == Deleted) then [(r.oldNo, r.html.text)] else [])
    ensures NewOf(rows + [r]) == NewOf(rows) + (if r.Line? && (r.kind == Context || r.kind == Added) then [(r.newNo, r.html.text)] else [])
    ensures FoldsOf(rows + [r]) == FoldsOf(rows) + (if r.Expander? then [(r.fold, r.count)] else [])
  {
    assert (rows + [r])[..|rows|] == rows;
  }

  lemma OneMoreSideRow(rows: seq<SideRow>, r: SideRow)
    ensures LeftOf(rows + [r]) == LeftOf(rows) + (if r.SideLine? && (r.left.kind == Context || r.left.kind == Deleted) then [(r.left.no, r.left.html.text)] else [])
    ensures RightOf(rows + [r]) == RightOf(rows) + (if r.SideLine? && (r.right.kind == Context || r.right.kind == Added) then [(r.right.no, r.right.html.text)] else [])
    ensures SideFoldsOf(rows + [r]) == SideFoldsOf(rows) + (if r.SideExpander? then [(r.fold, r.count)] else [])
  {
    assert (rows + [r])[..|rows|] == rows;
  }

  // ---------- what a row shows ----------

  /** How many rows an opcode takes in the unified view: a replaced part takes all of its old lines and then
      all of its new ones. */
  function UnifiedCount(op: Opcode): int {
    if op.tag == Equal || op.tag == Delete then op.i2 - op.i1
    else if op.tag == Insert then op.j2 - op.j1
    else (op.i2 - op.i1) + (op.j2 - op.j1)
  }

  /** The kth row of an opcode in the unified view. */
  ghost predicate UnifiedRow(ah: seq<Html>, bh: seq<Html>, op: Opcode, k: nat, r: Row)
    requires WellFormed(ah, bh, op) && k < UnifiedCount(op)
  {
    if op.tag == Equal then r == Line(None, Context, op.i1 + k + 1, op.j1 + k + 1, ah[op.i1 + k])
    else
      var dn := if op.tag == Insert then 0 else op.i2 - op.i1;
      if k < dn then r == Line(None, Deleted, op.i1 + k + 1, 0, ah[op.i1 + k])
      else r == Line(None, Added, 0, op.j1 + (k - dn) + 1, bh[op.j1 + (k - dn)])
  }

  /** Side by side a replaced part takes as many rows as its longer side. */
  function SideCount(op: Opcode): int {
    if op.tag == Insert then op.j2 - op.j1
    else if op.tag == Replace then if op.i2 - op.i1 < op.j2 - op.j1 then op.j2 - op.j1 else op.i2 - op.i1
    else op.i2 - op.i1
  }

  /** The kth row of an opcode side by side: equal lines and replaced ones are aligned, the rest faces blanks. */
  ghost predicate SideRowAt(ah: seq<Html>, bh: seq<Html>, op: Opcode, k: nat, r: SideRow)
    requires WellFormed(ah, bh, op) && k < SideCount(op)
  {
    && r.SideLine? && r.folded == None
    && r.left == (if op.tag == Insert || k >= op.i2 - op.i1 then NO_CELL
                  else Cell(if op.tag == Equal then Context else Deleted, op.i1 + k + 1, ah[op.i1 + k]))
    && r.right == (if op.tag == Delete || k >= op.j2 - op.j1 then NO_CELL
                   else Cell(if op.tag == Equal then Context else Added, op.j1 + k + 1, bh[op.j1 + k]))
  }

  ghost predicate UnifiedSoFar(ah: seq<Html>, bh: seq<Html>, op: Opcode, added: seq<Row>) {
    && WellFormed(ah, bh, op) && |added| <= UnifiedCount(op)
    && forall k | 0 <= k < |added| :: UnifiedRow(ah, bh, op, k, added[k])
  }

  ghost predicate SideSoFar(ah: seq<Html>, bh: seq<Html>, op: Opcode, added: seq<SideRow>) {
    && WellFormed(ah, bh, op) && |added| <= SideCount(op)
    && forall k | 0 <= k < |added| :: SideRowAt(ah, bh, op, k, added[k])
  }

  lemma UnifiedNext(ah: seq<Html>, bh: seq<Html>, op: Opcode, rows: seq<Row>, out: seq<Row>, r: Row)
    requires |rows| <= |out| && out[..|rows|] == rows && UnifiedSoFar(ah, bh, op, out[|rows|..])
    requires |out| - |rows| < UnifiedCount(op) && UnifiedRow(ah, bh, op, |out| - |rows|, r)
    ensures (out + [r])[..|rows|] == rows && UnifiedSoFar(ah, bh, op, (out + [r])[|rows|..])
  {
    hide WellFormed, UnifiedRow, UnifiedCount;
    assert (out + [r])[|rows|..] == out[|rows|..] + [r];
  }

  lemma SideNext(ah: seq<Html>, bh: seq<Html>, op: Opcode, rows: seq<SideRow>, out: seq<SideRow>, r: SideRow)
    requires |rows| <= |out| && out[..|rows|] == rows && SideSoFar(ah, bh, op, out[|rows|..])
    requires |out| - |rows| < SideCount(op) && SideRowAt(ah, bh, op, |out| - |rows|, r)
    ensures (out + [r])[..|rows|] == rows && SideSoFar(ah, bh, op, (out + [r])[|rows|..])
  {
    hide WellFormed, SideRowAt, SideCount;
    assert (out + [r])[|rows|..] == out[|rows|..] + [r];
  }

  ghost predicate FoldedRow(ah: seq<Html>, g: nat, gap: Gap, r: Row) {
    && r.Line? && r.folded == Some(g) && r.kind == Context
    && gap.oldStart < r.oldNo <= gap.oldStart + gap.count && r.newNo == r.oldNo - gap.oldStart + gap.newStart
    && r.oldNo <= |ah| && r.html == ah[r.oldNo - 1]
  }

  ghost predicate FoldedSideRow(ah: seq<Html>, bh: seq<Html>, g: nat, gap: Gap, r: SideRow) {
    && r.SideLine? && r.folded == Some(g) && r.left.kind == r.right.kind == Context
    && gap.oldStart < r.left.no <= gap.oldStart + gap.count && r.right.no == r.left.no - gap.oldStart + gap.newStart
    && r.left.no <= |ah| && r.left.html == ah[r.left.no - 1] && r.right.no <= |bh| && r.right.html == bh[r.right.no - 1]
  }

  ghost predicate ShownBy(ah: seq<Html>, bh: seq<Html>, op: Opcode, r: Row) {
    WellFormed(ah, bh, op) && exists k: nat :: k < UnifiedCount(op) && UnifiedRow(ah, bh, op, k, r)
  }

  ghost predicate SideShownBy(ah: seq<Html>, bh: seq<Html>, op: Opcode, r: SideRow) {
    WellFormed(ah, bh, op) && exists k: nat :: k < SideCount(op) && SideRowAt(ah, bh, op, k, r)
  }

  /** The row announces a fold, is a line of it, or is a row of some opcode. */
  ghost predicate RowOf(ah: seq<Html>, bh: seq<Html>, groups: Groups, gaps: seq<Gap>, r: Row) {
    || r.Expander?
    || (exists g :: 0 <= g < |gaps| && FoldedRow(ah, g, gaps[g], r))
    || (exists g, k :: 0 <= g < |groups| && 0 <= k < |groups[g]| && ShownBy(ah, bh, groups[g][k], r))
  }

  ghost predicate SideRowOf(ah: seq<Html>, bh: seq<Html>, groups: Groups, gaps: seq<Gap>, r: SideRow) {
    || r.SideExpander?
    || (exists g :: 0 <= g < |gaps| && FoldedSideRow(ah, bh, g, gaps[g], r))
    || (exists g, k :: 0 <= g < |groups| && 0 <= k < |groups[g]| && SideShownBy(ah, bh, groups[g][k], r))
  }

  ghost predicate RowsOf(ah: seq<Html>, bh: seq<Html>, groups: Groups, gaps: seq<Gap>, rows: seq<Row>) {
    forall k | 0 <= k < |rows| :: RowOf(ah, bh, groups, gaps, rows[k])
  }

  ghost predicate SideRowsOf(ah: seq<Html>, bh: seq<Html>, groups: Groups, gaps: seq<Gap>, rows: seq<SideRow>) {
    forall k | 0 <= k < |rows| :: SideRowOf(ah, bh, groups, gaps, rows[k])
  }

  // ---------- folded runs ----------

  datatype Gap = Gap(oldStart: nat, newStart: nat, count: nat)

  /** The run of equal lines before group g, or after the last. */
  ghost predicate GapAt(groups: Groups, n: nat, m: nat, g: nat, gap: Gap)
    requires g <= |groups| && forall k | 0 <= k < |groups| :: groups[k] != []
  {
    var (i, j) := EndBefore(groups, g); var (x, y) := StartOf(groups, g, n, m);
    gap == if x > i then Gap(i, j, x - i) else Gap(0, 0, 0)
  }

  method FoldGaps(groups: Groups, n: nat, ghost m: nat) returns (gaps: seq<Gap>)
    requires groups != [] && forall k | 0 <= k < |groups| :: groups[k] != []
    ensures |gaps| == |groups| + 1
    ensures forall g | 0 <= g <= |groups| :: GapAt(groups, n, m, g, gaps[g])
  {
    gaps := seq(|groups| + 1, _ => Gap(0, 0, 0));
    for gi := 0 to |groups|
      invariant |gaps| == |groups| + 1
      invariant forall g | 0 <= g < gi :: GapAt(groups, n, m, g, gaps[g])
      invariant forall g | gi <= g <= |groups| :: gaps[g] == Gap(0, 0, 0)
    {
      var oldStart, newStart := 0, 0;
      if gi > 0 {
        var prev := Last(groups[gi - 1]);
        oldStart, newStart := prev.i2, prev.j2;
      }
      var oldEnd := groups[gi][0].i1;
      if oldEnd > oldStart {
        gaps := gaps[gi := Gap(oldStart, newStart, oldEnd - oldStart)];
      }
    }
    var last := Last(groups[|groups| - 1]);
    if n > last.i2 {
      gaps := gaps[|groups| := Gap(last.i2, last.j2, n - last.i2)];
    }
  }

  function Fold(g: nat, gap: Gap): seq<(nat, nat)> {
    if gap.count == 0 then [] else [(g, gap.count)]
  }

  method FoldRows(rows: seq<Row>, ah: seq<Html>, ghost bh: seq<Html>, g: nat, gap: Gap) returns (out: seq<Row>)
    requires gap.count > 0 ==> SameText(ah, bh, gap.oldStart, gap.newStart, gap.count)
    ensures gap.count == 0 ==> OldOf(out) == OldOf(rows) && NewOf(out) == NewOf(rows)
    ensures gap.count > 0 ==> OldOf(out) == OldOf(rows) + Lines(ah, gap.oldStart, gap.oldStart + gap.count)
    ensures gap.count > 0 ==> NewOf(out) == NewOf(rows) + Lines(bh, gap.newStart, gap.newStart + gap.count)
    ensures FoldsOf(out) == FoldsOf(rows) + Fold(g, gap)
    ensures |out| >= |rows| && out[..|rows|] == rows
    ensures forall k | |rows| <= k < |out| :: if k == |rows| then out[k] == Expander(g, gap.count) else FoldedRow(ah, g, gap, out[k])
  {
    hide OldOf, NewOf, FoldsOf;
    out := rows;
    if gap.count == 0 {
      return;
    }
    OneMoreRow(out, Expander(g, gap.count));
    out := out + [Expander(g, gap.count)];
    for k := 0 to gap.count
      invariant OldOf(out) == OldOf(rows) + Lines(ah, gap.oldStart, gap.oldStart + k)
      invariant NewOf(out) == NewOf(rows) + Lines(bh, gap.newStart, gap.newStart + k)
      invariant FoldsOf(out) == FoldsOf(rows) + Fold(g, gap)
      invariant |out| == |rows| + 1 + k && out[..|rows|] == rows && out[|rows|] == Expander(g, gap.count)
      invariant forall x | |rows| < x < |out| :: FoldedRow(ah, g, gap, out[x])
    {
      var row := Line(Some(g), Context, gap.oldStart + k + 1, gap.newStart + k + 1, ah[gap.oldStart + k]);
      OneMoreRow(out, row);
      OneLine(ah, gap.oldStart, gap.oldStart + k);
      OneLine(bh, gap.newStart, gap.newStart + k);
      out := out + [row];
    }
  }

  method FoldSideRows(rows: seq<SideRow>, ah: seq<Html>, bh: seq<Html>, g: nat, gap: Gap) returns (out: seq<SideRow>)
    requires gap.count > 0 ==> SameText(ah, bh, gap.oldStart, gap.newStart, gap.count)
    ensures gap.count == 0 ==> LeftOf(out) == LeftOf(rows) && RightOf(out) == RightOf(rows)
    ensures gap.count > 0 ==> LeftOf(out) == LeftOf(rows) + Lines(ah, gap.oldStart, gap.oldStart + gap.count)
    ensures gap.count > 0 ==> RightOf(out) == RightOf(rows) + Lines(bh, gap.newStart, gap.newStart + gap.count)
    ensures SideFoldsOf(out) == SideFoldsOf(rows) + Fold(g, gap)
    ensures |out| >= |rows| && out[..|rows|] == rows
    ensures forall k | |rows| <= k < |out| ::
              if k == |rows| then out[k] == SideExpander(g, gap.count) else FoldedSideRow(ah, bh, g, gap, out[k])
  {
    hide LeftOf, RightOf, SideFoldsOf;
    out := rows;
    if gap.count == 0 {
      return;
    }
    OneMoreSideRow(out, SideExpander(g, gap.count));
    out := out + [SideExpander(g, gap.count)];
    for k := 0 to gap.count
      invariant LeftOf(out) == LeftOf(rows) + Lines(ah, gap.oldStart, gap.oldStart + k)
      invariant RightOf(out) == RightOf(rows) + Lines(bh, gap.newStart, gap.newStart + k)
      invariant SideFoldsOf(out) == SideFoldsOf(rows) + Fold(g, gap)
      invariant |out| == |rows| + 1 + k && out[..|rows|] == rows && out[|rows|] == SideExpander(g, gap.count)
      invariant forall x | |rows| < x < |out| :: FoldedSideRow(ah, bh, g, gap, out[x])
    {
      var row := SideLine(Some(g), Cell(Context, gap.oldStart + k + 1, ah[gap.oldStart + k]),
                          Cell(Context, gap.newStart + k + 1, bh[gap.newStart + k]));
      OneMoreSideRow(out, row);
      OneLine(ah, gap.oldStart, gap.oldStart + k);
      OneLine(bh, gap.newStart, gap.newStart + k);
      out := out + [row];
    }
  }

  // ---------- opcodes ----------

  lemma NothingYet(ah: seq<Html>, bh: seq<Html>, op: Opcode, rows: seq<Row>)
    requires WellFormed(ah, bh, op)
    ensures rows[..|rows|] == rows && UnifiedSoFar(ah, bh, op, rows[|rows|..])
  {
  }

  lemma NothingBesideYet(ah: seq<Html>, bh: seq<Html>, op: Opcode, rows: seq<SideRow>)
    requires WellFormed(ah, bh, op)
    ensures rows[..|rows|] == rows && SideSoFar(ah, bh, op, rows[|rows|..])
  {
  }

  method AppendUnifiedRows(rows: seq<Row>, ah: seq<Html>, bh: seq<Html>, op: Opcode) returns (out: seq<Row>)
    requires WellFormed(ah, bh, op)
    ensures OldOf(out) == OldOf(rows) + Lines(ah, op.i1, op.i2)
    ensures NewOf(out) == NewOf(rows) + Lines(bh, op.j1, op.j2)
    ensures FoldsOf(out) == FoldsOf(rows)
    ensures |out| == |rows| + UnifiedCount(op) && out[..|rows|] == rows
    ensures UnifiedSoFar(ah, bh, op, out[|rows|..])
  {
    hide *;
    out := rows;
    NothingYet(ah, bh, op, rows);
    ToldNothing(rows, ah, bh, op);
    if op.tag == Equal {
      for k := 0 to op.i2 - op.i1
        invariant |out| == |rows| + k && out[..|rows|] == rows && UnifiedSoFar(ah, bh, op, out[|rows|..])
        invariant Told(rows, ah, bh, op, out, k, k)
      {
        var row := Line(None, Context, op.i1 + k + 1, op.j1 + k + 1, ah[op.i1 + k]);
        ContextNext(rows, ah, bh, op, out, k);
        out := out + [row];
      }
      ToldAll(rows, ah, bh, op, out);
      return;
    }
    if op.tag == Delete || op.tag == Replace {
      for k := 0 to op.i2 - op.i1
        invariant |out| == |rows| + k && out[..|rows|] == rows && UnifiedSoFar(ah, bh, op, out[|rows|..])
        invariant Told(rows, ah, bh, op, out, k, 0)
      {
        var row := Line(None, Deleted, op.i1 + k + 1, 0, ah[op.i1 + k]);
        DeletedNext(rows, ah, bh, op, out, k);
        out := out + [row];
      }
    }
    ghost var dn: nat := if op.tag == Insert then 0 else op.i2 - op.i1;
    if op.tag == Insert || op.tag == Replace {
      for k := 0 to op.j2 - op.j1
        invariant |out| == |rows| + dn + k && out[..|rows|] == rows && UnifiedSoFar(ah, bh, op, out[|rows|..])
        invariant Told(rows, ah, bh, op, out, dn, k)
      {
        var row := Line(None, Added, 0, op.j1 + k + 1, bh[op.j1 + k]);
        AddedNext(rows, ah, bh, op, out, dn, k);
        out := out + [row];
      }
    }
    ToldAll(rows, ah, bh, op, out);
  }

  /** So many lines of each side of the opcode are shown behind `rows`, and no fold. */
  ghost predicate Told(rows: seq<Row>, ah: seq<Html>, bh: seq<Html>, op: Opcode, out: seq<Row>, a: nat, b: nat) {
    && op.i1 + a <= |ah| && op.j1 + b <= |bh|
    && OldOf(out) == OldOf(rows) + Lines(ah, op.i1, op.i1 + a)
    && NewOf(out) == NewOf(rows) + Lines(bh, op.j1, op.j1 + b)
    && FoldsOf(out) == FoldsOf(rows)
  }

  lemma ToldNothing(rows: seq<Row>, ah: seq<Html>, bh: seq<Html>, op: Opcode)
    requires WellFormed(ah, bh, op)
    ensures Told(rows, ah, bh, op, rows, 0, 0)
    ensures op.i1 <= op.i2 <= |ah| && op.j1 <= op.j2 <= |bh|
    ensures op.tag == Equal ==> op.i2 - op.i1 == op.j2 - op.j1
    ensures (op.tag == Delete ==> op.j1 == op.j2) && (op.tag == Insert ==> op.i1 == op.i2)
  {
    hide OldOf, NewOf, FoldsOf;
  }

  lemma ToldAll(rows: seq<Row>, ah: seq<Html>, bh: seq<Html>, op: Opcode, out: seq<Row>)
    requires WellFormed(ah, bh, op) && Told(rows, ah, bh, op, out, op.i2 - op.i1, op.j2 - op.j1)
    requires |out| == |rows| + if op.tag == Equal then op.i2 - op.i1 else (op.i2 - op.i1) + (op.j2 - op.j1)
    ensures OldOf(out) == OldOf(rows) + Lines(ah, op.i1, op.i2)
    ensures NewOf(out) == NewOf(rows) + Lines(bh, op.j1, op.j2)
    ensures FoldsOf(out) == FoldsOf(rows) && |out| == |rows| + UnifiedCount(op)
  {
    hide OldOf, NewOf, FoldsOf;
  }

  lemma ContextNext(rows: seq<Row>, ah: seq<Html>, bh: seq<Html>, op: Opcode, out: seq<Row>, k: nat)
    requires WellFormed(ah, bh, op) && op.tag == Equal && k < op.i2 - op.i1 && |out| == |rows| + k && out[..|rows|] == rows
    requires UnifiedSoFar(ah, bh, op, out[|rows|..]) && Told(rows, ah, bh, op, out, k, k)
    ensures var longer := out + [Line(None, Context, op.i1 + k + 1, op.j1 + k + 1, ah[op.i1 + k])];
            && longer[..|rows|] == rows && UnifiedSoFar(ah, bh, op, longer[|rows|..])
            && Told(rows, ah, bh, op, longer, k + 1, k + 1)
  {
    hide OldOf, NewOf, FoldsOf, UnifiedSoFar;
    var row := Line(None, Context, op.i1 + k + 1, op.j1 + k + 1, ah[op.i1 + k]);
    UnifiedNext(ah, bh, op, rows, out, row);
    OneMoreRow(out, row);
    OneLine(ah, op.i1, op.i1 + k);
    OneLine(bh, op.j1, op.j1 + k);
  }

  lemma DeletedNext(rows: seq<Row>, ah: seq<Html>, bh: seq<Html>, op: Opcode, out: seq<Row>, k: nat)
    requires WellFormed(ah, bh, op) && (op.tag == Delete || op.tag == Replace)
    requires k < op.i2 - op.i1 && |out| == |rows| + k && out[..|rows|] == rows
    requires UnifiedSoFar(ah, bh, op, out[|rows|..]) && Told(rows, ah, bh, op, out, k, 0)
    ensures var longer := out + [Line(None, Deleted, op.i1 + k + 1, 0, ah[op.i1 + k])];
            && longer[..|rows|] == rows && UnifiedSoFar(ah, bh, op, longer[|rows|..])
            && Told(rows, ah, bh, op, longer, k + 1, 0)
  {
    hide OldOf, NewOf, FoldsOf, UnifiedSoFar;
    var row := Line(None, Deleted, op.i1 + k + 1, 0, ah[op.i1 + k]);
    UnifiedNext(ah, bh, op, rows, out, row);
    OneMoreRow(out, row);
    OneLine(ah, op.i1, op.i1 + k);
  }

  lemma AddedNext(rows: seq<Row>, ah: seq<Html>, bh: seq<Html>, op: Opcode, out: seq<Row>, dn: nat, k: nat)
    requires WellFormed(ah, bh, op) && (op.tag == Insert || op.tag == Replace)
    requires dn == if op.tag == Insert then 0 else op.i2 - op.i1
    requires k < op.j2 - op.j1 && |out| == |rows| + dn + k && out[..|rows|] == rows
    requires UnifiedSoFar(ah, bh, op, out[|rows|..]) && Told(rows, ah, bh, op, out, dn, k)
    ensures var longer := out + [Line(None, Added, 0, op.j1 + k + 1, bh[op.j1 + k])];
            && longer[..|rows|] == rows && UnifiedSoFar(ah, bh, op, longer[|rows|..])
            && Told(rows, ah, bh, op, longer, dn, k + 1)
  {
    hide OldOf, NewOf, FoldsOf, UnifiedSoFar;
    var row := Line(None, Added, 0, op.j1 + k + 1, bh[op.j1 + k]);
    UnifiedNext(ah, bh, op, rows, out, row);
    OneMoreRow(out, row);
    OneLine(bh, op.j1, op.j1 + k);
  }

  function Least(a: nat, b: nat): nat {
    if a < b then a else b
  }

  method AppendSideRows(rows: seq<SideRow>, ah: seq<Html>, bh: seq<Html>, op: Opcode) returns (out: seq<SideRow>)
    requires WellFormed(ah, bh, op)
    ensures LeftOf(out) == LeftOf(rows) + Lines(ah, op.i1, op.i2)
    ensures RightOf(out) == RightOf(rows) + Lines(bh, op.j1, op.j2)
    ensures SideFoldsOf(out) == SideFoldsOf(rows)
    ensures |out| == |rows| + SideCount(op) && out[..|rows|] == rows
    ensures SideSoFar(ah, bh, op, out[|rows|..])
  {
    hide LeftOf, RightOf, SideFoldsOf, SideSoFar;
    out := rows;
    NothingBesideYet(ah, bh, op, rows);
    match op.tag
    case Equal =>
      for k := 0 to op.i2 - op.i1
        invariant LeftOf(out) == LeftOf(rows) + Lines(ah, op.i1, op.i1 + k)
        invariant RightOf(out) == RightOf(rows) + Lines(bh, op.j1, op.j1 + k)
        invariant SideFoldsOf(out) == SideFoldsOf(rows)
        invariant |out| == |rows| + k && out[..|rows|] == rows
        invariant SideSoFar(ah, bh, op, out[|rows|..])
      {
        var row := SideLine(None, Cell(Context, op.i1 + k + 1, ah[op.i1 + k]), Cell(Context, op.j1 + k + 1, bh[op.j1 + k]));
        OneMoreSideRow(out, row);
        SideNext(ah, bh, op, rows, out, row);
        OneLine(ah, op.i1, op.i1 + k);
        OneLine(bh, op.j1, op.j1 + k);
        out := out + [row];
      }
    case Delete =>
      for k := 0 to op.i2 - op.i1
        invariant LeftOf(out) == LeftOf(rows) + Lines(ah, op.i1, op.i1 + k)
        invariant RightOf(out) == RightOf(rows) && SideFoldsOf(out) == SideFoldsOf(rows)
        invariant |out| == |rows| + k && out[..|rows|] == rows
        invariant SideSoFar(ah, bh, op, out[|rows|..])
      {
        var row := SideLine(None, Cell(Deleted, op.i1 + k + 1, ah[op.i1 + k]), NO_CELL);
        OneMoreSideRow(out, row);
        SideNext(ah, bh, op, rows, out, row);
        OneLine(ah, op.i1, op.i1 + k);
        out := out + [row];
      }
    case Insert =>
      for k := 0 to op.j2 - op.j1
        invariant RightOf(out) == RightOf(rows) + Lines(bh, op.j1, op.j1 + k)
        invariant LeftOf(out) == LeftOf(rows) && SideFoldsOf(out) == SideFoldsOf(rows)
        invariant |out| == |rows| + k && out[..|rows|] == rows
        invariant SideSoFar(ah, bh, op, out[|rows|..])
      {
        var row := SideLine(None, NO_CELL, Cell(Added, op.j1 + k + 1, bh[op.j1 + k]));
        OneMoreSideRow(out, row);
        SideNext(ah, bh, op, rows, out, row);
        OneLine(bh, op.j1, op.j1 + k);
        out := out + [row];
      }
    case Replace =>
      out := AppendReplacedRows(rows, ah, bh, op);
  }

  method AppendReplacedRows(rows: seq<SideRow>, ah: seq<Html>, bh: seq<Html>, op: Opcode) returns (out: seq<SideRow>)
    requires WellFormed(ah, bh, op) && op.tag == Replace
    ensures LeftOf(out) == LeftOf(rows) + Lines(ah, op.i1, op.i2)
    ensures RightOf(out) == RightOf(rows) + Lines(bh, op.j1, op.j2)
    ensures SideFoldsOf(out) == SideFoldsOf(rows)
    ensures |out| == |rows| + SideCount(op) && out[..|rows|] == rows
    ensures SideSoFar(ah, bh, op, out[|rows|..])
  {
    hide LeftOf, RightOf, SideFoldsOf, SideSoFar;
    out := rows;
    NothingBesideYet(ah, bh, op, rows);
    var dn, an := op.i2 - op.i1, op.j2 - op.j1;
    for k := 0 to if dn > an then dn else an
      invariant LeftOf(out) == LeftOf(rows) + Lines(ah, op.i1, op.i1 + Least(k, dn))
      invariant RightOf(out) == RightOf(rows) + Lines(bh, op.j1, op.j1 + Least(k, an))
      invariant SideFoldsOf(out) == SideFoldsOf(rows)
      invariant |out| == |rows| + k && out[..|rows|] == rows
      invariant SideSoFar(ah, bh, op, out[|rows|..])
    {
      var l, r := NO_CELL, NO_CELL;
      if k < dn {
        l := Cell(Deleted, op.i1 + k + 1, ah[op.i1 + k]);
        OneLine(ah, op.i1, op.i1 + k);
      }
      if k < an {
        r := Cell(Added, op.j1 + k + 1, bh[op.j1 + k]);
        OneLine(bh, op.j1, op.j1 + k);
      }
      OneMoreSideRow(out, SideLine(None, l, r));
      SideNext(ah, bh, op, rows, out, SideLine(None, l, r));
      out := out + [SideLine(None, l, r)];
    }
  }

  // ---------- the views ----------

  /** The folds of the first g runs. */
  ghost function Folds(gaps: seq<Gap>, g: nat): seq<(nat, nat)>
    requires g <= |gaps|
  {
    if g == 0 then [] else Folds(gaps, g - 1) + Fold(g - 1, gaps[g - 1])
  }

  ghost predicate AllGaps(groups: Groups, n: nat, m: nat, gaps: seq<Gap>)
    requires forall k | 0 <= k < |groups| :: groups[k] != []
  {
    |gaps| == |groups| + 1 && forall g | 0 <= g <= |groups| :: GapAt(groups, n, m, g, gaps[g])
  }

  lemma GapLines(ah: seq<Html>, bh: seq<Html>, groups: Groups, gaps: seq<Gap>, g: nat)
    requires Grouped(ah, bh, groups) && AllGaps(groups, |ah|, |bh|, gaps) && g <= |groups|
    ensures var (i, j) := EndBefore(groups, g); var (x, y) := StartOf(groups, g, |ah|, |bh|); var gap := gaps[g];
            && i <= x <= |ah| && j <= y <= |bh|
            && (gap.count == 0 ==> i == x && j == y)
            && (gap.count > 0 ==> gap.oldStart == i && gap.newStart == j && gap.count == x - i == y - j &&
                                  SameText(ah, bh, i, j, gap.count))
  {
    assert GapAt(groups, |ah|, |bh|, g, gaps[g]);
  }

  lemma FoldedRowsOf(ah: seq<Html>, bh: seq<Html>, groups: Groups, gaps: seq<Gap>, g: nat, rows: seq<Row>, out: seq<Row>)
    requires g < |gaps| && RowsOf(ah, bh, groups, gaps, rows) && |rows| <= |out| && out[..|rows|] == rows
    requires forall k | |rows| <= k < |out| ::
               if k == |rows| then out[k] == Expander(g, gaps[g].count) else FoldedRow(ah, g, gaps[g], out[k])
    ensures RowsOf(ah, bh, groups, gaps, out)
  {
    hide FoldedRow, ShownBy;
    forall k | 0 <= k < |out| ensures RowOf(ah, bh, groups, gaps, out[k]) {
      if k < |rows| { assert out[k] == out[..|rows|][k]; }
    }
  }

  lemma OpcodeRowsOf(ah: seq<Html>, bh: seq<Html>, groups: Groups, gaps: seq<Gap>, g: nat, k: nat, rows: seq<Row>, out: seq<Row>)
    requires g < |groups| && k < |groups[g]| && WellFormed(ah, bh, groups[g][k])
    requires RowsOf(ah, bh, groups, gaps, rows) && |rows| <= |out| && out[..|rows|] == rows
    requires UnifiedSoFar(ah, bh, groups[g][k], out[|rows|..])
    ensures RowsOf(ah, bh, groups, gaps, out)
  {
    hide FoldedRow, UnifiedRow, WellFormed, UnifiedCount;
    forall x | 0 <= x < |out| ensures RowOf(ah, bh, groups, gaps, out[x]) {
      if x < |rows| {
        assert out[x] == out[..|rows|][x];
      } else {
        var y: nat := x - |rows|;
        assert out[|rows|..][y] == out[x];
        assert ShownBy(ah, bh, groups[g][k], out[x]);
      }
    }
  }

  lemma FoldedSideRowsOf(ah: seq<Html>, bh: seq<Html>, groups: Groups, gaps: seq<Gap>, g: nat, rows: seq<SideRow>,
                         out: seq<SideRow>)
    requires g < |gaps| && SideRowsOf(ah, bh, groups, gaps, rows) && |rows| <= |out| && out[..|rows|] == rows
    requires forall k | |rows| <= k < |out| ::
               if k == |rows| then out[k] == SideExpander(g, gaps[g].count) else FoldedSideRow(ah, bh, g, gaps[g], out[k])
    ensures SideRowsOf(ah, bh, groups, gaps, out)
  {
    hide FoldedSideRow, SideShownBy;
    forall k | 0 <= k < |out| ensures SideRowOf(ah, bh, groups, gaps, out[k]) {
      if k < |rows| { assert out[k] == out[..|rows|][k]; }
    }
  }

  lemma OpcodeSideRowsOf(ah: seq<Html>, bh: seq<Html>, groups: Groups, gaps: seq<Gap>, g: nat, k: nat, rows: seq<SideRow>,
                         out: seq<SideRow>)
    requires g < |groups| && k < |groups[g]| && WellFormed(ah, bh, groups[g][k])
    requires SideRowsOf(ah, bh, groups, gaps, rows) && |rows| <= |out| && out[..|rows|] == rows
    requires SideSoFar(ah, bh, groups[g][k], out[|rows|..])
    ensures SideRowsOf(ah, bh, groups, gaps, out)
  {
    hide FoldedSideRow, SideRowAt, WellFormed, SideCount;
    forall x | 0 <= x < |out| ensures SideRowOf(ah, bh, groups, gaps, out[x]) {
      if x < |rows| {
        assert out[x] == out[..|rows|][x];
      } else {
        var y: nat := x - |rows|;
        assert out[|rows|..][y] == out[x];
        assert SideShownBy(ah, bh, groups[g][k], out[x]);
      }
    }
  }

  /** The unified view shows every line of both sides once, in order, and its folds are those of the gaps. */
  method UnifiedRows(ah: seq<Html>, bh: seq<Html>, groups: Groups) returns (rows: seq<Row>, ghost gaps: seq<Gap>)
    requires groups != [] && Grouped(ah, bh, groups)
    ensures OldOf(rows) == Lines(ah, 0, |ah|) && NewOf(rows) == Lines(bh, 0, |bh|)
    ensures AllGaps(groups, |ah|, |bh|, gaps) && FoldsOf(rows) == Folds(gaps, |gaps|)
    ensures RowsOf(ah, bh, groups, gaps, rows)
  {
    hide OldOf, NewOf, FoldsOf, GapAt, SameText, RowOf;
    var found := FoldGaps(groups, |ah|, |bh|);
    gaps := found;
    NoRows();
    rows := [];
    for gi := 0 to |groups|
      invariant Shown(ah, bh, groups, gaps, gi, rows)
    {
      rows := UnifiedGroup(rows, ah, bh, groups, found, gi);
    }
    rows := UnifiedFold(rows, ah, bh, groups, found, |groups|);
  }

  lemma NoRows()
    ensures OldOf([]) == [] && NewOf([]) == [] && FoldsOf([]) == []
    ensures LeftOf([]) == [] && RightOf([]) == [] && SideFoldsOf([]) == []
  {
  }

  /** Everything up to the end of group g - 1 has been shown. */
  ghost predicate Shown(ah: seq<Html>, bh: seq<Html>, groups: Groups, gaps: seq<Gap>, g: nat, rows: seq<Row>)
    requires Grouped(ah, bh, groups) && g <= |groups| < |gaps|
  {
    var (i, j) := EndBefore(groups, g);
    && i <= |ah| && j <= |bh|
    && OldOf(rows) == Lines(ah, 0, i) && NewOf(rows) == Lines(bh, 0, j) && FoldsOf(rows) == Folds(gaps, g)
    && RowsOf(ah, bh, groups, gaps, rows)
  }

  method UnifiedFold(rows: seq<Row>, ah: seq<Html>, bh: seq<Html>, groups: Groups, gaps: seq<Gap>, g: nat)
    returns (out: seq<Row>)
    requires Grouped(ah, bh, groups) && AllGaps(groups, |ah|, |bh|, gaps) && g <= |groups|
    requires Shown(ah, bh, groups, gaps, g, rows)
    ensures var (x, y) := StartOf(groups, g, |ah|, |bh|);
            && x <= |ah| && y <= |bh|
            && OldOf(out) == Lines(ah, 0, x) && NewOf(out) == Lines(bh, 0, y) && FoldsOf(out) == Folds(gaps, g + 1)
            && RowsOf(ah, bh, groups, gaps, out)
  {
    hide OldOf, NewOf, FoldsOf, GapAt, SameText, Lines, Grouped;
    GapLines(ah, bh, groups, gaps, g);
    var gap := gaps[g];
    out := FoldRows(rows, ah, bh, g, gap);
    FoldedRowsOf(ah, bh, groups, gaps, g, rows, out);
    if gap.count > 0 {
      LinesJoin(ah, 0, gap.oldStart, gap.oldStart + gap.count);
      LinesJoin(bh, 0, gap.newStart, gap.newStart + gap.count);
    }
  }

  method UnifiedGroup(rows: seq<Row>, ah: seq<Html>, bh: seq<Html>, groups: Groups, gaps: seq<Gap>, g: nat)
    returns (out: seq<Row>)
    requires Grouped(ah, bh, groups) && AllGaps(groups, |ah|, |bh|, gaps) && g < |groups|
    requires Shown(ah, bh, groups, gaps, g, rows)
    ensures Shown(ah, bh, groups, gaps, g + 1, out)
  {
    hide OldOf, NewOf, FoldsOf, GapAt, SameText, Lines;
    out := UnifiedFold(rows, ah, bh, groups, gaps, g);
    var group := groups[g];
    assert Consecutive(ah, bh, group);
    for k := 0 to |group|
      invariant FoldsOf(out) == Folds(gaps, g + 1) && RowsOf(ah, bh, groups, gaps, out)
      invariant var i, j := if k == 0 then group[0].i1 else group[k - 1].i2, if k == 0 then group[0].j1 else group[k - 1].j2;
                i <= |ah| && j <= |bh| && OldOf(out) == Lines(ah, 0, i) && NewOf(out) == Lines(bh, 0, j)
    {
      assert WellFormed(ah, bh, group[k]);
      LinesJoin(ah, 0, group[k].i1, group[k].i2);
      LinesJoin(bh, 0, group[k].j1, group[k].j2);
      ghost var before := out;
      out := AppendUnifiedRows(out, ah, bh, group[k]);
      OpcodeRowsOf(ah, bh, groups, gaps, g, k, before, out);
    }
  }

  ghost predicate SideShown(ah: seq<Html>, bh: seq<Html>, groups: Groups, gaps: seq<Gap>, g: nat, rows: seq<SideRow>)
    requires Grouped(ah, bh, groups) && g <= |groups| < |gaps|
  {
    var (i, j) := EndBefore(groups, g);
    && i <= |ah| && j <= |bh|
    && LeftOf(rows) == Lines(ah, 0, i) && RightOf(rows) == Lines(bh, 0, j) && SideFoldsOf(rows) == Folds(gaps, g)
    && SideRowsOf(ah, bh, groups, gaps, rows)
  }

  method SideFold(rows: seq<SideRow>, ah: seq<Html>, bh: seq<Html>, groups: Groups, gaps: seq<Gap>, g: nat)
    returns (out: seq<SideRow>)
    requires Grouped(ah, bh, groups) && AllGaps(groups, |ah|, |bh|, gaps) && g <= |groups|
    requires SideShown(ah, bh, groups, gaps, g, rows)
    ensures var (x, y) := StartOf(groups, g, |ah|, |bh|);
            && x <= |ah| && y <= |bh|
            && LeftOf(out) == Lines(ah, 0, x) && RightOf(out) == Lines(bh, 0, y) && SideFoldsOf(out) == Folds(gaps, g + 1)
            && SideRowsOf(ah, bh, groups, gaps, out)
  {
    hide LeftOf, RightOf, SideFoldsOf, GapAt, SameText, Lines, Grouped;
    GapLines(ah, bh, groups, gaps, g);
    var gap := gaps[g];
    out := FoldSideRows(rows, ah, bh, g, gap);
    FoldedSideRowsOf(ah, bh, groups, gaps, g, rows, out);
    if gap.count > 0 {
      LinesJoin(ah, 0, gap.oldStart, gap.oldStart + gap.count);
      LinesJoin(bh, 0, gap.newStart, gap.newStart + gap.count);
    }
  }

  method SideGroup(rows: seq<SideRow>, ah: seq<Html>, bh: seq<Html>, groups: Groups, gaps: seq<Gap>, g: nat)
    returns (out: seq<SideRow>)
    requires Grouped(ah, bh, groups) && AllGaps(groups, |ah|, |bh|, gaps) && g < |groups|
    requires SideShown(ah, bh, groups, gaps, g, rows)
    ensures SideShown(ah, bh, groups, gaps, g + 1, out)
  {
    hide LeftOf, RightOf, SideFoldsOf, GapAt, SameText, Lines;
    out := SideFold(rows, ah, bh, groups, gaps, g);
    var group := groups[g];
    assert Consecutive(ah, bh, group);
    for k := 0 to |group|
      invariant SideFoldsOf(out) == Folds(gaps, g + 1) && SideRowsOf(ah, bh, groups, gaps, out)
      invariant var i, j := if k == 0 then group[0].i1 else group[k - 1].i2, if k == 0 then group[0].j1 else group[k - 1].j2;
                i <= |ah| && j <= |bh| && LeftOf(out) == Lines(ah, 0, i) && RightOf(out) == Lines(bh, 0, j)
    {
      assert WellFormed(ah, bh, group[k]);
      LinesJoin(ah, 0, group[k].i1, group[k].i2);
      LinesJoin(bh, 0, group[k].j1, group[k].j2);
      ghost var before := out;
      out := AppendSideRows(out, ah, bh, group[k]);
      OpcodeSideRowsOf(ah, bh, groups, gaps, g, k, before, out);
    }
  }

  /** The side-by-side view shows the same lines and folds. */
  method SideRows(ah: seq<Html>, bh: seq<Html>, groups: Groups) returns (rows: seq<SideRow>, ghost gaps: seq<Gap>)
    requires groups != [] && Grouped(ah, bh, groups)
    ensures LeftOf(rows) == Lines(ah, 0, |ah|) && RightOf(rows) == Lines(bh, 0, |bh|)
    ensures AllGaps(groups, |ah|, |bh|, gaps) && SideFoldsOf(rows) == Folds(gaps, |gaps|)
    ensures SideRowsOf(ah, bh, groups, gaps, rows)
  {
    hide LeftOf, RightOf, SideFoldsOf, GapAt, SameText, SideRowOf;
    var found := FoldGaps(groups, |ah|, |bh|);
    gaps := found;
    NoRows();
    rows := [];
    for gi := 0 to |groups|
      invariant SideShown(ah, bh, groups, gaps, gi, rows)
    {
      rows := SideGroup(rows, ah, bh, groups, found, gi);
    }
    rows := SideFold(rows, ah, bh, groups, found, |groups|);
  }

  /** Both views of one diff fold the same runs, under the same names. */
  lemma SameFolds(ah: seq<Html>, bh: seq<Html>, groups: Groups, a: seq<Gap>, b: seq<Gap>)
    requires Grouped(ah, bh, groups)
    requires AllGaps(groups, |ah|, |bh|, a) && AllGaps(groups, |ah|, |bh|, b)
    ensures Folds(a, |a|) == Folds(b, |b|)
  {
    forall g | 0 <= g <= |groups| ensures a[g] == b[g] {
      assert GapAt(groups, |ah|, |bh|, g, a[g]) && GapAt(groups, |ah|, |bh|, g, b[g]);
    }
    assert a == b;
  }

  // ---------- the changed part of a line ----------

  datatype Ranges = Ranges(oldLow: nat, oldHigh: nat, newLow: nat, newHigh: nat)

  /** Outside the ranges the lines agree, and the ranges cannot be cut down at either end; lines with neither a
      start nor an end in common get no ranges. */
  method RuneDiffRange(a: string, b: string) returns (r: Ranges)
    ensures r.oldLow <= r.oldHigh <= |a| && r.newLow <= r.newHigh <= |b|
    ensures (|a| == 0 || |b| == 0 || (a[0] != b[0] && a[|a| - 1] != b[|b| - 1])) ==> r == Ranges(0, 0, 0, 0)
    ensures !(|a| == 0 || |b| == 0 || (a[0] != b[0] && a[|a| - 1] != b[|b| - 1])) ==>
              && a[..r.oldLow] == b[..r.newLow] && a[r.oldHigh..] == b[r.newHigh..]
              && (r.oldLow < r.oldHigh && r.newLow < r.newHigh ==>
                    a[r.oldLow] != b[r.newLow] && a[r.oldHigh - 1] != b[r.newHigh - 1])
  {
    var p := 0;
    while p < |a| && p < |b| && a[p] == b[p]
      invariant p <= |a| && p <= |b| && a[..p] == b[..p]
    {
      p := p + 1;
    }
    var s := 0;
    while s < |a| - p && s < |b| - p && a[|a| - 1 - s] == b[|b| - 1 - s]
      invariant s <= |a| - p && s <= |b| - p && a[|a| - s..] == b[|b| - s..]
    {
      assert a[|a| - 1 - s..] == [a[|a| - 1 - s]] + a[|a| - s..];
      assert b[|b| - 1 - s..] == [b[|b| - 1 - s]] + b[|b| - s..];
      s := s + 1;
    }
    if p == 0 && s == 0 {
      return Ranges(0, 0, 0, 0);
    }
    assert p > 0 ==> a[0] == a[..p][0] && b[0] == b[..p][0];
    assert s > 0 ==> a[|a| - 1] == a[|a| - s..][s - 1] && b[|b| - 1] == b[|b| - s..][s - 1];
    r := Ranges(p, |a| - s, p, |b| - s);
  }
}
