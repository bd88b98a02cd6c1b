/** Which roots must not share an entry (pkg/discovery/entries.go, 188-221). */
module Separation {
  import opened CollisionGroups
  import opened EntryRoots
  import opened Ordering

  datatype Witness = Witness(declaration: string, root: nat)

  type Index = map<string, seq<Witness>>

  function Label(identity: string, left: string, right: string): string {
    var (low, high) := if LexLe(left, right) then (left, right) else (right, left);
    identity + " at " + low + " and " + high
  }

  lemma LabelText(identity: string, left: string, right: string)
    requires LexLe(left, right)
    ensures Label(identity, left, right) == identity + " at " + left + " and " + right
    ensures Label(identity, right, left) == identity + " at " + left + " and " + right
  {
    if LexLe(right, left) { LexAntisymmetric(left, right); }
  }

  lemma LabelBothWays(identity: string, left: string, right: string)
    ensures Label(identity, left, right) == Label(identity, right, left)
    ensures Label(identity, left, right) != ""
  {
    LexTotal(left, right);
    if LexLe(left, right) && LexLe(right, left) {
      LexAntisymmetric(left, right);
    }
  }

  ghost predicate IsOccurrence(roots: seq<EntryRoot>, p: nat, a: nat) {
    p < |roots| && a < |roots[p].occurrences|
  }

  /** Two roots declare the same object in different places. */
  ghost predicate Opposed(roots: seq<EntryRoot>, p: nat, a: nat, q: nat, b: nat) {
    && p != q && IsOccurrence(roots, p, a) && IsOccurrence(roots, q, b)
    && roots[p].occurrences[a].identity == roots[q].occurrences[b].identity
    && roots[p].occurrences[a].declaration != roots[q].occurrences[b].declaration
  }

  ghost function PairLabel(roots: seq<EntryRoot>, p: nat, a: nat, q: nat, b: nat): string
    requires IsOccurrence(roots, p, a) && IsOccurrence(roots, q, b)
  {
    var left, right := roots[p].occurrences[a], roots[q].occurrences[b];
    Label(left.identity, left.declaration, right.declaration)
  }

  /** A label found between two roots. */
  datatype Finding = Finding(p: nat, q: nat, text: string)

  /** The cell holds the least label found, or nothing when none is. */
  ghost predicate Least(cell: string, found: set<Finding>, p: nat, q: nat) {
    && (cell == "" ==> forall l :: Finding(p, q, l) !in found)
    && (cell != "" ==> Finding(p, q, cell) in found && forall l | Finding(p, q, l) in found :: LexLe(cell, l))
  }

  ghost predicate Cells(n: nat, edges: Edges, found: set<Finding>) {
    && Conflicts(n, edges)
    && (forall f | f in found :: f.p < n && f.q < n && f.p != f.q && f.text != "")
    && forall p: nat, q: nat | p < n && q < n :: Least(edges[p][q], found, p, q)
  }

  lemma CellsOn(n: nat, edges: Edges, found: set<Finding>, p: nat, q: nat, text: string)
    requires Cells(n, edges, found) && p < n && q < n && p != q && text != ""
    ensures var cell := if edges[p][q] == "" || (text != edges[p][q] && LexLe(text, edges[p][q])) then text else edges[p][q];
            Cells(n, edges[p := edges[p][q := cell]][q := edges[q][p := cell]],
                  found + {Finding(p, q, text), Finding(q, p, text)})
  {
    hide LexLe;
    var before := edges[p][q];
    var cell := if before == "" || (text != before && LexLe(text, before)) then text else before;
    var row := edges[p][q := cell];
    var after := edges[p := row][q := edges[q][p := cell]];
    var more := found + {Finding(p, q, text), Finding(q, p, text)};
    forall x: nat, y: nat | x < n && y < n
      ensures |after[x]| == n
      ensures after[x][y] == if (x == p && y == q) || (x == q && y == p) then cell else edges[x][y]
    {}
    LexTotal(text, before);
    forall l | Finding(p, q, l) in found ensures LexLe(cell, l) {
      if cell == text {
        LexTransitive(text, before, l);
      }
    }
    assert edges[p][q] == edges[q][p];
    forall l ensures Finding(p, q, l) in found ==> LexLe(cell, l) {}
    forall l | Finding(q, p, l) in found ensures LexLe(cell, l) {
      assert Least(edges[q][p], found, q, p);
      if cell == text {
        LexTransitive(text, before, l);
      }
    }
    LexTotal(text, text);
    assert Least(cell, more, p, q) && Least(cell, more, q, p);
    forall x: nat, y: nat | x < n && y < n ensures Least(after[x][y], more, x, y) {
      if !((x == p && y == q) || (x == q && y == p)) {
        assert Least(edges[x][y], found, x, y);
        forall l ensures Finding(x, y, l) in more <==> Finding(x, y, l) in found {}
      }
    }
  }

  // ---------- which pairs have been compared ----------

  predicate Before(p: nat, a: nat, i: nat, j: nat) {
    p < i || (p == i && a < j)
  }

  /** Everything found is the label of an opposed pair. */
  ghost predicate Sound(roots: seq<EntryRoot>, found: set<Finding>) {
    forall f | f in found ::
      exists a, b :: Opposed(roots, f.p, a, f.q, b) && f.text == PairLabel(roots, f.p, a, f.q, b)
  }

  ghost predicate Complete(roots: seq<EntryRoot>, found: set<Finding>, i: nat, j: nat) {
    forall p: nat, a: nat, q: nat, b: nat | Opposed(roots, p, a, q, b) && Before(p, a, i, j) && Before(q, b, i, j) ::
      Finding(p, q, PairLabel(roots, p, a, q, b)) in found
  }

  function At(index: Index, identity: string): seq<Witness> {
    if identity in index then index[identity] else []
  }

  /** The witnesses of an identity are the occurrences of it gone through. */
  ghost predicate Indexed(roots: seq<EntryRoot>, index: Index, i: nat, j: nat) {
    && (forall p: nat, a: nat | IsOccurrence(roots, p, a) && Before(p, a, i, j) ::
          Witness(roots[p].occurrences[a].declaration, p) in At(index, roots[p].occurrences[a].identity))
    && (forall identity, w | w in At(index, identity) :: Seen(roots, identity, w, i, j))
  }

  ghost predicate Seen(roots: seq<EntryRoot>, identity: string, w: Witness, i: nat, j: nat) {
    exists a: nat :: IsOccurrence(roots, w.root, a) && Before(w.root, a, i, j) &&
                roots[w.root].occurrences[a] == Occurrence(identity, w.declaration)
  }

  ghost predicate Compared(roots: seq<EntryRoot>, found: set<Finding>, witnesses: seq<Witness>, w: nat, i: nat, j: nat)
    requires IsOccurrence(roots, i, j)
  {
    var o := roots[i].occurrences[j];
    forall k | 0 <= k < w <= |witnesses| ::
      var previous := witnesses[k];
      previous.root != i && previous.declaration != o.declaration ==>
        && Finding(previous.root, i, Label(o.identity, previous.declaration, o.declaration)) in found
        && Finding(i, previous.root, Label(o.identity, previous.declaration, o.declaration)) in found
  }

  lemma SoundOn(roots: seq<EntryRoot>, found: set<Finding>, index: Index, i: nat, j: nat, w: Witness)
    requires Sound(roots, found) && Indexed(roots, index, i, j) && IsOccurrence(roots, i, j)
    requires w in At(index, roots[i].occurrences[j].identity)
    requires w.root != i && w.declaration != roots[i].occurrences[j].declaration
    ensures w.root < |roots|
    ensures var o := roots[i].occurrences[j]; var text := Label(o.identity, w.declaration, o.declaration);
            text != "" && Sound(roots, found + {Finding(w.root, i, text), Finding(i, w.root, text)})
  {
    var o := roots[i].occurrences[j];
    assert Seen(roots, o.identity, w, i, j);
    var a: nat :| IsOccurrence(roots, w.root, a) && Before(w.root, a, i, j) &&
             roots[w.root].occurrences[a] == Occurrence(o.identity, w.declaration);
    LabelBothWays(o.identity, w.declaration, o.declaration);
    assert Opposed(roots, w.root, a, i, j) && Opposed(roots, i, j, w.root, a);
  }

  lemma CompleteOn(roots: seq<EntryRoot>, found: set<Finding>, index: Index, i: nat, j: nat)
    requires Complete(roots, found, i, j) && Indexed(roots, index, i, j) && IsOccurrence(roots, i, j)
    requires var ws := At(index, roots[i].occurrences[j].identity); Compared(roots, found, ws, |ws|, i, j)
    ensures Complete(roots, found, i, j + 1)
  {
    var j1 := j + 1;
    forall p: nat, a: nat, q: nat, b: nat | Opposed(roots, p, a, q, b) && Before(p, a, i, j1) && Before(q, b, i, j1)
      ensures Finding(p, q, PairLabel(roots, p, a, q, b)) in found
    {
      var left, right := roots[p].occurrences[a], roots[q].occurrences[b];
      LabelBothWays(left.identity, left.declaration, right.declaration);
      var ws := At(index, roots[i].occurrences[j].identity);
      if q == i && b == j {
        assert Witness(left.declaration, p) in ws;
        var k :| 0 <= k < |ws| && ws[k] == Witness(left.declaration, p);
      } else if p == i && a == j {
        assert Witness(right.declaration, q) in ws;
        var k :| 0 <= k < |ws| && ws[k] == Witness(right.declaration, q);
      }
    }
  }

  lemma IndexedOn(roots: seq<EntryRoot>, index: Index, i: nat, j: nat)
    requires Indexed(roots, index, i, j) && IsOccurrence(roots, i, j)
    ensures var o := roots[i].occurrences[j];
            Indexed(roots, index[o.identity := At(index, o.identity) + [Witness(o.declaration, i)]], i, j + 1)
  {
    var o := roots[i].occurrences[j];
    var more := index[o.identity := At(index, o.identity) + [Witness(o.declaration, i)]];
    var j1 := j + 1;
    forall identity, w | w in At(more, identity) ensures Seen(roots, identity, w, i, j1) {
      if w in At(index, identity) {
        assert Seen(roots, identity, w, i, j);
      } else {
        assert identity == o.identity && w == Witness(o.declaration, i);
        assert Before(i, j, i, j1);
      }
    }
  }

  lemma NextRoot(roots: seq<EntryRoot>, found: set<Finding>, index: Index, i: nat)
    requires i < |roots|
    requires Complete(roots, found, i, |roots[i].occurrences|) && Indexed(roots, index, i, |roots[i].occurrences|)
    ensures Complete(roots, found, i + 1, 0) && Indexed(roots, index, i + 1, 0)
  {
    var m := |roots[i].occurrences|;
    var i1 := i + 1;
    forall p: nat, a: nat | IsOccurrence(roots, p, a) ensures Before(p, a, i1, 0) <==> Before(p, a, i, m) {}
    forall identity, w | w in At(index, identity) ensures Seen(roots, identity, w, i1, 0) {
      assert Seen(roots, identity, w, i, m);
    }
  }

  // ---------- the edges ----------

  method CompareWitnesses(roots: seq<EntryRoot>, before: Edges, any: bool, index: Index, i: nat, j: nat,
                          ghost known: set<Finding>)
    returns (edges: Edges, anyEdge: bool, ghost found: set<Finding>)
    requires IsOccurrence(roots, i, j) && Indexed(roots, index, i, j)
    requires Cells(|roots|, before, known) && Sound(roots, known) && (any <==> known != {})
    ensures Cells(|roots|, edges, found) && Sound(roots, found) && known <= found && (anyEdge <==> found != {})
    ensures var ws := At(index, roots[i].occurrences[j].identity); Compared(roots, found, ws, |ws|, i, j)
  {
    hide Cells, Sound, Indexed;
    edges, anyEdge, found := before, any, known;
    var o := roots[i].occurrences[j];
    var ws := At(index, o.identity);
    for k := 0 to |ws|
      invariant Cells(|roots|, edges, found) && Sound(roots, found) && known <= found && (anyEdge <==> found != {})
      invariant Compared(roots, found, ws, k, i, j)
    {
      var previous := ws[k];
      if previous.root == i || previous.declaration == o.declaration {
        continue;
      }
      var p, text := previous.root, Label(o.identity, previous.declaration, o.declaration);
      SoundOn(roots, found, index, i, j, previous);
      CellsOn(|roots|, edges, found, p, i, text);
      CellsShape(|roots|, edges, found);
      var cell := edges[p][i];
      if cell == "" || (text != cell && LexLe(text, cell)) {
        cell := text;
      }
      edges := edges[p := edges[p][i := cell]][i := edges[i][p := cell]];
      found := found + {Finding(p, i, text), Finding(i, p, text)};
      assert Finding(p, i, text) in found;
      anyEdge := true;
    }
  }

  lemma CellsShape(n: nat, edges: Edges, found: set<Finding>)
    requires Cells(n, edges, found)
    ensures |edges| == n && forall k | 0 <= k < n :: |edges[k]| == n
  {
  }

  lemma SoundMore(roots: seq<EntryRoot>, known: set<Finding>, found: set<Finding>, i: nat, j: nat)
    requires Complete(roots, known, i, j) && known <= found
    ensures Complete(roots, found, i, j)
  {
  }

  lemma NothingFound(roots: seq<EntryRoot>, edges: Edges)
    requires |edges| == |roots| && forall k | 0 <= k < |roots| :: edges[k] == seq(|roots|, _ => "")
    ensures Cells(|roots|, edges, {}) && Sound(roots, {}) && Complete(roots, {}, 0, 0) && Indexed(roots, map[], 0, 0)
  {
  }

  /** Roots have an edge exactly when they declare the same object in different places; it names the first such
      object and pair of places in label order. */
  method SeparationEdges(roots: seq<EntryRoot>) returns (edges: Edges, anyEdge: bool)
    ensures Conflicts(|roots|, edges)
    ensures forall p: nat, q: nat | p < |roots| && q < |roots| ::
              edges[p][q] != "" <==> exists a, b :: Opposed(roots, p, a, q, b)
    ensures forall p: nat, q: nat | p < |roots| && q < |roots| && edges[p][q] != "" ::
              && (exists a, b :: Opposed(roots, p, a, q, b) && edges[p][q] == PairLabel(roots, p, a, q, b))
              && (forall a, b | Opposed(roots, p, a, q, b) :: LexLe(edges[p][q], PairLabel(roots, p, a, q, b)))
    ensures anyEdge <==> exists p, q :: 0 <= p < |roots| && 0 <= q < |roots| && edges[p][q] != ""
  {
    hide Cells, Sound, Indexed, Complete, Conflicts, Opposed;
    edges, anyEdge := seq(|roots|, _ => seq(|roots|, _ => "")), false;
    var index: Index := map[];
    ghost var found: set<Finding> := {};
    NothingFound(roots, edges);
    for i := 0 to |roots|
      invariant Cells(|roots|, edges, found) && Sound(roots, found) && (anyEdge <==> found != {})
      invariant Complete(roots, found, i, 0) && Indexed(roots, index, i, 0)
    {
      for j := 0 to |roots[i].occurrences|
        invariant Cells(|roots|, edges, found) && Sound(roots, found) && (anyEdge <==> found != {})
        invariant Complete(roots, found, i, j) && Indexed(roots, index, i, j)
      {
        var o := roots[i].occurrences[j];
        ghost var known := found;
        edges, anyEdge, found := CompareWitnesses(roots, edges, anyEdge, index, i, j, known);
        SoundMore(roots, known, found, i, j);
        CompleteOn(roots, found, index, i, j);
        IndexedOn(roots, index, i, j);
        index := index[o.identity := At(index, o.identity) + [Witness(o.declaration, i)]];
      }
      NextRoot(roots, found, index, i);
    }
    AllFound(roots, edges, found);
  }

  lemma AllFound(roots: seq<EntryRoot>, edges: Edges, found: set<Finding>)
    requires Cells(|roots|, edges, found) && Sound(roots, found) && Complete(roots, found, |roots|, 0)
    ensures Conflicts(|roots|, edges)
    ensures forall p: nat, q: nat | p < |roots| && q < |roots| ::
              edges[p][q] != "" <==> exists a, b :: Opposed(roots, p, a, q, b)
    ensures forall p: nat, q: nat | p < |roots| && q < |roots| && edges[p][q] != "" ::
              && (exists a, b :: Opposed(roots, p, a, q, b) && edges[p][q] == PairLabel(roots, p, a, q, b))
              && (forall a, b | Opposed(roots, p, a, q, b) :: LexLe(edges[p][q], PairLabel(roots, p, a, q, b)))
    ensures found != {} <==> exists p, q :: 0 <= p < |roots| && 0 <= q < |roots| && edges[p][q] != ""
  {
    var n := |roots|;
    forall p: nat, a: nat, q: nat, b: nat | Opposed(roots, p, a, q, b) ensures Finding(p, q, PairLabel(roots, p, a, q, b)) in found {
      assert Before(p, a, n, 0) && Before(q, b, n, 0);
    }
    forall p: nat, q: nat | p < n && q < n
      ensures edges[p][q] != "" <==> exists a, b :: Opposed(roots, p, a, q, b)
    {
      assert Least(edges[p][q], found, p, q);
      if edges[p][q] != "" {
        assert Finding(p, q, edges[p][q]) in found;
      }
    }
    forall p: nat, q: nat | p < n && q < n && edges[p][q] != ""
      ensures exists a, b :: Opposed(roots, p, a, q, b) && edges[p][q] == PairLabel(roots, p, a, q, b)
      ensures forall a, b | Opposed(roots, p, a, q, b) :: LexLe(edges[p][q], PairLabel(roots, p, a, q, b))
    {
      assert Least(edges[p][q], found, p, q);
      assert Finding(p, q, edges[p][q]) in found;
    }
    if found != {} {
      var f :| f in found;
      assert Least(edges[f.p][f.q], found, f.p, f.q);
      assert Finding(f.p, f.q, f.text) == f;
      assert edges[f.p][f.q] != "";
    }
    if p, q :| 0 <= p < n && 0 <= q < n && edges[p][q] != "" {
      assert Least(edges[p][q], found, p, q);
      assert Finding(p, q, edges[p][q]) in found;
    }
  }
}
