/** The Cartesian product of input groups, by an odometer over selections
    (internal/resourcesetinput/permute.go, 13-98). */
module Permute {
  import opened Text

  const MAX_PERMUTATIONS: nat := 10000
  const UINT64: nat := 0x1_0000_0000_0000_0000

  // ---------- selections as numbers ----------

  ghost predicate Selection(sel: seq<nat>, sizes: seq<nat>) {
    |sel| == |sizes| && forall i | 0 <= i < |sel| :: sel[i] < sizes[i]
  }

  function Product(sizes: seq<nat>): nat {
    if sizes == [] then 1 else Product(sizes[..|sizes| - 1]) * sizes[|sizes| - 1]
  }

  /** A selection read as a number whose digits have these sizes. */
  ghost function Value(sel: seq<nat>, sizes: seq<nat>): nat
    requires |sel| == |sizes|
  {
    if sel == [] then 0
    else
      var last := |sel| - 1;
      Value(sel[..last], sizes[..last]) * sizes[last] + sel[last]
  }

  lemma {:induction false} ValueBelow(sel: seq<nat>, sizes: seq<nat>)
    requires Selection(sel, sizes)
    ensures Value(sel, sizes) < Product(sizes)
  {
    if sel != [] {
      var last := |sel| - 1;
      ValueBelow(sel[..last], sizes[..last]);
      Carry(Value(sel[..last], sizes[..last]), Product(sizes[..last]), sizes[last], sel[last]);
    }
  }

  lemma Carry(v: nat, p: nat, size: nat, digit: nat)
    requires v < p && digit < size
    ensures v * size + digit < p * size
  {
    assert (v + 1) * size <= p * size;
    assert (v + 1) * size == v * size + size;
  }

  /** Selections are in the order of their digits, most significant first. */
  ghost predicate Earlier(a: seq<nat>, b: seq<nat>)
    requires |a| == |b|
  {
    exists i :: 0 <= i < |a| && a[i] < b[i] && a[..i] == b[..i]
  }

  lemma {:induction false} ValueOrders(a: seq<nat>, b: seq<nat>, sizes: seq<nat>)
    requires Selection(a, sizes) && Selection(b, sizes)
    ensures Value(a, sizes) < Value(b, sizes) <==> Earlier(a, b)
    ensures Value(a, sizes) == Value(b, sizes) <==> a == b
  {
    if a == [] {
      assert a == b;
    } else {
      var last := |a| - 1;
      var x, y, s := a[..last], b[..last], sizes[..last];
      ValueOrders(x, y, s);
      assert a == x + [a[last]] && b == y + [b[last]];
      Digits(Value(x, s), Value(y, s), sizes[last], a[last], b[last]);
      EarlierLast(a, b, last);
    }
  }

  lemma Digits(v: nat, w: nat, size: nat, d: nat, e: nat)
    requires d < size && e < size
    ensures v * size + d < w * size + e <==> v < w || (v == w && d < e)
    ensures v * size + d == w * size + e <==> v == w && d == e
  {
    if v < w {
      Carry(v, w, size, d);
    } else if w < v {
      Carry(w, v, size, e);
    }
  }

  lemma EarlierLast(a: seq<nat>, b: seq<nat>, last: nat)
    requires |a| == |b| == last + 1
    ensures Earlier(a, b) <==> Earlier(a[..last], b[..last]) || (a[..last] == b[..last] && a[last] < b[last])
  {
    if i :| 0 <= i < |a| && a[i] < b[i] && a[..i] == b[..i] {
      if i < last {
        assert a[..last][..i] == a[..i] && b[..last][..i] == b[..i];
        assert a[..last][i] < b[..last][i];
      }
    }
    if i :| 0 <= i < last && a[..last][i] < b[..last][i] && a[..last][..i] == b[..last][..i] {
      assert a[..last][..i] == a[..i] && b[..last][..i] == b[..i];
      assert a[i] < b[i];
    }
  }

  lemma {:induction false} ZeroValue(sel: seq<nat>, sizes: seq<nat>)
    requires |sel| == |sizes| && forall i | 0 <= i < |sel| :: sel[i] == 0
    ensures Value(sel, sizes) == 0
  {
    if sel != [] {
      ZeroValue(sel[..|sel| - 1], sizes[..|sel| - 1]);
    }
  }

  // ---------- the odometer ----------

  /** The digits from i on are at their last value in `before`, and at zero in `after`; the others are as before. */
  ghost predicate Wrapped(before: seq<nat>, after: seq<nat>, sizes: seq<nat>, i: nat) {
    && |before| == |after| == |sizes| && i <= |sizes|
    && (forall k | i <= k < |sizes| :: sizes[k] > 0 && before[k] == sizes[k] - 1 && after[k] == 0)
    && (forall k | 0 <= k < i :: after[k] == before[k])
  }

  lemma {:induction false} WrappedValue(before: seq<nat>, after: seq<nat>, sizes: seq<nat>, i: nat, n: nat)
    requires Wrapped(before, after, sizes, i) && i <= n <= |sizes|
    ensures Value(before[..n], sizes[..n]) + 1 == (Value(before[..i], sizes[..i]) + 1) * Product(sizes[i..n])
    ensures Value(after[..n], sizes[..n]) == Value(before[..i], sizes[..i]) * Product(sizes[i..n])
  {
    if i == n {
      assert after[..i] == before[..i];
      assert sizes[i..n] == [];
    } else {
      WrappedValue(before, after, sizes, i, n - 1);
      var m := n - 1;
      assert before[..n][..m] == before[..m] && after[..n][..m] == after[..m] && sizes[..n][..m] == sizes[..m];
      assert sizes[i..n][..n - i - 1] == sizes[i..m] && sizes[i..n][n - i - 1] == sizes[m];
      var v, p, s := Value(before[..i], sizes[..i]), Product(sizes[i..m]), sizes[m];
      assert Value(before[..n], sizes[..n]) == Value(before[..m], sizes[..m]) * s + (s - 1);
      assert Value(after[..n], sizes[..n]) == Value(after[..m], sizes[..m]) * s;
      Distribute(v, p, s, Value(before[..m], sizes[..m]));
    }
  }

  lemma Distribute(v: nat, p: nat, s: nat, b: nat)
    requires b + 1 == (v + 1) * p
    ensures b * s + s == (v + 1) * (p * s)
    ensures (v * p) * s == v * (p * s)
  {
    assert b * s + s == (b + 1) * s;
    assert ((v + 1) * p) * s == (v + 1) * (p * s);
  }

  /** Moves to the next number; says no exactly when it was the last, and then is back at zero. */
  method AdvancePermutation(sel: array<nat>, sizes: seq<nat>) returns (more: bool)
    requires Selection(sel[..], sizes)
    modifies sel
    ensures Selection(sel[..], sizes)
    ensures more ==> Value(sel[..], sizes) == Value(old(sel[..]), sizes) + 1
    ensures !more ==> Value(old(sel[..]), sizes) + 1 == Product(sizes) && Value(sel[..], sizes) == 0
  {
    ghost var before := sel[..];
    var i: nat := |sizes|;
    while i > 0
      invariant i <= |sizes| && Wrapped(before, sel[..], sizes, i)
    {
      i := i - 1;
      sel[i] := sel[i] + 1;
      if sel[i] < sizes[i] {
        Advanced(before, sel[..], sizes, i);
        return true;
      }
      sel[i] := 0;
    }
    WrappedValue(before, sel[..], sizes, 0, |sizes|);
    assert before[..|sizes|] == before && sel[..][..|sizes|] == sel[..] && sizes[..|sizes|] == sizes && sizes[0..|sizes|] == sizes;
    more := false;
  }

  lemma Advanced(before: seq<nat>, after: seq<nat>, sizes: seq<nat>, i: nat)
    requires |before| == |after| == |sizes| && i < |sizes|
    requires after[i] == before[i] + 1 && Wrapped(before, after[i := before[i]], sizes, i + 1)
    ensures Value(after, sizes) == Value(before, sizes) + 1
  {
    hide *;
    var n, half := |sizes|, after[i := before[i]];
    AdvancedDigits(before, after, sizes, i);
    WrappedValue(before, half, sizes, i + 1, n);
    TailValue(after, sizes, i + 1, n);
    OneMore(before, after, sizes, i);
    Whole(before, sizes);
    Whole(after, sizes);
    Carried(Value(before[..i + 1], sizes[..i + 1]), Product(sizes[i + 1..n]));
  }

  lemma AdvancedDigits(before: seq<nat>, after: seq<nat>, sizes: seq<nat>, i: nat)
    requires |before| == |after| == |sizes| && i < |sizes|
    requires Wrapped(before, after[i := before[i]], sizes, i + 1)
    ensures forall k | i + 1 <= k < |sizes| :: after[k] == 0
    ensures forall k | 0 <= k < i :: after[k] == before[k]
  {
    var half := after[i := before[i]];
    forall k | i + 1 <= k < |sizes| ensures after[k] == 0 { assert half[k] == after[k]; }
    forall k | 0 <= k < i ensures after[k] == before[k] { assert half[k] == after[k]; }
  }

  lemma Carried(high: nat, low: nat)
    ensures (high + 1) * low == high * low + low
  {
  }

  lemma Whole(sel: seq<nat>, sizes: seq<nat>)
    requires |sel| == |sizes|
    ensures Value(sel[..|sizes|], sizes[..|sizes|]) == Value(sel, sizes)
  {
    assert sel[..|sizes|] == sel && sizes[..|sizes|] == sizes;
  }

  lemma OneMore(before: seq<nat>, after: seq<nat>, sizes: seq<nat>, i: nat)
    requires |before| == |after| == |sizes| && i < |sizes| && after[i] == before[i] + 1
    requires forall k | 0 <= k < i :: after[k] == before[k]
    ensures Value(after[..i + 1], sizes[..i + 1]) == Value(before[..i + 1], sizes[..i + 1]) + 1
  {
    var x, y, s := before[..i + 1], after[..i + 1], sizes[..i + 1];
    assert y[..i] == x[..i];
  }

  /** Zeros behind the first i digits only scale the number. */
  lemma {:induction false} TailValue(sel: seq<nat>, sizes: seq<nat>, i: nat, n: nat)
    requires |sel| == |sizes| && i <= n <= |sizes| && forall k | i <= k < n :: sel[k] == 0
    ensures Value(sel[..n], sizes[..n]) == Value(sel[..i], sizes[..i]) * Product(sizes[i..n])
  {
    if i == n {
      assert sizes[i..n] == [];
    } else {
      var m := n - 1;
      TailValue(sel, sizes, i, m);
      assert sel[..n][..m] == sel[..m] && sizes[..n][..m] == sizes[..m];
      assert sizes[i..n][..n - i - 1] == sizes[i..m] && sizes[i..n][n - i - 1] == sizes[m];
      Associate(Value(sel[..i], sizes[..i]), Product(sizes[i..m]), sizes[m]);
    }
  }

  lemma Associate(a: nat, b: nat, c: nat)
    ensures (a * b) * c == a * (b * c)
  {
  }

  // ---------- the groups ----------

  datatype Group = Group(name: string, inputs: seq<string>)

  datatype Entry = Input(payload: string) | Identifier(id: string)

  type Permutation = map<string, Entry>

  datatype Outcome = Permutations(all: seq<Permutation>) | EmptyName(index: nat) | TooMany(index: nat)

  type Normalizer = string -> string

  /** The sizes of the groups that have inputs. */
  function Sizes(groups: seq<Group>): seq<nat> {
    if groups == [] then []
    else
      var last := |groups| - 1;
      Sizes(groups[..last]) + (if groups[last].inputs == [] then [] else [|groups[last].inputs|])
  }

  function Scoped(groups: seq<Group>, norm: Normalizer): seq<Group> {
    if groups == [] then []
    else
      var last := |groups| - 1;
      Scoped(groups[..last], norm) +
      (if groups[last].inputs == [] then [] else [Group(norm(groups[last].name), groups[last].inputs)])
  }

  lemma {:induction false} ScopedSizes(groups: seq<Group>, norm: Normalizer)
    ensures |Scoped(groups, norm)| == |Sizes(groups)|
    ensures forall i | 0 <= i < |Sizes(groups)| ::
              Sizes(groups)[i] == |Scoped(groups, norm)[i].inputs| && Sizes(groups)[i] > 0
  {
    if groups != [] {
      ScopedSizes(groups[..|groups| - 1], norm);
    }
  }

  /** One permutation: under each name the input selected of its group, and an identifier of the selection. */
  ghost function PermutationOf(scoped: seq<Group>, sel: seq<nat>): Permutation
    requires |sel| == |scoped| && forall i | 0 <= i < |sel| :: sel[i] < |scoped[i].inputs|
  {
    PartOf(scoped, sel, |scoped|)["id" := Identifier(PermId(Join(PartsOf(scoped, sel, |scoped|), "/")))]
  }

  ghost function PartOf(scoped: seq<Group>, sel: seq<nat>, n: nat): Permutation
    requires |sel| == |scoped| && n <= |scoped| && forall i | 0 <= i < |sel| :: sel[i] < |scoped[i].inputs|
  {
    if n == 0 then map[]
    else PartOf(scoped, sel, n - 1)[scoped[n - 1].name := Input(scoped[n - 1].inputs[sel[n - 1]])]
  }

  ghost function PartsOf(scoped: seq<Group>, sel: seq<nat>, n: nat): (parts: seq<string>)
    requires |sel| == |scoped| && n <= |scoped|
    ensures |parts| == n
  {
    if n == 0 then [] else PartsOf(scoped, sel, n - 1) + [scoped[n - 1].name + "=" + Decimal(sel[n - 1])]
  }

  // ---------- identifiers ----------

  function Decimal(n: nat): string {
    (if n < 10 then "" else Decimal(n / 10)) + [('0' as int + n % 10) as char]
  }

  /** `adler32.Checksum`: the sum of the bytes and one, and above it the sum of these sums, each modulo a prime. */
  function Adler32(s: string): nat {
    RunningSum(s) % 65521 * 65536 + (1 + CharSum(s)) % 65521
  }

  function CharSum(s: string): nat {
    if s == "" then 0 else CharSum(s[..|s| - 1]) + s[|s| - 1] as int
  }

  function RunningSum(s: string): nat {
    if s == "" then 0 else RunningSum(s[..|s| - 1]) + 1 + CharSum(s)
  }

  function PermId(s: string): string {
    Decimal(Adler32(s))
  }

  /** Group i stops the scan: it is empty when empty groups empty the product, or it has no name, or the product
      so far is too large. */
  ghost predicate StopsEmpty(groups: seq<Group>, includeEmpty: bool, i: nat) {
    i < |groups| && groups[i].inputs == [] && includeEmpty
  }

  ghost predicate StopsNameless(groups: seq<Group>, norm: Normalizer, i: nat) {
    i < |groups| && groups[i].inputs != [] && norm(groups[i].name) == ""
  }

  ghost predicate StopsLarge(groups: seq<Group>, i: nat) {
    i < |groups| && groups[i].inputs != [] && Product(Sizes(groups[..i + 1])) > MAX_PERMUTATIONS
  }

  ghost predicate Passes(groups: seq<Group>, includeEmpty: bool, norm: Normalizer, i: nat) {
    forall k: nat | k < i :: !StopsEmpty(groups, includeEmpty, k) && !StopsNameless(groups, norm, k) && !StopsLarge(groups, k)
  }

  /** The k-th permutation is that of the k-th selection. */
  ghost predicate AllInOrder(scoped: seq<Group>, sizes: seq<nat>, out: seq<Permutation>, selections: seq<seq<nat>>) {
    && |out| == |selections| && |scoped| == |sizes|
    && (forall i | 0 <= i < |sizes| :: sizes[i] == |scoped[i].inputs|)
    && forall k | 0 <= k < |out| ::
      && Selection(selections[k], sizes) && Value(selections[k], sizes) == k
      && out[k] == PermutationOf(scoped, selections[k])
  }

  method Build(scoped: seq<Group>, sel: seq<nat>) returns (perm: Permutation)
    requires |sel| == |scoped| && forall i | 0 <= i < |sel| :: sel[i] < |scoped[i].inputs|
    ensures perm == PermutationOf(scoped, sel)
  {
    perm := map[];
    var parts: seq<string> := [];
    for i := 0 to |scoped|
      invariant perm == PartOf(scoped, sel, i) && parts == PartsOf(scoped, sel, i)
    {
      perm := perm[scoped[i].name := Input(scoped[i].inputs[sel[i]])];
      parts := parts + [scoped[i].name + "=" + Decimal(sel[i])];
    }
    perm := perm["id" := Identifier(PermId(Join(parts, "/")))];
  }

  method Enumerate(scoped: seq<Group>, sizes: seq<nat>) returns (out: seq<Permutation>, ghost selections: seq<seq<nat>>)
    requires |scoped| == |sizes| && forall i | 0 <= i < |sizes| :: sizes[i] == |scoped[i].inputs| && sizes[i] > 0
    ensures AllInOrder(scoped, sizes, out, selections) && |out| == Product(sizes)
  {
    hide Value, Product;
    out, selections := [], [];
    var sel := new nat[|scoped|](_ => 0);
    ZeroValue(sel[..], sizes);
    var more := true;
    while more
      invariant Selection(sel[..], sizes) && AllInOrder(scoped, sizes, out, selections)
      invariant more ==> Value(sel[..], sizes) == |out|
      invariant !more ==> |out| == Product(sizes)
      decreases if more then Product(sizes) - |out| + 1 else 0
    {
      ValueBelow(sel[..], sizes);
      var perm := Build(scoped, sel[..]);
      out := out + [perm];
      selections := selections + [sel[..]];
      more := AdvancePermutation(sel, sizes);
    }
  }

  /** The scan over the groups: the sizes and scoped groups when all pass, or how the first other one stops it. */
  datatype Scan = Scanned(scoped: seq<Group>, sizes: seq<nat>) | Emptied | Nameless(index: nat) | Large(index: nat)

  ghost predicate ScanIs(groups: seq<Group>, includeEmpty: bool, norm: Normalizer, r: Scan) {
    match r
    case Scanned(scoped, sizes) =>
      && Passes(groups, includeEmpty, norm, |groups|)
      && scoped == Scoped(groups, norm) && sizes == Sizes(groups) && Product(sizes) <= MAX_PERMUTATIONS
    case Emptied => exists i :: StopsEmpty(groups, includeEmpty, i) && Passes(groups, includeEmpty, norm, i)
    case Nameless(i) => StopsNameless(groups, norm, i) && Passes(groups, includeEmpty, norm, i)
    case Large(i) => StopsLarge(groups, i) && Passes(groups, includeEmpty, norm, i)
  }

  method ScopeGroups(groups: seq<Group>, includeEmpty: bool, norm: Normalizer) returns (r: Scan)
    requires forall i | 0 <= i < |groups| :: |groups[i].inputs| < 0x4_0000_0000_0000
    ensures ScanIs(groups, includeEmpty, norm, r)
  {
    hide Product, Passes;
    var scoped: seq<Group> := [];
    var sizes: seq<nat> := [];
    var expected := 1;
    FirstPass(groups, includeEmpty, norm);
    for i := 0 to |groups|
      invariant scoped == Scoped(groups[..i], norm) && sizes == Sizes(groups[..i])
      invariant expected == Product(sizes) <= MAX_PERMUTATIONS
      invariant Passes(groups, includeEmpty, norm, i)
    {
      var g := groups[i];
      OneMoreGroup(groups, norm, i);
      if |g.inputs| == 0 {
        if includeEmpty {
          assert StopsEmpty(groups, includeEmpty, i);
          return Emptied;
        }
        PassOne(groups, includeEmpty, norm, i);
        continue;
      }
      var name := norm(g.name);
      if name == "" {
        return Nameless(i);
      }
      NoWrap(expected, |g.inputs|);
      expected := expected * |g.inputs| % UINT64;
      if expected > MAX_PERMUTATIONS {
        return Large(i);
      }
      PassOne(groups, includeEmpty, norm, i);
      sizes := sizes + [|g.inputs|];
      scoped := scoped + [Group(name, g.inputs)];
    }
    assert groups[..|groups|] == groups;
    r := Scanned(scoped, sizes);
  }

  lemma FirstPass(groups: seq<Group>, includeEmpty: bool, norm: Normalizer)
    ensures Passes(groups, includeEmpty, norm, 0) && Product([]) == 1
  {
  }

  lemma PassOne(groups: seq<Group>, includeEmpty: bool, norm: Normalizer, i: nat)
    requires Passes(groups, includeEmpty, norm, i)
    requires !StopsEmpty(groups, includeEmpty, i) && !StopsNameless(groups, norm, i) && !StopsLarge(groups, i)
    ensures Passes(groups, includeEmpty, norm, i + 1)
  {
  }

  lemma OneMoreGroup(groups: seq<Group>, norm: Normalizer, i: nat)
    requires i < |groups|
    ensures var g, before := groups[i], Sizes(groups[..i]);
            if g.inputs == [] then
              Scoped(groups[..i + 1], norm) == Scoped(groups[..i], norm) && Sizes(groups[..i + 1]) == before
            else
              && Scoped(groups[..i + 1], norm) == Scoped(groups[..i], norm) + [Group(norm(g.name), g.inputs)]
              && Sizes(groups[..i + 1]) == before + [|g.inputs|]
              && Product(Sizes(groups[..i + 1])) == Product(before) * |g.inputs|
  {
    assert groups[..i + 1][..i] == groups[..i];
    var grown := Sizes(groups[..i]) + [|groups[i].inputs|];
    assert grown[..|grown| - 1] == Sizes(groups[..i]);
  }

  /** With groups of fewer than 2^50 inputs the count does not wrap, so the bound is exact; then each selection is
      emitted once, in order, as many as the product of the sizes. */
  method PermuteGroups(groups: seq<Group>, includeEmpty: bool, norm: Normalizer)
    returns (r: Outcome, ghost scan: Scan, ghost selections: seq<seq<nat>>)
    requires forall i | 0 <= i < |groups| :: |groups[i].inputs| < 0x4_0000_0000_0000
    ensures ScanIs(groups, includeEmpty, norm, scan)
    ensures match scan
            case Scanned(scoped, sizes) =>
              r.Permutations? &&
              (if sizes == [] then r.all == []
               else
                 && AllInOrder(scoped, sizes, r.all, selections) && |r.all| == Product(sizes) <= 10000
                 && Carries(scoped, selections, r.all))
            case Emptied => r == Permutations([])
            case Nameless(i) => r == EmptyName(i)
            case Large(i) => r == TooMany(i) && Product(Sizes(groups[..i + 1])) > 10000
    ensures scan.Scanned? ==> exists kept :: KeepsGroups(groups, norm, scan.scoped, kept)
  {
    hide Product, Passes, AllInOrder, Carries, KeepsGroups;
    ghost var kept := GroupsKept(groups, norm);
    var scanned := ScopeGroups(groups, includeEmpty, norm);
    scan, selections := scanned, [];
    match scanned
    case Scanned(scoped, sizes) =>
      ScopedSizes(groups, norm);
      if |scoped| == 0 {
        return Permutations([]), scan, [];
      }
      var out;
      out, selections := Enumerate(scoped, sizes);
      AllCarry(scoped, sizes, out, selections);
      r := Permutations(out);
    case Emptied =>
      r := Permutations([]);
    case Nameless(i) =>
      r := EmptyName(i);
    case Large(i) =>
      r := TooMany(i);
  }

  // ---------- what the permutations are ----------

  /** The scoped groups are those with inputs, in order, under their normalized names. */
  ghost predicate KeepsGroups(groups: seq<Group>, norm: Normalizer, scoped: seq<Group>, kept: seq<nat>) {
    && |kept| == |scoped|
    && (forall i, j | 0 <= i < j < |kept| :: kept[i] < kept[j])
    && (forall i | 0 <= i < |kept| ::
          kept[i] < |groups| && scoped[i] == Group(norm(groups[kept[i]].name), groups[kept[i]].inputs))
    && (forall k: nat | k < |groups| :: k in kept <==> groups[k].inputs != [])
  }

  lemma {:induction false} GroupsKept(groups: seq<Group>, norm: Normalizer) returns (kept: seq<nat>)
    ensures KeepsGroups(groups, norm, Scoped(groups, norm), kept)
  {
    kept := [];
    if groups != [] {
      var last := |groups| - 1;
      var before := GroupsKept(groups[..last], norm);
      kept := if groups[last].inputs == [] then before else before + [last];
      KeepsOneMore(groups, norm, Scoped(groups[..last], norm), before);
    }
  }

  lemma KeepsOneMore(groups: seq<Group>, norm: Normalizer, scoped: seq<Group>, kept: seq<nat>)
    requires groups != [] && KeepsGroups(groups[..|groups| - 1], norm, scoped, kept)
    ensures var last := |groups| - 1;
            if groups[last].inputs == [] then KeepsGroups(groups, norm, scoped, kept)
            else KeepsGroups(groups, norm, scoped + [Group(norm(groups[last].name), groups[last].inputs)], kept + [last])
  {
    var last := |groups| - 1;
    assert forall k: nat | k < last :: groups[..last][k] == groups[k];
    assert forall k | k in kept :: k < last;
    assert forall k: nat :: k in kept + [last] <==> k in kept || k == last;
  }

  /** The permutation of a selection: the scoped names and "id" are its keys; a name that stands for one group
      holds the selected input of it, and "id" the checksum of the names with the positions selected. */
  ghost predicate CarriesOne(scoped: seq<Group>, sel: seq<nat>, perm: Permutation) {
    && |sel| == |scoped| && CarriesKeys(scoped, perm)
    && (forall i | 0 <= i < |scoped| && OwnName(scoped, i) ::
          sel[i] < |scoped[i].inputs| && perm[scoped[i].name] == Input(scoped[i].inputs[sel[i]]))
    && exists parts :: NamedParts(scoped, sel, parts) && perm["id"] == Identifier(PermId(Join(parts, "/")))
  }

  ghost predicate CarriesKeys(scoped: seq<Group>, perm: Permutation) {
    && "id" in perm && (forall i | 0 <= i < |scoped| :: scoped[i].name in perm)
    && (forall key | key in perm && key != "id" :: exists i :: 0 <= i < |scoped| && scoped[i].name == key)
  }

  /** The name is not "id", and no later group takes it. */
  predicate OwnName(scoped: seq<Group>, i: nat)
    requires i < |scoped|
  {
    scoped[i].name != "id" && forall j | i < j < |scoped| :: scoped[j].name != scoped[i].name
  }

  ghost predicate NamedParts(scoped: seq<Group>, sel: seq<nat>, parts: seq<string>)
    requires |sel| == |scoped|
  {
    |parts| == |scoped| && forall i | 0 <= i < |scoped| :: parts[i] == scoped[i].name + "=" + Decimal(sel[i])
  }

  ghost predicate Carries(scoped: seq<Group>, selections: seq<seq<nat>>, all: seq<Permutation>) {
    |all| == |selections| && forall k | 0 <= k < |all| :: CarriesOne(scoped, selections[k], all[k])
  }

  lemma {:induction false} PartKeys(scoped: seq<Group>, sel: seq<nat>, n: nat, key: string)
    requires |sel| == |scoped| && n <= |scoped| && forall i | 0 <= i < |sel| :: sel[i] < |scoped[i].inputs|
    ensures key in PartOf(scoped, sel, n) <==> exists i :: 0 <= i < n && scoped[i].name == key
  {
    if n > 0 { PartKeys(scoped, sel, n - 1, key); }
  }

  lemma {:induction false} PartValue(scoped: seq<Group>, sel: seq<nat>, n: nat, i: nat)
    requires |sel| == |scoped| && i < n <= |scoped| && forall k | 0 <= k < |sel| :: sel[k] < |scoped[k].inputs|
    requires forall j | i < j < n :: scoped[j].name != scoped[i].name
    ensures scoped[i].name in PartOf(scoped, sel, n)
    ensures PartOf(scoped, sel, n)[scoped[i].name] == Input(scoped[i].inputs[sel[i]])
  {
    if i < n - 1 { PartValue(scoped, sel, n - 1, i); }
  }

  lemma {:induction false} PartTexts(scoped: seq<Group>, sel: seq<nat>, n: nat)
    requires |sel| == |scoped| && n <= |scoped|
    ensures forall i | 0 <= i < n :: PartsOf(scoped, sel, n)[i] == scoped[i].name + "=" + Decimal(sel[i])
  {
    hide Decimal;
    if n > 0 { PartTexts(scoped, sel, n - 1); }
  }

  lemma PermutationCarries(scoped: seq<Group>, sel: seq<nat>)
    requires |sel| == |scoped| && forall i | 0 <= i < |sel| :: sel[i] < |scoped[i].inputs|
    ensures CarriesOne(scoped, sel, PermutationOf(scoped, sel))
  {
    hide PermId, PartOf, PartsOf, Join, Decimal, CarriesKeys;
    var n := |scoped|;
    PermutationKeys(scoped, sel);
    forall i | 0 <= i < n && OwnName(scoped, i)
      ensures scoped[i].name in PermutationOf(scoped, sel)
      ensures PermutationOf(scoped, sel)[scoped[i].name] == Input(scoped[i].inputs[sel[i]])
    {
      PartValue(scoped, sel, n, i);
    }
    PartTexts(scoped, sel, n);
    assert NamedParts(scoped, sel, PartsOf(scoped, sel, n));
  }

  lemma PermutationKeys(scoped: seq<Group>, sel: seq<nat>)
    requires |sel| == |scoped| && forall i | 0 <= i < |sel| :: sel[i] < |scoped[i].inputs|
    ensures CarriesKeys(scoped, PermutationOf(scoped, sel))
  {
    hide PermId, PartOf, PartsOf, Join, Decimal;
    var n := |scoped|;
    forall key ensures key in PartOf(scoped, sel, n) <==> exists i :: 0 <= i < n && scoped[i].name == key {
      PartKeys(scoped, sel, n, key);
    }
  }

  lemma AllCarry(scoped: seq<Group>, sizes: seq<nat>, out: seq<Permutation>, selections: seq<seq<nat>>)
    requires AllInOrder(scoped, sizes, out, selections)
    ensures Carries(scoped, selections, out)
  {
    hide PermutationOf, CarriesOne, Value;
    forall k | 0 <= k < |out| ensures CarriesOne(scoped, selections[k], out[k]) {
      assert Selection(selections[k], sizes);
      PermutationCarries(scoped, selections[k]);
    }
  }

  /** Every choice of one input from each group lies in some permutation. */
  lemma EveryChoiceOccurs(scoped: seq<Group>, sizes: seq<nat>, out: seq<Permutation>, selections: seq<seq<nat>>,
                          choice: seq<string>)
    requires AllInOrder(scoped, sizes, out, selections) && |out| == Product(sizes) && Carries(scoped, selections, out)
    requires |choice| == |scoped| && forall i | 0 <= i < |choice| :: choice[i] in scoped[i].inputs
    ensures exists k :: 0 <= k < |out| &&
                        forall i | 0 <= i < |scoped| && OwnName(scoped, i) ::
                          scoped[i].name in out[k] && out[k][scoped[i].name] == Input(choice[i])
  {
    var sel := seq(|choice|, i requires 0 <= i < |choice| => PlaceOf(choice[i], scoped[i].inputs));
    EachSelectionOnce(scoped, sizes, out, selections);
    assert Selection(sel, sizes);
    var k :| 0 <= k < |selections| && selections[k] == sel;
    assert CarriesOne(scoped, selections[k], out[k]);
  }

  ghost function PlaceOf(x: string, s: seq<string>): (k: nat)
    requires x in s
    ensures k < |s| && s[k] == x
  {
    var k: nat :| k < |s| && s[k] == x;
    k
  }

  // ---------- when identifiers tell permutations apart ----------

  lemma {:induction false} DecimalDigits(n: nat)
    ensures Decimal(n) != "" && forall i | 0 <= i < |Decimal(n)| :: '0' <= Decimal(n)[i] <= '9'
  {
    if n >= 10 { DecimalDigits(n / 10); }
  }

  lemma {:induction false} DecimalTellsApart(m: nat, n: nat)
    requires Decimal(m) == Decimal(n)
    ensures m == n
    decreases m
  {
    var a, b := Decimal(m), Decimal(n);
    assert a[|a| - 1] == b[|b| - 1];
    assert m % 10 == n % 10;
    DecimalLength(m);
    DecimalLength(n);
    if m >= 10 {
      assert a[..|a| - 1] == Decimal(m / 10) && b[..|b| - 1] == Decimal(n / 10);
      DecimalTellsApart(m / 10, n / 10);
    }
  }

  lemma DecimalLength(n: nat)
    ensures |Decimal(n)| == 1 <==> n < 10
  {
    if n >= 10 { DecimalDigits(n / 10); }
  }

  /** Where a text of digits ends before a slash. */
  lemma DigitsEnd(a: string, b: string, x: string, y: string)
    requires '/' !in a && '/' !in b && a + "/" + x == b + "/" + y
    ensures a == b && x == y
  {
    var s := a + "/" + x;
    assert s[|a|] == '/' && s[|b|] == '/';
    assert forall i | 0 <= i < |a| :: s[i] == a[i] && s[i] != '/';
    assert forall i | 0 <= i < |b| :: s[i] == b[i] && s[i] != '/';
    assert s[..|a|] == a && s[..|b|] == b && s[|a| + 1..] == x && s[|b| + 1..] == y;
  }

  /** Different selections of the same groups are named by different texts. */
  lemma {:induction false} TextsTellApart(names: seq<string>, p: seq<nat>, q: seq<nat>, x: seq<string>, y: seq<string>)
    requires |names| == |p| == |q| == |x| == |y|
    requires forall i | 0 <= i < |names| :: x[i] == names[i] + "=" + Decimal(p[i]) && y[i] == names[i] + "=" + Decimal(q[i])
    requires Join(x, "/") == Join(y, "/")
    ensures p == q
  {
    if names != [] {
      var head := names[0] + "=";
      DecimalDigits(p[0]);
      DecimalDigits(q[0]);
      hide Decimal;
      if |names| == 1 {
        assert Decimal(p[0]) == x[0][|head|..] == y[0][|head|..] == Decimal(q[0]);
        DecimalTellsApart(p[0], q[0]);
      } else {
        var s, t := Join(x[1..], "/"), Join(y[1..], "/");
        assert Join(x, "/") == head + (Decimal(p[0]) + "/" + s);
        assert Join(y, "/") == head + (Decimal(q[0]) + "/" + t);
        assert Join(x, "/")[|head|..] == Decimal(p[0]) + "/" + s;
        assert Join(y, "/")[|head|..] == Decimal(q[0]) + "/" + t;
        DigitsEnd(Decimal(p[0]), Decimal(q[0]), s, t);
        DecimalTellsApart(p[0], q[0]);
        TextsTellApart(names[1..], p[1..], q[1..], x[1..], y[1..]);
        assert p == [p[0]] + p[1..] && q == [q[0]] + q[1..];
      }
    }
  }

  /** But the identifier is a checksum of the text: two texts share it exactly when both sums agree. */
  lemma SameIdentifierIff(s: string, t: string)
    ensures PermId(s) == PermId(t) <==>
              CharSum(s) % 65521 == CharSum(t) % 65521 && RunningSum(s) % 65521 == RunningSum(t) % 65521
  {
    hide Decimal, CharSum, RunningSum;
    if PermId(s) == PermId(t) { DecimalTellsApart(Adler32(s), Adler32(t)); }
    var a, b, c, d := CharSum(s), CharSum(t), RunningSum(s) % 65521, RunningSum(t) % 65521;
    HighLow(c, (1 + a) % 65521, d, (1 + b) % 65521);
    OneMoreModulo(a, b);
  }

  lemma HighLow(c: nat, a: nat, d: nat, b: nat)
    requires a < 65521 && b < 65521
    ensures c * 65536 + a == d * 65536 + b <==> c == d && a == b
  {
  }

  lemma OneMoreModulo(a: nat, b: nat)
    ensures (1 + a) % 65521 == (1 + b) % 65521 <==> a % 65521 == b % 65521
  {
    var k, l := a / 65521, b / 65521;
    assert a == k * 65521 + a % 65521 && b == l * 65521 + b % 65521;
    NextModulo(a);
    NextModulo(b);
  }

  lemma NextModulo(a: nat)
    ensures (1 + a) % 65521 == if a % 65521 == 65520 then 0 else a % 65521 + 1
  {
  }

  lemma {:induction false} SumsAppend(s: string, t: string)
    ensures CharSum(s + t) == CharSum(s) + CharSum(t)
    ensures RunningSum(s + t) == RunningSum(s) + RunningSum(t) + |t| * CharSum(s)
  {
    if t == "" {
      assert s + t == s;
    } else {
      var u, c := t[..|t| - 1], t[|t| - 1];
      assert (s + t)[..|s + t| - 1] == s + u;
      SumsAppend(s, u);
      assert |t| * CharSum(s) == |u| * CharSum(s) + CharSum(s);
    }
  }

  /** One more in two places and two less halfway between them leave both sums as they were. */
  lemma Balanced(u: string, v: string, w: string, a: string, b: string, c: string, d: string, e: string, f: string)
    requires |v| == 3 && |w| == 3 && |a| == |b| == |c| == |d| == |e| == |f| == 1
    requires CharSum(d) == CharSum(a) + 1 && CharSum(e) + 2 == CharSum(b) && CharSum(f) == CharSum(c) + 1
    requires RunningSum(d) == RunningSum(a) + 1 && RunningSum(e) + 2 == RunningSum(b) && RunningSum(f) == RunningSum(c) + 1
    ensures CharSum(u + a + (v + b) + (w + c)) == CharSum(u + d + (v + e) + (w + f))
    ensures RunningSum(u + a + (v + b) + (w + c)) == RunningSum(u + d + (v + e) + (w + f))
  {
    SumsOfThree(u, v, w, a, b, c);
    SumsOfThree(u, v, w, d, e, f);
  }

  lemma SumsOfThree(u: string, v: string, w: string, a: string, b: string, c: string)
    requires |v| == 3 && |w| == 3 && |a| == |b| == |c| == 1
    ensures CharSum(u + a + (v + b) + (w + c)) ==
            CharSum(u) + CharSum(a) + CharSum(v) + CharSum(b) + CharSum(w) + CharSum(c)
    ensures RunningSum(u + a + (v + b) + (w + c)) ==
            RunningSum(u) + RunningSum(a) + CharSum(u) +
            RunningSum(v) + RunningSum(b) + CharSum(v) + 4 * (CharSum(u) + CharSum(a)) +
            RunningSum(w) + RunningSum(c) + CharSum(w) + 4 * (CharSum(u) + CharSum(a) + CharSum(v) + CharSum(b))
  {
    hide CharSum, RunningSum;
    SumsAppend(u, a);
    SumsAppend(v, b);
    SumsAppend(w, c);
    SumsAppend(u + a, v + b);
    SumsAppend(u + a + (v + b), w + c);
  }

  /** Two selections of three groups of four inputs whose permutations have the same identifier. */
  lemma IdentifiersCollide()
    ensures var four := ["w", "x", "y", "z"];
            var scoped := [Group("a", four), Group("b", four), Group("c", four)];
            forall p, q | CarriesOne(scoped, [1, 3, 1], p) && CarriesOne(scoped, [2, 1, 2], q) :: p["id"] == q["id"]
  {
    hide PermId, Adler32;
    var four := ["w", "x", "y", "z"];
    var scoped := [Group("a", four), Group("b", four), Group("c", four)];
    forall parts | NamedParts(scoped, [1, 3, 1], parts) ensures Join(parts, "/") == "a=" + "1" + ("/b=" + "3") + ("/c=" + "1") {
      ThreeParts(scoped, [1, 3, 1], parts);
    }
    forall parts | NamedParts(scoped, [2, 1, 2], parts) ensures Join(parts, "/") == "a=" + "2" + ("/b=" + "1") + ("/c=" + "2") {
      ThreeParts(scoped, [2, 1, 2], parts);
    }
    OneDigit("1");
    OneDigit("2");
    OneDigit("3");
    Balanced("a=", "/b=", "/c=", "1", "3", "1", "2", "1", "2");
    SameIdentifierIff("a=" + "1" + ("/b=" + "3") + ("/c=" + "1"), "a=" + "2" + ("/b=" + "1") + ("/c=" + "2"));
  }

  /** The identifier that the repository expects of the first inputs of two providers. */
  lemma FirstUpstreamIdentifier()
    ensures Adler32("provider_1=0/" + "provider_2=0") == 2075461889
  {
    hide CharSum, RunningSum;
    ProviderSums();
    SumsAppend("provider_1=0/", "provider_2=0");
  }

  lemma ProviderSums()
    ensures CharSum("provider_1=0/") == 1175 && RunningSum("provider_1=0/") == 9371
    ensures CharSum("provider_2=0") == 1129 && RunningSum("provider_2=0") == 8198
  {
    NoChars();
    hide CharSum, RunningSum;
    OneMoreChar("", "p", "p", 0, 0);
    OneMoreChar("p", "r", "pr", 112, 113);
    OneMoreChar("pr", "o", "pro", 226, 340);
    OneMoreChar("pro", "v", "prov", 337, 678);
    OneMoreChar("prov", "i", "provi", 455, 1134);
    OneMoreChar("provi", "d", "provid", 560, 1695);
    OneMoreChar("provid", "e", "provide", 660, 2356);
    OneMoreChar("provide", "r", "provider", 761, 3118);
    OneMoreChar("provider", "_", "provider_", 875, 3994);
    OneMoreChar("provider_", "1", "provider_1", 970, 4965);
    OneMoreChar("provider_1", "=", "provider_1=", 1019, 5985);
    OneMoreChar("provider_1=", "0", "provider_1=0", 1080, 7066);
    OneMoreChar("provider_1=0", "/", "provider_1=0/", 1128, 8195);
    OneMoreChar("provider_", "2", "provider_2", 970, 4965);
    OneMoreChar("provider_2", "=", "provider_2=", 1020, 5986);
    OneMoreChar("provider_2=", "0", "provider_2=0", 1081, 7068);
  }

  lemma NoChars()
    ensures CharSum("") == 0 && RunningSum("") == 0
  {
  }

  lemma OneMoreChar(s: string, c: string, t: string, sum: nat, running: nat)
    requires |c| == 1 && t == s + c && CharSum(s) == sum && RunningSum(s) == running
    ensures CharSum(t) == sum + c[0] as int && RunningSum(t) == running + 1 + sum + c[0] as int
  {
    assert t[..|s|] == s;
  }

  lemma OneDigit(s: string)
    requires |s| == 1
    ensures CharSum(s) == s[0] as int && RunningSum(s) == 1 + s[0] as int
  {
    assert s[..0] == "";
  }

  lemma ThreeParts(scoped: seq<Group>, sel: seq<nat>, parts: seq<string>)
    requires |scoped| == |sel| == 3 && scoped[0].name == "a" && scoped[1].name == "b" && scoped[2].name == "c"
    requires NamedParts(scoped, sel, parts) && sel[0] < 10 && sel[1] < 10 && sel[2] < 10
    ensures Join(parts, "/") == "a=" + Decimal(sel[0]) + ("/b=" + Decimal(sel[1])) + ("/c=" + Decimal(sel[2]))
    ensures forall i | 0 <= i < 3 :: Decimal(sel[i]) == [('0' as int + sel[i]) as char]
  {
    assert parts == [parts[0], parts[1], parts[2]];
    assert parts[1..][1..] == [parts[2]];
    assert Join(parts[1..], "/") == parts[1] + "/" + parts[2];
  }

  lemma NoWrap(expected: nat, size: nat)
    requires expected <= MAX_PERMUTATIONS && size < 0x4_0000_0000_0000
    ensures expected * size % UINT64 == expected * size
  {
    Products(expected, size, 10000, 0x4_0000_0000_0000);
    Small(expected * size);
  }

  lemma Products(a: nat, b: nat, c: nat, d: nat)
    requires a <= c && b <= d
    ensures a * b <= c * d
  {
    assert a * b <= a * d;
  }

  lemma Small(n: nat)
    requires n <= 10000 * 0x4_0000_0000_0000
    ensures n % UINT64 == n
  {
  }

  /** Every selection is emitted, and none twice. */
  lemma EachSelectionOnce(scoped: seq<Group>, sizes: seq<nat>, out: seq<Permutation>, selections: seq<seq<nat>>)
    requires AllInOrder(scoped, sizes, out, selections) && |out| == Product(sizes)
    ensures forall sel | Selection(sel, sizes) :: sel in selections
    ensures forall i, j | 0 <= i < j < |selections| :: selections[i] != selections[j] && Earlier(selections[i], selections[j])
  {
    hide Value, Product, Earlier, PermutationOf;
    forall sel | Selection(sel, sizes) ensures sel in selections {
      ValueBelow(sel, sizes);
      var k := Value(sel, sizes);
      ValueOrders(sel, selections[k], sizes);
    }
    forall i, j | 0 <= i < j < |selections|
      ensures selections[i] != selections[j] && Earlier(selections[i], selections[j])
    {
      ValueOrders(selections[i], selections[j], sizes);
    }
  }

  // ---------- names ----------

  /** What a character is to a name: kept when it is a small letter or a digit after lowering, a break when it is
      space or punctuation, and otherwise nothing. The lowering and the break test are Unicode's. */
  datatype Alphabet = Alphabet(lower: char -> char, breaks: char -> bool)

  predicate Plain(c: char) {
    'a' <= c <= 'z' || '0' <= c <= '9'
  }

  /** Plain characters, with single underscores between them. */
  ghost predicate IsKey(s: string) {
    && (forall i | 0 <= i < |s| :: Plain(s[i]) || s[i] == '_')
    && (s != [] ==> s[0] != '_' && s[|s| - 1] != '_')
    && (forall i | 0 < i < |s| :: s[i] == '_' ==> s[i - 1] != '_')
  }

  ghost predicate Sensible(a: Alphabet) {
    && (forall c | Plain(c) :: a.lower(c) == c && !a.breaks(c))
    && a.lower('_') == '_' && a.breaks('_')
  }

  predicate Kept(a: Alphabet, c: char) {
    !a.breaks(a.lower(c)) && Plain(a.lower(c))
  }

  /** The characters that are kept, lowered. */
  function KeptOf(a: Alphabet, s: string): string {
    if s == "" then ""
    else
      var last := |s| - 1;
      KeptOf(a, s[..last]) + if Kept(a, s[last]) then [a.lower(s[last])] else ""
  }

  function WithoutUnderscores(s: string): string {
    if s == "" then ""
    else
      var last := |s| - 1;
      WithoutUnderscores(s[..last]) + if s[last] == '_' then "" else [s[last]]
  }

  /** What is kept of each stretch between two breaks. */
  function Words(a: Alphabet, s: string): (words: seq<string>)
    ensures words != []
  {
    if s == "" then [""]
    else
      var end := |s| - 1;
      var words := Words(a, s[..end]);
      var last := |words| - 1;
      if a.breaks(a.lower(s[end])) then words + [""]
      else if Plain(a.lower(s[end])) then words[..last] + [words[last] + [a.lower(s[end])]]
      else words
  }

  function NonEmpty(words: seq<string>): seq<string> {
    if words == [] then []
    else
      var last := |words| - 1;
      NonEmpty(words[..last]) + if words[last] == "" then [] else [words[last]]
  }

  /** The key of the first characters: the words so far, an underscore between each two. */
  ghost predicate Keyed(a: Alphabet, s: string, key: string, pending: bool) {
    var words := Words(a, s);
    && key == Join(NonEmpty(words), "_")
    && (pending ==> words[|words| - 1] == "")
    && (words[|words| - 1] == "" ==> pending || key == "")
  }

  lemma {:induction false} JoinNonEmpty(words: seq<string>)
    ensures Join(NonEmpty(words), "_") == "" <==> NonEmpty(words) == []
    ensures forall w | w in NonEmpty(words) :: w != ""
    decreases |words|
  {
    if words != [] {
      var last := |words| - 1;
      var before := NonEmpty(words[..last]);
      JoinNonEmpty(words[..last]);
      if words[last] != "" && before != [] { JoinAppend(before, [words[last]], "_"); }
    }
  }

  lemma KeyedBreak(a: Alphabet, s: string, c: char, key: string, pending: bool)
    requires Keyed(a, s, key, pending) && a.breaks(a.lower(c))
    ensures Keyed(a, s + [c], key, true)
  {
    var words := Words(a, s);
    assert (s + [c])[..|s|] == s;
    assert (words + [""])[..|words|] == words;
    assert NonEmpty(words + [""]) == NonEmpty(words);
  }

  lemma KeyedPlain(a: Alphabet, s: string, c: char, key: string, pending: bool)
    requires Keyed(a, s, key, pending) && Kept(a, c)
    ensures Keyed(a, s + [c], (if pending && |key| > 0 then key + "_" else key) + [a.lower(c)], false)
  {
    hide Words, NonEmpty, Join, Kept;
    var words := Words(a, s);
    var last := |words| - 1;
    var before := words[..last];
    WordsPlain(a, s, c);
    NonEmptyLast(before, words[last]);
    NonEmptyLast(before, words[last] + [a.lower(c)]);
    assert words == before + [words[last]];
    JoinNonEmpty(words);
    LastWord(NonEmpty(before), words[last], a.lower(c));
    assert words[last] == "" ==> NonEmpty(words) == NonEmpty(before) + [] == NonEmpty(before);
  }

  lemma WordsPlain(a: Alphabet, s: string, c: char)
    requires Kept(a, c)
    ensures var words := Words(a, s);
            var last := |words| - 1;
            Words(a, s + [c]) == words[..last] + [words[last] + [a.lower(c)]]
  {
    assert (s + [c])[..|s|] == s;
  }

  lemma NonEmptyLast(before: seq<string>, w: string)
    ensures NonEmpty(before + [w]) == NonEmpty(before) + if w == "" then [] else [w]
  {
    assert (before + [w])[..|before|] == before;
  }

  lemma LastWord(before: seq<string>, w: string, c: char)
    ensures Join(before + [w + [c]], "_") ==
            (if w != "" then Join(before + [w], "_")
             else if before != [] then Join(before, "_") + "_" else "") + [c]
  {
    if before == [] {
      assert before + [w + [c]] == [w + [c]] && before + [w] == [w];
    } else {
      JoinAppend(before, [w + [c]], "_");
      JoinAppend(before, [w], "_");
    }
  }

  lemma KeyedOther(a: Alphabet, s: string, c: char, key: string, pending: bool)
    requires Keyed(a, s, key, pending) && !a.breaks(a.lower(c)) && !Plain(a.lower(c))
    ensures Keyed(a, s + [c], key, pending)
  {
    assert (s + [c])[..|s|] == s;
  }

  /** Which characters survive, and in what order. */
  lemma {:induction false} KeyKeepsPlain(a: Alphabet, s: string)
    ensures WithoutUnderscores(Join(NonEmpty(Words(a, s)), "_")) == KeptOf(a, s)
  {
    if s != "" {
      var end := |s| - 1;
      var t, c := s[..end], s[end];
      assert s == t + [c];
      KeyKeepsPlain(a, t);
      var key := Join(NonEmpty(Words(a, t)), "_");
      JoinNonEmpty(Words(a, t));
      var pending := Words(a, t)[|Words(a, t)| - 1] == "";
      assert Keyed(a, t, key, pending);
      hide Words, NonEmpty;
      if a.breaks(a.lower(c)) {
        KeyedBreak(a, t, c, key, pending);
      } else if Plain(a.lower(c)) {
        KeyedPlain(a, t, c, key, pending);
        var longer := if pending && |key| > 0 then key + "_" else key;
        assert (key + "_")[..|key|] == key;
        assert (longer + [a.lower(c)])[..|longer|] == longer;
      } else {
        KeyedOther(a, t, c, key, pending);
      }
    }
  }

  method NormalizeKeyForTemplate(a: Alphabet, s: string) returns (key: string)
    ensures key == Join(NonEmpty(Words(a, s)), "_")
    ensures WithoutUnderscores(key) == KeptOf(a, s)
    ensures IsKey(key)
    ensures Sensible(a) && IsKey(s) ==> key == s
    ensures key == "" <==> forall i | 0 <= i < |s| :: !Kept(a, s[i])
  {
    hide Words, NonEmpty, KeptOf, WithoutUnderscores, Keyed;
    key := "";
    var pending := false;
    NoWords(a);
    for i := 0 to |s|
      invariant Keyed(a, s[..i], key, pending)
      invariant IsKey(key)
      invariant Sensible(a) && IsKey(s) ==>
                  s[..i] == key + (if pending then "_" else "") && (pending ==> key != "")
      invariant key == "" <==> forall k | 0 <= k < i :: !Kept(a, s[k])
    {
      var c := a.lower(s[i]);
      assert s[..i + 1] == s[..i] + [s[i]];
      assert i > 0 ==> s[..i][i - 1] == s[i - 1];
      if a.breaks(c) {
        KeyedBreak(a, s[..i], s[i], key, pending);
        pending := true;
        continue;
      }
      if Plain(c) {
        KeyedPlain(a, s[..i], s[i], key, pending);
        if pending && |key| > 0 {
          key := key + "_";
        }
        pending := false;
        key := key + [c];
      } else {
        KeyedOther(a, s[..i], s[i], key, pending);
      }
    }
    assert s[..|s|] == s;
    assert s != [] ==> s[..|s|][|s| - 1] == s[|s| - 1];
    KeyedWhole(a, s, key, pending);
    KeyKeepsPlain(a, s);
  }

  lemma NoWords(a: Alphabet)
    ensures Keyed(a, "", "", false)
  {
    assert NonEmpty([""]) == [];
  }

  lemma KeyedWhole(a: Alphabet, s: string, key: string, pending: bool)
    requires Keyed(a, s, key, pending)
    ensures key == Join(NonEmpty(Words(a, s)), "_")
  {
  }
}
