/** The accepted inventory of a render in canonical form (pkg/kustomize/render_cache.go, 226-304 and 557-571;
    pkg/helm/template_cache.go, 304-375 and 563-577). Identities and productions are shown as strings in their
    own order. */
module Accepted {
  import opened Ordering
  import opened Text

  type Id = string

  /** What discovery recorded about one object; `rest` stands for the fields that are only carried along. */
  datatype Discovery = Discovery(inputs: seq<string>, refs: seq<Id>, productions: seq<string>,
                                 contentRoots: map<Id, seq<string>>, rest: string)

  datatype Root = Root(source: Id, paths: seq<string>)

  datatype Item = Item(id: Id, record: Discovery, roots: seq<Root>)

  datatype Inventory = Inventory(version: int, complete: bool, owner: Id, raw: string, final: string, records: seq<Item>)

  predicate Before(a: string, b: string) {
    LexLe(a, b) && a != b
  }

  predicate RootsOrdered(roots: seq<Root>) {
    forall j | 0 < j < |roots| :: Before(roots[j - 1].source, roots[j].source)
  }

  predicate Ordered(records: seq<Item>) {
    && (forall i | 0 < i < |records| :: Before(records[i - 1].id, records[i].id))
    && (forall i | 0 <= i < |records| :: RootsOrdered(records[i].roots))
  }

  // ---------- putting an inventory in order ----------

  function Canonical(s: seq<string>): seq<string> {
    Compact(Sort(s, LexLe))
  }

  ghost predicate SameElements(a: seq<string>, b: seq<string>) {
    forall x :: x in a <==> x in b
  }

  /** The roots of a record: one for each source, in order of source, with its paths in order. */
  ghost predicate RootsOf(m: map<Id, seq<string>>, roots: seq<Root>) {
    && RootsOrdered(roots)
    && (forall s :: s in m <==> HasSource(roots, s))
    && (forall r | r in roots :: r.source in m && r.paths == Canonical(m[r.source]))
  }

  ghost predicate HasSource(roots: seq<Root>, s: Id) {
    exists k :: 0 <= k < |roots| && roots[k].source == s
  }

  ghost predicate ItemOf(id: Id, record: Discovery, item: Item) {
    && item.id == id && RootsOf(record.contentRoots, item.roots)
    && item.record == record.(refs := Canonical(record.refs), productions := Canonical(record.productions), contentRoots := map[])
  }

  type Listing = seq<(Id, Discovery)>

  ghost predicate Listed(records: Listing, items: seq<Item>, k: nat) {
    exists j :: 0 <= j < |items| && k < |records| && ItemOf(records[k].0, records[k].1, items[j])
  }

  ghost predicate FromListing(records: Listing, item: Item) {
    exists k :: 0 <= k < |records| && ItemOf(records[k].0, records[k].1, item)
  }

  /** The items are those of the records, in order of identity. */
  ghost predicate ItemsOf(records: Listing, items: seq<Item>) {
    && Ordered(items)
    && (forall k | 0 <= k < |records| :: Listed(records, items, k))
    && (forall j | 0 <= j < |items| :: FromListing(records, items[j]))
  }

  ghost predicate Repeats(records: Listing) {
    exists i, j :: 0 <= i < j < |records| && records[i].0 == records[j].0
  }

  predicate RootLe(a: Root, b: Root) {
    LexLe(a.source, b.source)
  }

  predicate ItemLe(a: Item, b: Item) {
    LexLe(a.id, b.id)
  }

  lemma RootLePreorder()
    ensures TotalPreorder(RootLe) && TotalPreorder(ItemLe)
  {
    LexIsTotalOrder();
  }

  /** The sources come in whatever order the map gives them. */
  method CollectRoots(contentRoots: map<Id, seq<string>>) returns (roots: seq<Root>)
    ensures RootsOf(contentRoots, roots)
  {
    hide Sort, Compact, LexLe;
    var found: seq<Root> := [];
    var left := contentRoots.Keys;
    while left != {}
      invariant left <= contentRoots.Keys
      invariant forall s :: s in contentRoots && s !in left <==> HasSource(found, s)
      invariant forall k | 0 <= k < |found| :: found[k].source in contentRoots && found[k].paths == Canonical(contentRoots[found[k].source])
      invariant forall i, j | 0 <= i < j < |found| :: found[i].source != found[j].source
      decreases |left|
    {
      var source :| source in left;
      forall k | 0 <= k < |found| ensures found[k].source != source { assert HasSource(found, found[k].source); }
      ghost var before := found;
      found := found + [Root(source, Canonical(contentRoots[source]))];
      assert forall k | 0 <= k < |before| :: found[k] == before[k];
      assert found[|before|].source == source;
      forall s ensures HasSource(found, s) <==> HasSource(before, s) || s == source {
        if HasSource(before, s) {
          var k :| 0 <= k < |before| && before[k].source == s;
          assert found[k].source == s;
        }
      }
      left := left - {source};
    }
    roots := Sort(found, RootLe);
    SortedRoots(contentRoots, found);
  }

  lemma SortedRoots(m: map<Id, seq<string>>, found: seq<Root>)
    requires forall s :: s in m <==> HasSource(found, s)
    requires forall k | 0 <= k < |found| :: found[k].source in m && found[k].paths == Canonical(m[found[k].source])
    requires forall i, j | 0 <= i < j < |found| :: found[i].source != found[j].source
    ensures RootsOf(m, Sort(found, RootLe))
  {
    hide Sort, Canonical, LexLe, RootsOrdered, HasSource;
    var roots := Sort(found, RootLe);
    SortedSame(found, roots);
    forall s ensures HasSource(roots, s) <==> HasSource(found, s) {
      SameSources(found, roots, s);
      SameSources(roots, found, s);
    }
    SortedSources(found, roots);
  }

  lemma SortedSame(found: seq<Root>, roots: seq<Root>)
    requires roots == Sort(found, RootLe)
    ensures SortedBy(roots, RootLe) && multiset(roots) == multiset(found)
    ensures forall r :: r in roots <==> r in found
  {
    hide Sort;
    RootLePreorder();
    SortSpec(found, RootLe);
    forall r ensures r in roots <==> r in found {
      assert r in multiset(roots) <==> r in multiset(found);
    }
  }

  lemma SameSources(a: seq<Root>, b: seq<Root>, s: Id)
    requires forall r :: r in a <==> r in b
    ensures HasSource(a, s) ==> HasSource(b, s)
  {
    if HasSource(a, s) {
      var k :| 0 <= k < |a| && a[k].source == s;
      assert a[k] in b;
      var j :| 0 <= j < |b| && b[j] == a[k];
      assert b[j].source == s;
    }
  }

  lemma SortedSources(found: seq<Root>, roots: seq<Root>)
    requires SortedBy(roots, RootLe) && multiset(roots) == multiset(found)
    requires forall i, j | 0 <= i < j < |found| :: found[i].source != found[j].source
    ensures RootsOrdered(roots)
  {
    hide LexLe;
    forall j | 0 < j < |roots| ensures Before(roots[j - 1].source, roots[j].source) {
      assert RootLe(roots[j - 1], roots[j]);
      SourcesApart(found, roots, j);
    }
  }

  lemma SourcesApart(found: seq<Root>, roots: seq<Root>, j: nat)
    requires multiset(roots) == multiset(found) && 0 < j < |roots|
    requires forall i, k | 0 <= i < k < |found| :: found[i].source != found[k].source
    ensures roots[j - 1].source != roots[j].source
  {
    var a, b := roots[j - 1], roots[j];
    assert a in multiset(roots) && b in multiset(roots);
    if a == b {
      assert roots == roots[..j - 1] + [a, a] + roots[j + 1..];
      assert multiset(roots)[a] >= 2;
      TwiceIn(found, a);
    } else {
      assert a in found && b in found;
      var x :| 0 <= x < |found| && found[x] == a;
      var y :| 0 <= y < |found| && found[y] == b;
      assert if x < y then found[x].source != found[y].source else found[y].source != found[x].source;
    }
  }

  lemma {:induction false} TwiceIn<T>(s: seq<T>, x: T)
    requires multiset(s)[x] >= 2
    ensures exists i, j :: 0 <= i < j < |s| && s[i] == x && s[j] == x
  {
    assert s == [s[0]] + s[1..];
    if s[0] == x {
      assert multiset(s[1..])[x] >= 1;
      assert x in s[1..];
      var j :| 0 <= j < |s[1..]| && s[1..][j] == x;
      assert s[0] == x && s[j + 1] == x;
    } else {
      TwiceIn(s[1..], x);
      var i, j :| 0 <= i < j < |s[1..]| && s[1..][i] == x && s[1..][j] == x;
      assert s[i + 1] == x && s[j + 1] == x;
    }
  }

  datatype Outcome<T> = Ok(value: T) | Failed

  /** Fails exactly when two records have one identity; otherwise the inventory is complete and in order. */
  method PrepareAccepted(version: int, owner: Id, raw: string, final: string, records: Listing)
    returns (r: Outcome<Inventory>)
    ensures r.Failed? <==> Repeats(records)
    ensures r.Ok? ==> ItemsOf(records, r.value.records)
    ensures r.Ok? ==> r.value == Inventory(version, true, owner, raw, final, r.value.records)
  {
    hide RootsOf, Sort, Compact, LexLe, RootsOrdered;
    var items: seq<Item> := [];
    for k := 0 to |records|
      invariant |items| == k
      invariant forall j | 0 <= j < k :: ItemOf(records[j].0, records[j].1, items[j]) && RootsOrdered(items[j].roots)
    {
      var (id, record) := records[k];
      var roots := CollectRoots(record.contentRoots);
      InOrder(record.contentRoots, roots);
      items := items + [Item(id, record.(refs := Canonical(record.refs), productions := Canonical(record.productions),
                                         contentRoots := map[]), roots)];
    }
    var sorted := Sort(items, ItemLe);
    SortedItems(records, items);
    var i := 1;
    while i < |sorted|
      invariant i >= 1 && forall j | 0 < j < i && j < |sorted| :: sorted[j - 1].id != sorted[j].id
    {
      if sorted[i - 1].id == sorted[i].id {
        RepeatFound(records, items, i);
        return Failed;
      }
      i := i + 1;
    }
    NoRepeat(records, items);
    return Ok(Inventory(version, true, owner, raw, final, sorted));
  }

  lemma InOrder(m: map<Id, seq<string>>, roots: seq<Root>)
    requires RootsOf(m, roots)
    ensures RootsOrdered(roots)
  {
  }

  ghost predicate ItemEach(records: Listing, items: seq<Item>) {
    && |items| == |records|
    && forall j | 0 <= j < |items| :: ItemOf(records[j].0, records[j].1, items[j]) && RootsOrdered(items[j].roots)
  }

  lemma SortedItems(records: Listing, items: seq<Item>)
    requires ItemEach(records, items)
    ensures |Sort(items, ItemLe)| == |items|
    ensures forall i, j | 0 <= i < j < |items| :: LexLe(Sort(items, ItemLe)[i].id, Sort(items, ItemLe)[j].id)
    ensures forall x :: x in Sort(items, ItemLe) <==> x in items
  {
    hide ItemOf, RootsOrdered, Sort, LexLe;
    RootLePreorder();
    SortSpec(items, ItemLe);
    var sorted := Sort(items, ItemLe);
    forall x ensures x in sorted <==> x in items {
      assert x in multiset(sorted) <==> x in multiset(items);
    }
    forall i, j | 0 <= i < j < |items| ensures LexLe(sorted[i].id, sorted[j].id) {
      assert ItemLe(sorted[i], sorted[j]);
    }
  }

  lemma RepeatFound(records: Listing, items: seq<Item>, i: nat)
    requires ItemEach(records, items) && 0 < i < |Sort(items, ItemLe)|
    requires Sort(items, ItemLe)[i - 1].id == Sort(items, ItemLe)[i].id
    ensures Repeats(records)
  {
    hide RootsOf, RootsOrdered, Sort, Compact, LexLe;
    RootLePreorder();
    SortSpec(items, ItemLe);
    var sorted := Sort(items, ItemLe);
    var a, b := sorted[i - 1], sorted[i];
    assert a in multiset(sorted) && b in multiset(sorted);
    if a == b {
      assert sorted == sorted[..i - 1] + [a, a] + sorted[i + 1..];
      assert multiset(sorted)[a] >= 2;
      TwiceIn(items, a);
      var x, y :| 0 <= x < y < |items| && items[x] == a && items[y] == a;
      assert records[x].0 == records[y].0;
    } else {
      assert a in items && b in items;
      var x :| 0 <= x < |items| && items[x] == a;
      var y :| 0 <= y < |items| && items[y] == b;
      assert records[x].0 == records[y].0;
    }
  }

  lemma NoRepeat(records: Listing, items: seq<Item>)
    requires ItemEach(records, items)
    requires var sorted := Sort(items, ItemLe); forall j | 0 < j < |sorted| :: sorted[j - 1].id != sorted[j].id
    ensures !Repeats(records) && ItemsOf(records, Sort(items, ItemLe))
  {
    hide RootsOf, RootsOrdered, Sort, Compact, LexLe, ItemOf;
    var sorted := Sort(items, ItemLe);
    SortedItems(records, items);
    forall k | 0 <= k < |records| ensures Listed(records, sorted, k) {
      assert items[k] in sorted;
      var j :| 0 <= j < |sorted| && sorted[j] == items[k];
      assert ItemOf(records[k].0, records[k].1, sorted[j]);
    }
    forall j | 0 <= j < |sorted| ensures FromListing(records, sorted[j]) && RootsOrdered(sorted[j].roots) {
      assert sorted[j] in items;
      var k :| 0 <= k < |items| && items[k] == sorted[j];
      assert ItemOf(records[k].0, records[k].1, sorted[j]);
    }
    assert Ordered(sorted);
    IdsApart(records, items);
  }

  lemma IdsApart(records: Listing, items: seq<Item>)
    requires ItemEach(records, items)
    requires var sorted := Sort(items, ItemLe); forall j | 0 < j < |sorted| :: Before(sorted[j - 1].id, sorted[j].id)
    ensures !Repeats(records)
  {
    hide RootsOf, RootsOrdered, Sort, Compact, LexLe, ItemOf;
    var sorted := Sort(items, ItemLe);
    if Repeats(records) {
      var i, j :| 0 <= i < j < |records| && records[i].0 == records[j].0;
      var x, y := TwoPlaces(items, sorted, i, j);
      SortedItemIds(records, items, i, j);
      StrictIds(sorted, x, y);
    }
  }

  lemma SortedItemIds(records: Listing, items: seq<Item>, i: nat, j: nat)
    requires ItemEach(records, items) && i < |items| && j < |items|
    ensures items[i].id == records[i].0 && items[j].id == records[j].0
  {
  }

  /** Two places of a list lie at two places of the sorted one. */
  lemma TwoPlaces(items: seq<Item>, sorted: seq<Item>, i: nat, j: nat) returns (x: nat, y: nat)
    requires sorted == Sort(items, ItemLe) && i < j < |items|
    ensures x < y < |sorted|
    ensures (sorted[x] == items[i] && sorted[y] == items[j]) || (sorted[x] == items[j] && sorted[y] == items[i])
  {
    hide Sort;
    RootLePreorder();
    SortSpec(items, ItemLe);
    var a, b := items[i], items[j];
    if a == b {
      assert items == items[..i] + [a] + items[i + 1..j] + [a] + items[j + 1..];
      assert multiset(items)[a] >= 2;
      TwiceIn(sorted, a);
      x, y :| 0 <= x < y < |sorted| && sorted[x] == a && sorted[y] == a;
    } else {
      assert a in multiset(items) && b in multiset(items);
      assert a in sorted && b in sorted;
      var p: nat :| p < |sorted| && sorted[p] == a;
      var q: nat :| q < |sorted| && sorted[q] == b;
      x, y := if p < q then p else q, if p < q then q else p;
    }
  }

  lemma {:induction false} StrictIds(items: seq<Item>, x: nat, y: nat)
    requires x < y < |items| && forall j | 0 < j < |items| :: Before(items[j - 1].id, items[j].id)
    ensures Before(items[x].id, items[y].id)
  {
    if x + 1 < y {
      StrictIds(items, x, y - 1);
      LexTransitive(items[x].id, items[y - 1].id, items[y].id);
      if items[x].id == items[y].id {
        LexAntisymmetric(items[x].id, items[y - 1].id);
      }
    }
  }

  // ---------- order and repetitions are forgotten ----------

  /** Two records that say the same, whatever the order and repetitions of what they list. */
  ghost predicate SameRecord(a: Discovery, b: Discovery) {
    && a.inputs == b.inputs && a.rest == b.rest
    && SameElements(a.refs, b.refs) && SameElements(a.productions, b.productions)
    && a.contentRoots.Keys == b.contentRoots.Keys
    && forall s | s in a.contentRoots && s in b.contentRoots :: SameElements(a.contentRoots[s], b.contentRoots[s])
  }

  ghost predicate SaysAll(a: Listing, b: Listing) {
    forall k | 0 <= k < |a| :: SaidBy(b, a[k].0, a[k].1)
  }

  ghost predicate SaidBy(b: Listing, id: Id, record: Discovery) {
    exists j :: 0 <= j < |b| && b[j].0 == id && SameRecord(record, b[j].1)
  }

  function Keys<T>(s: seq<T>, key: T -> string): seq<string> {
    Map(s, key)
  }

  /** Lists in strict order of a key are determined by what is in them. */
  lemma KeysUnique<T>(a: seq<T>, b: seq<T>, key: T -> string)
    requires Ascending(Keys(a, key)) && Ascending(Keys(b, key)) && forall x :: x in a <==> x in b
    ensures a == b
  {
    hide Ascending;
    forall y ensures y in Keys(a, key) <==> y in Keys(b, key) {
      KeyCarried(a, b, key, y);
      KeyCarried(b, a, key, y);
    }
    AscendingUnique(Keys(a, key), Keys(b, key));
    assert |Keys(a, key)| == |a| && |Keys(b, key)| == |b|;
    forall i | 0 <= i < |a| ensures a[i] == b[i] {
      assert a[i] in b;
      var j :| 0 <= j < |b| && b[j] == a[i];
      assert Keys(b, key)[j] == key(b[j]) && Keys(b, key)[i] == Keys(a, key)[i] == key(a[i]);
      AscendingOnce(Keys(b, key), i, j);
    }
  }

  lemma KeyCarried<T>(a: seq<T>, b: seq<T>, key: T -> string, y: string)
    requires forall x :: x in a <==> x in b
    ensures y in Keys(a, key) ==> y in Keys(b, key)
  {
    if y in Keys(a, key) {
      var i :| 0 <= i < |Keys(a, key)| && Keys(a, key)[i] == y;
      assert a[i] in b;
      var j :| 0 <= j < |b| && b[j] == a[i];
      assert Keys(b, key)[j] == y;
    }
  }

  lemma AscendingOnce(s: seq<string>, i: nat, j: nat)
    requires Ascending(s) && i < |s| && j < |s| && s[i] == s[j]
    ensures i == j
  {
  }

  lemma {:induction false} StrictSources(roots: seq<Root>, x: nat, y: nat)
    requires x < y < |roots| && RootsOrdered(roots)
    ensures Before(roots[x].source, roots[y].source)
  {
    if x + 1 < y {
      StrictSources(roots, x, y - 1);
      LexTransitive(roots[x].source, roots[y - 1].source, roots[y].source);
      if roots[x].source == roots[y].source {
        LexAntisymmetric(roots[x].source, roots[y - 1].source);
      }
    }
  }

  function SourceOf(r: Root): string { r.source }

  function IdOf(i: Item): string { i.id }

  lemma RootsAscend(roots: seq<Root>)
    requires RootsOrdered(roots)
    ensures Ascending(Keys(roots, SourceOf))
  {
    hide RootsOrdered, LexLe;
    forall i, j | 0 <= i < j < |roots|
      ensures var keys := Keys(roots, SourceOf); LexLe(keys[i], keys[j]) && keys[i] != keys[j]
    {
      StrictSources(roots, i, j);
      assert SourceOf(roots[i]) == roots[i].source && SourceOf(roots[j]) == roots[j].source;
    }
  }

  lemma ItemsAscend(items: seq<Item>)
    requires Ordered(items)
    ensures Ascending(Keys(items, IdOf))
  {
    hide RootsOrdered, LexLe;
    forall i, j | 0 <= i < j < |items|
      ensures var keys := Keys(items, IdOf); LexLe(keys[i], keys[j]) && keys[i] != keys[j]
    {
      StrictIds(items, i, j);
      assert IdOf(items[i]) == items[i].id && IdOf(items[j]) == items[j].id;
    }
  }

  lemma RootsUnique(m: map<Id, seq<string>>, n: map<Id, seq<string>>, p: seq<Root>, q: seq<Root>)
    requires RootsOf(m, p) && RootsOf(n, q) && m.Keys == n.Keys
    requires forall s | s in m && s in n :: SameElements(m[s], n[s])
    ensures p == q
  {
    hide RootsOrdered;
    RootsAscend(p);
    RootsAscend(q);
    forall r ensures r in p <==> r in q {
      RootCarried(m, n, p, q, r);
      RootCarried(n, m, q, p, r);
    }
    KeysUnique(p, q, SourceOf);
  }

  lemma RootCarried(m: map<Id, seq<string>>, n: map<Id, seq<string>>, p: seq<Root>, q: seq<Root>, r: Root)
    requires RootsOf(m, p) && RootsOf(n, q) && m.Keys == n.Keys
    requires forall s | s in m && s in n :: SameElements(m[s], n[s])
    ensures r in p ==> r in q
  {
    hide RootsOrdered, Canonical;
    if r in p {
      assert HasSource(q, r.source);
      var k :| 0 <= k < |q| && q[k].source == r.source;
      assert q[k] in q;
      CompactedForgets(m[r.source], n[r.source]);
      SameCanonical(m[r.source], n[r.source]);
      assert q[k].paths == r.paths;
    }
  }

  lemma SameCanonical(a: seq<string>, b: seq<string>)
    ensures Canonical(a) == Canonical(b) <==> SameElements(a, b)
  {
    CompactedForgets(a, b);
  }

  lemma ItemUnique(id: Id, a: Discovery, b: Discovery, x: Item, y: Item)
    requires ItemOf(id, a, x) && ItemOf(id, b, y) && SameRecord(a, b)
    ensures x == y
  {
    hide RootsOf, Canonical;
    RootsUnique(a.contentRoots, b.contentRoots, x.roots, y.roots);
    SameCanonical(a.refs, b.refs);
    SameCanonical(a.productions, b.productions);
  }

  lemma ItemCarried(a: Listing, b: Listing, p: seq<Item>, q: seq<Item>, x: Item)
    requires ItemsOf(a, p) && ItemsOf(b, q) && SaysAll(a, b)
    ensures x in p ==> x in q
  {
    hide ItemOf, SameRecord, Ordered;
    if x in p {
      assert FromListing(a, x);
      var k :| 0 <= k < |a| && ItemOf(a[k].0, a[k].1, x);
      assert SaidBy(b, a[k].0, a[k].1);
      var j :| 0 <= j < |b| && b[j].0 == a[k].0 && SameRecord(a[k].1, b[j].1);
      assert Listed(b, q, j);
      var i :| 0 <= i < |q| && ItemOf(b[j].0, b[j].1, q[i]);
      ItemUnique(a[k].0, a[k].1, b[j].1, x, q[i]);
    }
  }

  /** Listings that say the same, in whatever order, give the same inventory. */
  lemma OrderForgotten(a: Listing, b: Listing, p: seq<Item>, q: seq<Item>)
    requires ItemsOf(a, p) && ItemsOf(b, q) && SaysAll(a, b) && SaysAll(b, a)
    ensures p == q
  {
    hide Ordered, Listed, FromListing;
    ItemsAscend(p);
    ItemsAscend(q);
    forall x ensures x in p <==> x in q {
      ItemCarried(a, b, p, q, x);
      ItemCarried(b, a, q, p, x);
    }
    KeysUnique(p, q, IdOf);
  }

  // ---------- reading an inventory back ----------

  ghost predicate RootMap(roots: seq<Root>, m: map<Id, seq<string>>) {
    && (forall s :: s in m <==> HasSource(roots, s))
    && (forall k | 0 <= k < |roots| :: roots[k].source in m && m[roots[k].source] == roots[k].paths)
  }

  method RootsBack(roots: seq<Root>) returns (m: map<Id, seq<string>>)
    requires RootsOrdered(roots)
    ensures RootMap(roots, m)
  {
    RootsAscend(roots);
    m := map[];
    for i := 0 to |roots|
      invariant forall s :: s in m <==> exists k :: 0 <= k < i && roots[k].source == s
      invariant forall k | 0 <= k < i :: roots[k].source in m && m[roots[k].source] == roots[k].paths
    {
      forall k | 0 <= k < i ensures roots[k].source != roots[i].source {
        StrictSources(roots, k, i);
      }
      m := m[roots[i].source := roots[i].paths];
    }
  }

  ghost predicate ReadBack(item: Item, id: Id, record: Discovery) {
    && id == item.id && RootMap(item.roots, record.contentRoots)
    && record == item.record.(contentRoots := record.contentRoots)
  }

  /** Only the owner of an inventory gets its records back, in order of identity. */
  method History(inventory: Inventory, owner: Id) returns (records: Option<Listing>)
    requires Ordered(inventory.records)
    ensures records.Some? <==> inventory.owner == owner
    ensures records.Some? ==> |records.value| == |inventory.records|
    ensures records.Some? ==> forall k | 0 <= k < |records.value| ::
                                ReadBack(inventory.records[k], records.value[k].0, records.value[k].1)
  {
    hide RootsOrdered;
    if inventory.owner != owner {
      return None;
    }
    var list: Listing := [];
    for i := 0 to |inventory.records|
      invariant |list| == i
      invariant forall k | 0 <= k < i :: ReadBack(inventory.records[k], list[k].0, list[k].1)
    {
      var item := inventory.records[i];
      var roots := RootsBack(item.roots);
      list := list + [(item.id, item.record.(contentRoots := roots))];
    }
    return Some(list);
  }

  /** What is read back says the same as what was recorded. */
  lemma HistorySays(records: Listing, items: seq<Item>, back: Listing)
    requires ItemsOf(records, items) && |back| == |items|
    requires forall k | 0 <= k < |back| :: ReadBack(items[k], back[k].0, back[k].1)
    ensures SaysAll(records, back) && SaysAll(back, records)
  {
    hide Ordered, ItemOf, ReadBack, SameRecord;
    forall k | 0 <= k < |records| ensures SaidBy(back, records[k].0, records[k].1) {
      assert Listed(records, items, k);
      var j :| 0 <= j < |items| && ItemOf(records[k].0, records[k].1, items[j]);
      BackSays(records[k].0, records[k].1, items[j], back[j].0, back[j].1);
    }
    forall j | 0 <= j < |back| ensures SaidBy(records, back[j].0, back[j].1) {
      assert FromListing(records, items[j]);
      var k :| 0 <= k < |records| && ItemOf(records[k].0, records[k].1, items[j]);
      BackSays(records[k].0, records[k].1, items[j], back[j].0, back[j].1);
    }
  }

  lemma BackSays(id: Id, record: Discovery, item: Item, backId: Id, back: Discovery)
    requires ItemOf(id, record, item) && ReadBack(item, backId, back)
    ensures backId == id && SameRecord(record, back) && SameRecord(back, record)
  {
    hide RootsOrdered, Canonical;
    CanonicalSame(record.refs);
    CanonicalSame(record.productions);
    forall s ensures s in record.contentRoots <==> s in back.contentRoots {
      assert s in record.contentRoots <==> HasSource(item.roots, s);
    }
    forall s | s in record.contentRoots && s in back.contentRoots
      ensures SameElements(record.contentRoots[s], back.contentRoots[s])
    {
      assert HasSource(item.roots, s);
      var k :| 0 <= k < |item.roots| && item.roots[k].source == s;
      assert item.roots[k] in item.roots;
      CanonicalSame(record.contentRoots[s]);
    }
  }

  lemma CanonicalSame(s: seq<string>)
    ensures SameElements(s, Canonical(s))
  {
    hide Sort, Compact;
    forall x ensures x in s <==> x in Canonical(s) {
      InCompacted(s, x);
    }
  }
}
