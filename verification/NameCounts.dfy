/** The running count of groups per kind, behind the labels of a report (internal/output/names.go, 54-94
    and 151-180). */
module NameCounts {

  datatype Resource = Resource(group: string, kind: string, namespace: string, name: string)

  const NOBODY := Resource("", "", "", "")

  /** How a resource is shown: as another resource, with the path of the entry it stands for. */
  datatype Identity = Identity(resource: Resource, path: string)

  type Mapping = map<Resource, Identity>

  function Resolve(m: Mapping, raw: Resource): Resource {
    if raw in m then m[raw].resource else raw
  }

  // ---------- the groups of one kind ----------

  datatype NameCount = NameCount(group: string, count: int, distinct: int, others: map<string, int>)

  function Of(e: NameCount, group: string): int {
    if e.group == group then e.count else if group in e.others then e.others[group] else 0
  }

  ghost function Positive(e: NameCount): set<string> {
    (if e.count > 0 then {e.group} else {}) + set g | g in e.others && e.others[g] > 0
  }

  ghost predicate Sound(e: NameCount) {
    && e.group !in e.others && e.count >= 0
    && (forall g | g in e.others :: e.others[g] >= 0)
    && e.distinct == |Positive(e)|
  }

  function Adjust(e: NameCount, group: string, delta: int): (NameCount, bool) {
    var before := Of(e, group);
    var after := before + delta;
    var counted := if e.group == group then e.(count := after) else e.(others := e.others[group := after]);
    var distinct :=
      if before == 0 && after > 0 then e.distinct + 1
      else if before > 0 && after == 0 then e.distinct - 1
      else e.distinct;
    (counted.(distinct := distinct), (distinct > 1) != (e.distinct > 1))
  }

  /** The number of distinct groups stays exact, as long as no count goes below zero. */
  lemma AdjustExact(e: NameCount, group: string, delta: int)
    requires Sound(e) && Of(e, group) + delta >= 0
    ensures var (after, changed) := Adjust(e, group, delta);
            && Sound(after)
            && (forall g :: Of(after, g) == Of(e, g) + if g == group then delta else 0)
            && (changed <==> (after.distinct > 1) != (e.distinct > 1))
  {
    hide Of, Adjust, Positive;
    AdjustCounts(e, group, delta);
    PositiveAfter(e, Adjust(e, group, delta).0, group, delta);
  }

  lemma PositiveAfter(e: NameCount, after: NameCount, group: string, delta: int)
    requires e.group !in e.others && after.group !in after.others
    requires forall g :: Of(after, g) == Of(e, g) + if g == group then delta else 0
    ensures |Positive(after)| == |Positive(e)| + (if Of(after, group) > 0 then 1 else 0) - (if Of(e, group) > 0 then 1 else 0)
  {
    hide Of, Positive;
    SomePositive(e);
    SomePositive(after);
    assert group in Positive(e) <==> Of(e, group) > 0;
    if Of(after, group) > 0 {
      assert Positive(after) == Positive(e) + {group};
    } else {
      assert Positive(after) == Positive(e) - {group};
    }
  }

  lemma AdjustCounts(e: NameCount, group: string, delta: int)
    requires e.group !in e.others && Of(e, group) + delta >= 0 && e.count >= 0
    requires forall g | g in e.others :: e.others[g] >= 0
    ensures var (after, changed) := Adjust(e, group, delta);
            && after.group !in after.others && after.count >= 0
            && (forall g | g in after.others :: after.others[g] >= 0)
            && (forall g :: Of(after, g) == Of(e, g) + if g == group then delta else 0)
            && Of(e, group) >= 0
            && after.distinct == e.distinct + (if Of(e, group) + delta > 0 then 1 else 0) - (if Of(e, group) > 0 then 1 else 0)
            && (changed <==> (after.distinct > 1) != (e.distinct > 1))
  {
  }

  lemma SomePositive(e: NameCount)
    requires e.group !in e.others
    ensures forall g :: g in Positive(e) <==> Of(e, g) > 0
  {
  }

  ghost predicate Positives(e: NameCount, g: string, h: string) {
    g != h && Of(e, g) > 0 && Of(e, h) > 0
  }

  lemma SeveralGroups(e: NameCount)
    requires Sound(e)
    ensures e.distinct > 1 <==> exists g, h :: Positives(e, g, h)
  {
    var p := Positive(e);
    if g, h :| Positives(e, g, h) {
      assert {g, h} <= p;
      assert p == {g, h} + (p - {g, h});
    }
    if |p| > 1 {
      var g :| g in p;
      var rest := p - {g};
      assert rest != {};
      var h :| h in rest;
      assert Positives(e, g, h);
    }
  }

  // ---------- the counts of all kinds ----------

  type Tally = (string, string) -> int

  /** At least two groups of this kind are in use. */
  ghost predicate Several(tally: Tally, kind: string) {
    exists g, h :: g != h && tally(kind, g) > 0 && tally(kind, h) > 0
  }

  ghost predicate Consistent(indices: map<string, nat>, counts: seq<NameCount>, collisions: set<string>) {
    && (forall k | k in indices :: indices[k] < |counts|)
    && (forall j, k | j in indices && k in indices && j != k :: indices[j] != indices[k])
    && (forall i | 0 <= i < |counts| :: Sound(counts[i]))
    && (forall k | k in collisions :: k in indices)
    && (forall k | k in indices :: k in collisions <==> counts[indices[k]].distinct > 1)
  }

  ghost function CountIn(indices: map<string, nat>, counts: seq<NameCount>, kind: string, group: string): int
    requires kind in indices ==> indices[kind] < |counts|
  {
    if kind in indices then Of(counts[indices[kind]], group) else 0
  }

  lemma NewKind(indices: map<string, nat>, counts: seq<NameCount>, collisions: set<string>, kind: string, group: string)
    requires Consistent(indices, counts, collisions) && kind !in indices
    ensures var indices1, counts1 := indices[kind := |counts|], counts + [NameCount(group, 0, 0, map[])];
            && Consistent(indices1, counts1, collisions)
            && forall k, g :: CountIn(indices1, counts1, k, g) == CountIn(indices, counts, k, g)
  {
    hide Sound, Of;
    var e := NameCount(group, 0, 0, map[]);
    EmptyCount(group);
    forall k, g
      ensures CountIn(indices[kind := |counts|], counts + [e], k, g) == CountIn(indices, counts, k, g)
    {
      assert Of(e, g) == 0;
    }
  }

  lemma EmptyCount(group: string)
    ensures Sound(NameCount(group, 0, 0, map[]))
    ensures forall g :: Of(NameCount(group, 0, 0, map[]), g) == 0
  {
    assert Positive(NameCount(group, 0, 0, map[])) == {};
  }

  /** One entry is adjusted, and its kind marked or unmarked when it comes to have two groups or one. */
  lemma AdjustedEntry(indices: map<string, nat>, counts: seq<NameCount>, collisions: set<string>, kind: string,
                      group: string, delta: int)
    requires Consistent(indices, counts, collisions) && kind in indices
    requires CountIn(indices, counts, kind, group) + delta >= 0
    ensures var (entry, changed) := Adjust(counts[indices[kind]], group, delta);
            var counts1 := counts[indices[kind] := entry];
            var collisions1 := if !changed then collisions
                               else if entry.distinct > 1 then collisions + {kind} else collisions - {kind};
            && Consistent(indices, counts1, collisions1)
            && forall k, g :: CountIn(indices, counts1, k, g) ==
                              CountIn(indices, counts, k, g) + if k == kind && g == group then delta else 0
  {
    hide Adjust, Sound, Of;
    AdjustExact(counts[indices[kind]], group, delta);
    var counts1 := counts[indices[kind] := Adjust(counts[indices[kind]], group, delta).0];
    forall k, g
      ensures CountIn(indices, counts1, k, g) == CountIn(indices, counts, k, g) + if k == kind && g == group then delta else 0
    {
      if k in indices && k != kind {
        assert counts1[indices[k]] == counts[indices[k]];
      }
    }
  }

  lemma KindIndex(indices: map<string, nat>, counts: seq<NameCount>, collisions: set<string>, kind: string)
    requires Consistent(indices, counts, collisions) && kind in indices
    ensures indices[kind] < |counts|
  {
  }

  class NameUpdater {
    var indices: map<string, nat>
    var counts: seq<NameCount>
    var collisions: set<string>

    ghost predicate Valid()
      reads this
    {
      Consistent(indices, counts, collisions)
    }

    /** Every count is the one the tally gives. */
    ghost predicate Counts(tally: Tally)
      reads this
    {
      Valid() && forall k, g :: CountIn(indices, counts, k, g) == tally(k, g)
    }

    constructor ()
      ensures Counts((k, g) => 0)
    {
      indices, counts, collisions := map[], [], {};
    }

    method Update(kind: string, group: string, delta: int, ghost tally: Tally)
      requires Counts(tally) && tally(kind, group) + delta >= 0
      modifies this
      ensures Counts((k, g) => tally(k, g) + if k == kind && g == group then delta else 0)
    {
      hide Adjust, Consistent;
      if kind !in indices {
        NewKind(indices, counts, collisions, kind, group);
        indices, counts := indices[kind := |counts|], counts + [NameCount(group, 0, 0, map[])];
      }
      AdjustedEntry(indices, counts, collisions, kind, group, delta);
      KindIndex(indices, counts, collisions, kind);
      var index := indices[kind];
      var (entry, changed) := Adjust(counts[index], group, delta);
      counts := counts[index := entry];
      if changed {
        if entry.distinct > 1 {
          collisions := collisions + {kind};
        } else {
          collisions := collisions - {kind};
        }
      }
    }

    /** A kind collides exactly when two of its groups are in use. */
    lemma CollidesExactly(tally: Tally, kind: string)
      requires Counts(tally)
      ensures kind in collisions <==> Several(tally, kind)
    {
      if kind in indices {
        var e := counts[indices[kind]];
        SeveralGroups(e);
        forall g ensures Of(e, g) == tally(kind, g) {
          assert CountIn(indices, counts, kind, g) == tally(kind, g);
        }
        if g, h :| Positives(e, g, h) {
          assert tally(kind, g) > 0 && tally(kind, h) > 0;
        }
        if g, h :| g != h && tally(kind, g) > 0 && tally(kind, h) > 0 {
          assert Positives(e, g, h);
        }
      } else {
        forall g ensures tally(kind, g) == 0 {
          assert CountIn(indices, counts, kind, g) == tally(kind, g);
        }
      }
    }
  }

  // ---------- recounting an inventory ----------

  /** How many resources of an inventory are shown with this kind and group. */
  ghost function Recount(inventory: seq<Resource>, m: Mapping, kind: string, group: string): nat {
    if inventory == [] then 0
    else
      var last := |inventory| - 1;
      var shown := Resolve(m, inventory[last]);
      Recount(inventory[..last], m, kind, group) + (if shown.kind == kind && shown.group == group then 1 else 0)
  }

  function MappingAt(subjects: seq<Mapping>, i: nat): Mapping {
    if i < |subjects| then subjects[i] else map[]
  }

  /** The recount of the first n clusters, each under its own mapping, but for the cluster left out. */
  ghost function Total(inventory: seq<seq<Resource>>, subjects: seq<Mapping>, n: nat, without: int,
                       kind: string, group: string): nat
    requires n <= |inventory|
  {
    if n == 0 then 0
    else
      Total(inventory, subjects, n - 1, without, kind, group) +
      (if n - 1 == without then 0 else Recount(inventory[n - 1], MappingAt(subjects, n - 1), kind, group))
  }

  /** What the tally is when cluster i is shown under the mapping m, and all others under their own. */
  ghost function Under(inventory: seq<seq<Resource>>, subjects: seq<Mapping>, i: nat, m: Mapping): Tally
    requires i < |inventory|
  {
    (k, g) => Total(inventory, subjects, |inventory|, i, k, g) + Recount(inventory[i], m, k, g)
  }

  ghost function Whole(inventory: seq<seq<Resource>>, subjects: seq<Mapping>): Tally {
    (k, g) => Total(inventory, subjects, |inventory|, -1, k, g)
  }

  lemma {:induction false} TotalSplit(inventory: seq<seq<Resource>>, subjects: seq<Mapping>, n: nat, i: nat,
                                      kind: string, group: string)
    requires n <= |inventory| && i < |inventory|
    ensures Total(inventory, subjects, n, -1, kind, group) ==
            Total(inventory, subjects, n, i, kind, group) +
            (if i < n then Recount(inventory[i], MappingAt(subjects, i), kind, group) else 0)
  {
    if n > 0 {
      TotalSplit(inventory, subjects, n - 1, i, kind, group);
    }
  }

  lemma OwnMapping(inventory: seq<seq<Resource>>, subjects: seq<Mapping>, i: nat)
    requires i < |inventory|
    ensures forall k, g :: Whole(inventory, subjects)(k, g) == Under(inventory, subjects, i, MappingAt(subjects, i))(k, g)
  {
    forall k, g ensures Whole(inventory, subjects)(k, g) == Under(inventory, subjects, i, MappingAt(subjects, i))(k, g) {
      TotalSplit(inventory, subjects, |inventory|, i, k, g);
    }
  }

  ghost function Hits(r: Resource, kind: string, group: string, count: nat): nat {
    if r.kind == kind && r.group == group then count else 0
  }

  /** Showing one resource differently moves its occurrences, and no others. */
  lemma {:induction false} RecountMoves(inventory: seq<Resource>, m: Mapping, n: Mapping, raw: Resource,
                                        kind: string, group: string)
    requires forall r | r in inventory && r != raw :: Resolve(m, r) == Resolve(n, r)
    ensures var count := multiset(inventory)[raw];
            && Recount(inventory, n, kind, group) + Hits(Resolve(m, raw), kind, group, count) ==
               Recount(inventory, m, kind, group) + Hits(Resolve(n, raw), kind, group, count)
            && Recount(inventory, m, kind, group) >= Hits(Resolve(m, raw), kind, group, count)
  {
    if inventory != [] {
      var last := |inventory| - 1;
      assert inventory == inventory[..last] + [inventory[last]];
      assert multiset(inventory) == multiset(inventory[..last]) + multiset{inventory[last]};
      RecountMoves(inventory[..last], m, n, raw, kind, group);
      assert inventory[last] in inventory;
    }
  }

  lemma {:induction false} RecountSame(inventory: seq<Resource>, m: Mapping, n: Mapping, kind: string, group: string)
    requires forall r | r in inventory :: Resolve(m, r) == Resolve(n, r)
    ensures Recount(inventory, m, kind, group) == Recount(inventory, n, kind, group)
  {
    if inventory != [] {
      var last := |inventory| - 1;
      RecountSame(inventory[..last], m, n, kind, group);
      assert inventory[last] in inventory;
    }
  }

  method CollectNameOccurrences(inventory: seq<seq<Resource>>, subjects: seq<Mapping>, updater: NameUpdater)
    requires updater.Counts((k, g) => 0)
    modifies updater
    ensures updater.Counts(Whole(inventory, subjects))
  {
    hide *;
    TotalNone(inventory, subjects);
    SameTally(updater, (k, g) => 0, First(inventory, subjects, 0));
    for i := 0 to |inventory|
      invariant updater.Counts(First(inventory, subjects, i))
    {
      CollectCluster(inventory, subjects, i, updater);
    }
    AllFirst(inventory, subjects);
    SameTally(updater, First(inventory, subjects, |inventory|), Whole(inventory, subjects));
  }

  /** The recount of the first i clusters. */
  ghost function First(inventory: seq<seq<Resource>>, subjects: seq<Mapping>, i: nat): Tally
    requires i <= |inventory|
  {
    (k, g) => Total(inventory, subjects, i, -1, k, g)
  }

  lemma AllFirst(inventory: seq<seq<Resource>>, subjects: seq<Mapping>)
    ensures forall k, g :: First(inventory, subjects, |inventory|)(k, g) == Whole(inventory, subjects)(k, g)
  {
  }

  /** The other clusters' share of the tally, and one inventory under a mapping. */
  ghost function Plus(base: Tally, inventory: seq<Resource>, m: Mapping): Tally {
    (k, g) => base(k, g) + Recount(inventory, m, k, g)
  }

  lemma SameTally(updater: NameUpdater, a: Tally, b: Tally)
    requires updater.Counts(a) && forall k, g :: a(k, g) == b(k, g)
    ensures updater.Counts(b)
  {
  }

  method CollectCluster(inventory: seq<seq<Resource>>, subjects: seq<Mapping>, i: nat, updater: NameUpdater)
    requires i < |inventory| && updater.Counts(First(inventory, subjects, i))
    modifies updater
    ensures updater.Counts(First(inventory, subjects, i + 1))
  {
    hide *;
    var m := MappingAt(subjects, i);
    var ids := inventory[i];
    ghost var base := First(inventory, subjects, i);
    RecountNone(base, ids, m);
    SameTally(updater, base, Plus(base, ids[..0], m));
    for j := 0 to |ids|
      invariant updater.Counts(Plus(base, ids[..j], m))
    {
      var id := Resolve(m, ids[j]);
      RecountOne(inventory, subjects, i, ids, m, j);
      ghost var before := Plus(base, ids[..j], m);
      updater.Update(id.kind, id.group, 1, before);
      SameTally(updater, (k, g) => before(k, g) + if k == id.kind && g == id.group then 1 else 0, Plus(base, ids[..j + 1], m));
    }
    assert ids[..|ids|] == ids;
    TotalOne(inventory, subjects, i);
    SameTally(updater, Plus(base, ids, m), First(inventory, subjects, i + 1));
  }

  lemma TotalNone(inventory: seq<seq<Resource>>, subjects: seq<Mapping>)
    ensures forall k, g :: First(inventory, subjects, 0)(k, g) == 0
  {
  }

  lemma RecountNone(base: Tally, inventory: seq<Resource>, m: Mapping)
    ensures forall k, g :: Plus(base, inventory[..0], m)(k, g) == base(k, g)
  {
  }

  lemma RecountOne(inventory: seq<seq<Resource>>, subjects: seq<Mapping>, i: nat, ids: seq<Resource>, m: Mapping, j: nat)
    requires i <= |inventory| && j < |ids|
    ensures forall k, g :: Plus(First(inventory, subjects, i), ids[..j], m)(k, g) >= 0
    ensures var id := Resolve(m, ids[j]);
            forall k, g :: Plus(First(inventory, subjects, i), ids[..j + 1], m)(k, g) ==
                           Plus(First(inventory, subjects, i), ids[..j], m)(k, g) +
                           (if k == id.kind && g == id.group then 1 else 0)
  {
    var base, id, more := First(inventory, subjects, i), Resolve(m, ids[j]), ids[..j + 1];
    forall k, g ensures Plus(base, ids[..j], m)(k, g) >= 0 {
      var share: nat := Total(inventory, subjects, i, -1, k, g);
      assert base(k, g) == share;
    }
    assert |more| == j + 1 && more[..j] == ids[..j] && more[j] == ids[j];
    forall k, g
      ensures Plus(base, more, m)(k, g) == Plus(base, ids[..j], m)(k, g) + (if k == id.kind && g == id.group then 1 else 0)
    {
      assert Recount(more, m, k, g) == Recount(more[..j], m, k, g) + (if id.kind == k && id.group == g then 1 else 0);
    }
  }

  lemma TotalOne(inventory: seq<seq<Resource>>, subjects: seq<Mapping>, i: nat)
    requires i < |inventory|
    ensures forall k, g :: Plus(First(inventory, subjects, i), inventory[i], MappingAt(subjects, i))(k, g) ==
                           First(inventory, subjects, i + 1)(k, g)
  {
  }
}
