/** The labels of a report: the counts are moved to another mapping, read, and moved back
    (internal/output/names.go, 96-149; internal/output/report.go, 89-102, 173-209 and 226-245). */
module ReportNames {
  import opened NameCounts
  import opened Text

  type Occurrences = map<Resource, nat>

  ghost predicate Histogram(occurrences: Occurrences, inventory: seq<Resource>) {
    && (forall r :: r in occurrences <==> r in inventory)
    && (forall r | r in occurrences :: occurrences[r] == multiset(inventory)[r])
  }

  method CountOccurrences(inventory: seq<Resource>) returns (occurrences: Occurrences)
    ensures Histogram(occurrences, inventory)
  {
    occurrences := map[];
    for i := 0 to |inventory|
      invariant Histogram(occurrences, inventory[..i])
    {
      assert inventory[..i + 1] == inventory[..i] + [inventory[i]];
      var raw := inventory[i];
      var known := if raw in occurrences then occurrences[raw] else 0;
      assert known == multiset(inventory[..i])[raw];
      occurrences := occurrences[raw := known + 1];
    }
    assert inventory[..|inventory|] == inventory;
  }

  /** The resources in `done` are shown as `to` says, the others still as `from` does. */
  function Mixed(from: Mapping, to: Mapping, done: set<Resource>): Mapping {
    map r | r in from.Keys + done :: if r in done then Identity(Resolve(to, r), "") else from[r]
  }

  lemma MixedResolves(from: Mapping, to: Mapping, done: set<Resource>, r: Resource)
    ensures Resolve(Mixed(from, to, done), r) == if r in done then Resolve(to, r) else Resolve(from, r)
  {
  }

  ghost predicate Natural(base: Tally) {
    forall k, g :: base(k, g) >= 0
  }

  ghost function Moved(tally: Tally, r: Resource, delta: int): Tally {
    (k, g) => tally(k, g) + if k == r.kind && g == r.group then delta else 0
  }

  /** Taking a resource's occurrences from where one mapping counts them and adding them where the other does. */
  lemma MoveExact(base: Tally, inventory: seq<Resource>, m: Mapping, n: Mapping, raw: Resource)
    requires Natural(base) && forall r | r in inventory && r != raw :: Resolve(m, r) == Resolve(n, r)
    ensures var count: int := multiset(inventory)[raw];
            var taken := Moved(Plus(base, inventory, m), Resolve(m, raw), -count);
            && Plus(base, inventory, m)(Resolve(m, raw).kind, Resolve(m, raw).group) - count >= 0
            && taken(Resolve(n, raw).kind, Resolve(n, raw).group) + count >= 0
            && forall k, g :: Moved(taken, Resolve(n, raw), count)(k, g) == Plus(base, inventory, n)(k, g)
  {
    hide Recount, Resolve;
    forall k, g
      ensures var count: int := multiset(inventory)[raw];
              Moved(Moved(Plus(base, inventory, m), Resolve(m, raw), -count), Resolve(n, raw), count)(k, g) ==
              Plus(base, inventory, n)(k, g)
    {
      RecountMoves(inventory, m, n, raw, k, g);
    }
    RecountMoves(inventory, m, n, raw, Resolve(m, raw).kind, Resolve(m, raw).group);
    RecountMoves(inventory, m, n, raw, Resolve(n, raw).kind, Resolve(n, raw).group);
  }

  method Move(updater: NameUpdater, before: Resource, after: Resource, count: int,
              ghost base: Tally, ghost inventory: seq<Resource>, ghost m: Mapping, ghost n: Mapping, ghost raw: Resource)
    requires Natural(base) && forall r | r in inventory && r != raw :: Resolve(m, r) == Resolve(n, r)
    requires before == Resolve(m, raw) && after == Resolve(n, raw) && count == multiset(inventory)[raw]
    requires updater.Counts(Plus(base, inventory, m))
    modifies updater
    ensures updater.Counts(Plus(base, inventory, n))
  {
    hide Resolve, Recount;
    MoveExact(base, inventory, m, n, raw);
    ghost var taken := Moved(Plus(base, inventory, m), before, -count);
    updater.Update(before.kind, before.group, -count, Plus(base, inventory, m));
    SameTally(updater, (k, g) => Plus(base, inventory, m)(k, g) + if k == before.kind && g == before.group then -count else 0, taken);
    updater.Update(after.kind, after.group, count, taken);
    SameTally(updater, (k, g) => taken(k, g) + if k == after.kind && g == after.group then count else 0,
              Plus(base, inventory, n));
  }

  /** Whatever order the occurrences come in, the counts end as they are under the other mapping. */
  method AdjustNameOccurrences(occurrences: Occurrences, from: Mapping, to: Mapping, updater: NameUpdater,
                               ghost base: Tally, ghost inventory: seq<Resource>)
    requires Histogram(occurrences, inventory) && Natural(base)
    requires updater.Counts(Plus(base, inventory, from))
    modifies updater
    ensures updater.Counts(Plus(base, inventory, to))
  {
    hide *;
    var left := occurrences.Keys;
    ghost var done: set<Resource> := {};
    MixedAtFirst(updater, base, inventory, from, to);
    while left != {}
      invariant left <= occurrences.Keys && done == occurrences.Keys - left
      invariant updater.Counts(Plus(base, inventory, Mixed(from, to, done)))
      decreases |left|
    {
      var raw :| raw in left;
      AdjustOne(raw, occurrences, from, to, updater, base, inventory, done);
      left := left - {raw};
      done := done + {raw};
    }
    assert done == occurrences.Keys;
    MixedAtLast(updater, base, inventory, occurrences, from, to);
  }

  method AdjustOne(raw: Resource, occurrences: Occurrences, from: Mapping, to: Mapping, updater: NameUpdater,
                   ghost base: Tally, ghost inventory: seq<Resource>, ghost done: set<Resource>)
    requires Histogram(occurrences, inventory) && Natural(base) && raw in occurrences && raw !in done
    requires updater.Counts(Plus(base, inventory, Mixed(from, to, done)))
    modifies updater
    ensures updater.Counts(Plus(base, inventory, Mixed(from, to, done + {raw})))
  {
    hide Recount, Resolve, Mixed, Plus, Natural;
    var before, after := Resolve(from, raw), Resolve(to, raw);
    ghost var m, n := Mixed(from, to, done), Mixed(from, to, done + {raw});
    MixedStep(from, to, done, raw);
    if before != after {
      Move(updater, before, after, occurrences[raw], base, inventory, m, n, raw);
    } else {
      PointwiseRecount(base, inventory, m, n);
      SameTally(updater, Plus(base, inventory, m), Plus(base, inventory, n));
    }
  }

  lemma MixedStep(from: Mapping, to: Mapping, done: set<Resource>, raw: Resource)
    requires raw !in done
    ensures var m, n := Mixed(from, to, done), Mixed(from, to, done + {raw});
            && Resolve(m, raw) == Resolve(from, raw) && Resolve(n, raw) == Resolve(to, raw)
            && forall r | r != raw :: Resolve(m, r) == Resolve(n, r)
  {
  }

  lemma PointwiseRecount(base: Tally, inventory: seq<Resource>, m: Mapping, n: Mapping)
    requires forall r | r in inventory :: Resolve(m, r) == Resolve(n, r)
    ensures forall k, g :: Plus(base, inventory, m)(k, g) == Plus(base, inventory, n)(k, g)
  {
    forall k, g ensures Plus(base, inventory, m)(k, g) == Plus(base, inventory, n)(k, g) {
      RecountSame(inventory, m, n, k, g);
    }
  }

  lemma MixedAtFirst(updater: NameUpdater, base: Tally, inventory: seq<Resource>, from: Mapping, to: Mapping)
    requires updater.Counts(Plus(base, inventory, from))
    ensures updater.Counts(Plus(base, inventory, Mixed(from, to, {})))
  {
    forall r ensures Resolve(from, r) == Resolve(Mixed(from, to, {}), r) {
      MixedResolves(from, to, {}, r);
    }
    PointwiseRecount(base, inventory, from, Mixed(from, to, {}));
    SameTally(updater, Plus(base, inventory, from), Plus(base, inventory, Mixed(from, to, {})));
  }

  lemma MixedAtLast(updater: NameUpdater, base: Tally, inventory: seq<Resource>, occurrences: Occurrences,
                    from: Mapping, to: Mapping)
    requires Histogram(occurrences, inventory)
    requires updater.Counts(Plus(base, inventory, Mixed(from, to, occurrences.Keys)))
    ensures updater.Counts(Plus(base, inventory, to))
  {
    var m := Mixed(from, to, occurrences.Keys);
    forall r | r in inventory ensures Resolve(m, r) == Resolve(to, r) {
      MixedResolves(from, to, occurrences.Keys, r);
    }
    PointwiseRecount(base, inventory, m, to);
    SameTally(updater, Plus(base, inventory, m), Plus(base, inventory, to));
  }

  // ---------- labels ----------

  function KindLabel(r: Resource): string {
    if r.group != "" then r.kind + "." + r.group else r.kind
  }

  /** The kind a resource is shown with; nobody in particular is shown as an entry. */
  function ShownKind(r: Resource, collisions: set<string>): string {
    var kind := if r == NOBODY then "entry" else r.kind;
    if kind in collisions then KindLabel(r) else kind
  }

  /** The same, from the counts alone. */
  ghost function ShownUnder(r: Resource, tally: Tally): string {
    var kind := if r == NOBODY then "entry" else r.kind;
    if Several(tally, kind) then KindLabel(r) else kind
  }

  lemma ShownExactly(updater: NameUpdater, tally: Tally, r: Resource)
    requires updater.Counts(tally)
    ensures ShownKind(r, updater.collisions) == ShownUnder(r, tally)
  {
    hide Several, KindLabel;
    updater.CollidesExactly(tally, if r == NOBODY then "entry" else r.kind);
  }

  /** Two resources of one kind in use are shown alike exactly when they are of one group. */
  lemma KindsToldApart(r: Resource, s: Resource, tally: Tally)
    requires r.kind == s.kind && r != NOBODY && s != NOBODY
    requires tally(r.kind, r.group) > 0 && tally(s.kind, s.group) > 0
    ensures ShownUnder(r, tally) == ShownUnder(s, tally) <==> r.group == s.group
    ensures !Several(tally, r.kind) ==> ShownUnder(r, tally) == r.kind
  {
    assert (r.kind + "." + r.group)[|r.kind| + 1..] == r.group;
    assert (s.kind + "." + s.group)[|s.kind| + 1..] == s.group;
    if r.group != s.group {
      assert Several(tally, r.kind);
    }
  }

  /** The kind of an entry path is lost exactly when resources of a kind named "entry" are in several groups. */
  lemma EntryLabelLost(tally: Tally)
    ensures ShownUnder(NOBODY, tally) == "" <==> Several(tally, "entry")
  {
    hide Several;
  }

  const FLUX := "kustomize.toolkit.fluxcd.io"

  predicate Internal(r: Resource) {
    r.group == FLUX && r.kind == "Kustomization" && r.namespace == "\0"
  }

  function NamespacedName(r: Resource): string {
    if r.namespace == "" || Internal(r) then r.name else r.namespace + "/" + r.name
  }

  /** How the names of one cluster are printed: its prefix, and the quoting of paths. */
  datatype Look = Look(prefix: string, quote: string -> string)

  function ShownName(id: Identity, look: Look): string {
    look.prefix +
    if id.resource == NOBODY then "path " + look.quote(id.path)
    else if id.path != "" then NamespacedName(id.resource) + " (entry path " + look.quote(id.path) + ")"
    else NamespacedName(id.resource)
  }

  /** The name of a label: the cluster, then namespace and name or the path of an entry. */
  lemma NameTexts(id: Identity, look: Look, r: Resource)
    requires r == id.resource
    ensures r.group == "" && r.kind == "" && r.namespace == "" && r.name == "" ==>
              ShownName(id, look) == look.prefix + ("path " + look.quote(id.path))
    ensures r != NOBODY && id.path != "" ==>
              ShownName(id, look) == ShownName(Identity(r, ""), look) + (" (entry path " + look.quote(id.path) + ")")
    ensures r != NOBODY && id.path == "" && r.namespace == "" ==> ShownName(id, look) == look.prefix + r.name
    ensures id.path == "" && r.namespace == "\0" && r.kind == "Kustomization" && r.group == "kustomize.toolkit.fluxcd.io" ==>
              ShownName(id, look) == look.prefix + r.name
    ensures id.path == "" && r.namespace != "" &&
            !(r.namespace == "\0" && r.kind == "Kustomization" && r.group == "kustomize.toolkit.fluxcd.io") ==>
              ShownName(id, look) == look.prefix + (r.namespace + "/" + r.name)
  {
    if r != NOBODY && id.path != "" {
      var n, q := NamespacedName(r), look.quote(id.path);
      assert look.prefix + (n + " (entry path " + q + ")") == look.prefix + n + (" (entry path " + q + ")");
    }
  }

  /** Where the kinds of several groups are in use, the kind is shown with its group. */
  lemma KindTexts(r: Resource, tally: Tally)
    ensures r != NOBODY && Several(tally, r.kind) && r.group != "" ==> ShownUnder(r, tally) == r.kind + "." + r.group
    ensures r != NOBODY && (!Several(tally, r.kind) || r.group == "") ==> ShownUnder(r, tally) == r.kind
    ensures r == NOBODY && !Several(tally, "entry") ==> ShownUnder(r, tally) == "entry"
  {
  }

  datatype Label = Label(kind: string, name: string)

  ghost function LabelUnder(id: Identity, look: Look, tally: Tally): Label {
    Label(ShownUnder(id.resource, tally), ShownName(id, look))
  }

  method SubjectLabels(id: Identity, look: Look, updater: NameUpdater, ghost tally: Tally) returns (shown: Label)
    requires updater.Counts(tally)
    ensures shown == LabelUnder(id, look, tally)
  {
    hide ShownKind, ShownUnder;
    ShownExactly(updater, tally, id.resource);
    return Label(ShownKind(id.resource, updater.collisions), ShownName(id, look));
  }

  /** A resource named within the rules of Kubernetes, and not one of the render's own. */
  predicate Ordinary(r: Resource) {
    && r != NOBODY && !Internal(r)
    && '.' !in r.kind && '/' !in r.namespace && '/' !in r.name
  }

  lemma SameText(a: string, b: string, x: string, y: string, c: char)
    requires c !in a && c !in b && a + [c] + x == b + [c] + y
    ensures a == b && x == y
  {
    var s := a + [c] + x;
    assert s[|a|] == c && s[|b|] == c;
    assert forall i | 0 <= i < |a| :: s[i] == a[i] && s[i] != c;
    assert forall i | 0 <= i < |b| :: s[i] == b[i] && s[i] != c;
    assert s[..|a|] == a && s[..|b|] == b;
    assert s[|a| + 1..] == x && s[|b| + 1..] == y;
  }

  lemma KindNames(r: Resource, s: Resource, tally: Tally)
    requires Ordinary(r) && Ordinary(s)
    requires ShownUnder(r, tally) == ShownUnder(s, tally)
    ensures r.kind == s.kind
  {
    hide Several;
    var a, b := ShownUnder(r, tally), ShownUnder(s, tally);
    if a == KindLabel(r) && r.group != "" {
      assert a[|r.kind|] == '.';
      if b == KindLabel(s) && s.group != "" {
        assert a == r.kind + ['.'] + r.group && b == s.kind + ['.'] + s.group;
        SameText(r.kind, s.kind, r.group, s.group, '.');
      }
    }
  }

  lemma NamespacedTexts(r: Resource, s: Resource)
    requires Ordinary(r) && Ordinary(s) && NamespacedName(r) == NamespacedName(s)
    ensures r.namespace == s.namespace && r.name == s.name
  {
    NamespacedSlash(r);
    NamespacedSlash(s);
    if r.namespace != "" { SameText(r.namespace, s.namespace, r.name, s.name, '/'); }
  }

  lemma NamespacedSlash(r: Resource)
    requires Ordinary(r)
    ensures '/' in NamespacedName(r) <==> r.namespace != ""
  {
    if r.namespace != "" { assert NamespacedName(r)[|r.namespace|] == '/'; }
  }

  function IdentityOf(m: Mapping, raw: Resource): Identity {
    if raw in m then m[raw] else Identity(raw, "")
  }

  type LabelMap = map<Resource, Label>

  ghost predicate Prepared(inventory: seq<Resource>, m: Mapping, look: Look, tally: Tally, labels: LabelMap) {
    && (forall id :: id in labels <==> id in inventory && id != NOBODY)
    && (forall id | id in labels :: labels[id] == LabelUnder(IdentityOf(m, id), look, tally))
  }

  method PrepareGroupNames(inventory: seq<Resource>, m: Mapping, look: Look, updater: NameUpdater, ghost tally: Tally)
    returns (labels: LabelMap)
    requires updater.Counts(tally)
    ensures Prepared(inventory, m, look, tally, labels)
  {
    hide LabelUnder, IdentityOf;
    labels := map[];
    for i := 0 to |inventory|
      invariant Prepared(inventory[..i], m, look, tally, labels)
    {
      var id := inventory[i];
      assert inventory[..i + 1] == inventory[..i] + [id];
      if id != NOBODY {
        var shown := SubjectLabels(IdentityOf(m, id), look, updater, tally);
        labels := labels[id := shown];
      }
    }
    assert inventory[..|inventory|] == inventory;
  }

  // ---------- models and warnings with identities of their own ----------

  /** The share of all clusters but one. */
  ghost function Others(inventory: seq<seq<Resource>>, subjects: seq<Mapping>, i: nat): Tally
    requires i < |inventory|
  {
    (k, g) => Total(inventory, subjects, |inventory|, i, k, g)
  }

  lemma WholeIsPlus(updater: NameUpdater, inventory: seq<seq<Resource>>, subjects: seq<Mapping>, i: nat)
    requires i < |inventory|
    ensures Natural(Others(inventory, subjects, i))
    ensures updater.Counts(Whole(inventory, subjects)) <==>
            updater.Counts(Plus(Others(inventory, subjects, i), inventory[i], MappingAt(subjects, i)))
  {
    hide Total, Recount;
    OwnMapping(inventory, subjects, i);
    forall k, g
      ensures Whole(inventory, subjects)(k, g) ==
              Plus(Others(inventory, subjects, i), inventory[i], MappingAt(subjects, i))(k, g)
    {
      assert Whole(inventory, subjects)(k, g) == Under(inventory, subjects, i, MappingAt(subjects, i))(k, g);
    }
    var a, b := Whole(inventory, subjects), Plus(Others(inventory, subjects, i), inventory[i], MappingAt(subjects, i));
    if updater.Counts(a) { SameTally(updater, a, b); }
    if updater.Counts(b) { SameTally(updater, b, a); }
  }

  /** A model with identities of its own is labelled under the counts those identities give; the counts are then
      as before. */
  method BindModel(inventory: seq<seq<Resource>>, subjects: seq<Mapping>, i: nat, occurrences: Occurrences,
                   model: Mapping, look: Look, updater: NameUpdater)
    returns (labels: LabelMap)
    requires i < |inventory| && Histogram(occurrences, inventory[i]) && updater.Counts(Whole(inventory, subjects))
    modifies updater
    ensures updater.Counts(Whole(inventory, subjects))
    ensures Prepared(inventory[i], model, look, Plus(Others(inventory, subjects, i), inventory[i], model), labels)
  {
    hide *;
    ghost var base := Others(inventory, subjects, i);
    var own := MappingAt(subjects, i);
    WholeIsPlus(updater, inventory, subjects, i);
    AdjustNameOccurrences(occurrences, own, model, updater, base, inventory[i]);
    labels := PrepareGroupNames(inventory[i], model, look, updater, Plus(base, inventory[i], model));
    AdjustNameOccurrences(occurrences, model, own, updater, base, inventory[i]);
    WholeIsPlus(updater, inventory, subjects, i);
  }

  /** A warning about `raw` that names its own subject. */
  datatype Override = Override(raw: Resource, subject: Identity)

  /** Labels one warning with only its resource shown otherwise, and takes that back. */
  method BindOverride(w: Override, count: nat, look: Look, updater: NameUpdater,
                      ghost base: Tally, ghost inventory: seq<Resource>)
    returns (shown: Label)
    requires Natural(base) && count == multiset(inventory)[w.raw] && updater.Counts(Plus(base, inventory, map[]))
    modifies updater
    ensures updater.Counts(Plus(base, inventory, map[]))
    ensures shown == LabelUnder(w.subject, look, Plus(base, inventory, map[w.raw := w.subject]))
  {
    hide LabelUnder, Recount, Natural;
    ghost var alone: Mapping := map[w.raw := w.subject];
    Move(updater, w.raw, w.subject.resource, count, base, inventory, map[], alone, w.raw);
    shown := SubjectLabels(w.subject, look, updater, Plus(base, inventory, alone));
    Move(updater, w.subject.resource, w.raw, count, base, inventory, alone, map[], w.raw);
  }

  lemma OverridesCounted(inventory: seq<Resource>, occurrences: Occurrences, overrides: seq<Override>)
    requires Histogram(occurrences, inventory)
    requires forall j | 0 <= j < |overrides| :: overrides[j].raw in inventory
    ensures forall j | 0 <= j < |overrides| ::
              overrides[j].raw in occurrences && occurrences[overrides[j].raw] == multiset(inventory)[overrides[j].raw]
  {
  }

  method BindOverrides(inventory: seq<seq<Resource>>, subjects: seq<Mapping>, i: nat, occurrences: Occurrences,
                       overrides: seq<Override>, look: Look, updater: NameUpdater)
    returns (labels: seq<Label>)
    requires i < |inventory| && Histogram(occurrences, inventory[i]) && updater.Counts(Whole(inventory, subjects))
    requires forall j | 0 <= j < |overrides| :: overrides[j].raw in inventory[i]
    modifies updater
    ensures updater.Counts(Whole(inventory, subjects))
    ensures |labels| == |overrides|
    ensures forall j | 0 <= j < |overrides| ::
              labels[j] == LabelUnder(overrides[j].subject, look,
                                      Plus(Others(inventory, subjects, i), inventory[i],
                                           map[overrides[j].raw := overrides[j].subject]))
  {
    hide *;
    OverridesCounted(inventory[i], occurrences, overrides);
    ghost var base := Others(inventory, subjects, i);
    var own := MappingAt(subjects, i);
    WholeIsPlus(updater, inventory, subjects, i);
    AdjustNameOccurrences(occurrences, own, map[], updater, base, inventory[i]);
    labels := [];
    for j := 0 to |overrides|
      invariant updater.Counts(Plus(base, inventory[i], map[])) && |labels| == j
      invariant forall x | 0 <= x < j ::
                  labels[x] == LabelUnder(overrides[x].subject, look,
                                          Plus(base, inventory[i], map[overrides[x].raw := overrides[x].subject]))
    {
      var shown := BindOverride(overrides[j], occurrences[overrides[j].raw], look, updater, base, inventory[i]);
      labels := labels + [shown];
    }
    AdjustNameOccurrences(occurrences, map[], own, updater, base, inventory[i]);
    WholeIsPlus(updater, inventory, subjects, i);
  }

  /** One cluster: its name, the identities of the models that have their own, and the warnings that
      name another subject. */
  datatype Cluster = Cluster(name: string, models: seq<Option<Mapping>>, overrides: seq<Override>)

  datatype Labels = Labels(prefix: string, own: LabelMap, models: seq<Option<LabelMap>>, overrides: seq<Label>)

  /** The clusters of a report, and how paths are quoted in it. */
  datatype Scope = Scope(inventory: seq<seq<Resource>>, subjects: seq<Mapping>, clusters: seq<Cluster>,
                         quote: string -> string)
  {
    ghost predicate Valid() {
      && |clusters| == |inventory|
      && forall i, j | 0 <= i < |clusters| && 0 <= j < |clusters[i].overrides| :: clusters[i].overrides[j].raw in inventory[i]
    }

    /** A report on several clusters names the cluster before each subject. */
    function LookOf(i: nat): Look
      requires i < |clusters|
    {
      Look(if |clusters| > 1 then clusters[i].name + ": " else "", quote)
    }

    /** The counts with one cluster shown under another mapping. */
    ghost function Counted(i: nat, m: Mapping): Tally
      requires i < |inventory|
    {
      Plus(Others(inventory, subjects, i), inventory[i], m)
    }
  }

  ghost predicate Labelled(s: Scope, i: nat, labels: Labels)
    requires s.Valid() && i < |s.inventory|
  {
    && labels.prefix == s.LookOf(i).prefix == (if |s.clusters| == 1 then "" else s.clusters[i].name + ": ")
    && Prepared(s.inventory[i], MappingAt(s.subjects, i), s.LookOf(i), Whole(s.inventory, s.subjects), labels.own)
    && ModelsLabelled(s, i, s.clusters[i].models, labels.models)
    && |labels.overrides| == |s.clusters[i].overrides|
    && forall j | 0 <= j < |labels.overrides| ::
      var w := s.clusters[i].overrides[j];
      labels.overrides[j] == LabelUnder(w.subject, s.LookOf(i), s.Counted(i, map[w.raw := w.subject]))
  }

  ghost predicate ModelsLabelled(s: Scope, i: nat, models: seq<Option<Mapping>>, labels: seq<Option<LabelMap>>)
    requires s.Valid() && i < |s.inventory|
  {
    && |labels| == |models|
    && forall j | 0 <= j < |models| ::
      if models[j].None? then labels[j].None?
      else labels[j].Some? && Prepared(s.inventory[i], models[j].value, s.LookOf(i), s.Counted(i, models[j].value), labels[j].value)
  }

  /** Every label of a report is the one a fresh count under the mapping in force would give: a cluster's own
      names, the names of a model with its own identities, and those of a warning that names another subject. */
  method Prepare(s: Scope) returns (labels: seq<Labels>)
    requires s.Valid()
    ensures |labels| == |s.clusters|
    ensures forall i | 0 <= i < |s.clusters| :: Labelled(s, i, labels[i])
  {
    hide *;
    ScopeShape(s);
    var updater := new NameUpdater();
    CollectNameOccurrences(s.inventory, s.subjects, updater);
    var own := PrepareNames(s, updater);
    var models: seq<seq<Option<LabelMap>>> := [];
    for i := 0 to |s.inventory|
      invariant updater.Counts(Whole(s.inventory, s.subjects)) && |models| == i
      invariant forall x | 0 <= x < i :: ModelsLabelled(s, x, s.clusters[x].models, models[x])
    {
      var bound := BindModels(s, i, s.clusters[i].models, updater);
      models := models + [bound];
    }
    labels := [];
    for i := 0 to |s.inventory|
      invariant updater.Counts(Whole(s.inventory, s.subjects)) && |labels| == i
      invariant forall x | 0 <= x < i :: Labelled(s, x, labels[x])
    {
      var bound := BindWarnings(s, i, own[i], models[i], updater);
      labels := labels + [bound];
    }
  }

  lemma ScopeShape(s: Scope)
    requires s.Valid()
    ensures |s.clusters| == |s.inventory|
  {
  }

  method BindWarnings(s: Scope, i: nat, own: LabelMap, models: seq<Option<LabelMap>>, updater: NameUpdater)
    returns (labels: Labels)
    requires s.Valid() && i < |s.inventory| && updater.Counts(Whole(s.inventory, s.subjects))
    requires Prepared(s.inventory[i], MappingAt(s.subjects, i), s.LookOf(i), Whole(s.inventory, s.subjects), own)
    requires ModelsLabelled(s, i, s.clusters[i].models, models)
    modifies updater
    ensures updater.Counts(Whole(s.inventory, s.subjects))
    ensures Labelled(s, i, labels)
  {
    hide Prepared, Recount, Total, LabelUnder, ModelsLabelled, Histogram, Whole, Others, Plus, MappingAt;
    var occurrences := CountOccurrences(s.inventory[i]);
    var overrides := BindOverrides(s.inventory, s.subjects, i, occurrences, s.clusters[i].overrides, s.LookOf(i), updater);
    labels := Labels(s.LookOf(i).prefix, own, models, overrides);
  }

  method PrepareNames(s: Scope, updater: NameUpdater) returns (own: seq<LabelMap>)
    requires s.Valid() && updater.Counts(Whole(s.inventory, s.subjects))
    ensures |own| == |s.inventory|
    ensures forall x | 0 <= x < |s.inventory| ::
              Prepared(s.inventory[x], MappingAt(s.subjects, x), s.LookOf(x), Whole(s.inventory, s.subjects), own[x])
  {
    hide *;
    ScopeShape(s);
    own := [];
    for i := 0 to |s.inventory|
      invariant |own| == i
      invariant forall x | 0 <= x < i ::
                  Prepared(s.inventory[x], MappingAt(s.subjects, x), s.LookOf(x), Whole(s.inventory, s.subjects), own[x])
    {
      var labels := PrepareGroupNames(s.inventory[i], MappingAt(s.subjects, i), s.LookOf(i), updater,
                                      Whole(s.inventory, s.subjects));
      own := own + [labels];
    }
  }

  method BindModels(s: Scope, i: nat, models: seq<Option<Mapping>>, updater: NameUpdater)
    returns (labels: seq<Option<LabelMap>>)
    requires s.Valid() && i < |s.inventory| && updater.Counts(Whole(s.inventory, s.subjects))
    modifies updater
    ensures updater.Counts(Whole(s.inventory, s.subjects))
    ensures ModelsLabelled(s, i, models, labels)
  {
    hide Prepared, Recount, Total, Histogram;
    var occurrences := CountOccurrences(s.inventory[i]);
    labels := [];
    for j := 0 to |models|
      invariant updater.Counts(Whole(s.inventory, s.subjects))
      invariant ModelsLabelled(s, i, models[..j], labels)
    {
      if models[j].None? {
        labels := labels + [None];
      } else {
        var prepared := BindModel(s.inventory, s.subjects, i, occurrences, models[j].value, s.LookOf(i), updater);
        labels := labels + [Some(prepared)];
      }
    }
    assert models[..|models|] == models;
  }

  // ---------- what labels are for, and where they fail ----------

  /** What an inventory shows is in use. */
  lemma InUse(inventory: seq<seq<Resource>>, subjects: seq<Mapping>, i: nat, raw: Resource)
    requires i < |inventory| && raw in inventory[i]
    ensures var r := Resolve(MappingAt(subjects, i), raw); Whole(inventory, subjects)(r.kind, r.group) > 0
  {
    hide Recount, Total, Resolve;
    var m := MappingAt(subjects, i);
    var r := Resolve(m, raw);
    RecountMoves(inventory[i], m, m, raw, r.kind, r.group);
    OwnMapping(inventory, subjects, i);
    assert multiset(inventory[i])[raw] > 0;
    assert Whole(inventory, subjects)(r.kind, r.group) == Under(inventory, subjects, i, m)(r.kind, r.group);
  }

  /** Of the resources a cluster shows as themselves, two have the same label only if they are the same. */
  lemma LabelsToldApart(s: Scope, i: nat, labels: LabelMap, a: Resource, b: Resource)
    requires s.Valid() && i < |s.inventory| && a in labels && b in labels
    requires Prepared(s.inventory[i], MappingAt(s.subjects, i), s.LookOf(i), Whole(s.inventory, s.subjects), labels)
    requires IdentityOf(MappingAt(s.subjects, i), a) == Identity(a, "") && IdentityOf(MappingAt(s.subjects, i), b) == Identity(b, "")
    requires Ordinary(a) && Ordinary(b)
    ensures labels[a] == labels[b] <==> a == b
  {
    hide Whole, Several;
    InUse(s.inventory, s.subjects, i, a);
    InUse(s.inventory, s.subjects, i, b);
    if labels[a] == labels[b] {
      KindNames(a, b, Whole(s.inventory, s.subjects));
      KindsToldApart(a, b, Whole(s.inventory, s.subjects));
      var p := s.LookOf(i).prefix;
      assert (p + NamespacedName(a))[|p|..] == NamespacedName(a);
      assert (p + NamespacedName(b))[|p|..] == NamespacedName(b);
      NamespacedTexts(a, b);
    }
  }

  /** An inventory in which the subject of an entry path is labelled with an empty kind: two
      resources of a kind named "entry" from different groups, and one shown by its path alone. */
  lemma EntryLabelEmpty(quote: string -> string)
    ensures var one, other := Resource("a.io", "entry", "", "one"), Resource("b.io", "entry", "", "other");
            var shown := Resource("c.io", "App", "ns", "app");
            var s := Scope([[one, other, shown]], [map[shown := Identity(NOBODY, "apps")]], [Cluster("c", [], [])], quote);
            && s.Valid()
            && forall labels | Labelled(s, 0, labels) :: shown in labels.own && labels.own[shown].kind == ""
  {
    hide Whole, Prepared;
    var one, other := Resource("a.io", "entry", "", "one"), Resource("b.io", "entry", "", "other");
    var shown := Resource("c.io", "App", "ns", "app");
    var inventory, subjects := [[one, other, shown]], [map[shown := Identity(NOBODY, "apps")]];
    InUse(inventory, subjects, 0, one);
    InUse(inventory, subjects, 0, other);
    var tally := Whole(inventory, subjects);
    assert tally("entry", "a.io") > 0 && tally("entry", "b.io") > 0;
    assert Several(tally, "entry");
    EntryLabelLost(tally);
    forall look: Look, labels: LabelMap | Prepared(inventory[0], subjects[0], look, tally, labels)
      ensures shown in labels && labels[shown].kind == ""
    {
      EntryKind(inventory[0], subjects[0], look, tally, labels, shown);
    }
  }

  lemma EntryKind(inventory: seq<Resource>, m: Mapping, look: Look, tally: Tally, labels: LabelMap, id: Resource)
    requires Prepared(inventory, m, look, tally, labels) && id in inventory && id != NOBODY
    ensures id in labels && labels[id].kind == ShownUnder(Resolve(m, id), tally)
  {
    hide ShownUnder;
  }
}
