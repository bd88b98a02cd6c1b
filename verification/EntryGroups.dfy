/** The choice of the groups that become entries (pkg/discovery/entries.go, 146-156, 223-265 and 307-316). */
module EntryGroups {
  import opened CollisionGroups
  import opened EntryRoots
  import opened Graph

  datatype Outcome = Groups(groups: seq<seq<nat>>) | Incompatible | Ambiguous

  /** Two roots in conflict share an anchor, so no grouping can serve both. */
  ghost predicate Torn(roots: seq<EntryRoot>, edges: Edges)
    requires Conflicts(|roots|, edges)
  {
    exists i, j, t | 0 <= i < |roots| && 0 <= j < |roots| && edges[i][j] != "" ::
      t in roots[i].anchors && t in roots[j].anchors
  }

  /** Sharing an entry does not carry over from i and j, and j and k, to i and k. */
  ghost predicate Triangle(roots: seq<EntryRoot>, edges: Edges, i: nat, j: nat, k: nat)
    requires Conflicts(|roots|, edges)
  {
    && i < |roots| && j < |roots| && k < |roots|
    && roots[i].anchors == roots[j].anchors == roots[k].anchors
    && edges[i][j] == "" && edges[j][k] == "" && edges[i][k] != ""
    && Reach(|roots|, Meets(|roots|, edges), i, j)
  }

  ghost predicate Ambivalent(roots: seq<EntryRoot>, edges: Edges)
    requires Conflicts(|roots|, edges)
  {
    exists i, j, k :: Triangle(roots, edges, i, j, k)
  }

  ghost predicate Clashes(edges: Edges, group: seq<nat>) {
    exists a, b | a in group && b in group :: a < |edges| && b < |edges[a]| && edges[a][b] != ""
  }

  ghost predicate Widest(partitions: seq<seq<seq<nat>>>, s: nat) {
    && s < |partitions| && |partitions[s]| > 1
    && forall i | 0 <= i < |partitions| && i != s :: |partitions[i]| < |partitions[s]|
  }

  // ---------- the shape of the groups ----------

  ghost predicate Components(roots: seq<EntryRoot>, edges: Edges, components: seq<seq<nat>>)
    requires Conflicts(|roots|, edges)
  {
    Classes(|roots|, Meets(|roots|, edges), Range(|roots|), components)
  }

  ghost predicate Partitioned(roots: seq<EntryRoot>, edges: Edges, components: seq<seq<nat>>,
                              partitions: seq<seq<seq<nat>>>)
    requires Conflicts(|roots|, edges)
  {
    && |partitions| <= |components|
    && (forall c | 0 <= c < |partitions| :: Split(roots, edges, components[c], partitions[c]))
    && (forall c, g | 0 <= c < |partitions| && g in partitions[c] :: !Clashes(edges, g))
  }

  lemma ComponentIs(roots: seq<EntryRoot>, edges: Edges, components: seq<seq<nat>>, c: nat)
    requires Conflicts(|roots|, edges) && Components(roots, edges, components) && c < |components|
    ensures IsComponent(|roots|, edges, components[c])
  {
    var n, component := |roots|, components[c];
    assert component in components;
    if |component| > 1 {
      forall i | i in component ensures HasEdge(edges[i]) {
        var j := if component[0] == i then component[1] else component[0];
        assert j in component && j != i;
        assert Reach(n, Meets(n, edges), i, j);
        var path :| Chain(n, Meets(n, edges), path) && path[0] == i && path[|path| - 1] == j;
        assert Meets(n, edges)(path[0], path[1]);
      }
    }
  }

  /** A group with a conflict in it holds a triangle: the first member on the way from a to b that is in
      conflict with a, and the member before it. */
  lemma ClashMeansTriangle(roots: seq<EntryRoot>, edges: Edges, components: seq<seq<nat>>, c: nat,
                           groups: seq<seq<nat>>, group: seq<nat>)
    requires Conflicts(|roots|, edges) && Components(roots, edges, components) && c < |components|
    requires Split(roots, edges, components[c], groups) && group in groups && Clashes(edges, group)
    ensures Ambivalent(roots, edges)
  {
    hide Clashes;
    var n, component := |roots|, components[c];
    assert component in components;
    var pool := Elements(component);
    var step := Compatible(roots, edges, pool);
    var a, b := SomeClash(edges, group);
    assert Classes(n, step, pool, groups) && a in pool;
    assert Reach(n, step, a, b);
    var path :| Chain(n, step, path) && path[0] == a && path[|path| - 1] == b;
    var m := FirstClash(n, edges, path);
    CompatibleChain(roots, edges, pool, path, m);
    assert step(path[m - 1], path[m]);
    assert Reach(n, Meets(n, edges), a, path[m - 1]);
    assert Triangle(roots, edges, a, path[m - 1], path[m]);
  }

  lemma SomeClash(edges: Edges, group: seq<nat>) returns (a: nat, b: nat)
    requires Clashes(edges, group)
    ensures a in group && b in group && a < |edges| && b < |edges[a]| && edges[a][b] != ""
  {
    a, b :| a in group && b in group && a < |edges| && b < |edges[a]| && edges[a][b] != "";
  }

  lemma FirstClash(n: nat, edges: Edges, path: seq<nat>) returns (m: nat)
    requires Conflicts(n, edges) && path != [] && forall k | 0 <= k < |path| :: path[k] < n
    requires edges[path[0]][path[|path| - 1]] != ""
    ensures 0 < m < |path| && edges[path[0]][path[m]] != "" && edges[path[0]][path[m - 1]] == ""
  {
    m := 1;
    while edges[path[0]][path[m]] == ""
      invariant 0 < m < |path| && edges[path[0]][path[m - 1]] == ""
      decreases |path| - m
    {
      m := m + 1;
    }
  }

  lemma {:induction false} CompatibleChain(roots: seq<EntryRoot>, edges: Edges, pool: set<nat>, path: seq<nat>, m: nat)
    requires Conflicts(|roots|, edges) && Chain(|roots|, Compatible(roots, edges, pool), path) && m < |path|
    requires path[0] in pool
    ensures path[m] in pool && roots[path[m]].anchors == roots[path[0]].anchors
  {
    if m > 0 {
      CompatibleChain(roots, edges, pool, path, m - 1);
      assert Compatible(roots, edges, pool)(path[m - 1], path[m]);
    }
  }

  /** Where no group has a conflict, there is no triangle. */
  lemma NoTriangle(roots: seq<EntryRoot>, edges: Edges, components: seq<seq<nat>>, partitions: seq<seq<seq<nat>>>)
    requires Conflicts(|roots|, edges) && Components(roots, edges, components)
    requires Partitioned(roots, edges, components, partitions) && |partitions| == |components|
    ensures !Ambivalent(roots, edges)
  {
    hide Reach, Clashes, Components, Partitioned, Triangle;
    forall i, j, k ensures !Triangle(roots, edges, i, j, k) {
      if Triangle(roots, edges, i, j, k) {
        var c := TriangleComponent(roots, edges, components, i, j, k);
        NotInGroups(roots, edges, components, partitions, c, i, j, k);
      }
    }
  }

  lemma TriangleComponent(roots: seq<EntryRoot>, edges: Edges, components: seq<seq<nat>>, i: nat, j: nat, k: nat)
    returns (c: nat)
    requires Conflicts(|roots|, edges) && Components(roots, edges, components) && Triangle(roots, edges, i, j, k)
    ensures c < |components| && i in components[c] && j in components[c] && k in components[c]
  {
    hide Reach;
    assert i in Range(|roots|);
    var component :| component in components && i in component;
    c :| 0 <= c < |components| && components[c] == component;
    ConflictStays(roots, edges, components, c, i, k);
  }

  lemma NotInGroups(roots: seq<EntryRoot>, edges: Edges, components: seq<seq<nat>>, partitions: seq<seq<seq<nat>>>,
                    c: nat, i: nat, j: nat, k: nat)
    requires Conflicts(|roots|, edges) && Partitioned(roots, edges, components, partitions)
    requires c < |components| == |partitions|
    requires i in components[c] && j in components[c] && k in components[c]
    ensures !Triangle(roots, edges, i, j, k)
  {
    hide Reach, Clashes;
    if Triangle(roots, edges, i, j, k) {
      var component := components[c];
      var pool := Elements(component);
      var step := Compatible(roots, edges, pool);
      var g := GroupHolding(roots, edges, component, partitions[c], i);
      ReachSelf(|roots|, step, i);
      ReachOn(|roots|, step, i, i, j);
      ReachOn(|roots|, step, i, j, k);
      ClashAcross(roots, edges, component, partitions[c], g, i, k);
    }
  }

  lemma GroupHolding(roots: seq<EntryRoot>, edges: Edges, component: seq<nat>, groups: seq<seq<nat>>, i: nat)
    returns (g: seq<nat>)
    requires Conflicts(|roots|, edges) && Split(roots, edges, component, groups) && !Lone(roots, component)
    requires i in component
    ensures g in groups && i in g
  {
    hide Reach;
    assert i in Elements(component);
    g :| g in groups && i in g;
  }

  lemma ClashAcross(roots: seq<EntryRoot>, edges: Edges, component: seq<nat>, groups: seq<seq<nat>>, g: seq<nat>,
                    i: nat, k: nat)
    requires Conflicts(|roots|, edges) && Split(roots, edges, component, groups)
    requires g in groups && i in g && i < |roots| && k < |roots| && edges[i][k] != ""
    requires Reach(|roots|, Compatible(roots, edges, Elements(component)), i, k)
    ensures Clashes(edges, g)
  {
    hide Reach;
    ClashHere(edges, g, i, k);
  }

  lemma ClashHere(edges: Edges, group: seq<nat>, a: nat, b: nat)
    requires a in group && b in group && a < |edges| && b < |edges[a]| && edges[a][b] != ""
    ensures Clashes(edges, group)
  {
  }

  /** In a group without conflict, a member's companions are exactly the roots of its component with the same
      anchors that it has no conflict with; so any other such root is in conflict with it. */
  lemma CompanionsExactly(roots: seq<EntryRoot>, edges: Edges, components: seq<seq<nat>>,
                          partitions: seq<seq<seq<nat>>>, c: nat, group: seq<nat>, i: nat, j: nat)
    requires Conflicts(|roots|, edges) && Components(roots, edges, components)
    requires Partitioned(roots, edges, components, partitions) && c < |partitions|
    requires group in partitions[c] && i in group && j < |roots|
    ensures i < |roots|
    ensures j in group <==> j in components[c] && roots[i].anchors == roots[j].anchors && edges[i][j] == ""
  {
    hide Reach, Clashes;
    var n, pool := |roots|, Elements(components[c]);
    assert components[c] in components;
    var step := Compatible(roots, edges, pool);
    assert Classes(n, step, pool, partitions[c]);
    assert i in pool;
    ReachSelf(n, step, i);
    if j in components[c] && roots[i].anchors == roots[j].anchors && edges[i][j] == "" {
      assert j in pool;
      ReachOn(n, step, i, i, j);
    }
    if j in group {
      assert Reach(n, step, i, j);
      ReachAnchors(roots, edges, pool, i, j);
      if edges[i][j] != "" {
        ClashHere(edges, group, i, j);
      }
    }
  }

  lemma ReachAnchors(roots: seq<EntryRoot>, edges: Edges, pool: set<nat>, i: nat, j: nat)
    requires Conflicts(|roots|, edges) && Reach(|roots|, Compatible(roots, edges, pool), i, j) && i in pool
    ensures j in pool && roots[i].anchors == roots[j].anchors
  {
    var path :| Chain(|roots|, Compatible(roots, edges, pool), path) && path[0] == i && path[|path| - 1] == j;
    CompatibleChain(roots, edges, pool, path, |path| - 1);
  }

  // ---------- the choice ----------

  ghost predicate HasTargets(roots: seq<EntryRoot>, group: seq<nat>) {
    exists i, t | i in group && i < |roots| :: t in roots[i].anchors
  }

  /** The anchors of a group, each once. */
  method GroupTargets(roots: seq<EntryRoot>, group: seq<nat>) returns (targets: seq<string>)
    requires Within(group, |roots|)
    ensures Distinct(targets)
    ensures targets == FirstSeen(AnchorsOf(roots, group))
    ensures forall t :: t in targets <==> exists k :: 0 <= k < |group| && t in roots[group[k]].anchors
    ensures targets != [] <==> HasTargets(roots, group)
  {
    hide FirstSeen, Distinct, HasTargets;
    targets := [];
    NothingSeen();
    for k := 0 to |group|
      invariant targets == FirstSeen(AnchorsOf(roots, group[..k]))
    {
      var anchors := roots[group[k]].anchors;
      ghost var before := AnchorsOf(roots, group[..k]);
      assert before + anchors[..0] == before;
      for a := 0 to |anchors|
        invariant targets == FirstSeen(before + anchors[..a])
      {
        SeenNext(before + anchors[..a], anchors[a]);
        assert before + anchors[..a + 1] == before + anchors[..a] + [anchors[a]];
        if anchors[a] !in targets {
          targets := targets + [anchors[a]];
        }
      }
      assert anchors[..|anchors|] == anchors;
      assert group[..k + 1][..k] == group[..k];
    }
    assert group[..|group|] == group;
    SeenOnce(AnchorsOf(roots, group));
    AnchorsFound(roots, group);
    TargetsFound(roots, group, targets);
  }

  lemma NothingSeen()
    ensures FirstSeen([]) == []
  {
  }

  lemma {:induction false} SeenOnce(s: seq<string>)
    ensures Distinct(FirstSeen(s))
  {
    if s != [] { SeenOnce(s[..|s| - 1]); }
  }

  lemma {:induction false} AnchorsFound(roots: seq<EntryRoot>, group: seq<nat>)
    requires Within(group, |roots|)
    ensures forall t :: t in AnchorsOf(roots, group) <==> exists k :: 0 <= k < |group| && t in roots[group[k]].anchors
  {
    if group != [] {
      var last := |group| - 1;
      AnchorsFound(roots, group[..last]);
      assert forall k | 0 <= k < last :: group[..last][k] == group[k];
    }
  }

  /** The anchors of the group's roots, one after the other. */
  function AnchorsOf(roots: seq<EntryRoot>, group: seq<nat>): seq<string>
    requires Within(group, |roots|)
  {
    if group == [] then []
    else
      var last := |group| - 1;
      AnchorsOf(roots, group[..last]) + roots[group[last]].anchors
  }

  /** Each string where it occurs first. */
  function FirstSeen(s: seq<string>): (r: seq<string>)
    ensures forall t :: t in r <==> t in s
  {
    if s == [] then []
    else
      var last := |s| - 1;
      assert s == s[..last] + [s[last]];
      FirstSeen(s[..last]) + if s[last] in s[..last] then [] else [s[last]]
  }

  /** What is listed earlier occurs before the first occurrence of what is listed later. */
  lemma {:induction false} SeenInOrder(s: seq<string>, i: nat, j: nat)
    requires i < j < |FirstSeen(s)|
    ensures exists k: nat :: k < |s| && s[k] == FirstSeen(s)[i] && FirstSeen(s)[j] !in s[..k + 1]
  {
    var last := |s| - 1;
    assert s == s[..last] + [s[last]];
    var before := FirstSeen(s[..last]);
    if j < |before| {
      SeenInOrder(s[..last], i, j);
      var k: nat :| k < last && s[..last][k] == before[i] && before[j] !in s[..last][..k + 1];
      assert s[..last][..k + 1] == s[..k + 1];
      assert s[k] == FirstSeen(s)[i];
    } else {
      assert before[i] in s[..last];
      var k: nat :| k < last && s[..last][k] == before[i];
      assert forall t | t in s[..k + 1] :: t in s[..last];
      assert s[k] == FirstSeen(s)[i];
    }
  }

  lemma SeenNext(s: seq<string>, t: string)
    ensures FirstSeen(s + [t]) == FirstSeen(s) + if t in FirstSeen(s) then [] else [t]
  {
    assert (s + [t])[..|s|] == s;
  }

  lemma TargetsFound(roots: seq<EntryRoot>, group: seq<nat>, targets: seq<string>)
    requires Within(group, |roots|)
    requires forall t :: t in targets <==> exists k :: 0 <= k < |group| && t in roots[group[k]].anchors
    ensures targets != [] <==> HasTargets(roots, group)
  {
    if targets != [] {
      assert targets[0] in targets;
      var k :| 0 <= k < |group| && targets[0] in roots[group[k]].anchors;
      assert group[k] in group;
    }
    if HasTargets(roots, group) {
      var i, t :| i in group && i < |roots| && t in roots[i].anchors;
      var k :| 0 <= k < |group| && group[k] == i;
      assert t in targets;
    }
  }

  method GroupConflict(edges: Edges, group: seq<nat>) returns (conflict: bool)
    requires Conflicts(|edges|, edges) && Within(group, |edges|)
    ensures conflict <==> Clashes(edges, group)
  {
    for a := 0 to |group|
      invariant forall x, y | 0 <= x < a && 0 <= y < |group| :: edges[group[x]][group[y]] == ""
    {
      for b := 0 to |group|
        invariant forall y | 0 <= y < b :: edges[group[a]][group[y]] == ""
      {
        if edges[group[a]][group[b]] != "" {
          ClashHere(edges, group, group[a], group[b]);
          return true;
        }
      }
    }
    conflict := false;
    NoClash(edges, group);
  }

  lemma NoClash(edges: Edges, group: seq<nat>)
    requires Conflicts(|edges|, edges) && Within(group, |edges|)
    requires forall x, y | 0 <= x < |group| && 0 <= y < |group| :: edges[group[x]][group[y]] == ""
    ensures !Clashes(edges, group)
  {
    forall a, b | a in group && b in group ensures a < |edges| && edges[a][b] == "" {
      var x :| 0 <= x < |group| && group[x] == a;
      var y :| 0 <= y < |group| && group[y] == b;
    }
  }

  ghost function Kept(roots: seq<EntryRoot>, groups: seq<seq<nat>>, all: bool): seq<seq<nat>> {
    if groups == [] then []
    else
      var last := |groups| - 1;
      Kept(roots, groups[..last], all) + (if all || HasTargets(roots, groups[last]) then [groups[last]] else [])
  }

  /** Every group of the chosen component, and those of the others that have an anchor. */
  ghost function Chosen(roots: seq<EntryRoot>, partitions: seq<seq<seq<nat>>>, s: int): seq<seq<nat>> {
    if partitions == [] then []
    else
      var last := |partitions| - 1;
      Chosen(roots, partitions[..last], s) + Kept(roots, partitions[last], last == s)
  }

  ghost predicate HasWidest(partitions: seq<seq<seq<nat>>>) {
    exists s: nat :: Widest(partitions, s)
  }

  ghost predicate ChosenFrom(roots: seq<EntryRoot>, partitions: seq<seq<seq<nat>>>, groups: seq<seq<nat>>) {
    exists s: nat :: Widest(partitions, s) && groups == Chosen(roots, partitions, s)
  }

  /** `strongest` is the one component with the most groups, more than one, or -1 when there is none. */
  ghost predicate Tally(partitions: seq<seq<seq<nat>>>, strongest: int, width: nat) {
    && width >= 1
    && (forall i | 0 <= i < |partitions| :: |partitions[i]| <= width)
    && (if strongest >= 0 then
          Widest(partitions, strongest) && |partitions[strongest]| == width
        else
          width == 1 || exists i, j | 0 <= i < j < |partitions| :: |partitions[i]| == width && |partitions[j]| == width)
  }

  lemma TallyOn(partitions: seq<seq<seq<nat>>>, strongest: int, width: nat, groups: seq<seq<nat>>)
    requires Tally(partitions, strongest, width)
    ensures Tally(partitions + [groups],
                  if |groups| > width then |partitions| else if |groups| == width then -1 else strongest,
                  if |groups| > width then |groups| else width)
  {
    var after := partitions + [groups];
    assert forall i | 0 <= i < |partitions| :: after[i] == partitions[i];
    assert after[|partitions|] == groups;
    if |groups| == width && strongest >= 0 {
      assert |after[strongest]| == width && |after[|partitions|]| == width;
    } else if |groups| <= width && strongest < 0 && width != 1 {
      var i, j :| 0 <= i < j < |partitions| && |partitions[i]| == width && |partitions[j]| == width;
      assert |after[i]| == width && |after[j]| == width;
    }
  }

  lemma TallyDecides(partitions: seq<seq<seq<nat>>>, strongest: int, width: nat)
    requires Tally(partitions, strongest, width)
    ensures strongest >= 0 <==> HasWidest(partitions)
  {
  }

  method SharesAnchor(a: EntryRoot, b: EntryRoot) returns (shared: bool)
    ensures shared <==> exists t :: t in a.anchors && t in b.anchors
  {
    for k := 0 to |a.anchors|
      invariant forall t | t in a.anchors[..k] :: t !in b.anchors
    {
      if a.anchors[k] in b.anchors {
        return true;
      }
    }
    shared := false;
    assert a.anchors[..|a.anchors|] == a.anchors;
  }

  method FindTorn(roots: seq<EntryRoot>, edges: Edges) returns (torn: bool)
    requires Conflicts(|roots|, edges)
    ensures torn <==> Torn(roots, edges)
  {
    for i := 0 to |roots|
      invariant forall a, b, t | 0 <= a < i && a < b < |roots| && edges[a][b] != "" && t in roots[a].anchors :: t !in roots[b].anchors
    {
      for j := i + 1 to |roots|
        invariant forall b, t | i < b < j && edges[i][b] != "" && t in roots[i].anchors :: t !in roots[b].anchors
      {
        if edges[i][j] != "" {
          var shared := SharesAnchor(roots[i], roots[j]);
          if shared {
            return true;
          }
        }
      }
    }
    torn := false;
    TornInOrder(roots, edges);
  }

  lemma TornInOrder(roots: seq<EntryRoot>, edges: Edges)
    requires Conflicts(|roots|, edges)
    ensures Torn(roots, edges) <==>
            exists i, j, t | 0 <= i < j < |roots| && edges[i][j] != "" :: t in roots[i].anchors && t in roots[j].anchors
  {
    if Torn(roots, edges) {
      var i, j, t :| 0 <= i < |roots| && 0 <= j < |roots| && edges[i][j] != "" && t in roots[i].anchors && t in roots[j].anchors;
      if j < i {
        assert edges[j][i] != "";
      }
    }
  }

  /** The groups, when two conflicting roots never share an anchor, sharing an entry carries over within each
      component, and one component has the most groups; otherwise which of these failed. */
  method PartitionGroups(roots: seq<EntryRoot>, edges: Edges)
    returns (r: Outcome, ghost components: seq<seq<nat>>, ghost partitions: seq<seq<seq<nat>>>)
    requires Conflicts(|roots|, edges)
    ensures r.Incompatible? <==> Torn(roots, edges)
    ensures Ambivalent(roots, edges) ==> !r.Groups?
    ensures !Torn(roots, edges) && !Ambivalent(roots, edges) ==>
              && Components(roots, edges, components)
              && Partitioned(roots, edges, components, partitions) && |partitions| == |components|
              && (r.Groups? <==> HasWidest(partitions))
    ensures r.Groups? ==> ChosenFrom(roots, partitions, r.groups)
  {
    hide Torn, Ambivalent, HasWidest, Components, Partitioned, Widest, Chosen, Tally, Conflicts, Clashes, Split, IsComponent, Classes;
    components, partitions := [], [];
    var torn := FindTorn(roots, edges);
    if torn {
      return Incompatible, components, partitions;
    }
    EdgesSquare(|roots|, edges);
    var all := CollisionComponents(edges);
    components := all;
    ComponentsStart(roots, edges, components);
    var parts: seq<seq<seq<nat>>> := [];
    var strongest: int, width: nat := -1, 1;
    for i := 0 to |all|
      invariant |parts| == i && Partitioned(roots, edges, components, parts)
      invariant Tally(parts, strongest, width)
    {
      ComponentIs(roots, edges, components, i);
      var groups := PartitionComponent(roots, edges, all[i]);
      for g := 0 to |groups|
        invariant forall k | 0 <= k < g :: !Clashes(edges, groups[k])
      {
        GroupWithin(roots, edges, components, i, groups, g);
        var conflict := GroupConflict(edges, groups[g]);
        if conflict {
          ClashMeansTriangle(roots, edges, components, i, groups, groups[g]);
          return Ambiguous, components, partitions;
        }
      }
      PartitionedOn(roots, edges, components, parts, groups);
      TallyOn(parts, strongest, width, groups);
      parts := parts + [groups];
      if |groups| > width {
        strongest, width := i, |groups|;
      } else if |groups| == width {
        strongest := -1;
      }
    }
    partitions := parts;
    NoTriangle(roots, edges, components, partitions);
    TallyDecides(partitions, strongest, width);
    if strongest < 0 {
      return Ambiguous, components, partitions;
    }
    TallyWidest(partitions, strongest, width);
    PartitionsWithin(roots, edges, components, parts);
    var chosen := Choose(roots, parts, strongest);
    r := Groups(chosen);
  }

  lemma EdgesSquare(n: nat, edges: Edges)
    requires Conflicts(n, edges)
    ensures |edges| == n
  {
  }

  lemma ComponentsStart(roots: seq<EntryRoot>, edges: Edges, components: seq<seq<nat>>)
    requires Conflicts(|roots|, edges) && Classes(|roots|, Meets(|roots|, edges), Range(|roots|), components)
    ensures Components(roots, edges, components) && Partitioned(roots, edges, components, []) && Tally([], -1, 1)
  {
  }

  lemma PartitionedOn(roots: seq<EntryRoot>, edges: Edges, components: seq<seq<nat>>,
                      partitions: seq<seq<seq<nat>>>, groups: seq<seq<nat>>)
    requires Conflicts(|roots|, edges) && Partitioned(roots, edges, components, partitions)
    requires |partitions| < |components| && Split(roots, edges, components[|partitions|], groups)
    requires forall k | 0 <= k < |groups| :: !Clashes(edges, groups[k])
    ensures Partitioned(roots, edges, components, partitions + [groups])
  {
    hide Split, Clashes, Conflicts;
  }

  lemma GroupWithin(roots: seq<EntryRoot>, edges: Edges, components: seq<seq<nat>>, c: nat, groups: seq<seq<nat>>, g: nat)
    requires Conflicts(|roots|, edges) && Components(roots, edges, components) && c < |components|
    requires Split(roots, edges, components[c], groups) && g < |groups|
    ensures forall i | i in groups[g] :: i in components[c] && i < |roots|
    ensures Within(groups[g], |roots|)
  {
    hide Reach, Meets, Compatible, Conflicts;
    assert groups[g] in groups && components[c] in components;
    forall i | i in groups[g] ensures i in components[c] && i < |roots| {
      assert i in Elements(components[c]);
      assert i in Range(|roots|);
    }
    forall k | 0 <= k < |groups[g]| ensures groups[g][k] < |roots| {
      assert groups[g][k] in groups[g];
    }
  }

  lemma PartitionsWithin(roots: seq<EntryRoot>, edges: Edges, components: seq<seq<nat>>, partitions: seq<seq<seq<nat>>>)
    requires Conflicts(|roots|, edges) && Components(roots, edges, components)
    requires Partitioned(roots, edges, components, partitions)
    ensures forall c, g | 0 <= c < |partitions| && 0 <= g < |partitions[c]| :: Within(partitions[c][g], |roots|)
  {
    hide Components, Split, Clashes;
    forall c, g | 0 <= c < |partitions| && 0 <= g < |partitions[c]|
      ensures Within(partitions[c][g], |roots|)
    {
      GroupWithin(roots, edges, components, c, partitions[c], g);
    }
  }

  lemma TallyWidest(partitions: seq<seq<seq<nat>>>, strongest: int, width: nat)
    requires Tally(partitions, strongest, width) && strongest >= 0
    ensures Widest(partitions, strongest)
  {
  }

  method Choose(roots: seq<EntryRoot>, partitions: seq<seq<seq<nat>>>, strongest: int) returns (groups: seq<seq<nat>>)
    requires forall c, g | 0 <= c < |partitions| && 0 <= g < |partitions[c]| :: Within(partitions[c][g], |roots|)
    ensures groups == Chosen(roots, partitions, strongest)
  {
    hide HasTargets, FirstSeen, AnchorsOf, Distinct;
    groups := [];
    for i := 0 to |partitions|
      invariant groups == Chosen(roots, partitions[..i], strongest)
    {
      ghost var before := groups;
      var partition := partitions[i];
      for g := 0 to |partition|
        invariant groups == before + Kept(roots, partition[..g], i == strongest)
      {
        var targets := GroupTargets(roots, partition[g]);
        assert partition[..g + 1][..g] == partition[..g];
        if i == strongest || targets != [] {
          groups := groups + [partition[g]];
        }
      }
      assert partition[..|partition|] == partition;
      assert partitions[..i + 1][..i] == partitions[..i];
    }
    assert partitions[..|partitions|] == partitions;
  }

  // ---------- what the chosen groups are to each other ----------

  /** The place of a chosen group among the partitions. */
  ghost predicate FromPartition(partitions: seq<seq<seq<nat>>>, group: seq<nat>, c: nat) {
    c < |partitions| && group in partitions[c]
  }

  lemma {:induction false} KeptFrom(roots: seq<EntryRoot>, groups: seq<seq<nat>>, all: bool)
    ensures forall g :: g in Kept(roots, groups, all) <==> g in groups && (all || HasTargets(roots, g))
  {
    hide HasTargets;
    if groups != [] {
      var last := |groups| - 1;
      KeptFrom(roots, groups[..last], all);
      assert groups == groups[..last] + [groups[last]];
    }
  }

  /** A group is chosen exactly when it has an anchor or belongs to the component with the most groups. */
  lemma {:induction false} ChosenExactly(roots: seq<EntryRoot>, partitions: seq<seq<seq<nat>>>, s: int, g: seq<nat>)
    ensures g in Chosen(roots, partitions, s) <==>
            exists c :: FromPartition(partitions, g, c) && (c == s || HasTargets(roots, g))
  {
    hide HasTargets;
    if partitions != [] {
      var last := |partitions| - 1;
      ChosenExactly(roots, partitions[..last], s, g);
      KeptFrom(roots, partitions[last], last == s);
      if c: nat :| FromPartition(partitions[..last], g, c) && (c == s || HasTargets(roots, g)) {
        assert FromPartition(partitions, g, c);
      }
      if c: nat :| FromPartition(partitions, g, c) && (c == s || HasTargets(roots, g)) {
        if c < last { assert FromPartition(partitions[..last], g, c); }
      }
      if g in partitions[last] { assert FromPartition(partitions, g, last); }
    }
  }

  /** No root is in two chosen groups, and two roots of one component with the same anchors that are in
      different groups are in conflict. */
  lemma GroupsApart(roots: seq<EntryRoot>, edges: Edges, components: seq<seq<nat>>, partitions: seq<seq<seq<nat>>>,
                    c: nat, d: nat, g: seq<nat>, h: seq<nat>, i: nat, j: nat)
    requires Conflicts(|roots|, edges) && Components(roots, edges, components)
    requires Partitioned(roots, edges, components, partitions)
    requires FromPartition(partitions, g, c) && FromPartition(partitions, h, d) && g != h && i in g && j in h
    ensures i < |roots| && j < |roots| && i != j
    ensures c == d && roots[i].anchors == roots[j].anchors ==> edges[i][j] != ""
    ensures c != d ==> edges[i][j] == ""
  {
    hide Clashes, Reach, Components, Split, Conflicts;
    var a :| 0 <= a < |partitions[c]| && partitions[c][a] == g;
    var b :| 0 <= b < |partitions[d]| && partitions[d][b] == h;
    GroupWithin(roots, edges, components, c, partitions[c], a);
    GroupWithin(roots, edges, components, d, partitions[d], b);
    if c == d {
      GroupsDisjoint(roots, edges, components[c], partitions[c], b, a, j);
      CompanionsExactly(roots, edges, components, partitions, c, g, i, j);
    } else {
      ComponentsDisjoint(roots, edges, components, c, d, i, j);
    }
  }

  lemma GroupsDisjoint(roots: seq<EntryRoot>, edges: Edges, component: seq<nat>, groups: seq<seq<nat>>,
                       a: nat, b: nat, i: nat)
    requires Conflicts(|roots|, edges) && Split(roots, edges, component, groups)
    requires a < |groups| && b < |groups| && a != b && i in groups[a]
    ensures i !in groups[b]
  {
    hide Reach;
    assert if a < b then Disjoint(groups[a], groups[b]) else Disjoint(groups[b], groups[a]);
  }

  lemma ComponentsDisjoint(roots: seq<EntryRoot>, edges: Edges, components: seq<seq<nat>>, c: nat, d: nat,
                           i: nat, j: nat)
    requires Conflicts(|roots|, edges) && Components(roots, edges, components)
    requires c < |components| && d < |components| && c != d && i in components[c] && j in components[d]
    requires i < |roots| && j < |roots|
    ensures i != j && edges[i][j] == ""
  {
    hide Reach;
    assert if c < d then Disjoint(components[c], components[d]) else Disjoint(components[d], components[c]);
    if edges[i][j] != "" {
      ConflictStays(roots, edges, components, c, i, j);
    }
  }

  lemma ConflictStays(roots: seq<EntryRoot>, edges: Edges, components: seq<seq<nat>>, c: nat, i: nat, j: nat)
    requires Conflicts(|roots|, edges) && Components(roots, edges, components)
    requires c < |components| && i in components[c] && i < |roots| && j < |roots| && edges[i][j] != ""
    ensures j in components[c]
  {
    hide Reach;
    assert components[c] in components;
    ReachSelf(|roots|, Meets(|roots|, edges), i);
    ReachOn(|roots|, Meets(|roots|, edges), i, i, j);
  }

  /** Every root of a component is in one of its groups, unless it is the only one and has no anchor. */
  lemma ComponentCovered(roots: seq<EntryRoot>, edges: Edges, components: seq<seq<nat>>,
                         partitions: seq<seq<seq<nat>>>, c: nat, i: nat)
    requires Conflicts(|roots|, edges) && Components(roots, edges, components)
    requires Partitioned(roots, edges, components, partitions) && c < |partitions| && i in components[c]
    ensures (exists g :: g in partitions[c] && i in g) <==> !Lone(roots, components[c])
  {
    if !Lone(roots, components[c]) {
      assert i in Elements(components[c]);
    }
  }
}
