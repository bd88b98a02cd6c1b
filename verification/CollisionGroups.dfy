/** How roots that declare the same objects differently are split into entries
    (pkg/discovery/entries.go, 267-337). */
module CollisionGroups {
  import opened EntryRoots
  import opened Graph

  /** edges[i][j] names a conflict between roots i and j, or is empty. */
  type Edges = seq<seq<string>>

  ghost predicate Conflicts(n: nat, edges: Edges) {
    && |edges| == n
    && (forall i | 0 <= i < n :: |edges[i]| == n && edges[i][i] == "")
    && forall i, j | 0 <= i < n && 0 <= j < n :: edges[i][j] == edges[j][i]
  }

  ghost function Meets(n: nat, edges: Edges): Edge
    requires Conflicts(n, edges)
  {
    (i: nat, j: nat) => i < n && j < n && edges[i][j] != ""
  }

  // ---------- growing a list until no edge leaves it ----------

  ghost function Among(free: seq<bool>, step: Edge): Edge {
    (i: nat, j: nat) => i < |free| && j < |free| && free[i] && free[j] && step(i, j)
  }

  /** `group` grows from `first` along `step` among the free indices. The members before `start` are followed
      all the way, and the member at `start` as far as `done`. */
  ghost predicate Growing(n: nat, step: Edge, free: seq<bool>, first: nat, taken: seq<bool>, group: seq<nat>,
                          start: nat, done: nat) {
    && |free| == n && |taken| == n && first < n && free[first] && done <= n
    && start <= |group| && group != [] && group[0] == first && Distinct(group)
    && (forall j: nat | j < n :: taken[j] == (!free[j] || j in group))
    && (forall j | j in group :: j < n && free[j] && Reach(n, Among(free, step), first, j))
    && (forall k: nat, y: nat | k < start && y < n && free[y] && step(group[k], y) :: y in group)
    && (start < |group| ==> forall y: nat | y < done && free[y] && step(group[start], y) :: y in group)
  }

  lemma GrowFrom(n: nat, step: Edge, free: seq<bool>, first: nat, taken: seq<bool>)
    requires |free| == n && |taken| == n && first < n && free[first]
    requires forall j: nat | j < n :: taken[j] == (!free[j] || j == first)
    ensures Growing(n, step, free, first, taken, [first], 0, 0)
  {
    hide Reach;
    ReachSelf(n, Among(free, step), first);
  }

  lemma GrowBy(n: nat, step: Edge, free: seq<bool>, first: nat, taken: seq<bool>, group: seq<nat>,
               start: nat, j: nat)
    requires Growing(n, step, free, first, taken, group, start, j) && start < |group| && j < n
    requires !taken[j] && step(group[start], j)
    ensures Growing(n, step, free, first, taken[j := true], group + [j], start, j + 1)
  {
    hide Reach;
    assert group[start] in group;
    ReachOn(n, Among(free, step), first, group[start], j);
  }

  lemma GrowPast(n: nat, step: Edge, free: seq<bool>, first: nat, taken: seq<bool>, group: seq<nat>,
                 start: nat, j: nat)
    requires Growing(n, step, free, first, taken, group, start, j) && start < |group| && j < n
    requires taken[j] || !step(group[start], j)
    ensures Growing(n, step, free, first, taken, group, start, j + 1)
  {
    hide Reach;
  }

  lemma GrowNext(n: nat, step: Edge, free: seq<bool>, first: nat, taken: seq<bool>, group: seq<nat>, start: nat)
    requires Growing(n, step, free, first, taken, group, start, n) && start < |group|
    ensures Growing(n, step, free, first, taken, group, start + 1, 0)
  {
    hide Reach;
  }

  lemma GrowBound(n: nat, step: Edge, free: seq<bool>, first: nat, taken: seq<bool>, group: seq<nat>,
                  start: nat, done: nat)
    requires Growing(n, step, free, first, taken, group, start, done)
    ensures start <= |group| <= n && |taken| == n
    ensures forall k | 0 <= k < |group| :: group[k] < n
  {
    hide Reach;
    forall k | 0 <= k < |group| ensures group[k] < n {
      assert group[k] in group;
    }
    Pigeonhole(group, n);
  }

  lemma GrowEnd(n: nat, step: Edge, free: seq<bool>, first: nat, taken: seq<bool>, group: seq<nat>)
    requires Growing(n, step, free, first, taken, group, |group|, 0)
    ensures forall j: nat :: j in group <==> Reach(n, Among(free, step), first, j)
  {
    hide Reach;
    var e := Among(free, step);
    forall j: nat | Reach(n, e, first, j) ensures j in group {
      var inside := set x | x in group;
      forall x: nat, y: nat | x in inside && y < n && e(x, y) ensures y in inside {
        var k :| 0 <= k < |group| && group[k] == x;
      }
      assert first in inside;
      StaysInside(n, e, inside, first, j);
    }
  }

  // ---------- classes ----------

  /** The groups are the connected classes of `edge` on the members of `pool`, each once. */
  ghost predicate Classes(n: nat, edge: Edge, pool: set<nat>, groups: seq<seq<nat>>) {
    && (forall g | g in groups :: g != [] && Distinct(g))
    && (forall g, i | g in groups && i in g :: i in pool)
    && (forall i | i in pool :: exists g :: g in groups && i in g)
    && (forall g, i, j: nat | g in groups && i in g :: j in g <==> Reach(n, edge, i, j))
    && (forall a, b | 0 <= a < b < |groups| :: Disjoint(groups[a], groups[b]))
  }

  ghost predicate Disjoint(g: seq<nat>, h: seq<nat>) {
    forall i | i in g :: i !in h
  }

  /** So far the groups are classes, and hold exactly the members of the pool that are taken. */
  ghost predicate Gathered(n: nat, edge: Edge, pool: set<nat>, taken: seq<bool>, groups: seq<seq<nat>>) {
    && |taken| == n
    && (forall i | i in pool :: i < n)
    && Classes(n, edge, (set i | i in pool && taken[i]), groups)
  }

  ghost predicate Symmetric(n: nat, edge: Edge) {
    forall x: nat, y: nat | x < n && y < n && edge(x, y) :: edge(y, x)
  }

  ghost predicate Inside(n: nat, edge: Edge, pool: set<nat>) {
    && (forall i | i in pool :: i < n)
    && (forall x: nat, y: nat | x < n && y < n && edge(x, y) :: x in pool && y in pool)
  }

  /** One grown group is a new class: no edge leads back to the classes gathered before. */
  lemma Gather(n: nat, edge: Edge, pool: set<nat>, before: seq<bool>, groups: seq<seq<nat>>,
               free: seq<bool>, step: Edge, first: nat, taken: seq<bool>, group: seq<nat>)
    requires Gathered(n, edge, pool, before, groups) && Symmetric(n, edge) && Inside(n, edge, pool)
    requires |free| == n && forall i: nat | i < n :: free[i] == !before[i]
    requires forall i: nat | i < n && free[i] :: i in pool
    requires forall x: nat, y: nat | x < n && y < n && free[x] && free[y] :: step(x, y) == edge(x, y)
    requires first in pool && Growing(n, step, free, first, taken, group, |group|, 0)
    ensures Gathered(n, edge, pool, taken, groups + [group])
  {
    hide Reach;
    var e := Among(free, step);
    GrowEnd(n, step, free, first, taken, group);
    var known := set i | i in pool && before[i];
    forall j: nat | Reach(n, edge, first, j) ensures Reach(n, e, first, j) {
      OutsideOf(n, edge, pool, before, groups, first, j);
      StaysFree(n, edge, e, pool, before, groups, first, j);
    }
    forall j: nat | Reach(n, e, first, j) ensures Reach(n, edge, first, j) {
      ReachWeaker(n, e, edge, first, j);
    }
    forall i, j: nat | i in group ensures j in group <==> Reach(n, edge, i, j) {
      ReachBack(n, edge, first, i);
      if j in group { ReachThrough(n, edge, i, first, j); }
      if Reach(n, edge, i, j) { ReachThrough(n, edge, first, i, j); }
    }
    var more := set i | i in pool && taken[i];
    assert forall i | i in pool :: i in more <==> i in known || i in group;
    var all := groups + [group];
    assert all[|groups|] == group;
    forall i | i in more ensures exists g :: g in all && i in g {
      if i in known {
        var g :| g in groups && i in g;
        assert g in all;
      } else {
        assert group in all;
      }
    }
    forall a, b | 0 <= a < b < |all| ensures Disjoint(all[a], all[b]) {
      if b == |groups| {
        assert all[a] in groups;
      }
    }
    forall g, i, j: nat | g in all && i in g ensures j in g <==> Reach(n, edge, i, j) {}
  }

  lemma ReachWeaker(n: nat, e: Edge, f: Edge, a: nat, b: nat)
    requires Reach(n, e, a, b) && forall x: nat, y: nat | x < n && y < n && e(x, y) :: f(x, y)
    ensures Reach(n, f, a, b)
  {
    var path :| Chain(n, e, path) && path[0] == a && path[|path| - 1] == b;
    assert Chain(n, f, path);
  }

  lemma OutsideOf(n: nat, edge: Edge, pool: set<nat>, before: seq<bool>, groups: seq<seq<nat>>, first: nat, j: nat)
    requires Gathered(n, edge, pool, before, groups) && Symmetric(n, edge) && Inside(n, edge, pool)
    requires first in pool && !before[first] && Reach(n, edge, first, j)
    ensures j in pool && !before[j]
  {
    hide Reach;
    StaysInside(n, edge, pool, first, j);
    if before[j] {
      var known := set i | i in pool && before[i];
      assert Classes(n, edge, known, groups) && j in known;
      var g :| g in groups && j in g;
      ReachBack(n, edge, first, j);
    }
  }

  lemma StaysFree(n: nat, edge: Edge, e: Edge, pool: set<nat>, before: seq<bool>, groups: seq<seq<nat>>,
                  first: nat, j: nat)
    requires Gathered(n, edge, pool, before, groups) && Symmetric(n, edge) && Inside(n, edge, pool)
    requires first in pool && !before[first] && Reach(n, edge, first, j)
    requires forall x: nat, y: nat | x < n && y < n && !before[x] && !before[y] && edge(x, y) :: e(x, y)
    ensures Reach(n, e, first, j)
  {
    var path :| Chain(n, edge, path) && path[0] == first && path[|path| - 1] == j;
    forall k | 0 <= k < |path| ensures !before[path[k]] {
      assert Chain(n, edge, path[..k + 1]) && path[..k + 1][0] == first && path[..k + 1][k] == path[k];
      OutsideOf(n, edge, pool, before, groups, first, path[k]);
    }
    forall k | 0 < k < |path| ensures e(path[k - 1], path[k]) {
      assert edge(path[k - 1], path[k]);
    }
    assert Chain(n, e, path);
  }

  lemma AllGathered(n: nat, edge: Edge, pool: set<nat>, taken: seq<bool>, groups: seq<seq<nat>>)
    requires Gathered(n, edge, pool, taken, groups) && forall i | i in pool :: taken[i]
    ensures Classes(n, edge, pool, groups)
  {
    assert (set i | i in pool && taken[i]) == pool;
  }

  // ---------- the components of the conflicts ----------

  function Not(taken: seq<bool>): seq<bool> {
    seq(|taken|, i requires 0 <= i < |taken| => !taken[i])
  }

  lemma GrowKeeps(n: nat, step: Edge, free: seq<bool>, first: nat, taken: seq<bool>, group: seq<nat>,
                  start: nat, done: nat)
    requires Growing(n, step, free, first, taken, group, start, done)
    ensures forall j: nat | j < n && !free[j] :: taken[j]
    ensures taken[first]
  {
    hide Reach;
    assert first in group;
  }

  lemma MeetsBothWays(n: nat, edges: Edges)
    requires Conflicts(n, edges)
    ensures Symmetric(n, Meets(n, edges)) && Inside(n, Meets(n, edges), Range(n))
  {
  }

  lemma NothingGathered(n: nat, edge: Edge, pool: set<nat>, taken: seq<bool>)
    requires |taken| == n && forall i | i in pool :: i < n && !taken[i]
    ensures Gathered(n, edge, pool, taken, [])
  {
    assert (set i | i in pool && taken[i]) == {};
  }

  method CollisionComponents(edges: Edges) returns (components: seq<seq<nat>>)
    requires Conflicts(|edges|, edges)
    ensures Classes(|edges|, Meets(|edges|, edges), Range(|edges|), components)
  {
    hide Growing, Classes, Gathered, Range, Symmetric, Inside;
    ghost var n := |edges|;
    ghost var meets := Meets(n, edges);
    MeetsBothWays(n, edges);
    components := [];
    var seen: seq<bool> := seq(|edges|, _ => false);
    NothingGathered(n, meets, Range(n), seen);
    for i := 0 to |edges|
      invariant |seen| == n && Gathered(n, meets, Range(n), seen, components)
      invariant forall k | 0 <= k < i :: seen[k]
    {
      if seen[i] {
        continue;
      }
      ghost var before := seen;
      ghost var free := Not(seen);
      var component: seq<nat> := [i];
      seen := seen[i := true];
      GrowFrom(n, meets, free, i, seen);
      var start := 0;
      while start < |component|
        invariant start <= |component| && Growing(n, meets, free, i, seen, component, start, 0)
        decreases n - start
      {
        GrowBound(n, meets, free, i, seen, component, start, 0);
        component, seen := FollowConflicts(edges, component, seen, start, free, i);
        start := start + 1;
        GrowBound(n, meets, free, i, seen, component, start, 0);
      }
      GrowBound(n, meets, free, i, seen, component, start, 0);
      GrowKeeps(n, meets, free, i, seen, component, start, 0);
      Gather(n, meets, Range(n), before, components, free, meets, i, seen, component);
      components := components + [component];
    }
    AllGathered(n, meets, Range(n), seen, components);
  }

  method FollowConflicts(edges: Edges, component: seq<nat>, seen: seq<bool>, start: nat, ghost free: seq<bool>, ghost first: nat)
    returns (longer: seq<nat>, taken: seq<bool>)
    requires Conflicts(|edges|, edges) && start < |component|
    requires Growing(|edges|, Meets(|edges|, edges), free, first, seen, component, start, 0)
    ensures Growing(|edges|, Meets(|edges|, edges), free, first, taken, longer, start + 1, 0)
  {
    hide Growing;
    ghost var n := |edges|;
    ghost var meets := Meets(n, edges);
    longer, taken := component, seen;
    for j := 0 to |edges|
      invariant start < |longer| && Growing(n, meets, free, first, taken, longer, start, j)
    {
      GrowBound(n, meets, free, first, taken, longer, start, j);
      if !taken[j] && edges[longer[start]][j] != "" {
        GrowBy(n, meets, free, first, taken, longer, start, j);
        taken := taken[j := true];
        longer := longer + [j];
      } else {
        GrowPast(n, meets, free, first, taken, longer, start, j);
      }
    }
    GrowNext(n, meets, free, first, taken, longer, start);
  }

  // ---------- the groups of one component ----------

  /** Two roots of a component that may share an entry: same anchors, and no conflict. */
  ghost function Compatible(roots: seq<EntryRoot>, edges: Edges, component: set<nat>): Edge
    requires Conflicts(|roots|, edges)
  {
    (x: nat, y: nat) =>
      && x < |roots| && y < |roots| && x in component && y in component
      && edges[x][y] == "" && roots[x].anchors == roots[y].anchors
  }

  predicate HasEdge(row: seq<string>) {
    exists k | 0 <= k < |row| :: row[k] != ""
  }

  /** A component: its members each have a conflict, unless there is but one. */
  ghost predicate IsComponent(n: nat, edges: Edges, component: seq<nat>) {
    && |edges| == n && component != [] && Distinct(component)
    && (forall i | i in component :: i < n)
    && (|component| > 1 ==> forall i | i in component :: HasEdge(edges[i]))
  }

  lemma CompatibleBothWays(roots: seq<EntryRoot>, edges: Edges, component: seq<nat>)
    requires Conflicts(|roots|, edges) && forall i | i in component :: i < |roots|
    ensures Symmetric(|roots|, Compatible(roots, edges, Elements(component)))
    ensures Inside(|roots|, Compatible(roots, edges, Elements(component)), Elements(component))
  {
  }

  lemma SameAnchors(roots: seq<EntryRoot>, edges: Edges, component: seq<nat>, free: seq<bool>, first: nat,
                    taken: seq<bool>, group: seq<nat>, start: nat, done: nat)
    requires Conflicts(|roots|, edges) && start < |group|
    requires Growing(|roots|, Compatible(roots, edges, Elements(component)), free, first, taken, group, start, done)
    requires first in component
    ensures group[start] in component && group[start] < |roots| && first < |roots|
    ensures roots[group[start]].anchors == roots[first].anchors
  {
    hide Reach;
    var e := Among(free, Compatible(roots, edges, Elements(component)));
    var inside := set x: nat | x < |roots| && x in component && roots[x].anchors == roots[first].anchors;
    assert group[start] in group;
    StaysInside(|roots|, e, inside, first, group[start]);
  }

  /** Takes the roots of the component that can share an entry with `first`, directly or through others. */
  method PartitionGroup(roots: seq<EntryRoot>, edges: Edges, first: nat, placed: array<bool>,
                        ghost component: seq<nat>)
    returns (group: seq<nat>)
    requires Conflicts(|roots|, edges) && IsComponent(|roots|, edges, component)
    requires placed.Length == |roots| && first in component && !placed[first]
    requires forall j | 0 <= j < |roots| && !placed[j] :: j in component
    modifies placed
    ensures Growing(|roots|, Compatible(roots, edges, Elements(component)), Not(old(placed[..])), first,
                    placed[..], group, |group|, 0)
  {
    hide Growing, Compatible, Elements, Distinct;
    ghost var n := |roots|;
    ghost var step := Compatible(roots, edges, Elements(component));
    ghost var free := Not(placed[..]);
    group := [first];
    placed[first] := true;
    GrowFrom(n, step, free, first, placed[..]);
    var start := 0;
    while start < |group|
      invariant start <= |group| && Growing(n, step, free, first, placed[..], group, start, 0)
      decreases n - start
    {
      GrowBound(n, step, free, first, placed[..], group, start, 0);
      group := FollowCompatible(roots, edges, first, placed, component, group, start, free);
      start := start + 1;
      GrowBound(n, step, free, first, placed[..], group, start, 0);
    }
    GrowBound(n, step, free, first, placed[..], group, start, 0);
  }

  method FollowCompatible(roots: seq<EntryRoot>, edges: Edges, first: nat, placed: array<bool>,
                          ghost component: seq<nat>, group: seq<nat>, start: nat, ghost free: seq<bool>)
    returns (longer: seq<nat>)
    requires Conflicts(|roots|, edges) && IsComponent(|roots|, edges, component)
    requires placed.Length == |roots| && first in component && start < |group|
    requires |free| == |roots| && forall j | 0 <= j < |roots| && free[j] :: j in component
    requires Growing(|roots|, Compatible(roots, edges, Elements(component)), free, first, placed[..], group, start, 0)
    modifies placed
    ensures Growing(|roots|, Compatible(roots, edges, Elements(component)), free, first, placed[..], longer, start + 1, 0)
  {
    hide Growing, Compatible, IsComponent;
    ghost var n := |roots|;
    ghost var step := Compatible(roots, edges, Elements(component));
    longer := group;
    for j := 0 to |roots|
      invariant start < |longer| && Growing(n, step, free, first, placed[..], longer, start, j)
    {
      ghost var taken := placed[..];
      GrowBound(n, step, free, first, taken, longer, start, j);
      CompatibleHere(roots, edges, component, free, first, taken, longer, start, j);
      if !placed[j] && edges[longer[start]][j] == "" && HasEdge(edges[j]) && roots[j].anchors == roots[first].anchors {
        GrowBy(n, step, free, first, taken, longer, start, j);
        placed[j] := true;
        assert placed[..] == taken[j := true];
        longer := longer + [j];
      } else {
        GrowPast(n, step, free, first, taken, longer, start, j);
      }
    }
    GrowNext(n, step, free, first, placed[..], longer, start);
  }

  /** What the loop asks of a root not yet placed is that it is compatible with the member in hand. */
  lemma CompatibleHere(roots: seq<EntryRoot>, edges: Edges, component: seq<nat>, free: seq<bool>, first: nat,
                       taken: seq<bool>, group: seq<nat>, start: nat, j: nat)
    requires Conflicts(|roots|, edges) && IsComponent(|roots|, edges, component) && start < |group| && j < |roots|
    requires first in component && |free| == |roots| && forall k | 0 <= k < |roots| && free[k] :: k in component
    requires Growing(|roots|, Compatible(roots, edges, Elements(component)), free, first, taken, group, start, j)
    ensures group[start] < |roots| && first < |roots| && |taken| == |roots|
    ensures !taken[j] ==>
              (Compatible(roots, edges, Elements(component))(group[start], j) <==>
               edges[group[start]][j] == "" && HasEdge(edges[j]) && roots[j].anchors == roots[first].anchors)
  {
    SameAnchors(roots, edges, component, free, first, taken, group, start, j);
    if !taken[j] {
      assert first in group && free[j] && j != first;
      assert Elements(component) >= {j, first};
      DistinctCount(component);
      SubsetCount({j, first}, Elements(component));
    }
  }

  predicate Lone(roots: seq<EntryRoot>, component: seq<nat>) {
    |component| == 1 && component[0] < |roots| && roots[component[0]].anchors == []
  }

  /** A component of one root without anchors is in no group; any other is split into the classes of its
      compatible roots. */
  ghost predicate Split(roots: seq<EntryRoot>, edges: Edges, component: seq<nat>, groups: seq<seq<nat>>)
    requires Conflicts(|roots|, edges)
  {
    if Lone(roots, component) then groups == []
    else Classes(|roots|, Compatible(roots, edges, Elements(component)), Elements(component), groups)
  }

  method PartitionComponent(roots: seq<EntryRoot>, edges: Edges, component: seq<nat>) returns (groups: seq<seq<nat>>)
    requires Conflicts(|roots|, edges) && IsComponent(|roots|, edges, component)
    ensures Split(roots, edges, component, groups)
  {
    hide Growing, Compatible, Classes, Gathered, Conflicts, Symmetric, Inside;
    ghost var n := |roots|;
    ghost var pool := Elements(component);
    ghost var step := Compatible(roots, edges, pool);
    CompatibleBothWays(roots, edges, component);
    var placed := new bool[|roots|](_ => true);
    for k := 0 to |component|
      invariant forall j | 0 <= j < n :: placed[j] == (j !in component[..k])
    {
      assert component[k] in component;
      assert component[..k + 1] == component[..k] + [component[k]];
      placed[component[k]] := false;
    }
    assert component[..|component|] == component;
    groups := [];
    NothingGathered(n, step, pool, placed[..]);
    for k := 0 to |component|
      invariant forall j | 0 <= j < n && !placed[j] :: j in component
      invariant Gathered(n, step, pool, placed[..], groups)
      invariant Lone(roots, component) ==> groups == []
      invariant !Lone(roots, component) ==> forall j | 0 <= j < k :: component[j] < n && placed[component[j]]
    {
      var i := component[k];
      assert i in component;
      if placed[i] || (|component| == 1 && roots[i].anchors == []) {
        continue;
      }
      ghost var before := placed[..];
      var group := PartitionGroup(roots, edges, i, placed, component);
      GrowKeeps(n, step, Not(before), i, placed[..], group, |group|, 0);
      assert forall j | 0 <= j < n && before[j] :: !Not(before)[j] && placed[..][j];
      GrowBound(n, step, Not(before), i, placed[..], group, |group|, 0);
      Gather(n, step, pool, before, groups, Not(before), step, i, placed[..], group);
      groups := groups + [group];
    }
    if !Lone(roots, component) {
      AllGathered(n, step, pool, placed[..], groups);
    }
  }
}
