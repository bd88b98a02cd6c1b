/** The memoised walk over control files that finds remote inputs before a build
    (pkg/kustomize/preflight.go, 73-140, 230-321 and 344-377; pkg/kustomize/gitbase.go, 13-55;
    pkg/kustomize/readset.go, 119-136), proved to record what a walk without its memory would. */
module PreflightWalk {
  import opened Graph
  import opened Text
  import opened RemoteWaves
  import opened ControlFiles

  /** The control files do not contain each other: `rank` goes down along every reference. */
  ghost predicate Ranked(g: Controls, rank: map<Location, nat>) {
    && g.Keys <= rank.Keys
    && forall key, i | key in g && 0 <= i < |g[key]| ::
        !g[key][i].RemoteFile? && g[key][i].child in g ==> rank[g[key][i].child] < rank[key]
  }

  /** A remote input and one it was reached through. */
  datatype Edge = Edge(input: RemoteInput, parent: RemoteInput)

  /** What a walk records: the remote inputs it meets, and the remotes each was reached through. */
  datatype Trail = Trail(inputs: set<RemoteInput>, edges: set<Edge>)

  const NOTHING := Trail({}, {})

  ghost function Both(a: Trail, b: Trail): Trail {
    Trail(a.inputs + b.inputs, a.edges + b.edges)
  }

  ghost predicate Covered(a: Trail, b: Trail) {
    a.inputs <= b.inputs && a.edges <= b.edges
  }

  /** The inputs, each reached through all the parents; a remote is never its own parent. */
  ghost function Cross(inputs: set<RemoteInput>, parents: set<RemoteInput>): Trail {
    Trail(inputs, set i, p | i in inputs && p in parents && i != p :: Edge(i, p))
  }

  // ---------- the walk without memory ----------

  ghost function Level(g: Controls, rank: map<Location, nat>, key: Location): nat
    requires Ranked(g, rank)
  {
    if key in g then rank[key] + 1 else 0
  }

  ghost function WalkFile(g: Controls, rank: map<Location, nat>, key: Location, parents: set<RemoteInput>): Trail
    requires Ranked(g, rank)
    decreases Level(g, rank, key), 2, 0
  {
    if key !in g then NOTHING else WalkReferences(g, rank, key, g[key], parents)
  }

  /** `refs` is a part of the references of `key`. */
  ghost function WalkReferences(g: Controls, rank: map<Location, nat>, key: Location, refs: seq<Reference>,
                                parents: set<RemoteInput>): Trail
    requires Ranked(g, rank) && key in g && refs <= g[key]
    decreases Level(g, rank, key), 1, |refs|
  {
    if refs == [] then NOTHING
    else
      var last := |refs| - 1;
      Both(WalkReferences(g, rank, key, refs[..last], parents), WalkReference(g, rank, key, last, parents))
  }

  ghost function WalkReference(g: Controls, rank: map<Location, nat>, key: Location, i: nat,
                               parents: set<RemoteInput>): Trail
    requires Ranked(g, rank) && key in g && i < |g[key]|
    decreases Level(g, rank, key), 0, 0
  {
    match g[key][i]
    case Local(child) => WalkFile(g, rank, child, parents)
    case RemoteFile(input) => Cross({input}, parents)
    case RemoteBase(input, child) => Both(Cross({input}, parents), WalkFile(g, rank, child, parents + {input}))
  }

  /** The remotes below a control file, whatever leads to it. */
  ghost function Below(g: Controls, rank: map<Location, nat>, key: Location): set<RemoteInput>
    requires Ranked(g, rank)
  {
    WalkFile(g, rank, key, {}).inputs
  }

  /** Coming to a control file through `parents` adds exactly these above each remote below it. */
  lemma {:induction false} WalkFileThrough(g: Controls, rank: map<Location, nat>, key: Location,
                                           p: set<RemoteInput>, q: set<RemoteInput>)
    requires Ranked(g, rank)
    ensures WalkFile(g, rank, key, p + q) == Both(WalkFile(g, rank, key, p), Cross(Below(g, rank, key), q))
    ensures WalkFile(g, rank, key, p).inputs == Below(g, rank, key)
    decreases Level(g, rank, key), 2, 0
  {
    if key in g {
      WalkReferencesThrough(g, rank, key, g[key], p, q);
    } else {
      assert Cross({}, q) == NOTHING;
    }
  }

  lemma {:induction false} WalkReferencesThrough(g: Controls, rank: map<Location, nat>, key: Location,
                                                 refs: seq<Reference>, p: set<RemoteInput>, q: set<RemoteInput>)
    requires Ranked(g, rank) && key in g && refs <= g[key]
    ensures WalkReferences(g, rank, key, refs, p + q) ==
            Both(WalkReferences(g, rank, key, refs, p), Cross(WalkReferences(g, rank, key, refs, {}).inputs, q))
    ensures WalkReferences(g, rank, key, refs, p).inputs == WalkReferences(g, rank, key, refs, {}).inputs
    decreases Level(g, rank, key), 1, |refs|
  {
    if refs != [] {
      var last := |refs| - 1;
      WalkReferencesThrough(g, rank, key, refs[..last], p, q);
      WalkReferenceThrough(g, rank, key, last, p, q);
      CrossUnion(WalkReferences(g, rank, key, refs[..last], {}).inputs, WalkReference(g, rank, key, last, {}).inputs, q);
    } else {
      assert Cross({}, q) == NOTHING;
    }
  }

  lemma CrossUnion(x: set<RemoteInput>, y: set<RemoteInput>, p: set<RemoteInput>)
    ensures Cross(x + y, p) == Both(Cross(x, p), Cross(y, p))
  {
  }

  lemma CrossThrough(x: set<RemoteInput>, p: set<RemoteInput>, q: set<RemoteInput>)
    ensures Cross(x, p + q) == Both(Cross(x, p), Cross(x, q))
  {
  }

  lemma {:induction false} WalkReferenceThrough(g: Controls, rank: map<Location, nat>, key: Location, i: nat,
                                                p: set<RemoteInput>, q: set<RemoteInput>)
    requires Ranked(g, rank) && key in g && i < |g[key]|
    ensures WalkReference(g, rank, key, i, p + q) ==
            Both(WalkReference(g, rank, key, i, p), Cross(WalkReference(g, rank, key, i, {}).inputs, q))
    ensures WalkReference(g, rank, key, i, p).inputs == WalkReference(g, rank, key, i, {}).inputs
    decreases Level(g, rank, key), 0, 0
  {
    match g[key][i]
    case Local(child) =>
      WalkFileThrough(g, rank, child, p, q);
    case RemoteFile(input) =>
      CrossThrough({input}, p, q);
    case RemoteBase(input, child) =>
      WalkFileThrough(g, rank, child, p + {input}, q);
      WalkFileThrough(g, rank, child, {} + {input}, {});
      assert p + q + {input} == p + {input} + q;
      CrossThrough({input}, p, q);
      CrossUnion({input}, Below(g, rank, child), q);
  }

  // ---------- the walk without memory, by ways of references ----------

  ghost predicate InputAt(g: Controls, rank: map<Location, nat>, key: Location, i: nat, x: RemoteInput)
    requires Ranked(g, rank) && key in g
  {
    i < |g[key]| && x in WalkReference(g, rank, key, i, {}).inputs
  }

  ghost predicate EdgeAt(g: Controls, rank: map<Location, nat>, key: Location, i: nat, e: Edge)
    requires Ranked(g, rank) && key in g
  {
    i < |g[key]| && e in WalkReference(g, rank, key, i, {}).edges
  }

  lemma {:induction false} PartsOfWalk(g: Controls, rank: map<Location, nat>, key: Location, n: nat, x: RemoteInput, e: Edge)
    requires Ranked(g, rank) && key in g && n <= |g[key]|
    ensures x in WalkReferences(g, rank, key, g[key][..n], {}).inputs <==> exists i: nat :: i < n && InputAt(g, rank, key, i, x)
    ensures e in WalkReferences(g, rank, key, g[key][..n], {}).edges <==> exists i: nat :: i < n && EdgeAt(g, rank, key, i, e)
  {
    if n > 0 {
      var last := n - 1;
      PartsOfWalk(g, rank, key, last, x, e);
      WalkOneMore(g, rank, key, last, {});
      hide WalkReferences, WalkReference, Ranked;
      assert InputAt(g, rank, key, last, x) <==> x in WalkReference(g, rank, key, last, {}).inputs;
      assert EdgeAt(g, rank, key, last, e) <==> e in WalkReference(g, rank, key, last, {}).edges;
      hide InputAt, EdgeAt;
      if i: nat :| i < n && InputAt(g, rank, key, i, x) { assert i < last || i == last; }
      if i: nat :| i < n && EdgeAt(g, rank, key, i, e) { assert i < last || i == last; }
    }
  }

  lemma ReferenceParts(g: Controls, rank: map<Location, nat>, key: Location, i: nat)
    requires Ranked(g, rank) && key in g && i < |g[key]|
    ensures var r, step := g[key][i], WalkReference(g, rank, key, i, {});
            && (r.Local? ==> step == WalkFile(g, rank, r.child, {}))
            && (r.RemoteFile? ==> step == Trail({r.input}, {}))
            && (r.RemoteBase? ==>
                  && step.inputs == {r.input} + WalkFile(g, rank, r.child, {}).inputs
                  && forall e :: e in step.edges <==>
                       || e in WalkFile(g, rank, r.child, {}).edges
                       || (e.parent == r.input && e.input != r.input && e.input in WalkFile(g, rank, r.child, {}).inputs))
  {
    hide Ranked, WalkFile;
    if g[key][i].RemoteBase? {
      WalkFileThrough(g, rank, g[key][i].child, {}, {g[key][i].input});
      assert {} + {g[key][i].input} == {g[key][i].input};
    }
  }

  /** What the walk meets is what the references lead to, and a remote's parents are the remote bases passed on
      the ways to it. */
  lemma {:induction false} WalkIsWays(g: Controls, rank: map<Location, nat>, key: Location, input: RemoteInput,
                                      parent: RemoteInput)
    requires Ranked(g, rank)
    ensures input in WalkFile(g, rank, key, {}).inputs <==> Met(g, key, input)
    ensures Edge(input, parent) in WalkFile(g, rank, key, {}).edges <==> input != parent && Through(g, key, input, parent)
    decreases Level(g, rank, key)
  {
    if key !in g {
      NoWay(g, key, input, parent);
    } else {
      hide Ranked;
      assert WalkFile(g, rank, key, {}) == WalkReferences(g, rank, key, g[key], {});
      assert g[key][..|g[key]|] == g[key];
      PartsOfWalk(g, rank, key, |g[key]|, input, Edge(input, parent));
      hide WalkFile, WalkReferences, WalkReference, Met, Through;
      forall i: nat | i < |g[key]| && !g[key][i].RemoteFile?
        ensures input in WalkFile(g, rank, g[key][i].child, {}).inputs <==> Met(g, g[key][i].child, input)
        ensures Edge(input, parent) in WalkFile(g, rank, g[key][i].child, {}).edges <==>
                  input != parent && Through(g, g[key][i].child, input, parent)
      {
        ChildLower(g, rank, key, i);
        WalkIsWays(g, rank, g[key][i].child, input, parent);
      }
      forall i: nat | i < |g[key]|
        ensures input in WalkReference(g, rank, key, i, {}).inputs ==> Met(g, key, input)
        ensures Edge(input, parent) in WalkReference(g, rank, key, i, {}).edges ==>
                  input != parent && Through(g, key, input, parent)
      {
        WayFromReference(g, rank, key, i, input, parent);
      }
      if Met(g, key, input) {
        var i := MetSplit(g, key, input);
        ReferenceParts(g, rank, key, i);
        assert InputAt(g, rank, key, i, input);
      }
      if input != parent && Through(g, key, input, parent) {
        var i := ThroughSplit(g, key, input, parent);
        ReferenceParts(g, rank, key, i);
        assert EdgeAt(g, rank, key, i, Edge(input, parent));
      }
    }
  }

  lemma ChildLower(g: Controls, rank: map<Location, nat>, key: Location, i: nat)
    requires Ranked(g, rank) && key in g && i < |g[key]| && !g[key][i].RemoteFile?
    ensures Level(g, rank, g[key][i].child) < Level(g, rank, key)
  {
  }

  lemma NoWay(g: Controls, key: Location, input: RemoteInput, parent: RemoteInput)
    requires key !in g
    ensures !Met(g, key, input) && !Through(g, key, input, parent)
  {
    forall hops ensures !ComesTo(g, key, input, hops) {}
  }

  lemma WayFromReference(g: Controls, rank: map<Location, nat>, key: Location, i: nat, input: RemoteInput, parent: RemoteInput)
    requires Ranked(g, rank) && key in g && i < |g[key]|
    requires !g[key][i].RemoteFile? ==>
               && (input in WalkFile(g, rank, g[key][i].child, {}).inputs <==> Met(g, g[key][i].child, input))
               && (Edge(input, parent) in WalkFile(g, rank, g[key][i].child, {}).edges <==>
                     input != parent && Through(g, g[key][i].child, input, parent))
    ensures input in WalkReference(g, rank, key, i, {}).inputs ==> Met(g, key, input)
    ensures Edge(input, parent) in WalkReference(g, rank, key, i, {}).edges ==>
              input != parent && Through(g, key, input, parent)
  {
    ReferenceParts(g, rank, key, i);
    hide Ranked, WalkFile, WalkReference, Met, Through;
    var r := g[key][i];
    if !r.Local? && r.input == input { MetFirst(g, key, i, input); }
    if !r.RemoteFile? && Met(g, r.child, input) { MetBelow(g, key, i, input); }
    if !r.RemoteFile? && Through(g, r.child, input, parent) { ThroughBelow(g, key, i, input, parent); }
  }

  // ---------- what the walk remembers ----------

  /** A file already come to: the remotes seen below it so far, and the file it was first come to from. */
  datatype Observation = Observation(remotes: set<RemoteInput>, parent: Option<Location>)

  type Visited = map<Location, Observation>

  datatype RemoteRecord = RemoteRecord(identity: RemoteIdentity, parents: set<RemoteInput>)

  type Records = map<RemoteInput, RemoteRecord>

  /** The outcome of fetching a remote input. */
  datatype Acquired = Acquired(identity: RemoteIdentity, ok: bool)

  ghost function TrailOf(records: Records): Trail {
    Trail(records.Keys, set i, p | i in records && p in records[i].parents :: Edge(i, p))
  }

  /** `stack` is the way back from the file in hand, through the files that led to it. */
  ghost predicate WayBack(visited: Visited, at: Option<Location>, stack: seq<Location>)
    decreases |stack|
  {
    match at
    case None => stack == []
    case Some(key) =>
      && stack != []
      && stack[0] == key
      && key in visited
      && key !in stack[1..]
      && WayBack(visited, visited[key].parent, stack[1..])
  }

  /** Nothing is forgotten, and the way back from any file stays the same. */
  ghost predicate ParentsKept(before: Visited, after: Visited) {
    forall k | k in before :: k in after && after[k].parent == before[k].parent
  }

  lemma {:induction false} WayBackKept(before: Visited, after: Visited, at: Option<Location>, stack: seq<Location>)
    requires ParentsKept(before, after) && WayBack(before, at, stack)
    ensures WayBack(after, at, stack)
    decreases |stack|
  {
    if at.Some? {
      WayBackKept(before, after, before[at.value].parent, stack[1..]);
    }
  }

  lemma {:induction false} WayBackVisited(visited: Visited, at: Option<Location>, stack: seq<Location>)
    requires WayBack(visited, at, stack)
    ensures forall k | k in stack :: k in visited
    decreases |stack|
  {
    if at.Some? {
      WayBackVisited(visited, visited[at.value].parent, stack[1..]);
    }
  }

  /** The files on the way back gain these remotes, and no other file seen before changes. */
  ghost predicate Gained(before: Visited, after: Visited, stack: seq<Location>, remotes: set<RemoteInput>) {
    forall k | k in before ::
      && k in after
      && after[k].parent == before[k].parent
      && after[k].remotes == before[k].remotes + (if k in stack then remotes else {})
  }

  /** What holds at every point of the walk, even among control files that contain each other. */
  ghost predicate Sane(g: Controls, fetch: RemoteInput -> Acquired, visited: Visited, records: Records,
                       bases: set<RemoteInput>, mounts: seq<RemoteInput>) {
    && visited.Keys <= g.Keys
    && (forall k | k in visited :: visited[k].remotes <= records.Keys)
    && (forall i | i in records :: records[i].identity == fetch(i).identity)
    && bases <= records.Keys
    && (forall i | i in bases :: fetch(i).ok)
    && Distinct(mounts)
    && (forall i :: i in mounts <==> i in bases)
  }

  ghost predicate AllFetched(fetch: RemoteInput -> Acquired, inputs: set<RemoteInput>) {
    forall i | i in inputs :: fetch(i).ok
  }

  /** A file that the walk is done with: its remotes are those below it, and all below it is recorded. */
  ghost predicate Done(g: Controls, rank: map<Location, nat>, fetch: RemoteInput -> Acquired,
                       o: Observation, trail: Trail, key: Location)
    requires Ranked(g, rank)
  {
    && o.remotes == Below(g, rank, key)
    && Covered(WalkFile(g, rank, key, {}), trail)
    && AllFetched(fetch, o.remotes)
  }

  /** Every file seen is done with, but those on the way back. */
  ghost predicate Remembered(g: Controls, rank: map<Location, nat>, fetch: RemoteInput -> Acquired,
                             visited: Visited, trail: Trail, stack: seq<Location>)
    requires Ranked(g, rank)
  {
    forall k | k in visited && k !in stack :: Done(g, rank, fetch, visited[k], trail, k)
  }

  /** The files on the way back lie above `level`. */
  ghost predicate Above(rank: map<Location, nat>, stack: seq<Location>, level: nat) {
    forall k | k in stack :: k in rank && level <= rank[k]
  }

  /** One part of the walk came to an end: it recorded exactly `step`, and remembers it. */
  ghost predicate Walked(g: Controls, rank: map<Location, nat>, fetch: RemoteInput -> Acquired,
                         before: Visited, start: Trail, after: Visited, end: Trail,
                         stack: seq<Location>, step: Trail)
    requires Ranked(g, rank)
  {
    && Gained(before, after, stack, step.inputs)
    && end == Both(start, step)
    && Remembered(g, rank, fetch, after, end, stack)
    && AllFetched(fetch, step.inputs)
  }

  lemma WalkedOn(g: Controls, rank: map<Location, nat>, fetch: RemoteInput -> Acquired,
                 before: Visited, start: Trail, between: Visited, middle: Trail, after: Visited, end: Trail,
                 stack: seq<Location>, first: Trail, second: Trail)
    requires Ranked(g, rank)
    requires Walked(g, rank, fetch, before, start, between, middle, stack, first)
    requires Walked(g, rank, fetch, between, middle, after, end, stack, second)
    ensures Walked(g, rank, fetch, before, start, after, end, stack, Both(first, second))
  {
    hide Remembered, Ranked;
  }

  lemma WalkedNothing(g: Controls, rank: map<Location, nat>, fetch: RemoteInput -> Acquired,
                      visited: Visited, trail: Trail, stack: seq<Location>)
    requires Ranked(g, rank) && Remembered(g, rank, fetch, visited, trail, stack)
    ensures Walked(g, rank, fetch, visited, trail, visited, trail, stack, NOTHING)
  {
  }

  /** Crediting remotes to the way back forgets nothing about the other files. */
  lemma WalkedRemotes(g: Controls, rank: map<Location, nat>, fetch: RemoteInput -> Acquired,
                      before: Visited, start: Trail, after: Visited, end: Trail,
                      stack: seq<Location>, step: Trail)
    requires Ranked(g, rank) && Remembered(g, rank, fetch, before, start, stack)
    requires Gained(before, after, stack, step.inputs) && after.Keys == before.Keys
    requires end == Both(start, step) && AllFetched(fetch, step.inputs)
    ensures Walked(g, rank, fetch, before, start, after, end, stack, step)
  {
    hide Ranked, WalkFile, Below;
  }

  /** A file come to again: what it has recorded already, under the new parents, is what walking it again would. */
  lemma WalkedAgain(g: Controls, rank: map<Location, nat>, fetch: RemoteInput -> Acquired,
                    before: Visited, start: Trail, after: Visited, end: Trail,
                    stack: seq<Location>, key: Location, parents: set<RemoteInput>)
    requires Ranked(g, rank) && Remembered(g, rank, fetch, before, start, stack)
    requires key in before && key !in stack
    requires Gained(before, after, stack, before[key].remotes) && after.Keys == before.Keys
    requires end == Both(start, Cross(before[key].remotes, parents))
    ensures Walked(g, rank, fetch, before, start, after, end, stack, WalkFile(g, rank, key, parents))
  {
    hide Ranked, WalkFile, Below;
    assert Done(g, rank, fetch, before[key], start, key);
    WalkFileThrough(g, rank, key, {}, parents);
    assert {} + parents == parents;
    assert end == Both(start, WalkFile(g, rank, key, parents));
    WalkedRemotes(g, rank, fetch, before, start, after, end, stack, WalkFile(g, rank, key, parents));
  }

  lemma Entered(g: Controls, rank: map<Location, nat>, fetch: RemoteInput -> Acquired,
                before: Visited, trail: Trail, at: Option<Location>, stack: seq<Location>, key: Location)
    requires Ranked(g, rank) && Remembered(g, rank, fetch, before, trail, stack)
    requires key in g && key !in before && Above(rank, stack, Level(g, rank, key))
    ensures Remembered(g, rank, fetch, before[key := Observation({}, at)], trail, [key] + stack)
    ensures Above(rank, [key] + stack, rank[key])
  {
    hide WalkFile, Below;
  }

  /** Leaving a file for good: it is now done with. */
  lemma Left(g: Controls, rank: map<Location, nat>, fetch: RemoteInput -> Acquired,
             before: Visited, start: Trail, after: Visited, end: Trail,
             at: Option<Location>, stack: seq<Location>, key: Location, parents: set<RemoteInput>)
    requires Ranked(g, rank) && key in g && key !in before && key !in stack
    requires Walked(g, rank, fetch, before[key := Observation({}, at)], start, after, end, [key] + stack,
                    WalkFile(g, rank, key, parents))
    ensures Walked(g, rank, fetch, before, start, after, end, stack, WalkFile(g, rank, key, parents))
  {
    hide Ranked, WalkFile, Below;
    var entered := before[key := Observation({}, at)];
    var step := WalkFile(g, rank, key, parents);
    WalkFileThrough(g, rank, key, {}, parents);
    assert {} + parents == parents;
    assert after[key].remotes == entered[key].remotes + step.inputs == Below(g, rank, key);
    assert Done(g, rank, fetch, after[key], end, key);
    forall k | k in before
      ensures k in after && after[k].parent == before[k].parent
      ensures after[k].remotes == before[k].remotes + (if k in stack then step.inputs else {})
    {
      assert entered[k] == before[k];
      assert k in [key] + stack <==> k in stack;
    }
    assert Remembered(g, rank, fetch, after, end, stack);
  }

  lemma {:induction false} PrefixBelow(g: Controls, rank: map<Location, nat>, key: Location, n: nat, m: nat,
                                       p: set<RemoteInput>)
    requires Ranked(g, rank) && key in g && n <= m <= |g[key]|
    ensures WalkReferences(g, rank, key, g[key][..n], p).inputs <= WalkReferences(g, rank, key, g[key][..m], p).inputs
  {
    if n < m {
      assert g[key][..m][..m - 1] == g[key][..m - 1];
      PrefixBelow(g, rank, key, n, m - 1, p);
    }
  }

  lemma WalkOneMore(g: Controls, rank: map<Location, nat>, key: Location, i: nat, p: set<RemoteInput>)
    requires Ranked(g, rank) && key in g && i < |g[key]|
    ensures WalkReferences(g, rank, key, g[key][..i + 1], p) ==
            Both(WalkReferences(g, rank, key, g[key][..i], p), WalkReference(g, rank, key, i, p))
    ensures WalkReference(g, rank, key, i, p).inputs <= WalkFile(g, rank, key, p).inputs
  {
    var refs := g[key][..i + 1];
    assert refs[..i] == g[key][..i];
    PrefixBelow(g, rank, key, i + 1, |g[key]|, p);
    assert g[key][..|g[key]|] == g[key];
  }

  lemma MoreVisited(g: Controls, before: Visited, after: Visited)
    requires ParentsKept(before, after)
    ensures |g.Keys - after.Keys| <= |g.Keys - before.Keys|
    ensures forall k | k in g && k in after && k !in before :: |g.Keys - after.Keys| < |g.Keys - before.Keys|
  {
    SubsetCount(g.Keys - after.Keys, g.Keys - before.Keys);
    forall k | k in g && k in after && k !in before
      ensures |g.Keys - after.Keys| < |g.Keys - before.Keys|
    {
      SubsetCount(g.Keys - after.Keys, g.Keys - before.Keys - {k});
    }
  }

  lemma NoRemotes(visited: Visited, trail: Trail, stack: seq<Location>, parents: set<RemoteInput>)
    ensures Gained(visited, visited, stack, {})
    ensures trail == Both(trail, Cross({}, parents))
  {
  }

  lemma OneMoreRemote(first: Visited, before: Visited, after: Visited, start: Trail, stack: seq<Location>,
                      remotes: set<RemoteInput>, input: RemoteInput, parents: set<RemoteInput>)
    requires Gained(first, before, stack, remotes) && Gained(before, after, stack, {input})
    ensures Gained(first, after, stack, remotes + {input})
    ensures Both(Both(start, Cross(remotes, parents)), Cross({input}, parents)) ==
            Both(start, Cross(remotes + {input}, parents))
  {
    CrossUnion(remotes, {input}, parents);
  }

  /** One remote recorded under the present parents. */
  lemma WalkedRemote(g: Controls, rank: map<Location, nat>, fetch: RemoteInput -> Acquired,
                     before: Visited, start: Trail, after: Visited, end: Trail,
                     stack: seq<Location>, input: RemoteInput, parents: set<RemoteInput>)
    requires Ranked(g, rank) && Remembered(g, rank, fetch, before, start, stack)
    requires Gained(before, after, stack, {input}) && after.Keys == before.Keys
    requires end == Both(start, Cross({input}, parents)) && fetch(input).ok
    ensures Walked(g, rank, fetch, before, start, after, end, stack, Cross({input}, parents))
    ensures Remembered(g, rank, fetch, after, end, stack)
  {
    hide Ranked, Remembered, Gained;
    WalkedRemotes(g, rank, fetch, before, start, after, end, stack, Cross({input}, parents));
    WalkedRemembered(g, rank, fetch, before, start, after, end, stack, Cross({input}, parents));
  }

  /** A base is walked when it is fetched and all below it is. */
  lemma BaseFetched(g: Controls, rank: map<Location, nat>, fetch: RemoteInput -> Acquired, key: Location, i: nat,
                    parents: set<RemoteInput>)
    requires Ranked(g, rank) && key in g && i < |g[key]|
    ensures var r := g[key][i]; r.Local? ==>
              && WalkReference(g, rank, key, i, parents) == WalkFile(g, rank, r.child, parents)
              && WalkFile(g, rank, r.child, parents).inputs == Below(g, rank, r.child)
    ensures var r := g[key][i]; r.RemoteFile? ==>
              && WalkReference(g, rank, key, i, parents) == Cross({r.input}, parents)
              && AllFetched(fetch, Cross({r.input}, parents).inputs) == fetch(r.input).ok
    ensures var r := g[key][i]; r.RemoteBase? ==>
              && WalkReference(g, rank, key, i, parents) ==
                 Both(Cross({r.input}, parents), WalkFile(g, rank, r.child, parents + {r.input}))
              && AllFetched(fetch, WalkReference(g, rank, key, i, parents).inputs) ==
                 (fetch(r.input).ok && AllFetched(fetch, Below(g, rank, r.child)))
  {
    hide Ranked, WalkFile, Below;
    match g[key][i]
    case Local(child) =>
      WalkFileThrough(g, rank, child, parents, {});
    case RemoteFile(input) =>
      assert input in Cross({input}, parents).inputs;
    case RemoteBase(input, child) =>
      WalkFileThrough(g, rank, child, parents + {input}, {});
      assert input in WalkReference(g, rank, key, i, parents).inputs;
      assert Below(g, rank, child) <= WalkReference(g, rank, key, i, parents).inputs;
  }

  lemma Recorded(g: Controls, fetch: RemoteInput -> Acquired, visited: Visited, records: Records,
                 bases: set<RemoteInput>, mounts: seq<RemoteInput>, input: RemoteInput, parents: set<RemoteInput>)
    requires Sane(g, fetch, visited, records, bases, mounts)
    ensures var known := if input in records then records[input].parents else {};
            var after := records[input := RemoteRecord(fetch(input).identity, known + (parents - {input}))];
            && Sane(g, fetch, visited, after, bases, mounts)
            && input in after
            && TrailOf(after) == Both(TrailOf(records), Cross({input}, parents))
  {
    var known := if input in records then records[input].parents else {};
    var after := records[input := RemoteRecord(fetch(input).identity, known + (parents - {input}))];
    assert TrailOf(after).inputs == Both(TrailOf(records), Cross({input}, parents)).inputs;
    forall e
      ensures e in TrailOf(after).edges <==> e in TrailOf(records).edges || e in Cross({input}, parents).edges
    {
      if e.input == input {
        assert e in TrailOf(after).edges <==> e.parent in known + (parents - {input});
      }
    }
  }

  lemma AtFirst(visited: Visited, stack: seq<Location>, input: RemoteInput)
    ensures Gained(visited, visited, stack[..|stack| - |stack|], {input})
  {
  }

  lemma OneStepBack(visited: Visited, at: Option<Location>, stack: seq<Location>)
    requires at.Some? && WayBack(visited, at, stack)
    ensures stack != [] && at.value == stack[0] && at.value in visited && at.value !in stack[1..]
    ensures WayBack(visited, visited[at.value].parent, stack[1..])
  {
  }

  lemma WayBackEnds(visited: Visited, stack: seq<Location>)
    requires WayBack(visited, None, stack)
    ensures stack == []
  {
  }

  /** One file on the way back is credited with a remote. */
  lemma Credited(g: Controls, fetch: RemoteInput -> Acquired, first: Visited, before: Visited, records: Records,
                 bases: set<RemoteInput>, mounts: seq<RemoteInput>, at: Option<Location>,
                 stack: seq<Location>, rest: seq<Location>, input: RemoteInput)
    requires Sane(g, fetch, before, records, bases, mounts) && input in records
    requires at.Some? && WayBack(before, at, rest) && |rest| <= |stack| && rest == stack[|stack| - |rest|..]
    requires Gained(first, before, stack[..|stack| - |rest|], {input})
    ensures var o := before[at.value];
            var after := before[at.value := Observation(o.remotes + {input}, o.parent)];
            && Sane(g, fetch, after, records, bases, mounts)
            && Gained(first, after, stack[..|stack| - |rest[1..]|], {input})
            && WayBack(after, o.parent, rest[1..])
  {
    var o := before[at.value];
    var after := before[at.value := Observation(o.remotes + {input}, o.parent)];
    WayBackKept(before, after, o.parent, rest[1..]);
    assert stack[..|stack| - |rest[1..]|] == stack[..|stack| - |rest|] + [at.value];
  }

  /** A file is come to for the first time. */
  lemma FirstVisit(g: Controls, fetch: RemoteInput -> Acquired, before: Visited, records: Records,
                   bases: set<RemoteInput>, mounts: seq<RemoteInput>, at: Option<Location>,
                   stack: seq<Location>, key: Location)
    requires Sane(g, fetch, before, records, bases, mounts) && WayBack(before, at, stack)
    requires key in g && key !in before
    ensures var after := before[key := Observation({}, at)];
            && Sane(g, fetch, after, records, bases, mounts)
            && WayBack(after, Some(key), [key] + stack)
            && ParentsKept(before, after)
            && key !in stack
            && |g.Keys - after.Keys| < |g.Keys - before.Keys|
  {
    var after := before[key := Observation({}, at)];
    WayBackVisited(before, at, stack);
    WayBackKept(before, after, at, stack);
    assert ([key] + stack)[1..] == stack;
    MoreVisited(g, before, after);
  }

  lemma SaneRemotes(g: Controls, fetch: RemoteInput -> Acquired, visited: Visited, records: Records,
                    bases: set<RemoteInput>, mounts: seq<RemoteInput>, key: Location)
    requires Sane(g, fetch, visited, records, bases, mounts) && key in visited
    ensures visited[key].remotes <= records.Keys
  {
  }

  lemma TrailKeys(records: Records)
    ensures TrailOf(records).inputs == records.Keys
  {
  }

  lemma GainedKeeps(before: Visited, after: Visited, stack: seq<Location>, remotes: set<RemoteInput>)
    requires Gained(before, after, stack, remotes)
    ensures ParentsKept(before, after)
  {
  }

  lemma NoFile(g: Controls, rank: map<Location, nat>, fetch: RemoteInput -> Acquired,
               visited: Visited, trail: Trail, stack: seq<Location>, key: Location, parents: set<RemoteInput>)
    requires Ranked(g, rank) && key !in g && Remembered(g, rank, fetch, visited, trail, stack)
    ensures Walked(g, rank, fetch, visited, trail, visited, trail, stack, WalkFile(g, rank, key, parents))
    ensures AllFetched(fetch, Below(g, rank, key))
  {
    WalkedNothing(g, rank, fetch, visited, trail, stack);
  }

  lemma AboveAvoids(g: Controls, rank: map<Location, nat>, stack: seq<Location>, key: Location)
    requires Ranked(g, rank) && key in g && Above(rank, stack, Level(g, rank, key))
    ensures key !in stack
  {
  }

  lemma AboveChild(g: Controls, rank: map<Location, nat>, stack: seq<Location>, key: Location, i: nat)
    requires Ranked(g, rank) && key in g && i < |g[key]| && !g[key][i].RemoteFile?
    requires Above(rank, stack, rank[key])
    ensures Above(rank, stack, Level(g, rank, g[key][i].child))
  {
  }

  lemma WalkedFetched(g: Controls, rank: map<Location, nat>, fetch: RemoteInput -> Acquired,
                      before: Visited, start: Trail, after: Visited, end: Trail,
                      stack: seq<Location>, key: Location, parents: set<RemoteInput>)
    requires Ranked(g, rank)
    requires Walked(g, rank, fetch, before, start, after, end, stack, WalkFile(g, rank, key, parents))
    ensures AllFetched(fetch, Below(g, rank, key))
  {
    hide Ranked, WalkFile, Below;
    WalkFileThrough(g, rank, key, parents, {});
  }

  lemma WalkedRemembered(g: Controls, rank: map<Location, nat>, fetch: RemoteInput -> Acquired,
                         before: Visited, start: Trail, after: Visited, end: Trail, stack: seq<Location>, step: Trail)
    requires Ranked(g, rank) && Walked(g, rank, fetch, before, start, after, end, stack, step)
    ensures Remembered(g, rank, fetch, after, end, stack)
  {
  }

  lemma WalkedStart(g: Controls, rank: map<Location, nat>, fetch: RemoteInput -> Acquired,
                    visited: Visited, trail: Trail, stack: seq<Location>, key: Location, parents: set<RemoteInput>)
    requires Ranked(g, rank) && key in g && Remembered(g, rank, fetch, visited, trail, stack)
    ensures Walked(g, rank, fetch, visited, trail, visited, trail, stack, WalkReferences(g, rank, key, g[key][..0], parents))
  {
    WalkedNothing(g, rank, fetch, visited, trail, stack);
  }

  lemma WalkedAll(g: Controls, rank: map<Location, nat>, fetch: RemoteInput -> Acquired,
                  before: Visited, start: Trail, after: Visited, end: Trail,
                  stack: seq<Location>, key: Location, parents: set<RemoteInput>)
    requires Ranked(g, rank) && key in g
    requires Walked(g, rank, fetch, before, start, after, end, stack, WalkReferences(g, rank, key, g[key], parents))
    ensures Walked(g, rank, fetch, before, start, after, end, stack, WalkFile(g, rank, key, parents))
    ensures AllFetched(fetch, Below(g, rank, key))
  {
    hide Walked, Remembered;
    assert WalkFile(g, rank, key, parents) == WalkReferences(g, rank, key, g[key], parents);
    WalkedFetched(g, rank, fetch, before, start, after, end, stack, key, parents);
  }

  // ---------- control files of any shape ----------

  /** All that closed files refer to has been seen, and every remote seen was fetched. */
  ghost predicate OnTrack(g: Controls, fetch: RemoteInput -> Acquired, visited: Visited, records: Records,
                           open: seq<Location>) {
    Explored(g, visited.Keys, records.Keys, open) && AllFetched(fetch, records.Keys)
  }

  ghost predicate Led(g: Controls, key: Location, visited: Visited, records: Records, after: Visited, more: Records) {
    Grown(g, key, visited.Keys, records.Keys, after.Keys, more.Keys)
  }

  /** Some remote that `key` leads to cannot be fetched. */
  ghost predicate Fails(g: Controls, fetch: RemoteInput -> Acquired, key: Location) {
    exists i :: Meets(g, key, i) && !fetch(i).ok
  }

  ghost predicate Noted(g: Controls, visited: Visited, records: Records, key: Location, n: nat) {
    SeenUpTo(g, visited.Keys, records.Keys, key, n)
  }

  lemma RecordedKeys(before: Records, after: Records, inputs: set<RemoteInput>, parents: set<RemoteInput>)
    requires TrailOf(after) == Both(TrailOf(before), Cross(inputs, parents))
    ensures after.Keys == before.Keys + inputs
  {
    assert TrailOf(after).inputs == after.Keys && TrailOf(before).inputs == before.Keys;
  }

  lemma NothingNew(g: Controls, fetch: RemoteInput -> Acquired, visited: Visited, records: Records,
                   after: Visited, more: Records, open: seq<Location>, key: Location)
    requires OnTrack(g, fetch, visited, records, open) && after.Keys == visited.Keys && more.Keys == records.Keys
    ensures OnTrack(g, fetch, after, more, open) && Led(g, key, visited, records, after, more)
  {
    hide Explored;
  }

  lemma FileOpened(g: Controls, fetch: RemoteInput -> Acquired, visited: Visited, records: Records,
                   open: seq<Location>, key: Location, o: Observation)
    requires OnTrack(g, fetch, visited, records, open) && key in g
    ensures OnTrack(g, fetch, visited[key := o], records, [key] + open)
    ensures Led(g, key, visited, records, visited[key := o], records)
  {
    hide Explored, LeadsTo;
    ExploredOpened(g, visited.Keys, records.Keys, open, key);
    ReachesItself(g, key);
    assert visited[key := o].Keys == visited.Keys + {key};
  }

  lemma FileClosed(g: Controls, fetch: RemoteInput -> Acquired, visited: Visited, records: Records,
                   open: seq<Location>, key: Location)
    requires OnTrack(g, fetch, visited, records, [key] + open) && key in g && Noted(g, visited, records, key, |g[key]|)
    ensures OnTrack(g, fetch, visited, records, open)
  {
    hide Explored, SeenUpTo;
    ExploredClosed(g, visited.Keys, records.Keys, open, key);
  }

  lemma LedOn(g: Controls, key: Location, v0: Visited, r0: Records, v1: Visited, r1: Records, v2: Visited, r2: Records)
    requires Led(g, key, v0, r0, v1, r1) && Led(g, key, v1, r1, v2, r2)
    ensures Led(g, key, v0, r0, v2, r2)
  {
    hide Grown;
    GrownOn(g, key, v0.Keys, r0.Keys, v1.Keys, r1.Keys, v2.Keys, r2.Keys);
  }

  lemma NotedOn(g: Controls, key: Location, v0: Visited, r0: Records, v1: Visited, r1: Records, i: nat)
    requires Noted(g, v0, r0, key, i) && Led(g, key, v0, r0, v1, r1)
    requires i < |g[key]| && Seen(g, v1.Keys, r1.Keys, g[key][i])
    ensures Noted(g, v1, r1, key, i + 1)
  {
    hide LeadsTo, Meets;
    SeenKept(g, v0.Keys, r0.Keys, v1.Keys, r1.Keys, key, i);
  }

  /** A remote named by the file in hand is recorded. */
  lemma RemoteNoted(g: Controls, fetch: RemoteInput -> Acquired, visited: Visited, records: Records,
                    after: Visited, more: Records, open: seq<Location>, key: Location, i: nat)
    requires OnTrack(g, fetch, visited, records, open) && key in g && i < |g[key]| && !g[key][i].Local?
    requires after.Keys == visited.Keys && more.Keys == records.Keys + {g[key][i].input}
    ensures Led(g, key, visited, records, after, more)
    ensures fetch(g[key][i].input).ok ==> OnTrack(g, fetch, after, more, open)
    ensures !fetch(g[key][i].input).ok ==> Fails(g, fetch, key)
  {
    hide Explored, Meets;
    NamedHere(g, key, i);
    ExploredInputs(g, visited.Keys, records.Keys, more.Keys, open);
  }

  lemma ChildLed(g: Controls, fetch: RemoteInput -> Acquired, visited: Visited, records: Records,
                 after: Visited, more: Records, key: Location, i: nat)
    requires key in g && i < |g[key]| && !g[key][i].RemoteFile?
    ensures Led(g, g[key][i].child, visited, records, after, more) ==> Led(g, key, visited, records, after, more)
    ensures Fails(g, fetch, g[key][i].child) ==> Fails(g, fetch, key)
  {
    hide Grown, Meets;
    var child := g[key][i].child;
    if Led(g, child, visited, records, after, more) {
      GrownThrough(g, key, i, visited.Keys, records.Keys, after.Keys, more.Keys);
    }
    if Fails(g, fetch, child) {
      var input :| Meets(g, child, input) && !fetch(input).ok;
      MeetsThrough(g, key, i, input);
    }
  }

  lemma ReferenceKept(g: Controls, visited: Visited, records: Records, key: Location, i: nat)
    requires key in g && i < |g[key]| && g[key][i].RemoteFile? && g[key][i].input in records
    ensures Seen(g, visited.Keys, records.Keys, g[key][i])
  {
  }

  lemma ParentsStay(visited: Visited)
    ensures ParentsKept(visited, visited)
  {
  }

  lemma ParentsKeptOn(a: Visited, b: Visited, c: Visited)
    requires ParentsKept(a, b) && ParentsKept(b, c)
    ensures ParentsKept(a, c)
  {
  }

  /** Among files that do not contain each other, the walk has recorded exactly the first `i` references. */
  ghost predicate SoFar(g: Controls, rank: map<Location, nat>, fetch: RemoteInput -> Acquired, before: Visited, start: Trail,
                        visited: Visited, trail: Trail, stack: seq<Location>, key: Location, i: nat, parents: set<RemoteInput>)
    requires key in g && i <= |g[key]|
  {
    Ranked(g, rank) ==>
      Walked(g, rank, fetch, before, start, visited, trail, stack, WalkReferences(g, rank, key, g[key][..i], parents))
  }

  lemma WalkedSoFar(g: Controls, rank: map<Location, nat>, fetch: RemoteInput -> Acquired, visited: Visited, trail: Trail,
                    stack: seq<Location>, key: Location, parents: set<RemoteInput>)
    requires key in g && (Ranked(g, rank) ==> Remembered(g, rank, fetch, visited, trail, stack))
    ensures SoFar(g, rank, fetch, visited, trail, visited, trail, stack, key, 0, parents)
  {
    hide Walked, Remembered, Ranked;
    if Ranked(g, rank) { WalkedStart(g, rank, fetch, visited, trail, stack, key, parents); }
  }

  lemma RememberedSoFar(g: Controls, rank: map<Location, nat>, fetch: RemoteInput -> Acquired, before: Visited, start: Trail,
                        visited: Visited, trail: Trail, stack: seq<Location>, key: Location, i: nat, parents: set<RemoteInput>)
    requires key in g && i <= |g[key]|
    requires SoFar(g, rank, fetch, before, start, visited, trail, stack, key, i, parents)
    ensures Ranked(g, rank) ==> Remembered(g, rank, fetch, visited, trail, stack)
  {
    hide Walked, Remembered, Ranked;
    if Ranked(g, rank) {
      WalkedRemembered(g, rank, fetch, before, start, visited, trail, stack,
                       WalkReferences(g, rank, key, g[key][..i], parents));
    }
  }

  lemma NotFetchedBelow(g: Controls, rank: map<Location, nat>, fetch: RemoteInput -> Acquired, key: Location, i: nat,
                        parents: set<RemoteInput>)
    requires Ranked(g, rank) && key in g && i < |g[key]|
    requires !AllFetched(fetch, WalkReference(g, rank, key, i, parents).inputs)
    ensures !AllFetched(fetch, Below(g, rank, key))
  {
    hide Ranked, WalkFile, Below;
    WalkOneMore(g, rank, key, i, parents);
    WalkFileThrough(g, rank, key, parents, {});
  }

  lemma OneMoreReference(g: Controls, rank: map<Location, nat>, fetch: RemoteInput -> Acquired, before: Visited, start: Trail,
                         between: Visited, middle: Trail, after: Visited, end: Trail, stack: seq<Location>, key: Location,
                         i: nat, parents: set<RemoteInput>)
    requires key in g && i < |g[key]|
    requires SoFar(g, rank, fetch, before, start, between, middle, stack, key, i, parents)
    requires Ranked(g, rank) ==>
               Walked(g, rank, fetch, between, middle, after, end, stack, WalkReference(g, rank, key, i, parents))
    ensures SoFar(g, rank, fetch, before, start, after, end, stack, key, i + 1, parents)
  {
    hide Walked, Ranked, WalkReferences, WalkReference;
    if Ranked(g, rank) {
      WalkOneMore(g, rank, key, i, parents);
      WalkedOn(g, rank, fetch, before, start, between, middle, after, end, stack,
               WalkReferences(g, rank, key, g[key][..i], parents), WalkReference(g, rank, key, i, parents));
    }
  }

  lemma AllReferences(g: Controls, rank: map<Location, nat>, fetch: RemoteInput -> Acquired, before: Visited, start: Trail,
                      visited: Visited, trail: Trail, stack: seq<Location>, key: Location, parents: set<RemoteInput>)
    requires key in g && SoFar(g, rank, fetch, before, start, visited, trail, stack, key, |g[key]|, parents)
    ensures Ranked(g, rank) ==>
              && AllFetched(fetch, Below(g, rank, key))
              && Walked(g, rank, fetch, before, start, visited, trail, stack, WalkFile(g, rank, key, parents))
  {
    hide Walked, Ranked, WalkReferences, WalkFile, Below, AllFetched;
    assert g[key][..|g[key]|] == g[key];
    if Ranked(g, rank) { WalkedAll(g, rank, fetch, before, start, visited, trail, stack, key, parents); }
  }

  /** The loop over the references of `key` has gone through the first `i`. */
  ghost predicate Underway(g: Controls, rank: map<Location, nat>, fetch: RemoteInput -> Acquired, before: Visited,
                           start: Records, visited: Visited, records: Records, stack: seq<Location>, key: Location, i: nat,
                           parents: set<RemoteInput>)
    requires key in g && i <= |g[key]|
  {
    && WayBack(visited, Some(key), stack) && ParentsKept(before, visited)
    && OnTrack(g, fetch, visited, records, stack) && Noted(g, visited, records, key, i)
    && Led(g, key, before, start, visited, records)
    && SoFar(g, rank, fetch, before, TrailOf(start), visited, TrailOf(records), stack, key, i, parents)
  }

  lemma Begun(g: Controls, rank: map<Location, nat>, fetch: RemoteInput -> Acquired, visited: Visited, records: Records,
              stack: seq<Location>, key: Location, parents: set<RemoteInput>)
    requires key in g && WayBack(visited, Some(key), stack) && OnTrack(g, fetch, visited, records, stack)
    requires Ranked(g, rank) ==> Remembered(g, rank, fetch, visited, TrailOf(records), stack)
    ensures Underway(g, rank, fetch, visited, records, visited, records, stack, key, 0, parents)
  {
    hide WayBack, ParentsKept, OnTrack, Noted, Led, SoFar, Ranked, Remembered, TrailOf;
    NotedNothing(g, fetch, visited, records, stack, key);
    ParentsStay(visited);
    WalkedSoFar(g, rank, fetch, visited, TrailOf(records), stack, key, parents);
  }

  /** What the next reference asks for. */
  lemma Ready(g: Controls, rank: map<Location, nat>, fetch: RemoteInput -> Acquired, before: Visited, start: Records,
              visited: Visited, records: Records, stack: seq<Location>, key: Location, i: nat, parents: set<RemoteInput>)
    requires key in g && i <= |g[key]|
    requires Underway(g, rank, fetch, before, start, visited, records, stack, key, i, parents)
    ensures WayBack(visited, Some(key), stack) && OnTrack(g, fetch, visited, records, stack)
    ensures Led(g, key, before, start, visited, records) && ParentsKept(before, visited)
    ensures |g.Keys - visited.Keys| <= |g.Keys - before.Keys|
    ensures Ranked(g, rank) ==> Remembered(g, rank, fetch, visited, TrailOf(records), stack)
  {
    hide WayBack, ParentsKept, OnTrack, Noted, Led, SoFar, Ranked, Remembered, TrailOf;
    MoreVisited(g, before, visited);
    RememberedSoFar(g, rank, fetch, before, TrailOf(start), visited, TrailOf(records), stack, key, i, parents);
  }

  lemma Later(g: Controls, before: Visited, start: Records, between: Visited, known: Records, after: Visited,
              records: Records, key: Location)
    requires Led(g, key, before, start, between, known) && Led(g, key, between, known, after, records)
    requires ParentsKept(before, between) && ParentsKept(between, after)
    ensures Led(g, key, before, start, after, records) && ParentsKept(before, after)
  {
    hide Led;
    LedOn(g, key, before, start, between, known, after, records);
  }

  lemma Advanced(g: Controls, rank: map<Location, nat>, fetch: RemoteInput -> Acquired, before: Visited, start: Records,
                 between: Visited, known: Records, after: Visited, records: Records, stack: seq<Location>, key: Location,
                 i: nat, parents: set<RemoteInput>)
    requires key in g && i < |g[key]|
    requires Underway(g, rank, fetch, before, start, between, known, stack, key, i, parents)
    requires ParentsKept(before, after) && ParentsKept(between, after) && OnTrack(g, fetch, after, records, stack)
    requires Led(g, key, before, start, after, records) && Led(g, key, between, known, after, records)
    requires Seen(g, after.Keys, records.Keys, g[key][i])
    requires Ranked(g, rank) ==>
               Walked(g, rank, fetch, between, TrailOf(known), after, TrailOf(records), stack,
                      WalkReference(g, rank, key, i, parents))
    ensures Underway(g, rank, fetch, before, start, after, records, stack, key, i + 1, parents)
  {
    hide WayBack, ParentsKept, OnTrack, Noted, Led, SoFar, Ranked, Walked, TrailOf, WalkReference, Seen;
    NotedOn(g, key, between, known, after, records, i);
    WayBackKept(between, after, Some(key), stack);
    OneMoreReference(g, rank, fetch, before, TrailOf(start), between, TrailOf(known), after, TrailOf(records), stack,
                     key, i, parents);
  }

  lemma Finished(g: Controls, rank: map<Location, nat>, fetch: RemoteInput -> Acquired, before: Visited, start: Records,
                 visited: Visited, records: Records, stack: seq<Location>, key: Location, parents: set<RemoteInput>)
    requires key in g && Underway(g, rank, fetch, before, start, visited, records, stack, key, |g[key]|, parents)
    ensures ParentsKept(before, visited) && Led(g, key, before, start, visited, records)
    ensures OnTrack(g, fetch, visited, records, stack) && Noted(g, visited, records, key, |g[key]|)
    ensures Ranked(g, rank) ==>
              && AllFetched(fetch, Below(g, rank, key))
              && Walked(g, rank, fetch, before, TrailOf(start), visited, TrailOf(records), stack,
                        WalkFile(g, rank, key, parents))
  {
    hide WayBack, ParentsKept, OnTrack, Noted, Led, SoFar, Ranked, Walked, TrailOf, WalkFile, Below, AllFetched;
    AllReferences(g, rank, fetch, before, TrailOf(start), visited, TrailOf(records), stack, key, parents);
  }

  lemma NotedNothing(g: Controls, fetch: RemoteInput -> Acquired, visited: Visited, records: Records,
                     open: seq<Location>, key: Location)
    requires OnTrack(g, fetch, visited, records, open) && key in g
    ensures Noted(g, visited, records, key, 0) && Led(g, key, visited, records, visited, records)
  {
    NothingNew(g, fetch, visited, records, visited, records, open, key);
  }

  lemma ReferenceNoted(g: Controls, visited: Visited, records: Records, after: Visited, more: Records, key: Location, i: nat)
    requires key in g && i < |g[key]| && Led(g, key, visited, records, after, more)
    requires !g[key][i].Local? ==> g[key][i].input in records
    requires !g[key][i].RemoteFile? && g[key][i].child in g ==> g[key][i].child in after
    ensures Seen(g, after.Keys, more.Keys, g[key][i])
  {
    hide LeadsTo, Meets;
  }

  class InputWalk {
    const controls: Controls
    const fetch: RemoteInput -> Acquired
    var visited: Visited
    var records: Records
    var bases: set<RemoteInput>
    /** Every mount of a remote base, in order. */
    var mounts: seq<RemoteInput>

    ghost predicate Valid()
      reads this
    {
      Sane(controls, fetch, visited, records, bases, mounts)
    }

    constructor (controls: Controls, fetch: RemoteInput -> Acquired)
      ensures Valid() && this.controls == controls && this.fetch == fetch
      ensures visited == map[] && records == map[]
    {
      this.controls, this.fetch := controls, fetch;
      visited, records, bases, mounts := map[], map[], {}, [];
    }

    /** Credits a remote to every file on the way back; the loop up the parents ends. */
    method RecordRemote(input: RemoteInput, identity: RemoteIdentity, parents: set<RemoteInput>,
                        at: Option<Location>, ghost stack: seq<Location>)
      requires Valid() && WayBack(visited, at, stack) && identity == fetch(input).identity
      modifies this`visited, this`records
      ensures Valid() && visited.Keys == old(visited.Keys) && old(records).Keys <= records.Keys
      ensures Gained(old(visited), visited, stack, {input})
      ensures TrailOf(records) == Both(TrailOf(old(records)), Cross({input}, parents))
    {
      hide Sane, Gained, TrailOf, WayBack, Cross;
      var known := if input in records then records[input].parents else {};
      Recorded(controls, fetch, visited, records, bases, mounts, input, parents);
      records := records[input := RemoteRecord(identity, known + (parents - {input}))];
      ghost var recorded := records;
      var key := at;
      ghost var rest := stack;
      NoRemotes(visited, TrailOf(records), stack, parents);
      AtFirst(visited, stack, input);
      while key.Some?
        invariant records == recorded && bases == old(bases) && mounts == old(mounts)
        invariant |rest| <= |stack| && rest == stack[|stack| - |rest|..]
        invariant WayBack(visited, key, rest)
        invariant visited.Keys == old(visited.Keys)
        invariant Gained(old(visited), visited, stack[..|stack| - |rest|], {input})
        invariant Valid()
        decreases |rest|
      {
        OneStepBack(visited, key, rest);
        Credited(controls, fetch, old(visited), visited, records, bases, mounts, key, stack, rest, input);
        var o := visited[key.value];
        visited := visited[key.value := Observation(o.remotes + {input}, o.parent)];
        key, rest := o.parent, rest[1..];
      }
      WayBackEnds(visited, rest);
      assert stack[..|stack|] == stack;
    }

    lemma KnownIdentity(input: RemoteInput)
      requires Valid() && input in records
      ensures records[input].identity == fetch(input).identity
    {
    }

    lemma EndOfWalk()
      requires Valid()
      ensures Distinct(mounts) && forall i | i in records :: records[i].identity == fetch(i).identity
    {
    }

    method ReuseOne(input: RemoteInput, parents: set<RemoteInput>, at: Option<Location>, ghost stack: seq<Location>,
                    ghost first: Visited, ghost start: Trail, ghost done: set<RemoteInput>)
      requires Valid() && WayBack(visited, at, stack) && input in records
      requires Gained(first, visited, stack, done) && TrailOf(records) == Both(start, Cross(done, parents))
      modifies this`visited, this`records
      ensures Valid() && WayBack(visited, at, stack) && visited.Keys == old(visited.Keys)
      ensures old(records).Keys <= records.Keys
      ensures Gained(first, visited, stack, done + {input})
      ensures TrailOf(records) == Both(start, Cross(done + {input}, parents))
    {
      hide *;
      KnownIdentity(input);
      RecordRemote(input, records[input].identity, parents, at, stack);
      GainedKeeps(old(visited), visited, stack, {input});
      WayBackKept(old(visited), visited, at, stack);
      OneMoreRemote(first, old(visited), visited, start, stack, done, input, parents);
    }

    /** Records again, under the present parents, every remote a file has been found to lead to. */
    method Reuse(prior: Observation, parents: set<RemoteInput>, at: Option<Location>, ghost stack: seq<Location>)
      requires Valid() && WayBack(visited, at, stack) && prior.remotes <= records.Keys
      modifies this`visited, this`records
      ensures Valid() && visited.Keys == old(visited.Keys)
      ensures Gained(old(visited), visited, stack, prior.remotes)
      ensures TrailOf(records) == Both(TrailOf(old(records)), Cross(prior.remotes, parents))
    {
      hide *;
      var left := prior.remotes;
      ghost var done: set<RemoteInput> := {};
      NoRemotes(old(visited), TrailOf(old(records)), stack, parents);
      while left != {}
        invariant done + left == prior.remotes && left <= records.Keys
        invariant Valid() && WayBack(visited, at, stack) && visited.Keys == old(visited.Keys)
        invariant Gained(old(visited), visited, stack, done)
        invariant TrailOf(records) == Both(TrailOf(old(records)), Cross(done, parents))
        decreases |left|
      {
        var input :| input in left;
        ReuseOne(input, parents, at, stack, old(visited), TrailOf(old(records)), done);
        left := left - {input};
        done := done + {input};
      }
      assert done == prior.remotes;
    }

    method Acquire(input: RemoteInput, parents: set<RemoteInput>, at: Option<Location>, ghost stack: seq<Location>)
      returns (ok: bool)
      requires Valid() && WayBack(visited, at, stack)
      modifies this`visited, this`records
      ensures ok == fetch(input).ok
      ensures Valid() && visited.Keys == old(visited.Keys)
      ensures Gained(old(visited), visited, stack, {input})
      ensures TrailOf(records) == Both(TrailOf(old(records)), Cross({input}, parents))
    {
      var acquired := fetch(input);
      RecordRemote(input, acquired.identity, parents, at, stack);
      ok := acquired.ok;
    }

    /** Mounts a remote base the first time only; each time it is recorded under the present parents. */
    method FetchGitBase(input: RemoteInput, parents: set<RemoteInput>, at: Option<Location>, ghost stack: seq<Location>)
      returns (ok: bool)
      requires Valid() && WayBack(visited, at, stack)
      modifies this
      ensures ok == fetch(input).ok
      ensures Valid() && visited.Keys == old(visited.Keys)
      ensures mounts == old(mounts) + (if ok && input !in old(bases) then [input] else [])
      ensures Gained(old(visited), visited, stack, {input})
      ensures TrailOf(records) == Both(TrailOf(old(records)), Cross({input}, parents))
    {
      if input in bases {
        RecordRemote(input, records[input].identity, parents, at, stack);
        return true;
      }
      ok := Acquire(input, parents, at, stack);
      if ok {
        TrailKeys(records);
        bases, mounts := bases + {input}, mounts + [input];
      }
    }

    method Directory(key: Location, parents: set<RemoteInput>, at: Option<Location>,
                     ghost stack: seq<Location>, ghost rank: map<Location, nat>)
      returns (ok: bool)
      requires Valid() && WayBack(visited, at, stack)
      requires Ranked(controls, rank) ==>
                 && Remembered(controls, rank, fetch, visited, TrailOf(records), stack)
                 && Above(rank, stack, Level(controls, rank, key))
      requires OnTrack(controls, fetch, visited, records, stack)
      modifies this
      ensures Valid() && ParentsKept(old(visited), visited)
      ensures Led(controls, key, old(visited), old(records), visited, records)
      ensures ok ==> OnTrack(controls, fetch, visited, records, stack) && (key in controls ==> key in visited)
      ensures !ok ==> Fails(controls, fetch, key)
      ensures Ranked(controls, rank) ==>
                && ok == AllFetched(fetch, Below(controls, rank, key))
                && (ok ==> Walked(controls, rank, fetch, old(visited), TrailOf(old(records)), visited, TrailOf(records),
                                  stack, WalkFile(controls, rank, key, parents)))
      decreases |controls.Keys - visited.Keys|, 0
    {
      hide Walked, Remembered, Gained, TrailOf, WalkFile, Below, Cross, Sane, WayBack, Ranked, Above, Both,
           OnTrack, Led, Noted, Fails;
      if key !in controls {
        NothingNew(controls, fetch, visited, records, visited, records, stack, key);
        if Ranked(controls, rank) {
          NoFile(controls, rank, fetch, visited, TrailOf(records), stack, key, parents);
        }
        return true;
      }
      if key in visited {
        SaneRemotes(controls, fetch, visited, records, bases, mounts, key);
        Reuse(visited[key], parents, at, stack);
        RecordedKeys(old(records), records, old(visited)[key].remotes, parents);
        NothingNew(controls, fetch, old(visited), old(records), visited, records, stack, key);
        if Ranked(controls, rank) {
          AboveAvoids(controls, rank, stack, key);
          WalkedAgain(controls, rank, fetch, old(visited), TrailOf(old(records)), visited, TrailOf(records),
                      stack, key, parents);
          WalkedFetched(controls, rank, fetch, old(visited), TrailOf(old(records)), visited, TrailOf(records),
                        stack, key, parents);
        }
        GainedKeeps(old(visited), visited, stack, old(visited)[key].remotes);
        return true;
      }
      FirstVisit(controls, fetch, visited, records, bases, mounts, at, stack, key);
      if Ranked(controls, rank) {
        Entered(controls, rank, fetch, visited, TrailOf(records), at, stack, key);
      }
      FileOpened(controls, fetch, visited, records, stack, key, Observation({}, at));
      visited := visited[key := Observation({}, at)];
      ghost var entered := visited;
      ok := References(key, parents, [key] + stack, rank);
      LedOn(controls, key, old(visited), old(records), entered, old(records), visited, records);
      if ok {
        FileClosed(controls, fetch, visited, records, stack, key);
      }
      if Ranked(controls, rank) && ok {
        Left(controls, rank, fetch, old(visited), TrailOf(old(records)), visited, TrailOf(records), at, stack, key, parents);
      }
    }

    method References(key: Location, parents: set<RemoteInput>, ghost stack: seq<Location>,
                      ghost rank: map<Location, nat>)
      returns (ok: bool)
      requires Valid() && key in controls && WayBack(visited, Some(key), stack)
      requires Ranked(controls, rank) ==>
                 && Remembered(controls, rank, fetch, visited, TrailOf(records), stack)
                 && Above(rank, stack, rank[key])
      requires OnTrack(controls, fetch, visited, records, stack)
      modifies this
      ensures Valid() && ParentsKept(old(visited), visited)
      ensures Led(controls, key, old(visited), old(records), visited, records)
      ensures ok ==> OnTrack(controls, fetch, visited, records, stack) && Noted(controls, visited, records, key, |controls[key]|)
      ensures !ok ==> Fails(controls, fetch, key)
      ensures Ranked(controls, rank) ==>
                && ok == AllFetched(fetch, Below(controls, rank, key))
                && (ok ==> Walked(controls, rank, fetch, old(visited), TrailOf(old(records)), visited, TrailOf(records),
                                  stack, WalkFile(controls, rank, key, parents)))
      decreases |controls.Keys - visited.Keys|, 3
    {
      hide *;
      ok := true;
      var i := 0;
      ghost var origin, start := visited, records;
      Begun(controls, rank, fetch, visited, start, stack, key, parents);
      while i < |controls[key]|
        invariant 0 <= i <= |controls[key]| && ok && Valid()
        invariant Underway(controls, rank, fetch, origin, start, visited, records, stack, key, i, parents)
      {
        Ready(controls, rank, fetch, origin, start, visited, records, stack, key, i, parents);
        ok := NextReference(key, i, parents, stack, rank, origin, start);
        if !ok {
          return;
        }
        i := i + 1;
      }
      Finished(controls, rank, fetch, origin, start, visited, records, stack, key, parents);
    }

    /** One turn of the loop over the references. */
    method NextReference(key: Location, i: nat, parents: set<RemoteInput>, ghost stack: seq<Location>,
                         ghost rank: map<Location, nat>, ghost origin: Visited, ghost start: Records)
      returns (ok: bool)
      requires Valid() && key in controls && i < |controls[key]|
      requires Underway(controls, rank, fetch, origin, start, visited, records, stack, key, i, parents)
      requires Ranked(controls, rank) ==> Above(rank, stack, rank[key])
      modifies this
      ensures Valid() && ParentsKept(origin, visited) && Led(controls, key, origin, start, visited, records)
      ensures ok ==> Underway(controls, rank, fetch, origin, start, visited, records, stack, key, i + 1, parents)
      ensures !ok ==> Fails(controls, fetch, key)
      ensures !ok && Ranked(controls, rank) ==> !AllFetched(fetch, Below(controls, rank, key))
      decreases |controls.Keys - visited.Keys|, 2
    {
      hide *;
      ghost var before, known := visited, records;
      Ready(controls, rank, fetch, origin, start, visited, records, stack, key, i, parents);
      ok := ResourceOperand(key, i, parents, stack, rank);
      Later(controls, origin, start, before, known, visited, records, key);
      if ok {
        Advanced(controls, rank, fetch, origin, start, before, known, visited, records, stack, key, i, parents);
      } else if Ranked(controls, rank) {
        NotFetchedBelow(controls, rank, fetch, key, i, parents);
      }
    }

    method ResourceOperand(key: Location, i: nat, parents: set<RemoteInput>, ghost stack: seq<Location>,
                           ghost rank: map<Location, nat>)
      returns (ok: bool)
      requires Valid() && key in controls && i < |controls[key]| && WayBack(visited, Some(key), stack)
      requires Ranked(controls, rank) ==>
                 && Remembered(controls, rank, fetch, visited, TrailOf(records), stack)
                 && Above(rank, stack, rank[key])
      requires OnTrack(controls, fetch, visited, records, stack)
      modifies this
      ensures Valid() && ParentsKept(old(visited), visited)
      ensures Led(controls, key, old(visited), old(records), visited, records)
      ensures ok ==> OnTrack(controls, fetch, visited, records, stack)
      ensures ok ==> Seen(controls, visited.Keys, records.Keys, controls[key][i])
      ensures !ok ==> Fails(controls, fetch, key)
      ensures Ranked(controls, rank) ==>
                && ok == AllFetched(fetch, WalkReference(controls, rank, key, i, parents).inputs)
                && (ok ==> Walked(controls, rank, fetch, old(visited), TrailOf(old(records)), visited, TrailOf(records),
                                  stack, WalkReference(controls, rank, key, i, parents)))
      decreases |controls.Keys - visited.Keys|, 1
    {
      hide *;
      if Ranked(controls, rank) {
        BaseFetched(controls, rank, fetch, key, i, parents);
        if !controls[key][i].RemoteFile? {
          AboveChild(controls, rank, stack, key, i);
        }
      }
      match controls[key][i]
      case Local(child) =>
        ok := Directory(child, parents, Some(key), stack, rank);
        ChildLed(controls, fetch, old(visited), old(records), visited, records, key, i);
        if ok {
          ReferenceNoted(controls, old(visited), old(records), visited, records, key, i);
        }
      case RemoteFile(input) =>
        ok := Acquire(input, parents, Some(key), stack);
        GainedKeeps(old(visited), visited, stack, {input});
        RecordedKeys(old(records), records, {input}, parents);
        RemoteNoted(controls, fetch, old(visited), old(records), visited, records, stack, key, i);
        ReferenceKept(controls, visited, records, key, i);
        if Ranked(controls, rank) && ok {
          WalkedRemote(controls, rank, fetch, old(visited), TrailOf(old(records)), visited, TrailOf(records), stack,
                       input, parents);
        }
      case RemoteBase(input, child) =>
        ok := FetchGitBase(input, parents, Some(key), stack);
        GainedKeeps(old(visited), visited, stack, {input});
        RecordedKeys(old(records), records, {input}, parents);
        RemoteNoted(controls, fetch, old(visited), old(records), visited, records, stack, key, i);
        if !ok {
          return;
        }
        ghost var between, middle, known := visited, TrailOf(records), records;
        WayBackKept(old(visited), visited, Some(key), stack);
        MoreVisited(controls, old(visited), visited);
        if Ranked(controls, rank) {
          WalkedRemote(controls, rank, fetch, old(visited), TrailOf(old(records)), visited, middle, stack,
                       input, parents);
        }
        ok := Directory(child, parents + {input}, Some(key), stack, rank);
        ChildLed(controls, fetch, between, known, visited, records, key, i);
        if ok {
          ReferenceNoted(controls, between, known, visited, records, key, i);
        }
        LedOn(controls, key, old(visited), old(records), between, known, visited, records);
        ParentsKeptOn(old(visited), between, visited);
        if Ranked(controls, rank) && ok {
          WalkedOn(controls, rank, fetch, old(visited), TrailOf(old(records)), between, middle, visited, TrailOf(records),
                   stack, Cross({input}, parents), WalkFile(controls, rank, child, parents + {input}));
        }
    }
  }

  /** The whole walk from a root. It succeeds exactly when every remote the root leads to can be fetched;
      then it has come to every file and remote the root leads to and no others, each with its identity,
      and mounted each base once. Among control files that do not contain each other what it recorded is
      also, parents included, what the walk without memory meets, and every file it came to holds every
      remote below that file. */
  method PreflightRemoteResources(controls: Controls, fetch: RemoteInput -> Acquired, root: Location,
                                  ghost rank: map<Location, nat>)
    returns (ok: bool, walk: InputWalk)
    ensures fresh(walk) && Distinct(walk.mounts)
    ensures ok <==> forall i | Meets(controls, root, i) :: fetch(i).ok
    ensures ok ==>
              && (forall i :: i in walk.records <==> Meets(controls, root, i))
              && (forall k :: k in walk.visited <==> LeadsTo(controls, root, k))
    ensures forall i | i in walk.records :: walk.records[i].identity == fetch(i).identity
    ensures Ranked(controls, rank) ==> ok == AllFetched(fetch, Below(controls, rank, root))
    ensures Ranked(controls, rank) && ok ==>
              && TrailOf(walk.records) == WalkFile(controls, rank, root, {})
              && (forall i, p | i in walk.records :: p in walk.records[i].parents <==> i != p && Through(controls, root, i, p))
              && (forall k | k in walk.visited :: walk.visited[k].remotes == Below(controls, rank, k))
  {
    hide *;
    walk := new InputWalk(controls, fetch);
    WalkBegins(controls, fetch, rank, root);
    ok := walk.Directory(root, {}, None, [], rank);
    walk.EndOfWalk();
    if ok {
      WalkEnds(controls, fetch, root, walk.visited, walk.records);
      if Ranked(controls, rank) {
        RankedWalkEnds(controls, rank, fetch, walk.visited, walk.records, root);
      }
    } else {
      NotAllFetched(controls, fetch, root);
    }
  }

  lemma WalkBegins(g: Controls, fetch: RemoteInput -> Acquired, rank: map<Location, nat>, root: Location)
    ensures OnTrack(g, fetch, map[], map[], []) && WayBack(map[], None, []) && TrailOf(map[]) == NOTHING
    ensures Ranked(g, rank) ==> Remembered(g, rank, fetch, map[], TrailOf(map[]), []) && Above(rank, [], Level(g, rank, root))
  {
    hide Ranked;
    var nothing: Records := map[];
    assert TrailOf(nothing) == NOTHING;
  }

  lemma NotAllFetched(g: Controls, fetch: RemoteInput -> Acquired, root: Location)
    requires Fails(g, fetch, root)
    ensures exists i :: Meets(g, root, i) && !fetch(i).ok
  {
  }

  lemma ParentsAreEdges(records: Records)
    ensures forall i, p | i in records :: p in records[i].parents <==> Edge(i, p) in TrailOf(records).edges
  {
  }

  lemma RankedWalkEnds(g: Controls, rank: map<Location, nat>, fetch: RemoteInput -> Acquired,
                       visited: Visited, records: Records, root: Location)
    requires Ranked(g, rank) && Walked(g, rank, fetch, map[], NOTHING, visited, TrailOf(records), [], WalkFile(g, rank, root, {}))
    ensures TrailOf(records) == WalkFile(g, rank, root, {})
    ensures forall k | k in visited :: visited[k].remotes == Below(g, rank, k)
    ensures forall i, p | i in records :: p in records[i].parents <==> i != p && Through(g, root, i, p)
  {
    ParentsAreEdges(records);
    forall i, p ensures Edge(i, p) in WalkFile(g, rank, root, {}).edges <==> i != p && Through(g, root, i, p) {
      WalkIsWays(g, rank, root, i, p);
    }
    hide Ranked, WalkFile, Below, TrailOf, Remembered, Through;
    assert Both(NOTHING, WalkFile(g, rank, root, {})) == WalkFile(g, rank, root, {});
    AllDone(g, rank, fetch, visited, TrailOf(records));
  }

  lemma WalkEnds(g: Controls, fetch: RemoteInput -> Acquired, root: Location, visited: Visited, records: Records)
    requires OnTrack(g, fetch, visited, records, []) && Led(g, root, map[], map[], visited, records)
    requires root in g ==> root in visited
    ensures forall i :: i in records <==> Meets(g, root, i)
    ensures forall k :: k in visited <==> LeadsTo(g, root, k)
    ensures forall i | Meets(g, root, i) :: fetch(i).ok
  {
    hide LeadsTo, Meets, Explored;
    var none: Visited, nothing: Records := map[], map[];
    assert none.Keys == {} && nothing.Keys == {};
    AllExplored(g, root, visited.Keys, records.Keys);
  }

  lemma AllDone(g: Controls, rank: map<Location, nat>, fetch: RemoteInput -> Acquired, visited: Visited, trail: Trail)
    requires Ranked(g, rank) && Remembered(g, rank, fetch, visited, trail, [])
    ensures forall k | k in visited :: visited[k].remotes == Below(g, rank, k)
  {
    hide Ranked, WalkFile, Below;
    forall k | k in visited
      ensures visited[k].remotes == Below(g, rank, k)
    {
      assert k !in [];
      assert Done(g, rank, fetch, visited[k], trail, k);
    }
  }
}
