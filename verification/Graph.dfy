/** Finite directed graphs over the indices 0..n: counting, chains, cycles and layers. */
module Graph {
  ghost predicate Distinct<T>(s: seq<T>) {
    forall i, j | 0 <= i < j < |s| :: s[i] != s[j]
  }

  ghost predicate Within(s: seq<nat>, n: nat) {
    forall i | 0 <= i < |s| :: s[i] < n
  }

  ghost function Range(n: nat): (r: set<nat>)
    ensures forall i: nat :: i in r <==> i < n
    ensures |r| == n
  {
    if n == 0 then {} else Range(n - 1) + {n - 1}
  }

  ghost function Elements<T>(s: seq<T>): (r: set<T>) {
    set x | x in s
  }

  lemma {:induction false} DistinctCount<T>(s: seq<T>)
    requires Distinct(s)
    ensures |Elements(s)| == |s|
  {
    if s == [] {
      assert Elements(s) == {};
    } else {
      var t := s[..|s| - 1];
      DistinctCount(t);
      assert s == t + [s[|s| - 1]];
      assert Elements(s) == Elements(t) + {s[|s| - 1]};
    }
  }

  /** A duplicate-free list of indices has at most n entries, and all indices when it has n. */
  lemma Pigeonhole(s: seq<nat>, n: nat)
    requires Distinct(s) && Within(s, n)
    ensures |s| <= n
    ensures |s| == n <==> forall i | 0 <= i < n :: i in s
  {
    DistinctCount(s);
    var r := Range(n);
    assert Elements(s) <= r;
    SubsetCount(Elements(s), r);
    if |s| == n {
      forall i | 0 <= i < n ensures i in s { assert i in r; }
    } else if forall i | 0 <= i < n :: i in s {
      assert r <= Elements(s);
      SubsetCount(r, Elements(s));
    }
  }

  lemma SubsetCount<T>(a: set<T>, b: set<T>)
    requires a <= b
    ensures |a| <= |b|
    ensures |a| == |b| ==> a == b
  {
    assert b == a + (b - a);
  }

  // ---------- chains and cycles ----------

  type Edge = (nat, nat) -> bool

  /** A nonempty list of indices, each with an edge to the next. */
  ghost predicate Chain(n: nat, edge: Edge, path: seq<nat>) {
    && path != [] && Within(path, n)
    && forall k | 0 < k < |path| :: edge(path[k - 1], path[k])
  }

  ghost predicate Closed(path: seq<nat>) {
    |path| > 1 && path[0] == path[|path| - 1]
  }

  ghost predicate Cyclic(n: nat, edge: Edge) {
    exists path :: Chain(n, edge, path) && Closed(path)
  }

  lemma SameCycles(n: nat, e: Edge, f: Edge)
    requires forall p: nat, c: nat | p < n && c < n :: e(p, c) == f(p, c)
    ensures Cyclic(n, e) == Cyclic(n, f)
  {
    if Cyclic(n, e) {
      var path :| Chain(n, e, path) && Closed(path);
      assert Chain(n, f, path);
    }
    if Cyclic(n, f) {
      var path :| Chain(n, f, path) && Closed(path);
      assert Chain(n, e, path);
    }
  }

  ghost predicate Fed(u: set<nat>, edge: Edge, c: nat) {
    exists p :: p in u && edge(p, c)
  }

  lemma Feeder(u: set<nat>, edge: Edge, c: nat) returns (p: nat)
    requires Fed(u, edge, c)
    ensures p in u && edge(p, c)
  {
    p :| p in u && edge(p, c);
  }

  /** Where every member of a nonempty set has a predecessor in it, a cycle can be walked. */
  lemma NoSourceMeansCyclic(n: nat, edge: Edge, u: set<nat>)
    requires u != {} && (forall c | c in u :: c < n)
    requires forall c | c in u :: Fed(u, edge, c)
    ensures Cyclic(n, edge)
  {
    hide Fed;
    var path := WalkBack(n, edge, u, n + 1);
    if Distinct(path) {
      Pigeonhole(path, n);
    }
    var i, j :| 0 <= i < j < |path| && path[i] == path[j];
    var loop := path[i..j + 1];
    assert Closed(loop);
    forall k | 0 < k < |loop| ensures edge(loop[k - 1], loop[k]) {
      assert loop[k] == path[i + k] && loop[k - 1] == path[i + k - 1];
    }
    assert Chain(n, edge, loop);
  }

  lemma {:induction false} WalkBack(n: nat, edge: Edge, u: set<nat>, length: nat) returns (path: seq<nat>)
    requires u != {} && (forall c | c in u :: c < n) && length > 0
    requires forall c | c in u :: Fed(u, edge, c)
    ensures Chain(n, edge, path) && |path| == length && path[0] in u
  {
    hide Fed;
    if length == 1 {
      var c :| c in u;
      path := [c];
    } else {
      var rest := WalkBack(n, edge, u, length - 1);
      var p := Feeder(u, edge, rest[0]);
      path := [p] + rest;
    }
  }

  // ---------- layers ----------

  ghost predicate JustAbove(n: nat, edge: Edge, level: seq<nat>, c: nat)
    requires |level| == n && c < n
  {
    exists p: nat :: p < n && edge(p, c) && level[p] + 1 == level[c]
  }

  /** Along every edge the level goes up, and every level above 0 is reached from the one below. */
  ghost predicate Levels(n: nat, edge: Edge, level: seq<nat>) {
    && |level| == n
    && (forall p: nat, c: nat | p < n && c < n && edge(p, c) :: level[p] < level[c])
    && (forall c: nat | c < n && level[c] > 0 :: JustAbove(n, edge, level, c))
  }

  lemma {:induction false} LevelBoundsChain(n: nat, edge: Edge, level: seq<nat>, path: seq<nat>)
    requires Levels(n, edge, level) && Chain(n, edge, path)
    ensures level[path[0]] + |path| - 1 <= level[path[|path| - 1]]
  {
    if |path| > 1 {
      var t := path[..|path| - 1];
      assert Chain(n, edge, t);
      LevelBoundsChain(n, edge, level, t);
      assert edge(path[|path| - 2], path[|path| - 1]);
    }
  }

  lemma OneBelow(n: nat, edge: Edge, level: seq<nat>, c: nat) returns (p: nat)
    requires |level| == n && c < n && JustAbove(n, edge, level, c)
    ensures p < n && edge(p, c) && level[p] + 1 == level[c]
  {
    p :| p < n && edge(p, c) && level[p] + 1 == level[c];
  }

  /** The level of an index is the length of its longest chain: one that long exists, none is longer. */
  lemma {:induction false} LevelIsLongestChain(n: nat, edge: Edge, level: seq<nat>, c: nat)
    requires Levels(n, edge, level) && c < n
    ensures exists path :: Chain(n, edge, path) && path[|path| - 1] == c && |path| == level[c] + 1
    ensures forall path | Chain(n, edge, path) && path[|path| - 1] == c :: |path| <= level[c] + 1
    decreases level[c]
  {
    hide JustAbove;
    if level[c] == 0 {
      assert Chain(n, edge, [c]);
    } else {
      var p := OneBelow(n, edge, level, c);
      LevelIsLongestChain(n, edge, level, p);
      var path :| Chain(n, edge, path) && path[|path| - 1] == p && |path| == level[p] + 1;
      var longer := path + [c];
      forall k | 0 < k < |longer| ensures edge(longer[k - 1], longer[k]) {}
      assert Chain(n, edge, longer) && longer[|longer| - 1] == c;
    }
    forall path | Chain(n, edge, path) && path[|path| - 1] == c ensures |path| <= level[c] + 1 {
      LevelBoundsChain(n, edge, level, path);
    }
  }

  lemma LevelsMeanAcyclic(n: nat, edge: Edge, level: seq<nat>)
    requires Levels(n, edge, level)
    ensures !Cyclic(n, edge)
  {
    forall path | Chain(n, edge, path) ensures !Closed(path) {
      LevelBoundsChain(n, edge, level, path);
    }
  }

  // ---------- reachability ----------

  /** Some chain, possibly of one index alone, leads from a to b. */
  ghost predicate Reach(n: nat, edge: Edge, a: nat, b: nat) {
    exists path :: Chain(n, edge, path) && path[0] == a && path[|path| - 1] == b
  }

  lemma ReachSelf(n: nat, edge: Edge, a: nat)
    requires a < n
    ensures Reach(n, edge, a, a)
  {
    assert Chain(n, edge, [a]);
  }

  lemma ReachOn(n: nat, edge: Edge, a: nat, b: nat, c: nat)
    requires Reach(n, edge, a, b) && edge(b, c) && c < n
    ensures Reach(n, edge, a, c)
  {
    var path :| Chain(n, edge, path) && path[0] == a && path[|path| - 1] == b;
    var longer := path + [c];
    assert Chain(n, edge, longer) && longer[0] == a && longer[|longer| - 1] == c;
  }

  lemma ReachThrough(n: nat, edge: Edge, a: nat, b: nat, c: nat)
    requires Reach(n, edge, a, b) && Reach(n, edge, b, c)
    ensures Reach(n, edge, a, c)
  {
    var p :| Chain(n, edge, p) && p[0] == a && p[|p| - 1] == b;
    var q :| Chain(n, edge, q) && q[0] == b && q[|q| - 1] == c;
    var path := p + q[1..];
    forall k | 0 < k < |path| ensures edge(path[k - 1], path[k]) {
      if k >= |p| {
        assert path[k] == q[k - |p| + 1] && path[k - 1] == q[k - |p|];
      }
    }
    assert Chain(n, edge, path) && path[0] == a && path[|path| - 1] == c;
  }

  lemma ReachEnds(n: nat, edge: Edge, a: nat, b: nat)
    requires Reach(n, edge, a, b)
    ensures a < n && b < n
  {
  }

  /** Nothing outside a set that no edge leaves can be reached from inside it. */
  lemma StaysInside(n: nat, edge: Edge, inside: set<nat>, a: nat, b: nat)
    requires a in inside && Reach(n, edge, a, b)
    requires forall x: nat, y: nat | x in inside && y < n && edge(x, y) :: y in inside
    ensures b in inside
  {
    var path :| Chain(n, edge, path) && path[0] == a && path[|path| - 1] == b;
    ChainInside(n, edge, inside, path);
  }

  lemma {:induction false} ChainInside(n: nat, edge: Edge, inside: set<nat>, path: seq<nat>)
    requires Chain(n, edge, path) && path[0] in inside
    requires forall x: nat, y: nat | x in inside && y < n && edge(x, y) :: y in inside
    ensures path[|path| - 1] in inside
  {
    if |path| > 1 {
      assert Chain(n, edge, path[1..]);
      assert edge(path[0], path[1]);
      ChainInside(n, edge, inside, path[1..]);
    }
  }

  lemma ReachBack(n: nat, edge: Edge, a: nat, b: nat)
    requires Reach(n, edge, a, b)
    requires forall x: nat, y: nat | x < n && y < n && edge(x, y) :: edge(y, x)
    ensures Reach(n, edge, b, a)
  {
    var path :| Chain(n, edge, path) && path[0] == a && path[|path| - 1] == b;
    var back := seq(|path|, k requires 0 <= k < |path| => path[|path| - 1 - k]);
    forall k | 0 < k < |back| ensures edge(back[k - 1], back[k]) {
      assert edge(path[|path| - 1 - k], path[|path| - k]);
    }
    assert Chain(n, edge, back) && back[0] == b && back[|back| - 1] == a;
  }
}
