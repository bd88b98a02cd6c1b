/** Which independent roots of a scan are kept when roots pin parts of the working tree that other roots lie in
    (pkg/discovery/partition.go, 76-127). */
module RootOwners {
  import opened EntryRoots
  import opened Graph
  import opened Ordering

  /** Whether a root lies under one of the claims. */
  type Claimed = (EntryRoot, seq<Claim>) -> bool

  /** An edge leads from a root to each root that claims it. */
  ghost function Claimers(roots: seq<EntryRoot>, claimed: Claimed): Edge {
    (i: nat, j: nat) => i < |roots| && j < |roots| && claimed(roots[i], roots[j].pinned)
  }

  /** Root j claims root i, or claims one that in turn owns i. */
  ghost predicate Owned(n: nat, up: Edge, i: nat, j: nat) {
    exists k :: Reach(n, up, i, k) && up(k, j)
  }

  predicate Square(owners: seq<seq<bool>>) {
    forall i | 0 <= i < |owners| :: |owners[i]| == |owners|
  }

  /** owners[i][j] says whether root j owns root i. */
  ghost predicate Closure(n: nat, up: Edge, owners: seq<seq<bool>>) {
    && |owners| == n && Square(owners)
    && forall i: nat, j: nat | i < n && j < n :: owners[i][j] == Owned(n, up, i, j)
  }

  // ---------- the closure of the claims ----------

  ghost predicate Expanded(n: nat, up: Edge, row: seq<bool>, c: nat)
    requires |row| == n
  {
    forall j: nat | j < n && up(c, j) :: row[j]
  }

  /** The breadth-first search from root i, with the roots still to expand in the queue. */
  ghost predicate Searching(n: nat, up: Edge, i: nat, row: seq<bool>, queue: seq<nat>) {
    && |row| == n && i < n
    && (forall q | q in queue :: q < n && Reach(n, up, i, q))
    && (forall j: nat | j < n && row[j] :: Owned(n, up, i, j))
    && (forall c: nat | c < n && (c == i || row[c]) :: c in queue || Expanded(n, up, row, c))
  }

  ghost function Unmarked(row: seq<bool>): set<nat> {
    set j: nat | j < |row| && !row[j]
  }

  /** One expansion: what the current root is claimed by is marked, and queued when it was not marked before. */
  ghost predicate Visited(n: nat, up: Edge, before: seq<bool>, after: seq<bool>, current: nat,
                          queue: seq<nat>, longer: seq<nat>, done: nat)
    requires |before| == n && done <= n
  {
    && |after| == n
    && (forall j: nat | j < n :: after[j] == (before[j] || (j < done && up(current, j))))
    && queue <= longer
    && (forall x | x in longer && x !in queue :: x < n && up(current, x))
    && (forall j: nat | j < n && after[j] && !before[j] :: j in longer)
    && (before == after ==> longer == queue)
  }

  lemma SearchOn(n: nat, up: Edge, i: nat, row: seq<bool>, after: seq<bool>, queue: seq<nat>, longer: seq<nat>)
    requires Searching(n, up, i, row, queue) && queue != []
    requires Visited(n, up, row, after, queue[0], queue[1..], longer, n)
    ensures Searching(n, up, i, after, longer)
    ensures |Unmarked(after)| < |Unmarked(row)| || (|Unmarked(after)| == |Unmarked(row)| && |longer| < |queue|)
  {
    hide Reach;
    var current := queue[0];
    forall q | q in longer ensures q < n && Reach(n, up, i, q) {
      if q in queue[1..] {
        assert q in queue;
      } else {
        ReachOn(n, up, i, current, q);
      }
    }
    forall c: nat | c < n && (c == i || after[c]) ensures c in longer || Expanded(n, up, after, c) {
      if (c == i || row[c]) && c != current {
        if c in queue { assert c in queue[1..]; }
      }
    }
    SubsetCount(Unmarked(after), Unmarked(row));
    if Unmarked(after) == Unmarked(row) {
      assert forall j: nat | j < n :: after[j] == !(j in Unmarked(after)) && row[j] == !(j in Unmarked(row));
      assert after == row;
    }
  }

  lemma SearchEnds(n: nat, up: Edge, i: nat, row: seq<bool>)
    requires Searching(n, up, i, row, [])
    ensures forall j: nat | j < n :: row[j] == Owned(n, up, i, j)
  {
    hide Reach;
    forall j: nat | j < n && Owned(n, up, i, j) ensures row[j] {
      var k :| Reach(n, up, i, k) && up(k, j);
      ReachEnds(n, up, i, k);
      var inside := set c: nat | c < n && (c == i || row[c]);
      forall x: nat, y: nat | x in inside && y < n && up(x, y) ensures y in inside {
        assert Expanded(n, up, row, x);
      }
      StaysInside(n, up, inside, i, k);
      assert Expanded(n, up, row, k);
    }
  }

  method VisitClaimers(roots: seq<EntryRoot>, claimed: Claimed, before: seq<bool>, current: nat, queue: seq<nat>)
    returns (row: seq<bool>, longer: seq<nat>)
    requires |before| == |roots| && current < |roots|
    ensures Visited(|roots|, Claimers(roots, claimed), before, row, current, queue, longer, |roots|)
  {
    row, longer := before, queue;
    for j := 0 to |roots|
      invariant Visited(|roots|, Claimers(roots, claimed), before, row, current, queue, longer, j)
    {
      if !row[j] && claimed(roots[current], roots[j].pinned) {
        row := row[j := true];
        longer := longer + [j];
      }
    }
  }

  /** The owners of a root are exactly those that the claims lead to, over any number of steps. */
  method PinnedRootOwners(roots: seq<EntryRoot>, claimed: Claimed) returns (owners: seq<seq<bool>>)
    ensures Closure(|roots|, Claimers(roots, claimed), owners)
  {
    hide Reach, Owned, Claimers, Visited;
    owners := [];
    ghost var n, up := |roots|, Claimers(roots, claimed);
    for i := 0 to |roots|
      invariant |owners| == i
      invariant forall k: nat | k < i :: |owners[k]| == n
      invariant forall k: nat, j: nat | k < i && j < n :: owners[k][j] == Owned(n, up, k, j)
    {
      var row: seq<bool>, queue: seq<nat> := seq(|roots|, _ => false), [i];
      ReachSelf(n, up, i);
      while queue != []
        invariant Searching(n, up, i, row, queue)
        decreases |Unmarked(row)|, |queue|
      {
        ghost var before := row;
        ghost var waiting := queue;
        var current := queue[0];
        assert current in queue;
        row, queue := VisitClaimers(roots, claimed, row, current, queue[1..]);
        SearchOn(n, up, i, before, row, waiting, queue);
      }
      SearchEnds(n, up, i, row);
      owners := owners + [row];
    }
  }

  // ---------- the roots kept ----------

  /** Whoever owns a root that is independent is owned by it. */
  predicate Independent(owners: seq<seq<bool>>, i: nat)
    requires i < |owners| && Square(owners)
  {
    forall j: nat | j < |owners| :: owners[i][j] ==> owners[j][i]
  }

  lemma OwnedThrough(n: nat, up: Edge, i: nat, j: nat, k: nat)
    requires Owned(n, up, i, j) && Owned(n, up, j, k) && j < n
    ensures Owned(n, up, i, k)
  {
    hide Reach;
    var a :| Reach(n, up, i, a) && up(a, j);
    var b :| Reach(n, up, j, b) && up(b, k);
    ReachOn(n, up, i, a, j);
    ReachThrough(n, up, i, j, b);
  }

  ghost function Strictly(n: nat, up: Edge): Edge {
    (p: nat, c: nat) => Owned(n, up, c, p) && !Owned(n, up, p, c)
  }

  /** Some root is always independent: owning is transitive, and there are finitely many roots. */
  lemma IndependentExists(n: nat, up: Edge, owners: seq<seq<bool>>)
    requires n > 0 && Closure(n, up, owners)
    ensures exists i: nat :: i < n && Independent(owners, i)
  {
    hide Owned;
    if forall i: nat | i < n :: !Independent(owners, i) {
      forall c: nat | c < n ensures Fed(Range(n), Strictly(n, up), c) {
        assert !Independent(owners, c);
        StrictlyAbove(n, up, owners, c);
      }
      assert 0 in Range(n);
      NoSourceMeansCyclic(n, Strictly(n, up), Range(n));
      NoStrictCycle(n, up);
    }
  }

  lemma StrictlyAbove(n: nat, up: Edge, owners: seq<seq<bool>>, c: nat)
    requires Closure(n, up, owners) && c < n && !Independent(owners, c)
    ensures Fed(Range(n), Strictly(n, up), c)
  {
    hide Owned;
    var p: nat :| p < n && owners[c][p] && !owners[p][c];
    assert p in Range(n) && Strictly(n, up)(p, c);
  }

  lemma NoStrictCycle(n: nat, up: Edge)
    ensures !Cyclic(n, Strictly(n, up))
  {
    hide Owned, Strictly;
    if Cyclic(n, Strictly(n, up)) {
      var path :| Chain(n, Strictly(n, up), path) && Closed(path);
      StrictChain(n, up, path);
    }
  }

  lemma {:induction false} StrictChain(n: nat, up: Edge, path: seq<nat>)
    requires Chain(n, Strictly(n, up), path) && |path| > 1
    ensures Owned(n, up, path[|path| - 1], path[0]) && !Owned(n, up, path[0], path[|path| - 1])
  {
    hide Owned;
    var last := |path| - 1;
    assert Strictly(n, up)(path[last - 1], path[last]);
    if |path| > 2 {
      assert Chain(n, Strictly(n, up), path[..last]);
      StrictChain(n, up, path[..last]);
      OwnedThrough(n, up, path[last], path[last - 1], path[0]);
      if Owned(n, up, path[0], path[last]) {
        OwnedThrough(n, up, path[0], path[last], path[last - 1]);
      }
    }
  }

  /** The first independent root; root 0 is taken without being found only when there is none. */
  method FirstIndependent(owners: seq<seq<bool>>) returns (selected: nat)
    requires Square(owners)
    ensures (exists i: nat :: i < |owners| && Independent(owners, i)) ==>
              && selected < |owners| && Independent(owners, selected)
              && forall i: nat | i < selected :: !Independent(owners, i)
    ensures (forall i: nat | i < |owners| :: !Independent(owners, i)) ==> selected == 0
  {
    selected := 0;
    for i := 0 to |owners|
      invariant selected == 0 && forall k: nat | k < i :: !Independent(owners, k)
    {
      var independent := true;
      var j := 0;
      while j < |owners| && independent
        invariant 0 <= j <= |owners|
        invariant independent ==> forall k: nat | k < j :: owners[i][k] ==> owners[k][i]
        invariant !independent ==> !Independent(owners, i)
        decreases |owners| - j, independent
      {
        if owners[i][j] && !owners[j][i] {
          independent := false;
        }
        j := j + 1;
      }
      if independent {
        selected := i;
        break;
      }
    }
  }

  predicate Covers(claimed: Claimed, root: EntryRoot, candidate: EntryRoot) {
    candidate.path == root.path || claimed(candidate, root.pinned)
  }

  function Without(pending: seq<EntryRoot>, root: EntryRoot, claimed: Claimed): (rest: seq<EntryRoot>)
    ensures forall c | c in rest :: c in pending && !Covers(claimed, root, c)
    ensures forall c | c in pending :: c in rest || Covers(claimed, root, c)
    ensures |rest| <= |pending|
    ensures (exists c | c in pending :: Covers(claimed, root, c)) ==> |rest| < |pending|
  {
    if pending == [] then []
    else
      var tail := Without(pending[1..], root, claimed);
      assert forall c | c in pending :: c == pending[0] || c in pending[1..];
      if Covers(claimed, root, pending[0]) then tail else [pending[0]] + tail
  }

  ghost function Among(roots: seq<EntryRoot>): set<EntryRoot> {
    set r | r in roots
  }

  /** A list of the roots, each claimed by the next. */
  ghost predicate ClaimPath(roots: set<EntryRoot>, claimed: Claimed, path: seq<EntryRoot>) {
    && |path| > 1
    && (forall r | r in path :: r in roots)
    && forall k | 0 < k < |path| :: claimed(path[k - 1], path[k].pinned)
  }

  /** `owner` claims `root`, or claims one that in turn owns `root`. */
  ghost predicate Owns(roots: set<EntryRoot>, claimed: Claimed, owner: EntryRoot, root: EntryRoot) {
    exists path :: ClaimPath(roots, claimed, path) && path[0] == root && path[|path| - 1] == owner
  }

  lemma OwnedOwns(roots: seq<EntryRoot>, claimed: Claimed, all: seq<EntryRoot>, i: nat, j: nat)
    requires i < |roots| && j < |roots| && Owned(|roots|, Claimers(roots, claimed), i, j)
    requires forall r | r in roots :: r in all
    ensures Owns(Among(all), claimed, roots[j], roots[i])
  {
    var up := Claimers(roots, claimed);
    var k :| Reach(|roots|, up, i, k) && up(k, j);
    var chain :| Chain(|roots|, up, chain) && chain[0] == i && chain[|chain| - 1] == k;
    var longer := chain + [j];
    var path := seq(|longer|, p requires 0 <= p < |longer| => roots[longer[p]]);
    forall p | 0 < p < |path| ensures claimed(path[p - 1], path[p].pinned) {
      assert up(longer[p - 1], longer[p]);
    }
    assert ClaimPath(Among(all), claimed, path) && path[0] == roots[i] && path[|path| - 1] == roots[j];
  }

  lemma OwnsOwned(roots: seq<EntryRoot>, claimed: Claimed, i: nat, j: nat)
    requires i < |roots| && j < |roots| && claimed(roots[i], roots[j].pinned)
    ensures Owned(|roots|, Claimers(roots, claimed), i, j)
  {
    ReachSelf(|roots|, Claimers(roots, claimed), i);
    assert Claimers(roots, claimed)(i, j);
  }

  /** What the kept roots are to each other, and to the roots still pending. */
  ghost predicate Kept(all: seq<EntryRoot>, claimed: Claimed, pending: seq<EntryRoot>, roots: seq<EntryRoot>) {
    && (forall r | r in roots :: r in all)
    && (forall c | c in pending :: c in all)
    && (forall c | c in all :: c in pending || exists r | r in roots :: Covers(claimed, r, c))
    && (forall r, c | r in roots && c in pending :: Later(all, claimed, r, c))
    && (forall i, j | 0 <= i < j < |roots| :: Later(all, claimed, roots[i], roots[j]))
  }

  /** An earlier root kept does not cover a later one, and the later one claims it only in a ring of claims. */
  ghost predicate Later(all: seq<EntryRoot>, claimed: Claimed, earlier: EntryRoot, later: EntryRoot) {
    && !Covers(claimed, earlier, later)
    && (claimed(earlier, later.pinned) ==> Owns(Among(all), claimed, earlier, later))
  }

  lemma KeptOne(all: seq<EntryRoot>, claimed: Claimed, pending: seq<EntryRoot>, roots: seq<EntryRoot>,
                owners: seq<seq<bool>>, selected: nat)
    requires Kept(all, claimed, pending, roots) && selected < |pending|
    requires Closure(|pending|, Claimers(pending, claimed), owners) && Independent(owners, selected)
    ensures Kept(all, claimed, Without(pending, pending[selected], claimed), roots + [pending[selected]])
    ensures |Without(pending, pending[selected], claimed)| < |pending|
  {
    hide Owned, Owns, Claimers;
    var root := pending[selected];
    var rest := Without(pending, root, claimed);
    assert Covers(claimed, root, root);
    forall c | c in rest ensures Later(all, claimed, root, c) {
      if claimed(root, c.pinned) {
        var j :| 0 <= j < |pending| && pending[j] == c;
        OwnsOwned(pending, claimed, selected, j);
        assert owners[selected][j] && owners[j][selected];
        OwnedOwns(pending, claimed, all, j, selected);
      }
    }
    forall c | c in all ensures c in rest || exists r | r in roots + [root] :: Covers(claimed, r, c) {
      if c in pending {
        if c !in rest {
          assert root in roots + [root];
        }
      } else {
        var r :| r in roots && Covers(claimed, r, c);
        assert r in roots + [root];
      }
    }
  }

  // ---------- which roots are kept ----------

  /** The roots that lie apart from those kept so far and are not claimed by them. */
  ghost function Left(all: set<EntryRoot>, claimed: Claimed, kept: seq<EntryRoot>): set<EntryRoot> {
    set c | c in all && forall r | r in kept :: c.path != r.path && !claimed(c, r.pinned)
  }

  /** Whoever of those left owns the root is owned by it: it is claimed only inside rings. */
  ghost predicate Free(left: set<EntryRoot>, claimed: Claimed, root: EntryRoot) {
    root in left && forall o | o in left && Owns(left, claimed, o, root) :: Owns(left, claimed, root, o)
  }

  ghost predicate Least(left: set<EntryRoot>, claimed: Claimed, root: EntryRoot) {
    Free(left, claimed, root) && forall c | Free(left, claimed, c) :: LexLe(root.path, c.path)
  }

  /** Each root kept has the least path among those that were left and claimed only inside rings, and in
      the end none is left. */
  ghost predicate LeastChoice(all: set<EntryRoot>, claimed: Claimed, roots: seq<EntryRoot>) {
    LeastSoFar(all, claimed, roots) && Left(all, claimed, roots) == {}
  }

  ghost predicate LeastSoFar(all: set<EntryRoot>, claimed: Claimed, roots: seq<EntryRoot>) {
    forall k | 0 <= k < |roots| :: Least(Left(all, claimed, roots[..k]), claimed, roots[k])
  }

  ghost predicate Ascending(roots: seq<EntryRoot>) {
    forall i, j | 0 <= i < j < |roots| :: LexLe(roots[i].path, roots[j].path)
  }

  /** Owning among the pending roots is what the matrix of owners says. */
  lemma OwnsIff(roots: seq<EntryRoot>, claimed: Claimed, i: nat, j: nat)
    requires i < |roots| && j < |roots|
    ensures Owned(|roots|, Claimers(roots, claimed), i, j) <==> Owns(Among(roots), claimed, roots[j], roots[i])
  {
    if Owned(|roots|, Claimers(roots, claimed), i, j) { OwnedOwns(roots, claimed, roots, i, j); }
    if Owns(Among(roots), claimed, roots[j], roots[i]) {
      var path :| ClaimPath(Among(roots), claimed, path) && path[0] == roots[i] && path[|path| - 1] == roots[j];
      PathOwned(roots, claimed, path, i, j);
    }
  }

  lemma {:induction false} PathOwned(roots: seq<EntryRoot>, claimed: Claimed, path: seq<EntryRoot>, i: nat, j: nat)
    requires i < |roots| && j < |roots| && ClaimPath(Among(roots), claimed, path)
    requires path[0] == roots[i] && path[|path| - 1] == roots[j]
    ensures Owned(|roots|, Claimers(roots, claimed), i, j)
    decreases |path|
  {
    var n, up := |roots|, Claimers(roots, claimed);
    var last := |path| - 2;
    assert path[last] in path;
    var k: nat :| k < n && roots[k] == path[last];
    assert claimed(path[last], path[last + 1].pinned);
    assert up(k, j);
    if last == 0 {
      assert up(i, j);
      ReachSelf(n, up, i);
    } else {
      var shorter := path[..last + 1];
      assert ClaimPath(Among(roots), claimed, shorter);
      PathOwned(roots, claimed, shorter, i, k);
      OwnedOn(n, up, i, k, j);
    }
  }

  lemma OwnedOn(n: nat, up: Edge, i: nat, k: nat, j: nat)
    requires Owned(n, up, i, k) && k < n && up(k, j)
    ensures Owned(n, up, i, j)
  {
    hide Reach;
    var a :| Reach(n, up, i, a) && up(a, k);
    ReachOn(n, up, i, a, k);
  }

  lemma FreeIff(pending: seq<EntryRoot>, claimed: Claimed, owners: seq<seq<bool>>, i: nat)
    requires Closure(|pending|, Claimers(pending, claimed), owners) && i < |pending|
    ensures Independent(owners, i) <==> Free(Among(pending), claimed, pending[i])
  {
    hide Owned, Owns, Claimers;
    forall j: nat | j < |pending|
      ensures owners[i][j] == Owns(Among(pending), claimed, pending[j], pending[i])
      ensures owners[j][i] == Owns(Among(pending), claimed, pending[i], pending[j])
    {
      OwnsIff(pending, claimed, i, j);
      OwnsIff(pending, claimed, j, i);
    }
    forall o | o in Among(pending) ensures exists j: nat :: j < |pending| && pending[j] == o {}
  }

  lemma LeastTaken(pending: seq<EntryRoot>, claimed: Claimed, owners: seq<seq<bool>>, selected: nat)
    requires Closure(|pending|, Claimers(pending, claimed), owners) && selected < |pending|
    requires Independent(owners, selected) && forall i: nat | i < selected :: !Independent(owners, i)
    requires Ascending(pending)
    ensures Least(Among(pending), claimed, pending[selected])
  {
    hide Closure, Independent, Free;
    FreeIff(pending, claimed, owners, selected);
    forall c | Free(Among(pending), claimed, c) ensures LexLe(pending[selected].path, c.path) {
      FreeMember(Among(pending), claimed, c);
      var m: nat :| m < |pending| && pending[m] == c;
      FreeIff(pending, claimed, owners, m);
      LexTotal(c.path, c.path);
    }
  }

  lemma FreeMember(left: set<EntryRoot>, claimed: Claimed, c: EntryRoot)
    requires Free(left, claimed, c)
    ensures c in left
  {
  }

  lemma {:induction false} WithoutAscends(pending: seq<EntryRoot>, root: EntryRoot, claimed: Claimed)
    requires Ascending(pending)
    ensures Ascending(Without(pending, root, claimed))
  {
    if pending != [] {
      WithoutAscends(pending[1..], root, claimed);
      var tail := Without(pending[1..], root, claimed);
      forall j | 0 <= j < |tail| ensures LexLe(pending[0].path, tail[j].path) {
        assert tail[j] in pending[1..];
      }
    }
  }

  lemma LeftAfter(all: set<EntryRoot>, claimed: Claimed, pending: seq<EntryRoot>, kept: seq<EntryRoot>, root: EntryRoot)
    requires Among(pending) == Left(all, claimed, kept)
    ensures Among(Without(pending, root, claimed)) == Left(all, claimed, kept + [root])
  {
    var rest := Without(pending, root, claimed);
    forall c ensures c in Among(rest) <==> c in Left(all, claimed, kept + [root]) {
      assert c in Among(pending) <==> c in Left(all, claimed, kept);
      assert forall r | r in kept :: r in kept + [root];
    }
  }

  lemma LeastOneMore(all: set<EntryRoot>, claimed: Claimed, kept: seq<EntryRoot>, root: EntryRoot)
    requires LeastSoFar(all, claimed, kept) && Least(Left(all, claimed, kept), claimed, root)
    ensures LeastSoFar(all, claimed, kept + [root])
  {
    hide Least, Left;
    var more := kept + [root];
    forall k | 0 <= k < |more| ensures Least(Left(all, claimed, more[..k]), claimed, more[k]) {
      if k < |kept| { assert more[..k] == kept[..k]; } else { assert more[..k] == kept; }
    }
  }

  /** In whatever order the roots come: each dropped root is covered by a kept one, no kept root covers a later
      one, and a kept root claimed by a later one owns it in return. If they come by path, each is the least choice. */
  method SelectRoots(all: seq<EntryRoot>, claimed: Claimed) returns (roots: seq<EntryRoot>)
    ensures Kept(all, claimed, [], roots)
    ensures Ascending(all) ==> LeastChoice(Among(all), claimed, roots)
  {
    hide Kept, Owned, Claimers, Closure, Independent, LeastSoFar, Least, Left, Ascending, Square, Among;
    roots := [];
    var pending := all;
    KeptNone(all, claimed);
    while |pending| != 0
      invariant Kept(all, claimed, pending, roots)
      invariant Among(pending) == Left(Among(all), claimed, roots)
      invariant Ascending(all) ==> Ascending(pending) && LeastSoFar(Among(all), claimed, roots)
      decreases |pending|
    {
      var owners := PinnedRootOwners(pending, claimed);
      IndependentExists(|pending|, Claimers(pending, claimed), owners);
      ClosureSquare(|pending|, Claimers(pending, claimed), owners);
      var selected := FirstIndependent(owners);
      KeptOne(all, claimed, pending, roots, owners, selected);
      LeftAfter(Among(all), claimed, pending, roots, pending[selected]);
      if Ascending(all) {
        LeastTaken(pending, claimed, owners, selected);
        LeastOneMore(Among(all), claimed, roots, pending[selected]);
        WithoutAscends(pending, pending[selected], claimed);
      }
      roots := roots + [pending[selected]];
      pending := Without(pending, pending[selected], claimed);
    }
    NoneAmong();
  }

  lemma NoneAmong()
    ensures Among([]) == {}
  {
  }

  lemma ClosureSquare(n: nat, up: Edge, owners: seq<seq<bool>>)
    requires Closure(n, up, owners)
    ensures |owners| == n && Square(owners)
  {
  }

  lemma KeptNone(all: seq<EntryRoot>, claimed: Claimed)
    ensures Kept(all, claimed, all, [])
    ensures Among(all) == Left(Among(all), claimed, []) && LeastSoFar(Among(all), claimed, [])
  {
  }

  predicate PathLe(a: EntryRoot, b: EntryRoot) {
    LexLe(a.path, b.path)
  }

  /** Every root dropped has the path of a kept one, or is claimed by it. */
  ghost predicate OthersCovered(pending: seq<EntryRoot>, claimed: Claimed, roots: seq<EntryRoot>) {
    forall c | c in pending && c !in roots :: exists r | r in roots :: c.path == r.path || claimed(c, r.pinned)
  }

  /** No two kept roots have one path, and none is claimed by one kept before it. */
  ghost predicate Apart(claimed: Claimed, roots: seq<EntryRoot>) {
    forall i, j | 0 <= i < j < |roots| :: roots[i].path != roots[j].path && !claimed(roots[j], roots[i].pinned)
  }

  method UnpinnedRoots(pending: seq<EntryRoot>, claimed: Claimed) returns (roots: seq<EntryRoot>)
    ensures forall r | r in roots :: r in pending
    ensures forall c | c in pending :: exists r | r in roots :: Covers(claimed, r, c)
    ensures forall i, j | 0 <= i < j < |roots| :: Later(pending, claimed, roots[i], roots[j])
    ensures OthersCovered(pending, claimed, roots) && Apart(claimed, roots)
    ensures LeastChoice(Among(pending), claimed, roots)
  {
    hide *;
    var sorted := Sort(pending, PathLe);
    SortedRoots(pending);
    roots := SelectRoots(sorted, claimed);
    KeptAmong(sorted, pending, claimed, roots);
    KeptMeans(pending, claimed, roots);
  }

  lemma KeptMeans(pending: seq<EntryRoot>, claimed: Claimed, roots: seq<EntryRoot>)
    requires forall c | c in pending :: exists r | r in roots :: Covers(claimed, r, c)
    requires forall i, j | 0 <= i < j < |roots| :: Later(pending, claimed, roots[i], roots[j])
    ensures OthersCovered(pending, claimed, roots) && Apart(claimed, roots)
  {
    hide Owns;
    forall c | c in pending && c !in roots ensures exists r | r in roots :: c.path == r.path || claimed(c, r.pinned) {
      var r :| r in roots && Covers(claimed, r, c);
    }
    forall i, j | 0 <= i < j < |roots|
      ensures roots[i].path != roots[j].path && !claimed(roots[j], roots[i].pinned)
    {
      assert Later(pending, claimed, roots[i], roots[j]);
    }
  }

  lemma KeptAmong(all: seq<EntryRoot>, same: seq<EntryRoot>, claimed: Claimed, roots: seq<EntryRoot>)
    requires Kept(all, claimed, [], roots) && forall r :: r in all <==> r in same
    ensures forall r | r in roots :: r in same
    ensures forall c | c in same :: exists r | r in roots :: Covers(claimed, r, c)
    ensures forall i, j | 0 <= i < j < |roots| :: Later(same, claimed, roots[i], roots[j])
  {
    hide Later, Covers;
    forall i, j | 0 <= i < j < |roots| ensures Later(same, claimed, roots[i], roots[j]) {
      LaterAmong(all, same, claimed, roots[i], roots[j]);
    }
  }

  lemma SortedRoots(pending: seq<EntryRoot>)
    ensures forall r :: r in Sort(pending, PathLe) <==> r in pending
    ensures Ascending(Sort(pending, PathLe)) && Among(Sort(pending, PathLe)) == Among(pending)
  {
    LexIsTotalOrder();
    SortSpec(pending, PathLe);
    var sorted := Sort(pending, PathLe);
    forall r ensures r in sorted <==> r in pending {
      assert r in multiset(sorted) <==> r in sorted;
      assert r in multiset(pending) <==> r in pending;
    }
  }

  lemma LaterAmong(all: seq<EntryRoot>, same: seq<EntryRoot>, claimed: Claimed, earlier: EntryRoot, later: EntryRoot)
    requires Later(all, claimed, earlier, later) && forall r | r in all :: r in same
    ensures Later(same, claimed, earlier, later)
  {
    if claimed(earlier, later.pinned) {
      var path :| ClaimPath(Among(all), claimed, path) && path[0] == later && path[|path| - 1] == earlier;
      assert ClaimPath(Among(same), claimed, path);
    }
  }

  // ---------- what the choice means ----------

  ghost predicate DistinctPaths(all: set<EntryRoot>) {
    forall r, s | r in all && s in all && r.path == s.path :: r == s
  }

  lemma ChosenLeft(all: set<EntryRoot>, claimed: Claimed, roots: seq<EntryRoot>, k: nat)
    requires LeastSoFar(all, claimed, roots) && k < |roots|
    ensures Least(Left(all, claimed, roots[..k]), claimed, roots[k])
    ensures roots[k] in Left(all, claimed, roots[..k]) && roots[k] in all
  {
  }

  /** Roots with paths of their own are kept in one way only, whatever order they come in. */
  lemma {:induction false} ChoiceUnique(all: set<EntryRoot>, claimed: Claimed, a: seq<EntryRoot>, b: seq<EntryRoot>, k: nat)
    requires DistinctPaths(all) && LeastChoice(all, claimed, a) && LeastChoice(all, claimed, b)
    requires k <= |a| && k <= |b| && a[..k] == b[..k]
    ensures a == b
    decreases |a| - k
  {
    hide Least, Left;
    if k == |a| || k == |b| {
      assert a[..k] == (if k == |a| then a else b);
      if k < |a| { ChosenLeft(all, claimed, a, k); }
      if k < |b| { ChosenLeft(all, claimed, b, k); }
    } else {
      ChosenLeft(all, claimed, a, k);
      ChosenLeft(all, claimed, b, k);
      SameLeast(all, Left(all, claimed, a[..k]), claimed, a[k], b[k]);
      assert a[..k + 1] == a[..k] + [a[k]] && b[..k + 1] == b[..k] + [b[k]];
      ChoiceUnique(all, claimed, a, b, k + 1);
    }
  }

  lemma SameLeast(all: set<EntryRoot>, left: set<EntryRoot>, claimed: Claimed, r: EntryRoot, s: EntryRoot)
    requires DistinctPaths(all) && r in all && s in all && Least(left, claimed, r) && Least(left, claimed, s)
    ensures r == s
  {
    hide Free;
    LexAntisymmetric(r.path, s.path);
  }

  /** The order in which the roots were found plays no part. */
  lemma ArrivalForgotten(p: seq<EntryRoot>, q: seq<EntryRoot>, claimed: Claimed, a: seq<EntryRoot>, b: seq<EntryRoot>)
    requires multiset(p) == multiset(q) && DistinctPaths(Among(p))
    requires LeastChoice(Among(p), claimed, a) && LeastChoice(Among(q), claimed, b)
    ensures a == b
  {
    forall r ensures r in p <==> r in q {
      assert r in multiset(p) <==> r in multiset(q);
    }
    assert Among(p) == Among(q);
    ChoiceUnique(Among(p), claimed, a, b, 0);
  }

  /** Roots that own each other, none of them claimed from outside. */
  ghost predicate Ring(all: set<EntryRoot>, claimed: Claimed, ring: set<EntryRoot>) {
    && ring <= all
    && (forall x, y | x in ring && y in ring && x != y :: Owns(ring, claimed, x, y))
    && (forall x, r | x in ring && r in all && claimed(x, r.pinned) :: r in ring)
  }

  /** Of such a ring the root with the least path is the first one kept. */
  lemma RingKeepsLeast(all: set<EntryRoot>, claimed: Claimed, roots: seq<EntryRoot>, ring: set<EntryRoot>, least: EntryRoot)
    requires DistinctPaths(all) && LeastChoice(all, claimed, roots) && Ring(all, claimed, ring)
    requires least in ring && forall x | x in ring :: LexLe(least.path, x.path)
    ensures exists k :: 0 <= k < |roots| && roots[k] == least && forall j | 0 <= j < k :: roots[j] !in ring
  {
    hide Least, Free, Owns;
    assert least !in Left(all, claimed, roots);
    var r :| r in roots && (least.path == r.path || claimed(least, r.pinned));
    var i :| 0 <= i < |roots| && roots[i] == r;
    ChosenLeft(all, claimed, roots, i);
    var k := FirstIn(roots, ring, i);
    ChosenLeft(all, claimed, roots, k);
    RingLeft(all, claimed, roots, ring, k);
    LeastIsFree(all, Left(all, claimed, roots[..k]), claimed, ring, least);
    LeastOf(Left(all, claimed, roots[..k]), claimed, roots[k], least);
    LexAntisymmetric(roots[k].path, least.path);
  }

  lemma LeastOf(left: set<EntryRoot>, claimed: Claimed, root: EntryRoot, c: EntryRoot)
    requires Least(left, claimed, root) && Free(left, claimed, c)
    ensures LexLe(root.path, c.path)
  {
  }

  lemma {:induction false} FirstIn(roots: seq<EntryRoot>, ring: set<EntryRoot>, i: nat) returns (k: nat)
    requires i < |roots| && roots[i] in ring
    ensures k <= i && roots[k] in ring && forall j | 0 <= j < k :: roots[j] !in ring
  {
    k := i;
    if j: nat :| j < i && roots[j] in ring {
      k := FirstIn(roots, ring, j);
    }
  }

  lemma RingLeft(all: set<EntryRoot>, claimed: Claimed, roots: seq<EntryRoot>, ring: set<EntryRoot>, k: nat)
    requires DistinctPaths(all) && LeastSoFar(all, claimed, roots) && Ring(all, claimed, ring)
    requires k <= |roots| && forall j | 0 <= j < k :: roots[j] !in ring
    ensures ring <= Left(all, claimed, roots[..k])
  {
    hide Least, Owns;
    forall x, r | x in ring && r in roots[..k] ensures !Covers(claimed, r, x) {
      var j :| 0 <= j < k && roots[j] == r;
      ChosenLeft(all, claimed, roots, j);
    }
  }

  lemma LeastIsFree(all: set<EntryRoot>, left: set<EntryRoot>, claimed: Claimed, ring: set<EntryRoot>, least: EntryRoot)
    requires Ring(all, claimed, ring) && ring <= left <= all && least in ring
    ensures Free(left, claimed, least)
  {
    forall o | o in left && Owns(left, claimed, o, least) ensures Owns(left, claimed, least, o) {
      var path :| ClaimPath(left, claimed, path) && path[0] == least && path[|path| - 1] == o;
      StaysInRing(all, left, claimed, ring, path);
      if o != least {
        assert Owns(ring, claimed, least, o);
        var back :| ClaimPath(ring, claimed, back) && back[0] == o && back[|back| - 1] == least;
        assert ClaimPath(left, claimed, back);
      }
    }
  }

  lemma {:induction false} StaysInRing(all: set<EntryRoot>, left: set<EntryRoot>, claimed: Claimed, ring: set<EntryRoot>,
                                       path: seq<EntryRoot>)
    requires Ring(all, claimed, ring) && left <= all && ClaimPath(left, claimed, path) && path[0] in ring
    ensures path[|path| - 1] in ring
    decreases |path|
  {
    hide Owns;
    var last := |path| - 2;
    if last > 0 {
      assert ClaimPath(left, claimed, path[..last + 1]);
      StaysInRing(all, left, claimed, ring, path[..last + 1]);
    }
    assert path[last + 1] in path;
    assert claimed(path[last], path[last + 1].pinned);
  }
}
