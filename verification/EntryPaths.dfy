/** Where an entry is admitted from: the scan that covers its own roots and no root of another entry
    (pkg/discovery/entries.go, 107-123 and 158-186). Paths are slash-separated, cleaned and relative. */
module EntryPaths {
  import opened EntryRoots
  import opened Graph
  import opened Text

  predicate Contains(root: string, target: string) {
    root == "." || root == target || HasPrefix(target, root + "/")
  }

  /** A path other than "." contains those whose names begin with its own. */
  lemma ContainsIff(a: seq<string>, b: seq<string>)
    requires a != [] && b != [] && SlashFree(a) && SlashFree(b) && a != ["."]
    ensures Contains(Join(a, "/"), Join(b, "/")) <==> a <= b
    ensures Contains(".", Join(b, "/"))
  {
    BelowIff(a, b);
    assert Join(["."], "/") == ".";
    BelowIff(a, ["."]);
  }

  /** How far the last slash is from the start, or the length when there is none. */
  function LastSlash(p: string): (i: nat)
    ensures i <= |p|
    ensures i < |p| ==> p[i] == '/'
    ensures forall j | 0 <= j < |p| && (i < j || i == |p|) :: p[j] != '/'
  {
    if p == [] then 0
    else
      var rest := LastSlash(p[1..]);
      assert forall j | 0 < j < |p| :: p[j] == p[1..][j - 1];
      if rest < |p| - 1 then rest + 1
      else if p[0] == '/' then 0
      else |p|
  }

  function Dir(p: string): string {
    var i := LastSlash(p);
    if i < |p| then p[..i] else "."
  }

  lemma DirContains(path: string, p: string)
    requires Contains(path, p) && path != "."
    ensures Contains(Dir(path), p)
  {
    var i := LastSlash(path);
    if i < |path| {
      assert path[..i + 1] == Dir(path) + "/";
      if path != p {
        assert p[..i + 1] == (path + "/")[..i + 1] == path[..i + 1];
      }
    }
  }

  lemma DirLeast(c: string, path: string)
    requires Contains(c, path) && c != path
    ensures Contains(c, Dir(path))
  {
    var i := LastSlash(path);
    if c != "." {
      assert path[|c|] == '/';
      assert |c| <= i;
    }
  }

  ghost predicate Holds(roots: seq<EntryRoot>, group: seq<nat>, c: string)
    requires Within(group, |roots|)
  {
    forall k | 0 <= k < |group| :: Contains(c, roots[group[k]].path)
  }

  /** The deepest path that holds every root of the group. */
  method GroupPath(roots: seq<EntryRoot>, group: seq<nat>) returns (path: string)
    requires group != [] && Within(group, |roots|)
    ensures Holds(roots, group, path)
    ensures forall c | Holds(roots, group, c) :: Contains(c, path)
  {
    hide Contains, Dir;
    path := roots[group[0]].path;
    for k := 0 to |group|
      invariant forall j | 0 <= j < k :: Contains(path, roots[group[j]].path)
      invariant forall c | Holds(roots, group, c) :: Contains(c, path)
    {
      while path != "." && !Contains(path, roots[group[k]].path)
        invariant forall j | 0 <= j < k :: Contains(path, roots[group[j]].path)
        invariant forall c | Holds(roots, group, c) :: Contains(c, path)
        decreases if path == "." then 0 else |path| + 1
      {
        forall j | 0 <= j < k ensures Contains(Dir(path), roots[group[j]].path) {
          DirContains(path, roots[group[j]].path);
        }
        forall c | Holds(roots, group, c) ensures Contains(c, Dir(path)) {
          DirLeast(c, path);
        }
        DirShorter(path);
        path := Dir(path);
      }
      DotContains(roots[group[k]].path);
    }
  }

  lemma DirShorter(p: string)
    ensures Dir(p) == "." || |Dir(p)| < |p|
  {
  }

  lemma DotContains(p: string)
    ensures Contains(".", p)
  {
  }

  /** The candidates that hold the root, or those that do not. */
  function Keep(s: seq<string>, root: string, inside: bool): seq<string> {
    if s == [] then []
    else (if Contains(s[0], root) == inside then [s[0]] else []) + Keep(s[1..], root, inside)
  }

  /** What is left, in order, without the strings dropped. */
  ghost function Drop(s: seq<string>, dropped: set<string>): seq<string> {
    if s == [] then []
    else (if s[0] in dropped then [] else [s[0]]) + Drop(s[1..], dropped)
  }

  lemma {:induction false} DropNone(s: seq<string>)
    ensures Drop(s, {}) == s
  {
    if s != [] {
      DropNone(s[1..]);
    }
  }

  lemma {:induction false} DropLeaves(s: seq<string>, dropped: set<string>, c: string)
    ensures c in Drop(s, dropped) <==> c in s && c !in dropped
  {
    if s != [] {
      DropLeaves(s[1..], dropped, c);
      assert s == [s[0]] + s[1..];
    }
  }

  lemma {:induction false} KeepDrops(s: seq<string>, dropped: set<string>, root: string, inside: bool, more: set<string>)
    requires forall c | c in s :: c in more <==> c in dropped || Contains(c, root) != inside
    ensures Keep(Drop(s, dropped), root, inside) == Drop(s, more)
  {
    hide Contains;
    if s != [] {
      assert s[0] in s;
      KeepDrops(s[1..], dropped, root, inside, more);
      var rest := Drop(s[1..], dropped);
      assert Drop(s, dropped) == if s[0] in dropped then rest else [s[0]] + rest;
      assert ([s[0]] + rest)[1..] == rest;
    }
  }

  ghost predicate Touches(roots: seq<EntryRoot>, group: seq<nat>, c: string)
    requires Within(group, |roots|)
  {
    exists y | 0 <= y < |group| :: Contains(c, roots[group[y]].path)
  }

  ghost predicate AllWithin(groups: seq<seq<nat>>, n: nat) {
    forall x | 0 <= x < |groups| :: Within(groups[x], n)
  }

  /** The path holds no root of the first groups, but those that share the given root. */
  ghost predicate Avoids(roots: seq<EntryRoot>, own: nat, groups: seq<seq<nat>>, g: nat, c: string)
    requires AllWithin(groups, |roots|)
  {
    forall x | 0 <= x < g <= |groups| :: own in groups[x] || !Touches(roots, groups[x], c)
  }

  ghost function Bad(roots: seq<EntryRoot>, group: seq<nat>, groups: seq<seq<nat>>, all: seq<string>, g: nat): set<string>
    requires Within(group, |roots|) && group != [] && AllWithin(groups, |roots|)
  {
    set c | c in all && !(Holds(roots, group, c) && Avoids(roots, group[0], groups, g, c))
  }

  method KeepHolding(roots: seq<EntryRoot>, group: seq<nat>, all: seq<string>) returns (kept: seq<string>)
    requires Within(group, |roots|)
    ensures kept == Drop(all, set c | c in all && !Holds(roots, group, c))
  {
    hide Contains, Keep, Drop;
    kept := all;
    ghost var dropped := {};
    DropNone(all);
    for k := 0 to |group|
      invariant kept == Drop(all, dropped)
      invariant dropped == set c | c in all && !(forall x | 0 <= x < k :: Contains(c, roots[group[x]].path))
    {
      var root := roots[group[k]].path;
      var k1 := k + 1;
      ghost var more := set c | c in all && !(forall x | 0 <= x < k1 :: Contains(c, roots[group[x]].path));
      KeepDrops(all, dropped, root, true, more);
      kept, dropped := Keep(kept, root, true), more;
    }
    assert dropped == set c | c in all && !Holds(roots, group, c);
  }

  method KeepApart(roots: seq<EntryRoot>, other: seq<nat>, candidates: seq<string>, ghost all: seq<string>,
                   ghost bad: set<string>)
    returns (kept: seq<string>)
    requires Within(other, |roots|) && candidates == Drop(all, bad) && bad <= (set c | c in all)
    ensures kept == Drop(all, set c | c in all && (c in bad || Touches(roots, other, c)))
  {
    hide Contains, Keep, Drop;
    kept := candidates;
    ghost var dropped := bad;
    for k := 0 to |other|
      invariant kept == Drop(all, dropped)
      invariant dropped == set c | c in all && (c in bad || exists y | 0 <= y < k :: Contains(c, roots[other[y]].path))
    {
      var root := roots[other[k]].path;
      var k1 := k + 1;
      ghost var more := set c | c in all && (c in bad || exists y | 0 <= y < k1 :: Contains(c, roots[other[y]].path));
      KeepDrops(all, dropped, root, false, more);
      kept, dropped := Keep(kept, root, false), more;
    }
    assert dropped == set c | c in all && (c in bad || Touches(roots, other, c));
  }

  /** Of the scans of the first root and the path of the group, in order, those that hold every root of the
      group and no root of another. */
  method GroupScans(roots: seq<EntryRoot>, group: seq<nat>, groups: seq<seq<nat>>)
    returns (candidates: seq<string>, ghost path: string)
    requires group != [] && Within(group, |roots|) && AllWithin(groups, |roots|)
    ensures Holds(roots, group, path) && forall c | Holds(roots, group, c) :: Contains(c, path)
    ensures var all := roots[group[0]].scans + [path];
            candidates == Drop(all, Bad(roots, group, groups, all, |groups|))
  {
    hide Contains, Drop, Touches;
    var common := GroupPath(roots, group);
    path := common;
    var all := roots[group[0]].scans + [common];
    candidates := KeepHolding(roots, group, all);
    assert (set c | c in all && !Holds(roots, group, c)) == Bad(roots, group, groups, all, 0);
    for g := 0 to |groups|
      invariant candidates == Drop(all, Bad(roots, group, groups, all, g))
    {
      ghost var bad := Bad(roots, group, groups, all, g);
      var g1 := g + 1;
      if group[0] in groups[g] {
        assert bad == Bad(roots, group, groups, all, g1);
        continue;
      }
      candidates := KeepApart(roots, groups[g], candidates, all, bad);
      assert (set c | c in all && (c in bad || Touches(roots, groups[g], c))) == Bad(roots, group, groups, all, g1);
    }
  }

  /** The path an entry without anchors is admitted at holds each of its roots, and no root of another entry. */
  lemma NativeSeparates(roots: seq<EntryRoot>, group: seq<nat>, groups: seq<seq<nat>>, all: seq<string>, native: string,
                        x: nat, y: nat)
    requires group != [] && Within(group, |roots|) && AllWithin(groups, |roots|)
    requires native in Drop(all, Bad(roots, group, groups, all, |groups|))
    requires x < |groups| && y < |groups[x]|
    ensures Holds(roots, group, native)
    ensures groups[x][y] < |roots|
    ensures group[0] !in groups[x] ==> !Contains(native, roots[groups[x][y]].path)
  {
    hide Contains;
    DropLeaves(all, Bad(roots, group, groups, all, |groups|), native);
  }
}
