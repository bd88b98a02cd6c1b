/** Source trees, and what a recorded read set says about them (pkg/kustomize/readset.go, 15-112
    and 176-279). Paths are normalised component lists; the empty path is the root. */
module SourceTree {
  type Path = seq<string>
  type Data = string

  datatype Node = File(data: Data) | Dir

  type Tree = map<Path, Node>

  function Parent(p: Path): Path
    requires p != []
  {
    p[..|p| - 1]
  }

  predicate Prefix(q: Path, p: Path) {
    |q| <= |p| && q == p[..|q|]
  }

  /** Everything below the root is in a directory of the tree. */
  ghost predicate WellFormed(t: Tree) {
    && [] in t && t[[]] == Dir
    && forall p | p in t && p != [] :: Parent(p) in t && t[Parent(p)] == Dir
  }

  datatype Kind = Absent | Regular | Directory

  function KindOf(t: Tree, p: Path): Kind {
    if p !in t then Absent else if t[p].Dir? then Directory else Regular
  }

  function Names(t: Tree, p: Path): set<string> {
    set q | q in t && q != [] && Parent(q) == p :: q[|q| - 1]
  }

  lemma NamesSpec(t: Tree, p: Path, name: string)
    ensures name in Names(t, p) <==> p + [name] in t
  {
    var q := p + [name];
    assert Parent(q) == p;
    if name in Names(t, p) {
      var r :| r in t && r != [] && Parent(r) == p && r[|r| - 1] == name;
      assert r == Parent(r) + [r[|r| - 1]];
    }
  }

  lemma {:induction false} AncestorsAreDirectories(t: Tree, q: Path, p: Path)
    requires WellFormed(t) && p in t && Prefix(q, p) && q != p
    ensures q in t && t[q] == Dir
    decreases |p|
  {
    var r := Parent(p);
    if q != r {
      assert r[..|q|] == q;
      AncestorsAreDirectories(t, q, r);
    }
  }

  /** The digest of a file: an idealised SHA-256, equal exactly on equal contents. */
  datatype Digest = NoDigest | Sha256(content: Data)

  /** A build's recorded reads. Listings are recorded by their set of names. */
  datatype Reads = Reads(files: map<Path, Digest>, dirs: map<Path, set<string>>, nodes: map<Path, Kind>)

  const NO_READS := Reads(map[], map[], map[])

  function FileDigest(t: Tree, p: Path): Digest {
    if p in t && t[p].File? then Sha256(t[p].data) else NoDigest
  }

  /** A node entry survives in the snapshot when the path was neither read nor listed. */
  predicate Kept(seen: Reads, p: Path) {
    p in seen.nodes && p !in seen.files && p !in seen.dirs
  }

  /** What `localsValid` checks of a snapshot against a tree. */
  ghost predicate Valid(seen: Reads, t: Tree) {
    && (forall p | p in seen.files :: FileDigest(t, p) == seen.files[p])
    && (forall p | p in seen.dirs :: KindOf(t, p) == Directory && Names(t, p) == seen.dirs[p])
    && (forall p | Kept(seen, p) :: KindOf(t, p) == seen.nodes[p])
  }

  /** Every record, also a redundant one, is true of the tree. */
  ghost predicate True(seen: Reads, t: Tree) {
    && (forall p | p in seen.files :: FileDigest(t, p) == seen.files[p])
    && (forall p | p in seen.dirs :: KindOf(t, p) == Directory && Names(t, p) == seen.dirs[p])
    && (forall p | p in seen.nodes :: KindOf(t, p) == seen.nodes[p])
  }

  // ---------- which kinds a read set settles ----------

  predicate KnownRegular(seen: Reads, p: Path) {
    (Kept(seen, p) && seen.nodes[p] == Regular) || (p in seen.files && seen.files[p] != NoDigest)
  }

  predicate SeenPresent(seen: Reads, p: Path) {
    (Kept(seen, p) && seen.nodes[p] != Absent) || (p in seen.files && seen.files[p] != NoDigest) || p in seen.dirs
  }

  ghost predicate KnownDirectory(seen: Reads, p: Path) {
    || p == [] || p in seen.dirs
    || (Kept(seen, p) && seen.nodes[p] == Directory)
    || (exists r :: Prefix(p, r) && r != p && SeenPresent(seen, r))
    || (Parent(p) in seen.dirs && p in seen.files)
  }

  ghost predicate RulesOut(seen: Reads, t: Tree, r: Path, p: Path) {
    && Prefix(r, p)
    && (|| (Kept(seen, r) && seen.nodes[r] == Absent)
        || (r != [] && Parent(r) in seen.dirs && r !in t)
        || (r != p && KnownRegular(seen, r)))
  }

  ghost predicate KnownAbsent(seen: Reads, t: Tree, p: Path) {
    exists r :: RulesOut(seen, t, r, p)
  }

  ghost predicate Known(seen: Reads, t: Tree, p: Path) {
    match KindOf(t, p)
    case Regular => KnownRegular(seen, p)
    case Directory => KnownDirectory(seen, p)
    case Absent => KnownAbsent(seen, t, p)
  }

  lemma KnownIsPinned(seen: Reads, t: Tree, u: Tree, p: Path)
    requires WellFormed(t) && WellFormed(u) && True(seen, t) && Valid(seen, u) && Known(seen, t, p)
    ensures KindOf(u, p) == KindOf(t, p)
  {
    match KindOf(t, p)
    case Regular =>
    case Directory => DirectoryIsPinned(seen, t, u, p);
    case Absent => AbsenceIsPinned(seen, t, u, p);
  }

  lemma DirectoryIsPinned(seen: Reads, t: Tree, u: Tree, p: Path)
    requires WellFormed(t) && WellFormed(u) && True(seen, t) && Valid(seen, u)
    requires KindOf(t, p) == Directory && KnownDirectory(seen, p)
    ensures KindOf(u, p) == Directory
  {
    if r :| Prefix(p, r) && r != p && SeenPresent(seen, r) {
      assert r in u;
      AncestorsAreDirectories(u, p, r);
    } else if p != [] && Parent(p) in seen.dirs && p in seen.files {
      var name := p[|p| - 1];
      assert p == Parent(p) + [name];
      NamesSpec(t, Parent(p), name);
      NamesSpec(u, Parent(p), name);
      assert FileDigest(u, p) == NoDigest;
    }
  }

  lemma AbsenceIsPinned(seen: Reads, t: Tree, u: Tree, p: Path)
    requires WellFormed(t) && WellFormed(u) && True(seen, t) && Valid(seen, u)
    requires KindOf(t, p) == Absent && KnownAbsent(seen, t, p)
    ensures KindOf(u, p) == Absent
  {
    var r :| RulesOut(seen, t, r, p);
    if p in u {
      if r != p { AncestorsAreDirectories(u, r, p); }
      if r != [] && Parent(r) in seen.dirs && r !in t {
        var name := r[|r| - 1];
        assert r == Parent(r) + [name];
        NamesSpec(t, Parent(r), name);
        NamesSpec(u, Parent(r), name);
      }
    }
  }

  // ---------- and which it does not ----------

  /** The kind of `p` is the same in every tree the read set accepts. */
  ghost predicate Pinned(seen: Reads, t: Tree, p: Path) {
    forall u | WellFormed(u) && Valid(seen, u) :: KindOf(u, p) == KindOf(t, p)
  }

  /** An accepted tree in which `p`, not settled by the read set, is something else. */
  lemma OtherTree(seen: Reads, t: Tree, p: Path) returns (u: Tree)
    requires WellFormed(t) && True(seen, t) && !Known(seen, t, p)
    ensures WellFormed(u) && Valid(seen, u) && KindOf(u, p) != KindOf(t, p)
    ensures KindOf(u, p) == Directory || KindOf(t, p) == Directory
  {
    match KindOf(t, p)
    case Regular => u := FileToDirectory(seen, t, p);
    case Directory =>
      if Parent(p) in seen.dirs {
        u := DirectoryToFile(seen, t, p);
      } else {
        u := DirectoryRemoved(seen, t, p);
      }
    case Absent => u := DirectoryAdded(seen, t, p);
  }

  lemma FileToDirectory(seen: Reads, t: Tree, p: Path) returns (u: Tree)
    requires WellFormed(t) && True(seen, t) && KindOf(t, p) == Regular && !KnownRegular(seen, p)
    ensures WellFormed(u) && Valid(seen, u) && u == t[p := Dir]
  {
    u := t[p := Dir];
    assert u.Keys == t.Keys;
    forall q ensures Names(u, q) == Names(t, q) {}
  }

  /** The tree without anything strictly below `p`. */
  ghost function Pruned(t: Tree, p: Path): Tree {
    map q | q in t && !(Prefix(p, q) && q != p) :: t[q]
  }

  lemma PrunedNames(t: Tree, p: Path, q: Path)
    requires !Prefix(p, q)
    ensures Names(Pruned(t, p), q) == Names(t, q)
  {
    forall name ensures name in Names(Pruned(t, p), q) <==> name in Names(t, q) {
      NamesSpec(t, q, name);
      NamesSpec(Pruned(t, p), q, name);
      var r := q + [name];
      assert |p| <= |q| ==> r[..|p|] == q[..|p|];
    }
  }

  lemma NothingSeenBelow(seen: Reads, t: Tree, p: Path, q: Path)
    requires True(seen, t) && p != [] && !KnownDirectory(seen, p) && Prefix(p, q) && q != p
    ensures q !in seen.dirs
    ensures Kept(seen, q) ==> seen.nodes[q] == Absent
    ensures q in seen.files ==> seen.files[q] == NoDigest
  {
    assert !SeenPresent(seen, q);
  }

  lemma DirectoryToFile(seen: Reads, t: Tree, p: Path) returns (u: Tree)
    requires WellFormed(t) && True(seen, t) && KindOf(t, p) == Directory
    requires p != [] && !KnownDirectory(seen, p) && p !in seen.files
    ensures WellFormed(u) && Valid(seen, u) && KindOf(u, p) == Regular
    ensures forall q | !Prefix(p, q) :: KindOf(u, q) == KindOf(t, q)
  {
    u := Pruned(t, p)[p := File("")];
    forall q | q in seen.dirs ensures KindOf(u, q) == Directory && Names(u, q) == seen.dirs[q] {
      if Prefix(p, q) {
        if q != p { NothingSeenBelow(seen, t, p, q); }
      } else {
        PrunedNames(t, p, q);
        assert u.Keys == Pruned(t, p).Keys;
        assert Names(u, q) == Names(Pruned(t, p), q);
      }
    }
    forall q | q in seen.files ensures FileDigest(u, q) == seen.files[q] {
      if Prefix(p, q) && q != p { NothingSeenBelow(seen, t, p, q); }
    }
    forall q | Kept(seen, q) ensures KindOf(u, q) == seen.nodes[q] {
      if Prefix(p, q) && q != p { NothingSeenBelow(seen, t, p, q); }
    }
    forall q | q in u && q != [] ensures Parent(q) in u && u[Parent(q)] == Dir {
      ParentSurvives(t, p, q);
    }
  }

  lemma ParentSurvives(t: Tree, p: Path, q: Path)
    requires WellFormed(t) && q in Pruned(t, p) && q != [] && p in t
    ensures Parent(q) in Pruned(t, p) && t[Parent(q)] == Dir
    ensures Parent(q) != p
  {
    PrefixOfParent(p, q);
  }

  lemma PrefixOfParent(p: Path, q: Path)
    requires q != []
    ensures Prefix(p, Parent(q)) <==> Prefix(p, q) && p != q
  {
    if |p| < |q| { assert Parent(q)[..|p|] == q[..|p|]; }
  }

  lemma DirectoryRemoved(seen: Reads, t: Tree, p: Path) returns (u: Tree)
    requires WellFormed(t) && True(seen, t) && KindOf(t, p) == Directory
    requires p != [] && !KnownDirectory(seen, p) && Parent(p) !in seen.dirs
    ensures WellFormed(u) && Valid(seen, u) && KindOf(u, p) == Absent
    ensures forall q | !Prefix(p, q) :: KindOf(u, q) == KindOf(t, q)
  {
    u := map q | q in Pruned(t, p) && q != p :: t[q];
    forall q | q in seen.dirs ensures KindOf(u, q) == Directory && Names(u, q) == seen.dirs[q] {
      if Prefix(p, q) {
        if q != p { NothingSeenBelow(seen, t, p, q); }
      } else {
        PrunedNames(t, p, q);
        forall name ensures name in Names(u, q) <==> name in Names(t, q) {
          NamesSpec(u, q, name);
          NamesSpec(Pruned(t, p), q, name);
          assert Parent(q + [name]) == q;
        }
      }
    }
    forall q | q in seen.files ensures FileDigest(u, q) == seen.files[q] {
      if Prefix(p, q) && q != p { NothingSeenBelow(seen, t, p, q); }
    }
    forall q | Kept(seen, q) ensures KindOf(u, q) == seen.nodes[q] {
      if Prefix(p, q) && q != p { NothingSeenBelow(seen, t, p, q); }
    }
    forall q | q in u && q != [] ensures Parent(q) in u && u[Parent(q)] == Dir {
      ParentSurvives(t, p, q);
    }
  }

  /** The tree with `p` and everything above it a directory. */
  ghost function WithDirectory(t: Tree, p: Path): Tree {
    t + map k | 0 <= k <= |p| :: p[..k] := Dir
  }

  lemma WithDirectorySpec(t: Tree, p: Path, q: Path)
    ensures q in WithDirectory(t, p) <==> q in t || Prefix(q, p)
    ensures Prefix(q, p) ==> WithDirectory(t, p)[q] == Dir
    ensures q in t && !Prefix(q, p) ==> WithDirectory(t, p)[q] == t[q]
  {
    var above := map k | 0 <= k <= |p| :: p[..k] := Dir;
    if Prefix(q, p) {
      assert q == p[..|q|];
      assert q in above;
    }
  }

  lemma DirectoryAdded(seen: Reads, t: Tree, p: Path) returns (u: Tree)
    requires WellFormed(t) && True(seen, t) && KindOf(t, p) == Absent && !KnownAbsent(seen, t, p)
    ensures WellFormed(u) && Valid(seen, u) && KindOf(u, p) == Directory && u == WithDirectory(t, p)
  {
    u := WithDirectory(t, p);
    WithDirectorySpec(t, p, p);
    WithDirectorySpec(t, p, []);
    forall q | q in u && q != [] ensures Parent(q) in u && u[Parent(q)] == Dir {
      WithDirectorySpec(t, p, q);
      WithDirectorySpec(t, p, Parent(q));
      if Prefix(q, p) { assert Parent(q) == p[..|q| - 1]; }
    }
    forall q | q in seen.dirs ensures KindOf(u, q) == Directory && Names(u, q) == seen.dirs[q] {
      AddedListing(seen, t, p, q);
    }
    forall q | q in seen.files ensures FileDigest(u, q) == seen.files[q] {
      WithDirectorySpec(t, p, q);
      assert !RulesOut(seen, t, q, p);
    }
    forall q | Kept(seen, q) ensures KindOf(u, q) == seen.nodes[q] {
      WithDirectorySpec(t, p, q);
      assert !RulesOut(seen, t, q, p);
    }
  }

  lemma AddedListing(seen: Reads, t: Tree, p: Path, q: Path)
    requires WellFormed(t) && True(seen, t) && KindOf(t, p) == Absent && !KnownAbsent(seen, t, p)
    requires q in seen.dirs
    ensures KindOf(WithDirectory(t, p), q) == Directory && Names(WithDirectory(t, p), q) == seen.dirs[q]
  {
    var u := WithDirectory(t, p);
    WithDirectorySpec(t, p, q);
    forall name ensures name in Names(u, q) <==> name in Names(t, q) {
      var r := q + [name];
      NamesSpec(t, q, name);
      NamesSpec(u, q, name);
      WithDirectorySpec(t, p, r);
      assert Parent(r) == q;
      assert !RulesOut(seen, t, r, p);
    }
  }

  /** Nothing recorded of an empty directory keeps it from being a file. */
  lemma EmptyDirectoryToFile(seen: Reads, v: Tree, p: Path) returns (u: Tree)
    requires WellFormed(v) && Valid(seen, v) && p in v && p != [] && Names(v, p) == {}
    requires p !in seen.files && p !in seen.dirs && !Kept(seen, p)
    ensures WellFormed(u) && Valid(seen, u) && KindOf(u, p) == Regular
  {
    u := v[p := File("")];
    assert u.Keys == v.Keys;
    forall q ensures Names(u, q) == Names(v, q) {}
    forall q | q in u && q != [] ensures Parent(q) in u && u[Parent(q)] == Dir {
      NamesOfParent(v, q);
    }
  }

  lemma NamesOfParent(t: Tree, q: Path)
    requires q in t && q != []
    ensures Names(t, Parent(q)) != {}
  {
    assert q[|q| - 1] in Names(t, Parent(q));
  }

  lemma FileAdded(seen: Reads, t: Tree, p: Path) returns (u: Tree)
    requires WellFormed(t) && True(seen, t) && KindOf(t, p) == Absent && !KnownAbsent(seen, t, p)
    requires p !in seen.files
    ensures WellFormed(u) && Valid(seen, u) && KindOf(u, p) == Regular
  {
    var v := DirectoryAdded(seen, t, p);
    assert p !in seen.dirs && !Kept(seen, p) by { assert !RulesOut(seen, t, p, p); }
    NoNamesAdded(t, p);
    hide *;
    u := EmptyDirectoryToFile(seen, v, p);
  }

  lemma NoNamesAdded(t: Tree, p: Path)
    requires WellFormed(t) && p !in t
    ensures p != [] && p in WithDirectory(t, p) && Names(WithDirectory(t, p), p) == {}
  {
    WithDirectorySpec(t, p, p);
    forall name ensures name !in Names(WithDirectory(t, p), p) {
      NamesSpec(WithDirectory(t, p), p, name);
      WithDirectorySpec(t, p, p + [name]);
      assert Parent(p + [name]) == p;
    }
  }

  /** The kinds a read set pins down are exactly those its records settle: a caller can look the
      path up in the read set, and need not try other trees. */
  lemma PinnedIffKnown(seen: Reads, t: Tree, p: Path)
    requires WellFormed(t) && True(seen, t)
    ensures Pinned(seen, t, p) <==> Known(seen, t, p)
  {
    if Known(seen, t, p) {
      forall u | WellFormed(u) && Valid(seen, u) ensures KindOf(u, p) == KindOf(t, p) {
        KnownIsPinned(seen, t, u, p);
      }
    } else {
      var u := OtherTree(seen, t, p);
    }
  }

  /** The read set keeps `p` from being a regular file, though perhaps not from vanishing. */
  ghost predicate NeverRegular(seen: Reads, t: Tree, p: Path) {
    || (p in seen.files && seen.files[p] == NoDigest)
    || (KindOf(t, p) != Regular && Known(seen, t, p))
  }

  lemma NeverRegularIff(seen: Reads, t: Tree, p: Path)
    requires WellFormed(t) && True(seen, t) && KindOf(t, p) != Regular
    ensures (forall u | WellFormed(u) && Valid(seen, u) :: KindOf(u, p) != Regular) <==> NeverRegular(seen, t, p)
  {
    if NeverRegular(seen, t, p) {
      forall u | WellFormed(u) && Valid(seen, u) ensures KindOf(u, p) != Regular {
        if p in seen.files && seen.files[p] == NoDigest {
          assert FileDigest(u, p) == NoDigest;
        } else {
          KnownIsPinned(seen, t, u, p);
        }
      }
    } else if KindOf(t, p) == Directory {
      var u := DirectoryToFile(seen, t, p);
    } else {
      var u := FileAdded(seen, t, p);
    }
  }

  lemma NeverDirectoryIff(seen: Reads, t: Tree, p: Path)
    requires WellFormed(t) && True(seen, t) && KindOf(t, p) != Directory
    ensures (forall u | WellFormed(u) && Valid(seen, u) :: KindOf(u, p) != Directory) <==> Known(seen, t, p)
  {
    if Known(seen, t, p) {
      forall u | WellFormed(u) && Valid(seen, u) ensures KindOf(u, p) != Directory {
        KnownIsPinned(seen, t, u, p);
      }
    } else {
      var u := OtherTree(seen, t, p);
      assert KindOf(u, p) == Directory;
    }
  }

  /** A recorded node that is not settled was also read with an error; then it may vanish or appear. */
  lemma OtherPresence(seen: Reads, t: Tree, p: Path) returns (u: Tree)
    requires WellFormed(t) && True(seen, t) && p in seen.nodes && !Known(seen, t, p)
    ensures WellFormed(u) && Valid(seen, u) && (p in u) != (p in t)
  {
    assert KindOf(t, p) != Regular && p in seen.files by { RecordedUnsettled(seen, t, p); }
    if KindOf(t, p) == Directory {
      u := DirectoryRemoved(seen, t, p);
    } else {
      u := DirectoryAdded(seen, t, p);
    }
  }

  lemma RecordedUnsettled(seen: Reads, t: Tree, p: Path)
    requires True(seen, t) && p in seen.nodes && !Known(seen, t, p)
    ensures KindOf(t, p) != Regular && p in seen.files && seen.files[p] == NoDigest
  {
    if p !in seen.files && KindOf(t, p) == Absent {
      assert RulesOut(seen, t, p, p);
    }
  }

  // ---------- a directory that gains a name ----------

  lemma {:induction false} LongerThanAll(taken: set<Path>) returns (n: nat)
    ensures forall q | q in taken && q != [] :: |q[|q| - 1]| < n
    decreases taken
  {
    n := 0;
    if taken != {} {
      var q :| q in taken;
      var m := LongerThanAll(taken - {q});
      n := if q != [] && m <= |q[|q| - 1]| then |q[|q| - 1]| + 1 else m;
      forall r | r in taken && r != [] ensures |r[|r| - 1]| < n {
        assert r != q ==> r in taken - {q};
      }
    }
  }

  lemma FreshName(taken: set<Path>, p: Path) returns (name: string)
    ensures p + [name] !in taken
  {
    var n := LongerThanAll(taken);
    name := seq(n, _ => 'x');
    var q := p + [name];
    assert q[|q| - 1] == name;
  }

  /** Where `p` is not known to be absent, it may be a directory with something in it. */
  lemma ChildAdded(seen: Reads, t: Tree, p: Path, taken: set<Path>) returns (u: Tree, name: string)
    requires WellFormed(t) && True(seen, t) && KindOf(t, p) == Absent && !KnownAbsent(seen, t, p)
    ensures WellFormed(u) && Valid(seen, u) && KindOf(u, p) == Directory
    ensures p + [name] in u && p + [name] !in t && p + [name] !in taken
  {
    name := FreshName(taken + t.Keys + seen.nodes.Keys, p);
    var q := p + [name];
    assert Parent(q) == p && Prefix(p, q) by { assert q[..|p|] == p; }
    forall r ensures !RulesOut(seen, t, r, q) {
      if Prefix(r, q) && r != q {
        assert r == p[..|r|];
        assert !RulesOut(seen, t, r, p);
      }
    }
    u := DirectoryAdded(seen, t, q);
    WithDirectorySpec(t, q, p);
    WithDirectorySpec(t, q, q);
  }
}
