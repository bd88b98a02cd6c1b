/** The overlay one render builds in, what it records, and why a recorded read set may stand in for
    building again (pkg/kustomize/treefs.go, 134-248, 317-330 and 360-370; pkg/kustomize/readset.go,
    79-112, 176-222 and 239-279). */
module RenderOverlay {
  import opened SourceTree

  datatype Op =
    | Exists(path: Path)
    | IsDir(path: Path)
    | ReadFile(path: Path)
    | ReadDir(path: Path)
    | WriteFile(path: Path, data: Data)

  datatype Error = NotExist | IsADirectory | NotADirectory | Conflict | Invalid

  datatype Answer =
    | Bool(value: bool)
    | Content(data: Data)
    | Listing(names: set<string>)
    | Written
    | Failed(error: Error)

  /** The mutable part of a render: nodes written over the source, paths changed by writes, and
      the recorded reads. */
  datatype Overlay = Overlay(upper: Tree, changed: set<Path>, seen: Reads)

  const START := Overlay(map[], {}, NO_READS)

  function View(t: Tree, o: Overlay): Tree {
    t + o.upper
  }

  predicate Modified(o: Overlay, p: Path) {
    exists k | 0 <= k <= |p| :: p[..k] in o.changed
  }

  function SeeNode(t: Tree, o: Overlay, p: Path): Overlay {
    if Modified(o, p) then o
    else o.(seen := o.seen.(nodes := o.seen.nodes[p := KindOf(t, p)]))
  }

  function SeeFile(o: Overlay, p: Path, digest: Digest): Overlay {
    if Modified(o, p) then o
    else o.(seen := o.seen.(files := o.seen.files[p := digest]))
  }

  function SeeDir(t: Tree, o: Overlay, p: Path): Overlay {
    if Modified(o, p) || KindOf(t, p) != Directory then o
    else o.(seen := o.seen.(dirs := o.seen.dirs[p := Names(t, p)]))
  }

  function Above(p: Path): Tree {
    map k | 0 <= k < |p| :: p[..k] := Dir
  }

  predicate FileAbove(view: Tree, p: Path) {
    exists k | 0 <= k < |p| :: p[..k] in view && view[p[..k]].File?
  }

  function Write(o: Overlay, p: Path, data: Data): Overlay {
    o.(upper := o.upper + Above(p) + map[p := File(data)], changed := o.changed + {p})
  }

  /** One call of the render's filesystem: the new overlay and the answer. */
  function Step(t: Tree, o: Overlay, op: Op): (Overlay, Answer) {
    var view := View(t, o);
    var p := op.path;
    match op
    case Exists(_) => (SeeNode(t, o, p), Bool(p in view))
    case IsDir(_) => (SeeNode(t, o, p), Bool(KindOf(view, p) == Directory))
    case ReadFile(_) =>
      if p !in view then (o, Failed(NotExist))
      else if view[p].Dir? then (SeeFile(o, p, NoDigest), Failed(IsADirectory))
      else (SeeFile(o, p, Sha256(view[p].data)), Content(view[p].data))
    case ReadDir(_) =>
      if p !in view then (o, Failed(NotExist))
      else (SeeDir(t, o, p), if view[p].Dir? then Listing(Names(view, p)) else Failed(NotADirectory))
    case WriteFile(_, data) =>
      if p == [] then (o, Failed(Invalid))
      else if KindOf(view, p) == Directory || FileAbove(view, p) then (o, Failed(Conflict))
      else (Write(o, p, data), Written)
  }

  // ---------- the invariant of a render ----------

  ghost predicate Inv(t: Tree, o: Overlay) {
    True(o.seen, t) && Sound(t, o)
  }

  /** What was written fits over the tree. */
  ghost predicate Sound(t: Tree, o: Overlay) {
    && (forall p | p in o.changed :: p in o.upper && o.upper[p].File?)
    && (forall p | p in o.upper && o.upper[p].File? :: p in o.changed && KindOf(t, p) != Directory)
    && (forall p | p in o.upper && o.upper[p].Dir? :: KindOf(t, p) != Regular)
    && (forall p | p in o.upper && p != [] :: Parent(p) in o.upper && o.upper[Parent(p)] == Dir)
  }

  lemma StartInv(t: Tree)
    ensures Inv(t, START)
  {
  }

  lemma AboveSpec(p: Path, q: Path)
    ensures q in Above(p) <==> Prefix(q, p) && q != p
    ensures q in Above(p) ==> Above(p)[q] == Dir
  {
    if Prefix(q, p) && q != p { assert q == p[..|q|]; }
  }

  lemma {:induction false} UpperAbove(o: Overlay, t: Tree, q: Path, p: Path)
    requires Sound(t, o) && p in o.upper && Prefix(q, p) && q != p
    ensures q in o.upper && o.upper[q] == Dir
    decreases |p|
  {
    var r := Parent(p);
    if q != r {
      assert r[..|q|] == q;
      UpperAbove(o, t, q, r);
    }
  }

  /** A modified path is a written file, or is below one and does not exist. */
  lemma ModifiedView(t: Tree, o: Overlay, p: Path)
    requires WellFormed(t) && Sound(t, o) && Modified(o, p)
    ensures p in o.changed ==> View(t, o)[p] == o.upper[p]
    ensures p !in o.changed ==> p !in View(t, o) && p !in o.upper
  {
    if p !in o.changed {
      var k :| 0 <= k <= |p| && p[..k] in o.changed;
      var a := p[..k];
      if p in o.upper { UpperAbove(o, t, a, p); }
      if p in t { AncestorsAreDirectories(t, a, p); }
    }
  }

  /** An unmodified path shows the source, except where writes below it made a directory. */
  lemma UnmodifiedView(t: Tree, o: Overlay, p: Path)
    requires Sound(t, o) && !Modified(o, p)
    ensures p in o.upper ==> View(t, o)[p] == Dir && KindOf(t, p) != Regular
    ensures p !in o.upper ==> KindOf(View(t, o), p) == KindOf(t, p) && (p in t ==> View(t, o)[p] == t[p])
  {
    assert p[..|p|] == p;
  }

  lemma StepKeepsInv(t: Tree, o: Overlay, op: Op)
    requires WellFormed(t) && Inv(t, o)
    ensures Inv(t, Step(t, o, op).0)
  {
    var p := op.path;
    match op
    case Exists(_) =>
    case IsDir(_) =>
    case ReadFile(_) =>
      if !Modified(o, p) { UnmodifiedView(t, o, p); }
    case ReadDir(_) =>
    case WriteFile(_, data) =>
      if Step(t, o, op).1 == Written { WriteKeepsInv(t, o, p, data); }
  }

  lemma WriteUpper(o: Overlay, p: Path, data: Data, q: Path)
    ensures q in Write(o, p, data).upper <==> q in o.upper || Prefix(q, p)
    ensures q == p ==> Write(o, p, data).upper[q] == File(data)
    ensures q != p && Prefix(q, p) ==> Write(o, p, data).upper[q] == Dir
    ensures q in o.upper && !Prefix(q, p) ==> Write(o, p, data).upper[q] == o.upper[q]
  {
    AboveSpec(p, q);
    assert p == p[..|p|];
  }

  lemma WriteKeepsInv(t: Tree, o: Overlay, p: Path, data: Data)
    requires WellFormed(t) && Inv(t, o) && p != []
    requires KindOf(View(t, o), p) != Directory && !FileAbove(View(t, o), p)
    ensures Inv(t, Write(o, p, data))
  {
    var n := Write(o, p, data);
    forall q | q in n.upper
      ensures n.upper[q].File? ==> q in n.changed && KindOf(t, q) != Directory
      ensures n.upper[q].Dir? ==> KindOf(t, q) != Regular
    {
      WriteUpper(o, p, data, q);
      WriteKinds(t, o, p, q);
    }
    forall q | q in n.changed ensures q in n.upper && n.upper[q].File? {
      WriteUpper(o, p, data, q);
      WriteKinds(t, o, p, q);
    }
    forall q | q in n.upper && q != [] ensures Parent(q) in n.upper && n.upper[Parent(q)] == Dir {
      WriteParent(t, o, p, data, q);
    }
  }

  /** Above the written path there are no files; at it there was no directory. */
  lemma WriteKinds(t: Tree, o: Overlay, p: Path, q: Path)
    requires WellFormed(t) && Inv(t, o)
    requires KindOf(View(t, o), p) != Directory && !FileAbove(View(t, o), p)
    ensures Prefix(q, p) && q != p ==> q !in o.changed && KindOf(t, q) != Regular
    ensures q == p ==> KindOf(t, q) != Directory && (q in o.upper ==> o.upper[q].File?)
  {
    if Prefix(q, p) && q != p {
      assert q == p[..|q|];
      assert !(q in View(t, o) && View(t, o)[q].File?);
    }
  }

  lemma WriteParent(t: Tree, o: Overlay, p: Path, data: Data, q: Path)
    requires WellFormed(t) && Inv(t, o) && p != []
    requires KindOf(View(t, o), p) != Directory && !FileAbove(View(t, o), p)
    requires q in Write(o, p, data).upper && q != []
    ensures Parent(q) in Write(o, p, data).upper && Write(o, p, data).upper[Parent(q)] == Dir
  {
    var r := Parent(q);
    WriteUpper(o, p, data, q);
    WriteUpper(o, p, data, r);
    WriteKinds(t, o, p, p);
    hide Write, WellFormed, FileAbove;
    if Prefix(q, p) {
      assert r == p[..|q| - 1];
    } else {
      assert r in o.upper && o.upper[r] == Dir;
      assert r != p;
    }
  }

  // ---------- which answers the read set decides ----------

  /** The records of one step are among the records of the whole run. */
  ghost predicate Includes(all: Reads, some: Reads) {
    && (forall p | p in some.files :: p in all.files)
    && (forall p | p in some.dirs :: p in all.dirs)
    && (forall p | p in some.nodes :: p in all.nodes)
  }

  /** What the path shows does not depend on the tree below the overlay. */
  predicate Covered(o: Overlay, p: Path) {
    p in o.upper || Modified(o, p)
  }

  /** Something in the source at `p[..k]` keeps `p` from being written. */
  predicate Obstructs(t: Tree, p: Path, k: nat)
    requires k <= |p|
  {
    if k == |p| then KindOf(t, p) == Directory else KindOf(t, p[..k]) == Regular
  }

  /** Either something known obstructs the write, or nothing does and nothing may. */
  ghost predicate WriteDecided(seen: Reads, t: Tree, o: Overlay, p: Path) {
    || (exists k :: 0 <= k <= |p| && p[..k] !in o.upper && Obstructs(t, p, k) && Known(seen, t, p[..k]))
    || (forall k | 0 <= k <= |p| && p[..k] !in o.upper ::
          !Obstructs(t, p, k) && if k == |p| then Known(seen, t, p) else NeverRegular(seen, t, p[..k]))
  }

  /** The answer to `op` depends on nothing but what the overlay wrote and the read set settles. */
  ghost predicate Decided(seen: Reads, t: Tree, o: Overlay, op: Op) {
    var p := op.path;
    match op
    case ReadDir(_) => Modified(o, p) || Known(seen, t, p)
    case WriteFile(_, _) => p == [] || Covered(o, p) || WriteDecided(seen, t, o, p)
    case _ => Covered(o, p) || Known(seen, t, p)
  }

  /** Decided, and where a probe is recorded, so is the record. */
  ghost predicate Settled(seen: Reads, t: Tree, o: Overlay, op: Op) {
    && Decided(seen, t, o, op)
    && (op.Exists? || op.IsDir? ==> Modified(o, op.path) || Known(seen, t, op.path))
  }

  /** A tree the read set of a run on `t` accepts. */
  ghost predicate Accepted(seen: Reads, t: Tree, u: Tree) {
    WellFormed(t) && WellFormed(u) && True(seen, t) && Valid(seen, u)
  }

  lemma SettledKind(seen: Reads, t: Tree, u: Tree, o: Overlay, p: Path)
    requires Accepted(seen, t, u) && Sound(t, o) && Sound(u, o) && (Covered(o, p) || Known(seen, t, p))
    ensures KindOf(View(u, o), p) == KindOf(View(t, o), p)
    ensures p in o.upper ==> View(u, o)[p] == View(t, o)[p]
  {
    if p !in o.upper {
      if Modified(o, p) {
        ModifiedView(t, o, p);
        ModifiedView(u, o, p);
      } else {
        KnownIsPinned(seen, t, u, p);
        UnmodifiedView(t, o, p);
        UnmodifiedView(u, o, p);
      }
    }
  }

  lemma ProbeAgrees(seen: Reads, t: Tree, u: Tree, o: Overlay, op: Op)
    requires Accepted(seen, t, u) && Sound(t, o) && Sound(u, o)
    requires (op.Exists? || op.IsDir?) && Decided(seen, t, o, op)
    ensures Step(u, o, op).1 == Step(t, o, op).1
    ensures Modified(o, op.path) || Known(seen, t, op.path) ==> Step(u, o, op).0 == Step(t, o, op).0
  {
    SettledKind(seen, t, u, o, op.path);
    if !Modified(o, op.path) && Known(seen, t, op.path) { KnownIsPinned(seen, t, u, op.path); }
  }

  lemma ReadAgrees(seen: Reads, t: Tree, u: Tree, o: Overlay, op: Op)
    requires Accepted(seen, t, u) && Sound(t, o) && Sound(u, o)
    requires op.ReadFile? && Decided(seen, t, o, op) && Includes(seen, Step(t, o, op).0.seen)
    ensures Step(u, o, op) == Step(t, o, op)
  {
    var p := op.path;
    SettledKind(seen, t, u, o, p);
    if p !in o.upper && KindOf(View(t, o), p) == Regular {
      if Modified(o, p) {
        ModifiedView(t, o, p);
        assert false;
      } else {
        UnmodifiedView(t, o, p);
        UnmodifiedView(u, o, p);
        assert p in Step(t, o, op).0.seen.files;
        assert FileDigest(u, p) == FileDigest(t, p);
      }
    }
  }

  lemma ListAgrees(seen: Reads, t: Tree, u: Tree, o: Overlay, op: Op)
    requires Accepted(seen, t, u) && Sound(t, o) && Sound(u, o)
    requires op.ReadDir? && Decided(seen, t, o, op) && Includes(seen, Step(t, o, op).0.seen)
    ensures Step(u, o, op) == Step(t, o, op)
  {
    var p := op.path;
    SettledKind(seen, t, u, o, p);
    if Modified(o, p) {
      ModifiedView(t, o, p);
      ModifiedView(u, o, p);
    } else {
      KnownIsPinned(seen, t, u, p);
      if KindOf(View(t, o), p) == Directory {
        if KindOf(t, p) == Directory {
          assert p in Step(t, o, op).0.seen.dirs;
          assert Names(t, p) == Names(u, p);
        } else {
          NoNames(t, p);
          NoNames(u, p);
        }
        MergedNames(t, u, o, p);
      }
    }
  }

  lemma NoNames(t: Tree, p: Path)
    requires WellFormed(t) && KindOf(t, p) != Directory
    ensures Names(t, p) == {}
  {
  }

  lemma MergedNames(t: Tree, u: Tree, o: Overlay, p: Path)
    requires Names(t, p) == Names(u, p)
    ensures Names(View(t, o), p) == Names(View(u, o), p)
  {
    forall name ensures name in Names(View(t, o), p) <==> name in Names(View(u, o), p) {
      NamesSpec(t, p, name);
      NamesSpec(u, p, name);
      NamesSpec(View(t, o), p, name);
      NamesSpec(View(u, o), p, name);
    }
  }

  // ---------- when a write succeeds ----------

  /** A write succeeds over what was written before, or not, whatever the tree below is. */
  lemma CoveredWrite(t: Tree, o: Overlay, p: Path)
    requires Sound(t, o) && p != [] && Covered(o, p)
    ensures KindOf(View(t, o), p) == Directory || FileAbove(View(t, o), p) <==>
            !(p in o.upper && o.upper[p].File?)
  {
    if p in o.upper {
      forall k | 0 <= k < |p| ensures p[..k] in View(t, o) && View(t, o)[p[..k]] == Dir {
        UpperAbove(o, t, p[..k], p);
      }
    } else {
      var k :| 0 <= k <= |p| && p[..k] in o.changed;
      assert p == p[..|p|];
      assert View(t, o)[p[..k]].File?;
    }
  }

  /** Elsewhere it fails exactly when something in the source, not covered by a write, obstructs it. */
  lemma OpenWrite(t: Tree, o: Overlay, p: Path)
    requires Sound(t, o) && p != [] && !Covered(o, p)
    ensures KindOf(View(t, o), p) == Directory || FileAbove(View(t, o), p) <==>
            exists k :: 0 <= k <= |p| && p[..k] !in o.upper && Obstructs(t, p, k)
  {
    assert p == p[..|p|];
    if k :| 0 <= k < |p| && p[..k] in View(t, o) && View(t, o)[p[..k]].File? {
      assert p[..k] !in o.changed;
      assert Obstructs(t, p, k);
    }
    if KindOf(View(t, o), p) == Directory { assert Obstructs(t, p, |p|); }
    if k :| 0 <= k <= |p| && p[..k] !in o.upper && Obstructs(t, p, k) {
      assert KindOf(View(t, o), p[..k]) == KindOf(t, p[..k]);
    }
  }

  lemma WriteAnswer(t: Tree, o: Overlay, op: Op)
    requires op.WriteFile? && op.path != []
    ensures KindOf(View(t, o), op.path) == Directory || FileAbove(View(t, o), op.path) ==>
              Step(t, o, op) == (o, Failed(Conflict))
    ensures !(KindOf(View(t, o), op.path) == Directory || FileAbove(View(t, o), op.path)) ==>
              Step(t, o, op) == (Write(o, op.path, op.data), Written)
  {
  }

  lemma WriteAgrees(seen: Reads, t: Tree, u: Tree, o: Overlay, op: Op)
    requires Accepted(seen, t, u) && Sound(t, o) && Sound(u, o)
    requires op.WriteFile? && Decided(seen, t, o, op)
    ensures Step(u, o, op) == Step(t, o, op)
  {
    var p := op.path;
    if p != [] {
      WriteAnswer(t, o, op);
      WriteAnswer(u, o, op);
      hide Step, Write, View, FileAbove, Modified, Sound;
      if Covered(o, p) {
        CoveredWrite(t, o, p);
        CoveredWrite(u, o, p);
      } else {
        OpenWrite(t, o, p);
        OpenWrite(u, o, p);
        ObstructionsAgree(seen, t, u, o, p);
      }
    }
  }

  lemma ObstructionsAgree(seen: Reads, t: Tree, u: Tree, o: Overlay, p: Path)
    requires Accepted(seen, t, u) && WriteDecided(seen, t, o, p)
    ensures (exists k :: 0 <= k <= |p| && p[..k] !in o.upper && Obstructs(t, p, k)) <==>
            (exists k :: 0 <= k <= |p| && p[..k] !in o.upper && Obstructs(u, p, k))
  {
    hide Known, NeverRegular, WellFormed, True, Valid;
    assert p == p[..|p|];
    if k :| 0 <= k <= |p| && p[..k] !in o.upper && Obstructs(t, p, k) && Known(seen, t, p[..k]) {
      KnownIsPinned(seen, t, u, p[..k]);
      assert Obstructs(u, p, k);
    } else {
      forall k | 0 <= k <= |p| && p[..k] !in o.upper ensures !Obstructs(u, p, k) {
        if k == |p| {
          KnownIsPinned(seen, t, u, p);
        } else {
          NeverRegularIff(seen, t, p[..k]);
        }
      }
    }
  }

  lemma AnswerAgrees(seen: Reads, t: Tree, u: Tree, o: Overlay, op: Op)
    requires Accepted(seen, t, u) && Sound(t, o) && Sound(u, o)
    requires Decided(seen, t, o, op) && Includes(seen, Step(t, o, op).0.seen)
    ensures Step(u, o, op).1 == Step(t, o, op).1
    ensures op.Exists? || op.IsDir? || Step(u, o, op).0 == Step(t, o, op).0
  {
    hide *;
    match op
    case Exists(_) => ProbeAgrees(seen, t, u, o, op);
    case IsDir(_) => ProbeAgrees(seen, t, u, o, op);
    case ReadFile(_) => ReadAgrees(seen, t, u, o, op);
    case ReadDir(_) => ListAgrees(seen, t, u, o, op);
    case WriteFile(_, _) => WriteAgrees(seen, t, u, o, op);
  }

  lemma StepAgrees(seen: Reads, t: Tree, u: Tree, o: Overlay, op: Op)
    requires Accepted(seen, t, u) && Sound(t, o) && Sound(u, o)
    requires Settled(seen, t, o, op) && Includes(seen, Step(t, o, op).0.seen)
    ensures Step(u, o, op) == Step(t, o, op)
  {
    hide Step, Decided, Accepted, Sound, Includes, Modified, Known;
    AnswerAgrees(seen, t, u, o, op);
    if op.Exists? || op.IsDir? { ProbeAgrees(seen, t, u, o, op); }
  }

  // ---------- and which it does not ----------

  lemma ProbeUndecided(seen: Reads, t: Tree, o: Overlay, op: Op) returns (u: Tree)
    requires WellFormed(t) && True(seen, t) && Includes(seen, Step(t, o, op).0.seen)
    requires (op.Exists? || op.IsDir?) && !Decided(seen, t, o, op)
    ensures WellFormed(u) && Valid(seen, u) && Step(u, o, op).1 != Step(t, o, op).1
  {
    var p := op.path;
    if op.Exists? {
      assert p in Step(t, o, op).0.seen.nodes;
      u := OtherPresence(seen, t, p);
    } else {
      u := OtherTree(seen, t, p);
    }
    hide WellFormed, True, Valid, Known, Includes;
    UncoveredKind(t, o, p);
    UncoveredKind(u, o, p);
  }

  lemma UncoveredKind(t: Tree, o: Overlay, p: Path)
    requires p !in o.upper
    ensures KindOf(View(t, o), p) == KindOf(t, p)
  {
  }

  lemma ReadUndecided(seen: Reads, t: Tree, o: Overlay, op: Op) returns (u: Tree)
    requires WellFormed(t) && True(seen, t) && op.ReadFile? && !Decided(seen, t, o, op)
    ensures WellFormed(u) && Valid(seen, u) && Step(u, o, op).1 != Step(t, o, op).1
  {
    u := OtherTree(seen, t, op.path);
    hide WellFormed, True, Valid, Known;
    UncoveredKind(t, o, op.path);
    UncoveredKind(u, o, op.path);
  }

  /** Below a directory made by a write, an accepted tree may have one of its own with more in it. */
  lemma ListUndecided(seen: Reads, t: Tree, o: Overlay, op: Op) returns (u: Tree)
    requires WellFormed(t) && True(seen, t) && Sound(t, o) && Includes(seen, Step(t, o, op).0.seen)
    requires op.ReadDir? && !Decided(seen, t, o, op)
    ensures WellFormed(u) && Valid(seen, u) && Step(u, o, op).1 != Step(t, o, op).1
  {
    var p := op.path;
    if p !in o.upper {
      u := OtherTree(seen, t, p);
      hide WellFormed, True, Valid, Known, Includes;
      UncoveredKind(t, o, p);
      UncoveredKind(u, o, p);
    } else {
      UnmodifiedView(t, o, p);
      assert KindOf(t, p) == Directory ==> p in Step(t, o, op).0.seen.dirs;
      assert KindOf(t, p) == Absent && !KnownAbsent(seen, t, p);
      var name;
      u, name := ChildAdded(seen, t, p, o.upper.Keys);
      hide WellFormed, True, Valid, Known, Includes, Names;
      NamesSpec(View(t, o), p, name);
      NamesSpec(View(u, o), p, name);
      assert o.upper[p] == Dir;
    }
  }

  lemma WriteUndecided(seen: Reads, t: Tree, o: Overlay, op: Op) returns (u: Tree)
    requires WellFormed(t) && True(seen, t) && Sound(t, o)
    requires op.WriteFile? && !Decided(seen, t, o, op)
    requires forall u | WellFormed(u) && Valid(seen, u) :: Sound(u, o)
    ensures WellFormed(u) && Valid(seen, u) && Step(u, o, op).1 != Step(t, o, op).1
  {
    var p := op.path;
    hide Sound, Step, View, FileAbove, Modified, WellFormed, True, Valid, Known;
    if k :| 0 <= k <= |p| && p[..k] !in o.upper && Obstructs(t, p, k) {
      u := ObstacleGone(seen, t, p, k);
      assert forall j | 0 <= j <= |p| :: !Obstructs(u, p, j);
    } else {
      var k :| 0 <= k <= |p| && p[..k] !in o.upper &&
               !if k == |p| then Known(seen, t, p) else NeverRegular(seen, t, p[..k]);
      u := ObstacleAdded(seen, t, p, k);
    }
    OpenWrite(t, o, p);
    OpenWrite(u, o, p);
    WriteAnswer(t, o, op);
    WriteAnswer(u, o, op);
  }

  lemma ObstacleGone(seen: Reads, t: Tree, p: Path, k: nat) returns (u: Tree)
    requires WellFormed(t) && True(seen, t) && k <= |p| && Obstructs(t, p, k) && !Known(seen, t, p[..k])
    ensures WellFormed(u) && Valid(seen, u)
    ensures forall j | 0 <= j <= |p| :: !Obstructs(u, p, j)
  {
    var a := p[..k];
    assert p[..|p|] == p;
    OneObstacle(t, p, k);
    hide Valid, True;
    if k < |p| {
      u := FileToDirectory(seen, t, a);
      forall j | 0 <= j <= |p| ensures !Obstructs(u, p, j) {
        if j != k {
          assert |p[..j]| != |a|;
          assert !Obstructs(t, p, j);
        }
      }
    } else {
      if p in seen.files {
        u := DirectoryRemoved(seen, t, p);
      } else {
        u := DirectoryToFile(seen, t, p);
      }
      forall j | 0 <= j <= |p| ensures !Obstructs(u, p, j) {
        if j < |p| {
          assert !Prefix(p, p[..j]);
          assert !Obstructs(t, p, j);
        }
      }
    }
  }

  lemma OneObstacle(t: Tree, p: Path, k: nat)
    requires WellFormed(t) && k <= |p| && Obstructs(t, p, k)
    ensures forall j | 0 <= j <= |p| && j != k :: !Obstructs(t, p, j)
  {
    assert p[..|p|] == p;
    forall j | 0 <= j <= |p| && j != k ensures !Obstructs(t, p, j) {
      if j < k {
        assert p[..j] == p[..k][..j];
        AncestorsAreDirectories(t, p[..j], p[..k]);
      } else if p[..j] in t {
        assert p[..k] == p[..j][..k];
        AncestorsAreDirectories(t, p[..k], p[..j]);
      }
    }
  }

  lemma ObstacleAdded(seen: Reads, t: Tree, p: Path, k: nat) returns (u: Tree)
    requires WellFormed(t) && True(seen, t) && k <= |p| && !Obstructs(t, p, k)
    requires !if k == |p| then Known(seen, t, p) else NeverRegular(seen, t, p[..k])
    ensures WellFormed(u) && Valid(seen, u) && Obstructs(u, p, k)
  {
    hide WellFormed, True, Valid, Known, NeverRegular;
    if k == |p| {
      NeverDirectoryIff(seen, t, p);
      u :| WellFormed(u) && Valid(seen, u) && KindOf(u, p) == Directory;
    } else {
      NeverRegularIff(seen, t, p[..k]);
      u :| WellFormed(u) && Valid(seen, u) && KindOf(u, p[..k]) == Regular;
    }
  }

  /** Of an operation whose records are in the read set, over writes that fit every accepted tree,
      the answer is the same on all of them exactly when the read set decides it. */
  lemma AnswerDecidedIff(seen: Reads, t: Tree, o: Overlay, op: Op)
    requires WellFormed(t) && True(seen, t) && Sound(t, o) && Includes(seen, Step(t, o, op).0.seen)
    requires forall u | WellFormed(u) && Valid(seen, u) :: Sound(u, o)
    ensures (forall u | WellFormed(u) && Valid(seen, u) :: Step(u, o, op).1 == Step(t, o, op).1) <==>
            Decided(seen, t, o, op)
  {
    hide Step, Sound, Decided, WellFormed, True, Valid, Includes;
    if Decided(seen, t, o, op) {
      forall u | WellFormed(u) && Valid(seen, u) ensures Step(u, o, op).1 == Step(t, o, op).1 {
        AnswerAgrees(seen, t, u, o, op);
      }
    } else {
      var u;
      match op
      case Exists(_) => u := ProbeUndecided(seen, t, o, op);
      case IsDir(_) => u := ProbeUndecided(seen, t, o, op);
      case ReadFile(_) => u := ReadUndecided(seen, t, o, op);
      case ReadDir(_) => u := ListUndecided(seen, t, o, op);
      case WriteFile(_, _) => u := WriteUndecided(seen, t, o, op);
    }
  }

  // ---------- when operations settle themselves ----------

  /** Probes, successful reads and listings of source directories settle themselves, as long as a
      probed path is not also read with an error. */
  lemma SettlesItself(seen: Reads, t: Tree, o: Overlay, op: Op)
    requires WellFormed(t) && True(seen, t) && Sound(t, o) && Includes(seen, Step(t, o, op).0.seen)
    requires match op
             case Exists(p) => p in seen.files ==> seen.files[p] != NoDigest
             case IsDir(p) => p in seen.files ==> seen.files[p] != NoDigest
             case ReadFile(_) => Step(t, o, op).1.Content?
             case ReadDir(p) => Step(t, o, op).1.Listing? && KindOf(t, p) == Directory
             case WriteFile(_, _) => false
    ensures Settled(seen, t, o, op)
  {
    var p := op.path;
    if !Modified(o, p) {
      UnmodifiedView(t, o, p);
      match op
      case Exists(_) => ProbedIsKnown(seen, t, p);
      case IsDir(_) => ProbedIsKnown(seen, t, p);
      case ReadFile(_) =>
        assert p in Step(t, o, op).0.seen.files;
        assert FileDigest(t, p) == seen.files[p];
      case ReadDir(_) =>
        assert p in Step(t, o, op).0.seen.dirs;
    }
  }

  lemma ProbedIsKnown(seen: Reads, t: Tree, p: Path)
    requires True(seen, t) && p in seen.nodes && (p in seen.files ==> seen.files[p] != NoDigest)
    ensures Known(seen, t, p)
  {
    if p !in seen.files && p !in seen.dirs {
      assert Kept(seen, p);
      if KindOf(t, p) == Absent { assert RulesOut(seen, t, p, p); }
    }
  }
}
