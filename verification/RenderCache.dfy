/** Whole renders, and when the reads one recorded may stand in for rendering again
    (pkg/kustomize/readset.go, 79-112, 176-222 and 239-279; pkg/kustomize/treefs.go, 134-248). */
module RenderCache {
  import opened SourceTree
  import opened RenderOverlay

  /** A deterministic render decides from the answers so far what to do next. */
  datatype Move = Do(op: Op) | Finish(output: Data)
  type Build = seq<Answer> -> Move

  /** The overlay and the answers after at most `n` moves on the source `t`. */
  ghost function Run(build: Build, t: Tree, n: nat): (Overlay, seq<Answer>) {
    if n == 0 then (START, [])
    else
      var (o, answers) := Run(build, t, n - 1);
      match build(answers)
      case Finish(_) => (o, answers)
      case Do(op) => var (next, a) := Step(t, o, op); (next, answers + [a])
  }

  /** The read set a render of `n` moves leaves. */
  ghost function ReadsOf(build: Build, t: Tree, n: nat): Reads {
    Run(build, t, n).0.seen
  }

  ghost predicate Moves(build: Build, t: Tree, k: nat) {
    build(Run(build, t, k).1).Do?
  }

  ghost function OpAt(build: Build, t: Tree, k: nat): Op
    requires Moves(build, t, k)
  {
    build(Run(build, t, k).1).op
  }

  lemma {:induction false} RunInv(build: Build, t: Tree, n: nat)
    requires WellFormed(t)
    ensures Inv(t, Run(build, t, n).0) && Sound(t, Run(build, t, n).0)
  {
    if n == 0 {
      StartInv(t);
    } else {
      RunInv(build, t, n - 1);
      var (o, answers) := Run(build, t, n - 1);
      match build(answers)
      case Finish(_) =>
      case Do(op) => StepKeepsInv(t, o, op);
    }
  }

  lemma StepGrows(t: Tree, o: Overlay, op: Op)
    ensures Includes(Step(t, o, op).0.seen, o.seen)
  {
  }

  lemma {:induction false} RunGrows(build: Build, t: Tree, k: nat, n: nat)
    requires k <= n
    ensures Includes(ReadsOf(build, t, n), ReadsOf(build, t, k))
    decreases n
  {
    if k < n {
      RunGrows(build, t, k, n - 1);
      var (o, answers) := Run(build, t, n - 1);
      if build(answers).Do? { StepGrows(t, o, build(answers).op); }
    }
  }

  /** What a render records is true of its source, whatever it wrote over it: an entry just stored
      is accepted on the same source. */
  lemma RecordsAreTrue(build: Build, t: Tree, n: nat)
    requires WellFormed(t)
    ensures True(ReadsOf(build, t, n), t) && Valid(ReadsOf(build, t, n), t)
  {
    RunInv(build, t, n);
  }

  // ---------- when a recorded read set is enough ----------

  /** Every operation of the first `n` moves is settled by the read set `seen`. */
  ghost predicate AllSettled(seen: Reads, build: Build, t: Tree, n: nat) {
    forall k: nat | k < n && Moves(build, t, k) :: Settled(seen, t, Run(build, t, k).0, OpAt(build, t, k))
  }

  lemma {:induction false} RunAgrees(seen: Reads, build: Build, t: Tree, u: Tree, n: nat, k: nat)
    requires Accepted(seen, t, u) && seen == ReadsOf(build, t, n) && AllSettled(seen, build, t, n) && k <= n
    ensures Run(build, u, k) == Run(build, t, k)
    decreases k
  {
    hide Step, Settled, Inv, Sound, Includes, Valid, True, WellFormed;
    if k > 0 {
      RunAgrees(seen, build, t, u, n, k - 1);
      var (o, answers) := Run(build, t, k - 1);
      if build(answers).Do? {
        RunInv(build, t, k - 1);
        RunInv(build, u, k - 1);
        RunGrows(build, t, k, n);
        assert Moves(build, t, k - 1);
        StepAgrees(seen, t, u, o, build(answers).op);
      }
    }
  }

  /** Cache soundness: when every operation of a render on `t` is settled by the reads it recorded,
      the same render on any tree those reads accept gets the same answers, writes the same files,
      records the same reads and finishes, if it does, with the same output. */
  lemma CacheSound(build: Build, t: Tree, u: Tree, n: nat)
    requires WellFormed(t) && WellFormed(u)
    requires AllSettled(ReadsOf(build, t, n), build, t, n) && Valid(ReadsOf(build, t, n), u)
    ensures Run(build, u, n) == Run(build, t, n)
    ensures build(Run(build, u, n).1) == build(Run(build, t, n).1)
  {
    RunInv(build, t, n);
    RunAgrees(ReadsOf(build, t, n), build, t, u, n, n);
  }

  // ---------- and when it is not ----------

  /** The read set decides the answer to every operation of the first `k` moves. */
  ghost predicate AllDecided(seen: Reads, build: Build, t: Tree, k: nat) {
    forall j: nat | j < k && Moves(build, t, j) :: Decided(seen, t, Run(build, t, j).0, OpAt(build, t, j))
  }

  /** The same answers and the same files written. */
  ghost predicate Alike(build: Build, t: Tree, u: Tree, k: nat) {
    && Run(build, u, k).1 == Run(build, t, k).1
    && Run(build, u, k).0.upper == Run(build, t, k).0.upper
    && Run(build, u, k).0.changed == Run(build, t, k).0.changed
  }

  /** Answers depend on what was written and on the tree, not on what was recorded. */
  lemma SameWritten(u: Tree, a: Overlay, b: Overlay, op: Op)
    requires a.upper == b.upper && a.changed == b.changed
    ensures Step(u, a, op).1 == Step(u, b, op).1
    ensures Step(u, a, op).0.upper == Step(u, b, op).0.upper && Step(u, a, op).0.changed == Step(u, b, op).0.changed
    ensures Sound(u, a) <==> Sound(u, b)
    ensures op.Exists? || op.IsDir? ==>
              Step(u, a, op).0.upper == a.upper && Step(u, a, op).0.changed == a.changed
  {
  }

  lemma {:induction false} AlikeSoFar(seen: Reads, build: Build, t: Tree, u: Tree, n: nat, k: nat)
    requires Accepted(seen, t, u) && seen == ReadsOf(build, t, n) && AllDecided(seen, build, t, k) && k <= n
    ensures Alike(build, t, u, k)
    decreases k
  {
    hide Step, Decided, Inv, Sound, Includes, Valid, True, WellFormed;
    if k > 0 {
      AlikeSoFar(seen, build, t, u, n, k - 1);
      var (o, answers) := Run(build, t, k - 1);
      if build(answers).Do? {
        var op := build(answers).op;
        RunInv(build, t, k - 1);
        RunInv(build, u, k - 1);
        RunGrows(build, t, k, n);
        assert Moves(build, t, k - 1);
        SameWritten(u, Run(build, u, k - 1).0, o, op);
        SameWritten(t, o, o, op);
        AnswerAgrees(seen, t, u, o, op);
      }
    }
  }

  /** A run's answers so far begin those of the whole run, one for each move. */
  lemma {:induction false} AnswersSoFar(build: Build, t: Tree, k: nat, n: nat)
    requires k <= n
    ensures |Run(build, t, k).1| <= |Run(build, t, n).1|
    ensures Run(build, t, k).1 == Run(build, t, n).1[..|Run(build, t, k).1|]
    decreases n
  {
    hide Step;
    if k < n { AnswersSoFar(build, t, k, n - 1); }
  }

  lemma DifferentAnswer(build: Build, t: Tree, u: Tree, k: nat, n: nat)
    requires k < n && Moves(build, t, k) && Alike(build, t, u, k)
    requires Step(u, Run(build, t, k).0, OpAt(build, t, k)).1 != Step(t, Run(build, t, k).0, OpAt(build, t, k)).1
    ensures Run(build, u, n).1 != Run(build, t, n).1
  {
    hide Step;
    var answers := Run(build, t, k).1;
    SameWritten(u, Run(build, u, k).0, Run(build, t, k).0, OpAt(build, t, k));
    var next := k + 1;
    assert Run(build, t, next).1[|answers|] != Run(build, u, next).1[|answers|];
    AnswersSoFar(build, t, next, n);
    AnswersSoFar(build, u, next, n);
  }

  lemma {:induction false} FirstUndecided(seen: Reads, build: Build, t: Tree, n: nat) returns (k: nat)
    requires !AllDecided(seen, build, t, n)
    ensures k < n && AllDecided(seen, build, t, k) && Moves(build, t, k)
    ensures !Decided(seen, t, Run(build, t, k).0, OpAt(build, t, k))
  {
    hide Decided, Run, Moves;
    if AllDecided(seen, build, t, n - 1) {
      k := n - 1;
    } else {
      k := FirstUndecided(seen, build, t, n - 1);
    }
  }

  /** The recorded reads may stand in for a render on every tree they accept exactly when they
      decide the answer to each of its operations, probes and writes included. */
  lemma CacheSoundIff(build: Build, t: Tree, n: nat)
    requires WellFormed(t)
    ensures (forall u | WellFormed(u) && Valid(ReadsOf(build, t, n), u) :: Run(build, u, n).1 == Run(build, t, n).1) <==>
            AllDecided(ReadsOf(build, t, n), build, t, n)
  {
    hide Step, Decided, WellFormed, Valid, Sound, True;
    var seen := ReadsOf(build, t, n);
    RecordsAreTrue(build, t, n);
    if AllDecided(seen, build, t, n) {
      forall u | WellFormed(u) && Valid(seen, u) ensures Run(build, u, n).1 == Run(build, t, n).1 {
        AlikeSoFar(seen, build, t, u, n, n);
      }
    } else {
      var u := UndecidedDiffers(build, t, n);
    }
  }

  lemma UndecidedDiffers(build: Build, t: Tree, n: nat) returns (u: Tree)
    requires WellFormed(t) && !AllDecided(ReadsOf(build, t, n), build, t, n)
    ensures WellFormed(u) && Valid(ReadsOf(build, t, n), u) && Run(build, u, n).1 != Run(build, t, n).1
  {
    hide Step, Decided, WellFormed, Valid, Sound, True, Run, Moves, AllDecided, Includes, Alike;
    var seen := ReadsOf(build, t, n);
    RecordsAreTrue(build, t, n);
    var k := FirstUndecided(seen, build, t, n);
    var o, op := Run(build, t, k).0, OpAt(build, t, k);
    StepRecorded(build, t, k, n);
    RunInv(build, t, k);
    forall v | WellFormed(v) && Valid(seen, v) ensures Sound(v, o) {
      AlikeAt(build, t, v, k, n);
    }
    AnswerDecidedIff(seen, t, o, op);
    u :| WellFormed(u) && Valid(seen, u) && Step(u, o, op).1 != Step(t, o, op).1;
    AlikeAt(build, t, u, k, n);
    DifferentAnswer(build, t, u, k, n);
  }

  lemma AlikeAt(build: Build, t: Tree, u: Tree, k: nat, n: nat)
    requires WellFormed(t) && WellFormed(u) && k <= n && Valid(ReadsOf(build, t, n), u)
    requires AllDecided(ReadsOf(build, t, n), build, t, k)
    ensures Alike(build, t, u, k) && Sound(u, Run(build, t, k).0)
  {
    hide Step, WellFormed, Valid, Sound, True, Run, AllDecided;
    RecordsAreTrue(build, t, n);
    AlikeSoFar(ReadsOf(build, t, n), build, t, u, n, k);
    RunInv(build, u, k);
    SameWritten(u, Run(build, u, k).0, Run(build, t, k).0, Exists([]));
  }

  lemma StepRecorded(build: Build, t: Tree, k: nat, n: nat)
    requires k < n && Moves(build, t, k)
    ensures Includes(ReadsOf(build, t, n), Step(t, Run(build, t, k).0, OpAt(build, t, k)).0.seen)
  {
    hide Step;
    var next := k + 1;
    RunGrows(build, t, next, n);
  }

  // ---------- renders that look before they read or write ----------

  /** The render asked, before any write to it, what `p` is. */
  ghost predicate Probed(build: Build, t: Tree, n: nat, p: Path) {
    exists k: nat :: k < n && Moves(build, t, k) && Probes(OpAt(build, t, k), p) && !Modified(Run(build, t, k).0, p)
  }

  predicate Probes(op: Op, p: Path) {
    op == Exists(p) || op == IsDir(p)
  }

  /** The render read `p` as a file and found a directory. */
  ghost predicate Misread(build: Build, t: Tree, n: nat, p: Path) {
    exists k: nat :: k < n && Moves(build, t, k) && OpAt(build, t, k) == ReadFile(p)
                     && Step(t, Run(build, t, k).0, ReadFile(p)).1 == Failed(IsADirectory)
  }

  ghost predicate LookedUp(build: Build, t: Tree, n: nat, p: Path) {
    Probed(build, t, n, p) && !Misread(build, t, n, p)
  }

  /** An operation that cannot fail for something the render did not look up. */
  ghost predicate CarefulStep(build: Build, t: Tree, n: nat, o: Overlay, op: Op) {
    var p := op.path;
    match op
    case Exists(_) => Modified(o, p) || !Misread(build, t, n, p)
    case IsDir(_) => Modified(o, p) || !Misread(build, t, n, p)
    case ReadFile(_) => Covered(o, p) || Step(t, o, op).1.Content? || LookedUp(build, t, n, p)
    case ReadDir(_) => Modified(o, p) || KindOf(t, p) == Directory || LookedUp(build, t, n, p)
    case WriteFile(_, _) =>
      p == [] || Covered(o, p) || forall k | 0 < k <= |p| && p[..k] !in o.upper :: LookedUp(build, t, n, p[..k])
  }

  /** The render probes what it fails to read or list and what it writes, and never probes a
      directory that it also reads as a file. */
  ghost predicate Careful(build: Build, t: Tree, n: nat) {
    forall k: nat | k < n && Moves(build, t, k) :: CarefulStep(build, t, n, Run(build, t, k).0, OpAt(build, t, k))
  }

  lemma {:induction false} MisreadRecorded(build: Build, t: Tree, n: nat, p: Path)
    requires p in ReadsOf(build, t, n).files && ReadsOf(build, t, n).files[p] == NoDigest
    ensures Misread(build, t, n, p)
  {
    if n > 0 {
      var (o, answers) := Run(build, t, n - 1);
      if p in o.seen.files && o.seen.files[p] == NoDigest {
        MisreadRecorded(build, t, n - 1, p);
        var k: nat :| k < n - 1 && Moves(build, t, k) && OpAt(build, t, k) == ReadFile(p)
                      && Step(t, Run(build, t, k).0, ReadFile(p)).1 == Failed(IsADirectory);
      } else {
        RecordedNow(t, o, build(answers).op, p);
        assert Moves(build, t, n - 1);
      }
    }
  }

  lemma RecordedNow(t: Tree, o: Overlay, op: Op, p: Path)
    requires p in Step(t, o, op).0.seen.files && Step(t, o, op).0.seen.files[p] == NoDigest
    requires !(p in o.seen.files && o.seen.files[p] == NoDigest)
    ensures op == ReadFile(p) && Step(t, o, op).1 == Failed(IsADirectory)
  {
  }

  lemma LookedUpIsKnown(build: Build, t: Tree, n: nat, p: Path)
    requires WellFormed(t) && LookedUp(build, t, n, p)
    ensures Known(ReadsOf(build, t, n), t, p)
  {
    var seen := ReadsOf(build, t, n);
    var k: nat :| k < n && Moves(build, t, k) && Probes(OpAt(build, t, k), p) && !Modified(Run(build, t, k).0, p);
    var next := k + 1;
    assert p in ReadsOf(build, t, next).nodes;
    RunGrows(build, t, next, n);
    RecordsAreTrue(build, t, n);
    if p in seen.files && seen.files[p] == NoDigest { MisreadRecorded(build, t, n, p); }
    ProbedIsKnown(seen, t, p);
  }

  lemma CarefulStepIsSettled(build: Build, t: Tree, n: nat, k: nat)
    requires WellFormed(t) && k < n && Moves(build, t, k)
    requires CarefulStep(build, t, n, Run(build, t, k).0, OpAt(build, t, k))
    ensures Settled(ReadsOf(build, t, n), t, Run(build, t, k).0, OpAt(build, t, k))
  {
    var seen, o, op := ReadsOf(build, t, n), Run(build, t, k).0, OpAt(build, t, k);
    var p := op.path;
    StepRecorded(build, t, k, n);
    RunInv(build, t, k);
    RecordsAreTrue(build, t, n);
    if p in seen.files && seen.files[p] == NoDigest { MisreadRecorded(build, t, n, p); }
    hide WellFormed, True, Valid, Known, Step, Includes, Sound, Inv, Modified, Run;
    match op
    case Exists(_) => if !Modified(o, p) { SettlesItself(seen, t, o, op); }
    case IsDir(_) => if !Modified(o, p) { SettlesItself(seen, t, o, op); }
    case ReadFile(_) =>
      if Step(t, o, op).1.Content? {
        SettlesItself(seen, t, o, op);
      } else if !Covered(o, p) {
        LookedUpIsKnown(build, t, n, p);
      }
    case ReadDir(_) =>
      if !Modified(o, p) {
        if KindOf(t, p) == Directory {
          ListsSource(t, o, op);
          SettlesItself(seen, t, o, op);
        } else {
          LookedUpIsKnown(build, t, n, p);
        }
      }
    case WriteFile(_, _) =>
      if p != [] && !Covered(o, p) { LookedUpWrite(build, t, n, o, p); }
  }

  lemma ListsSource(t: Tree, o: Overlay, op: Op)
    requires op.ReadDir? && Sound(t, o) && KindOf(t, op.path) == Directory && !Modified(o, op.path)
    ensures Step(t, o, op).1.Listing?
  {
    UnmodifiedView(t, o, op.path);
  }

  lemma LookedUpWrite(build: Build, t: Tree, n: nat, o: Overlay, p: Path)
    requires WellFormed(t) && forall k | 0 < k <= |p| && p[..k] !in o.upper :: LookedUp(build, t, n, p[..k])
    ensures WriteDecided(ReadsOf(build, t, n), t, o, p)
  {
    assert Known(ReadsOf(build, t, n), t, []);
    hide WellFormed, Known, LookedUp;
    forall k | 0 <= k <= |p| && p[..k] !in o.upper ensures Known(ReadsOf(build, t, n), t, p[..k]) {
      if k > 0 { LookedUpIsKnown(build, t, n, p[..k]); }
    }
    assert p == p[..|p|];
  }

  /** A careful render may be replayed from the cache on every tree its reads accept. */
  lemma CarefulCacheSound(build: Build, t: Tree, u: Tree, n: nat)
    requires WellFormed(t) && WellFormed(u) && Careful(build, t, n) && Valid(ReadsOf(build, t, n), u)
    ensures AllSettled(ReadsOf(build, t, n), build, t, n)
    ensures Run(build, u, n) == Run(build, t, n)
    ensures build(Run(build, u, n).1) == build(Run(build, t, n).1)
  {
    hide CarefulStep, Settled, WellFormed, Valid, Run, Moves;
    forall k: nat | k < n && Moves(build, t, k)
      ensures Settled(ReadsOf(build, t, n), t, Run(build, t, k).0, OpAt(build, t, k))
    {
      CarefulStepIsSettled(build, t, n, k);
    }
    CacheSound(build, t, u, n);
  }

  // ---------- three renders whose recorded reads are not enough ----------

  const EMPTY: Tree := map[[] := Dir]
  const A: Path := ["a"]
  const WITH_FILE: Tree := map[[] := Dir, A := File("x")]
  const WITH_DIR: Tree := map[[] := Dir, A := Dir]

  /** Makes the given moves in order, whatever the answers are. */
  function Script(ops: seq<Op>): Build {
    (answers: seq<Answer>) => if |answers| < |ops| then Do(ops[|answers|]) else Finish("")
  }

  lemma ExampleTrees()
    ensures WellFormed(EMPTY) && WellFormed(WITH_FILE) && WellFormed(WITH_DIR)
  {
    assert Parent(A) == [];
  }

  lemma FirstMoves(ops: seq<Op>, t: Tree)
    requires ops != []
    ensures var one := Step(t, START, ops[0]);
            && Run(Script(ops), t, 1) == (one.0, [one.1])
            && (|ops| > 1 ==>
                  var two := Step(t, one.0, ops[1]);
                  Run(Script(ops), t, 2) == (two.0, [one.1, two.1]))
  {
    hide Step;
    var build := Script(ops);
    assert Run(build, t, 0) == (START, []);
    assert build([]) == Do(ops[0]);
    var one := Step(t, START, ops[0]);
    assert [] + [one.1] == [one.1];
    assert Run(build, t, 1) == (one.0, [one.1]);
    if |ops| > 1 {
      assert build([one.1]) == Do(ops[1]);
      assert [one.1] + [Step(t, one.0, ops[1]).1] == [one.1, Step(t, one.0, ops[1]).1];
    }
  }

  /** A failed lookup leaves no record: the file may be there in an accepted tree. */
  lemma LookupNotRecorded()
    ensures var build := Script([ReadFile(A)]);
            && WellFormed(EMPTY) && WellFormed(WITH_FILE) && Valid(ReadsOf(build, EMPTY, 1), WITH_FILE)
            && Run(build, WITH_FILE, 1).1 != Run(build, EMPTY, 1).1
  {
    hide Run;
    ExampleTrees();
    var ops := [ReadFile(A)];
    FirstMoves(ops, EMPTY);
    FirstMoves(ops, WITH_FILE);
    assert Step(EMPTY, START, ops[0]) == (START, Failed(NotExist));
    assert Step(WITH_FILE, START, ops[0]).1 == Content("x");
  }

  /** A probe's record is dropped when the same directory was read as a file: it may be gone. */
  lemma NodeDropped()
    ensures var build := Script([IsDir(A), ReadFile(A)]);
            && WellFormed(WITH_DIR) && WellFormed(EMPTY) && Valid(ReadsOf(build, WITH_DIR, 2), EMPTY)
            && Run(build, EMPTY, 2).1 != Run(build, WITH_DIR, 2).1
  {
    hide Run;
    ExampleTrees();
    var ops := [IsDir(A), ReadFile(A)];
    FirstMoves(ops, WITH_DIR);
    FirstMoves(ops, EMPTY);
    var seen := Reads(map[], map[], map[A := Directory]);
    var probed := Overlay(map[], {}, seen);
    assert !Modified(START, A) && !Modified(probed, A);
    assert Step(WITH_DIR, START, ops[0]) == (probed, Bool(true));
    assert Step(WITH_DIR, probed, ops[1]).0.seen == seen.(files := map[A := NoDigest]);
    assert Step(EMPTY, START, ops[0]).1 == Bool(false);
  }

  /** A write leaves no record of what it had to pass: there may be a file in its way. */
  lemma WriteNotRecorded()
    ensures var build := Script([WriteFile(A + ["b"], "y")]);
            && WellFormed(EMPTY) && WellFormed(WITH_FILE) && Valid(ReadsOf(build, EMPTY, 1), WITH_FILE)
            && Run(build, WITH_FILE, 1).1 != Run(build, EMPTY, 1).1
  {
    hide Run;
    ExampleTrees();
    var ops := [WriteFile(A + ["b"], "y")];
    FirstMoves(ops, WITH_FILE);
    FirstMoves(ops, EMPTY);
    var p := ops[0].path;
    assert p[..1] == A && p[..0] == [];
    assert FileAbove(View(WITH_FILE, START), p);
    assert !FileAbove(View(EMPTY, START), p);
    assert Step(WITH_FILE, START, ops[0]).1 == Failed(Conflict);
    assert Step(EMPTY, START, ops[0]).1 == Written;
  }
}
