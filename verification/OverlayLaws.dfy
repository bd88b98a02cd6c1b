/** What the calls of a render's filesystem answer, over any sequence of them, in terms of the source tree
    and of the writes that succeeded (pkg/kustomize/treefs.go, 212-248, 317-330 and 360-370). */
module OverlayLaws {
  import opened SourceTree
  import opened RenderOverlay

  datatype Event = Event(op: Op, answer: Answer)

  /** The overlay after a sequence of calls. */
  function Replay(t: Tree, ops: seq<Op>): Overlay {
    if ops == [] then START
    else
      var last := |ops| - 1;
      Step(t, Replay(t, ops[..last]), ops[last]).0
  }

  /** The calls with their answers. */
  function LogOf(t: Tree, ops: seq<Op>): (log: seq<Event>)
    ensures |log| == |ops|
  {
    if ops == [] then []
    else
      var last := |ops| - 1;
      LogOf(t, ops[..last]) + [Event(ops[last], Step(t, Replay(t, ops[..last]), ops[last]).1)]
  }

  // ---------- what is where, from the source tree and the writes that succeeded ----------

  predicate WroteAt(log: seq<Event>, k: nat, p: Path, d: Data) {
    k < |log| && log[k] == Event(WriteFile(p, d), Written)
  }

  /** The last successful write to `p` wrote `d`. */
  ghost predicate LastWrote(log: seq<Event>, p: Path, d: Data) {
    exists k: nat :: LastAt(log, k, p, d)
  }

  ghost predicate LastAt(log: seq<Event>, k: nat, p: Path, d: Data) {
    WroteAt(log, k, p, d) && forall j: nat, e | k < j :: !WroteAt(log, j, p, e)
  }

  ghost predicate Untouched(log: seq<Event>, p: Path) {
    forall k: nat, d :: !WroteAt(log, k, p, d)
  }

  ghost predicate WroteBelow(log: seq<Event>, p: Path) {
    exists k: nat, q, d :: WroteAt(log, k, q, d) && Prefix(p, q) && p != q
  }

  ghost predicate HoldsFile(t: Tree, log: seq<Event>, p: Path, d: Data) {
    LastWrote(log, p, d) || (Untouched(log, p) && p in t && t[p] == File(d))
  }

  ghost predicate IsFile(t: Tree, log: seq<Event>, p: Path) {
    exists d :: HoldsFile(t, log, p, d)
  }

  ghost predicate HoldsDirectory(t: Tree, log: seq<Event>, p: Path) {
    (p in t && t[p] == Dir) || WroteBelow(log, p)
  }

  ghost predicate Holds(t: Tree, log: seq<Event>, p: Path) {
    HoldsDirectory(t, log, p) || IsFile(t, log, p)
  }

  /** What a call must answer after the calls in `log`. */
  ghost predicate Right(t: Tree, log: seq<Event>, op: Op, answer: Answer) {
    var p := op.path;
    match op
    case Exists(_) => answer == Bool(Holds(t, log, p))
    case IsDir(_) => answer == Bool(HoldsDirectory(t, log, p))
    case ReadFile(_) =>
      && (forall c :: answer == Content(c) <==> HoldsFile(t, log, p, c))
      && (answer == Failed(IsADirectory) <==> HoldsDirectory(t, log, p))
      && (answer == Failed(NotExist) <==> !Holds(t, log, p))
    case ReadDir(_) =>
      && (answer.Listing? <==> HoldsDirectory(t, log, p))
      && (answer.Listing? ==> forall name :: name in answer.names <==> Holds(t, log, p + [name]))
      && (answer == Failed(NotADirectory) <==> IsFile(t, log, p))
      && (answer == Failed(NotExist) <==> !Holds(t, log, p))
    case WriteFile(_, _) =>
      && (answer == Failed(Invalid) <==> p == [])
      && (answer == Failed(Conflict) <==>
          p != [] && (HoldsDirectory(t, log, p) || exists k | 0 <= k < |p| :: IsFile(t, log, p[..k])))
      && (answer == Failed(Invalid) || answer == Failed(Conflict) || answer == Written)
  }

  // ---------- the overlay stands for the writes ----------

  ghost predicate StandsFor(t: Tree, log: seq<Event>, o: Overlay) {
    Sound(t, o) && forall p :: Shown(log, o.upper, p)
  }

  ghost predicate Shown(log: seq<Event>, upper: Tree, p: Path) {
    && (forall d :: p in upper && upper[p] == File(d) <==> LastWrote(log, p, d))
    && (p in upper && upper[p] == Dir <==> WroteBelow(log, p))
  }

  lemma {:induction false} TouchedLast(log: seq<Event>, n: nat, p: Path)
    requires n <= |log| && forall k: nat, d | n <= k :: !WroteAt(log, k, p, d)
    ensures Untouched(log, p) || exists d :: LastWrote(log, p, d)
  {
    if n > 0 {
      var last := n - 1;
      if log[last].op.WriteFile? && log[last].op.path == p && log[last].answer == Written {
        assert LastAt(log, last, p, log[last].op.data);
        assert LastWrote(log, p, log[last].op.data);
      } else {
        TouchedLast(log, last, p);
      }
    }
  }

  /** The overlay shows what the writes and the source say. */
  lemma ViewShows(t: Tree, log: seq<Event>, o: Overlay, p: Path)
    requires StandsFor(t, log, o)
    ensures forall d :: HoldsFile(t, log, p, d) <==> p in View(t, o) && View(t, o)[p] == File(d)
    ensures HoldsDirectory(t, log, p) <==> p in View(t, o) && View(t, o)[p] == Dir
    ensures IsFile(t, log, p) <==> p in View(t, o) && View(t, o)[p].File?
    ensures Holds(t, log, p) <==> p in View(t, o)
  {
    hide LastWrote, WroteBelow;
    assert Shown(log, o.upper, p);
    TouchedLast(log, |log|, p);
    if p in o.upper && o.upper[p].File? {
      assert LastWrote(log, p, o.upper[p].data);
      WroteTouches(log, p, o.upper[p].data);
    }
    if p !in o.upper || o.upper[p].Dir? {
      forall d ensures !LastWrote(log, p, d) {}
    }
    if p in View(t, o) && View(t, o)[p].File? {
      assert HoldsFile(t, log, p, View(t, o)[p].data);
    }
  }

  lemma WroteTouches(log: seq<Event>, p: Path, d: Data)
    requires LastWrote(log, p, d)
    ensures !Untouched(log, p)
  {
    var k: nat :| LastAt(log, k, p, d);
    assert WroteAt(log, k, p, d);
  }

  lemma AnswerRight(t: Tree, log: seq<Event>, o: Overlay, op: Op)
    requires StandsFor(t, log, o)
    ensures Right(t, log, op, Step(t, o, op).1)
  {
    hide StandsFor, HoldsFile, HoldsDirectory, IsFile, Holds;
    var p := op.path;
    ViewShows(t, log, o, p);
    if op.ReadDir? {
      forall name ensures name in Names(View(t, o), p) <==> Holds(t, log, p + [name]) {
        NamesSpec(View(t, o), p, name);
        ViewShows(t, log, o, p + [name]);
      }
    }
    if op.WriteFile? {
      forall k | 0 <= k < |p| ensures IsFile(t, log, p[..k]) <==> p[..k] in View(t, o) && View(t, o)[p[..k]].File? {
        ViewShows(t, log, o, p[..k]);
      }
    }
  }

  // ---------- calls keep the overlay standing for the writes ----------

  lemma OtherCalls(log: seq<Event>, e: Event)
    requires !(e.op.WriteFile? && e.answer == Written)
    ensures forall p, d :: LastWrote(log + [e], p, d) <==> LastWrote(log, p, d)
    ensures forall p :: WroteBelow(log + [e], p) <==> WroteBelow(log, p)
  {
    var longer := log + [e];
    assert forall k: nat, p, d :: WroteAt(longer, k, p, d) <==> WroteAt(log, k, p, d);
    hide WroteAt;
    assert forall k: nat, p, d :: LastAt(longer, k, p, d) <==> LastAt(log, k, p, d);
  }

  lemma OneMoreWrite(log: seq<Event>, p: Path, data: Data)
    ensures var longer := log + [Event(WriteFile(p, data), Written)];
            && (forall q, d :: LastWrote(longer, q, d) <==> if q == p then d == data else LastWrote(log, q, d))
            && (forall q :: WroteBelow(longer, q) <==> WroteBelow(log, q) || (Prefix(q, p) && q != p))
  {
    var n, longer := |log|, log + [Event(WriteFile(p, data), Written)];
    assert forall k: nat, q, d :: WroteAt(longer, k, q, d) <==> WroteAt(log, k, q, d) || (k == n && q == p && d == data);
    assert WroteAt(longer, n, p, data) && forall k: nat, q, d :: WroteAt(log, k, q, d) ==> k < n;
    hide WroteAt, Prefix;
    assert LastAt(longer, n, p, data);
    forall k: nat, q, d ensures LastAt(longer, k, q, d) <==> if q == p then k == n && d == data else LastAt(log, k, q, d) {
    }
    forall q ensures WroteBelow(longer, q) <==> WroteBelow(log, q) || (Prefix(q, p) && q != p) {
      if WroteBelow(log, q) {
        var k: nat, r, d :| WroteAt(log, k, r, d) && Prefix(q, r) && q != r;
        assert WroteAt(longer, k, r, d);
      }
    }
  }

  lemma StandsAfter(t: Tree, log: seq<Event>, o: Overlay, op: Op)
    requires WellFormed(t) && Inv(t, o) && StandsFor(t, log, o)
    ensures StandsFor(t, log + [Event(op, Step(t, o, op).1)], Step(t, o, op).0)
  {
    hide *;
    StepKeepsInv(t, o, op);
    InvSound(t, Step(t, o, op).0);
    if op.WriteFile? && Step(t, o, op).1 == Written {
      WrittenMeans(t, o, op);
      WriteAnswer(t, o, op);
      WriteStands(t, log, o, op.path, op.data);
      assert op == WriteFile(op.path, op.data);
    } else {
      OtherCalls(log, Event(op, Step(t, o, op).1));
      NothingWritten(t, o, op);
      StandsOn(t, log, log + [Event(op, Step(t, o, op).1)], o, Step(t, o, op).0);
    }
  }

  lemma InvSound(t: Tree, o: Overlay)
    requires Inv(t, o)
    ensures Sound(t, o)
  {
  }

  lemma WrittenMeans(t: Tree, o: Overlay, op: Op)
    requires op.WriteFile? && Step(t, o, op).1 == Written
    ensures op.path != [] && !(KindOf(View(t, o), op.path) == Directory || FileAbove(View(t, o), op.path))
  {
  }

  lemma NothingWritten(t: Tree, o: Overlay, op: Op)
    requires !(op.WriteFile? && Step(t, o, op).1 == Written)
    ensures Step(t, o, op).0.upper == o.upper
  {
  }

  lemma StandsOn(t: Tree, log: seq<Event>, longer: seq<Event>, o: Overlay, after: Overlay)
    requires StandsFor(t, log, o) && Sound(t, after) && after.upper == o.upper
    requires forall p, d :: LastWrote(longer, p, d) <==> LastWrote(log, p, d)
    requires forall p :: WroteBelow(longer, p) <==> WroteBelow(log, p)
    ensures StandsFor(t, longer, after)
  {
    hide LastWrote, WroteBelow, Sound;
    forall p ensures Shown(longer, after.upper, p) { assert Shown(log, o.upper, p); }
  }

  lemma WriteStands(t: Tree, log: seq<Event>, o: Overlay, p: Path, data: Data)
    requires StandsFor(t, log, o) && Sound(t, Write(o, p, data))
    requires !(KindOf(View(t, o), p) == Directory || FileAbove(View(t, o), p))
    ensures StandsFor(t, log + [Event(WriteFile(p, data), Written)], Write(o, p, data))
  {
    var after, longer := Write(o, p, data), log + [Event(WriteFile(p, data), Written)];
    NotBelowItself(t, log, o, p);
    hide LastWrote, WroteBelow, Sound, Write, View, FileAbove, UpperAt, Shown;
    forall q ensures Shown(longer, after.upper, q) {
      UpperAfter(t, o, p, data, q);
      assert Shown(log, o.upper, q);
      ShownAfter(log, o.upper, after.upper, p, data, q);
    }
  }

  lemma ShownAfter(log: seq<Event>, before: Tree, after: Tree, p: Path, data: Data, q: Path)
    requires Shown(log, before, q) && UpperAt(before, after, p, data, q) && !WroteBelow(log, p)
    ensures Shown(log + [Event(WriteFile(p, data), Written)], after, q)
  {
    OneMoreWrite(log, p, data);
    hide LastWrote, WroteBelow, Prefix;
  }

  /** How a write changes what is at `q`. */
  predicate UpperAt(before: Tree, after: Tree, p: Path, data: Data, q: Path) {
    if q == p then q in after && after[q] == File(data)
    else if Prefix(q, p) then q in after && after[q] == Dir && (q in before ==> before[q] == Dir)
    else (q in after <==> q in before) && (q in after ==> after[q] == before[q])
  }

  lemma UpperAfter(t: Tree, o: Overlay, p: Path, data: Data, q: Path)
    requires !(KindOf(View(t, o), p) == Directory || FileAbove(View(t, o), p))
    ensures UpperAt(o.upper, Write(o, p, data).upper, p, data, q)
  {
    WriteUpper(o, p, data, q);
    assert Prefix(p, p);
    hide Write;
    if Prefix(q, p) && q != p { NoFileOver(t, o, p, q); }
  }

  /** What a write succeeds at is no directory, and nothing above it is a file. */
  lemma NotBelowItself(t: Tree, log: seq<Event>, o: Overlay, p: Path)
    requires StandsFor(t, log, o) && !(KindOf(View(t, o), p) == Directory || FileAbove(View(t, o), p))
    ensures !WroteBelow(log, p)
  {
    hide LastWrote, WroteBelow;
    assert Shown(log, o.upper, p);
  }

  lemma NoFileOver(t: Tree, o: Overlay, p: Path, q: Path)
    requires !(KindOf(View(t, o), p) == Directory || FileAbove(View(t, o), p)) && Prefix(q, p) && q != p
    ensures q in o.upper ==> o.upper[q] == Dir
  {
    assert q == p[..|q|];
  }

  lemma {:induction false} ReplayStands(t: Tree, ops: seq<Op>)
    requires WellFormed(t)
    ensures Inv(t, Replay(t, ops)) && StandsFor(t, LogOf(t, ops), Replay(t, ops))
  {
    if ops == [] {
      StartInv(t);
      assert forall k: nat, p, d :: !WroteAt([], k, p, d);
    } else {
      var last := |ops| - 1;
      ReplayStands(t, ops[..last]);
      StepKeepsInv(t, Replay(t, ops[..last]), ops[last]);
      hide Inv, StandsFor, Step;
      StandsAfter(t, LogOf(t, ops[..last]), Replay(t, ops[..last]), ops[last]);
    }
  }

  lemma {:induction false} LogPrefix(t: Tree, ops: seq<Op>, k: nat)
    requires k <= |ops|
    ensures LogOf(t, ops[..k]) == LogOf(t, ops)[..k]
    decreases |ops|
  {
    if k == |ops| {
      assert ops[..k] == ops;
    } else {
      var last := |ops| - 1;
      assert ops[..last][..k] == ops[..k];
      LogPrefix(t, ops[..last], k);
    }
  }

  /** Whatever a render calls in whatever order, every call answers what the source tree and the writes
      that succeeded before it say: a path reads as it was last written, or else as in the source. */
  lemma EveryAnswerRight(t: Tree, ops: seq<Op>, k: nat)
    requires WellFormed(t) && k < |ops|
    ensures var log := LogOf(t, ops);
            log[k].op == ops[k] && Right(t, log[..k], ops[k], log[k].answer)
  {
    var before, next := ops[..k], ops[..k + 1];
    ReplayStands(t, before);
    AnswerRight(t, LogOf(t, before), Replay(t, before), ops[k]);
    assert next[..k] == before && next[k] == ops[k];
    LogPrefix(t, ops, k);
    LogPrefix(t, ops, k + 1);
    hide StandsFor, Inv, Right, Step;
    assert LogOf(t, next) == LogOf(t, before) + [Event(ops[k], Step(t, Replay(t, before), ops[k]).1)];
  }

  /** A file written is read back until the path is written again. */
  lemma ReadsWhatWasWritten(t: Tree, ops: seq<Op>, i: nat, k: nat)
    requires WellFormed(t) && i < k < |ops| && ops[i].WriteFile? && ops[k] == ReadFile(ops[i].path)
    requires LogOf(t, ops)[i].answer == Written
    requires forall j | i < j < k && ops[j].WriteFile? && ops[j].path == ops[i].path :: LogOf(t, ops)[j].answer != Written
    ensures LogOf(t, ops)[k].answer == Content(ops[i].data)
  {
    EveryAnswerRight(t, ops, k);
    var log, p, d := LogOf(t, ops)[..k], ops[i].path, ops[i].data;
    EveryAnswerRight(t, ops, i);
    assert WroteAt(log, i, p, d);
    forall j: nat, e | i < j ensures !WroteAt(log, j, p, e) {
      if j < k { EveryAnswerRight(t, ops, j); }
    }
    assert LastAt(log, i, p, d);
    assert HoldsFile(t, log, p, d);
  }

  /** A path no write has touched reads as in the source. */
  lemma ReadsTheSource(t: Tree, ops: seq<Op>, k: nat, c: Data)
    requires WellFormed(t) && k < |ops| && ops[k].ReadFile?
    requires forall j | 0 <= j < k && ops[j].WriteFile? && ops[j].path == ops[k].path :: LogOf(t, ops)[j].answer != Written
    ensures LogOf(t, ops)[k].answer == Content(c) <==> ops[k].path in t && t[ops[k].path] == File(c)
  {
    EveryAnswerRight(t, ops, k);
    var log, p := LogOf(t, ops)[..k], ops[k].path;
    forall j: nat, e ensures !WroteAt(log, j, p, e) {
      if j < k { EveryAnswerRight(t, ops, j); }
    }
    assert Untouched(log, p);
    if LastWrote(log, p, c) { WroteTouches(log, p, c); }
    assert HoldsFile(t, log, p, c) <==> p in t && t[p] == File(c);
  }

  // ---------- what is recorded ----------

  /** A write succeeded at `p` or above it. */
  ghost predicate TouchedAbove(log: seq<Event>, p: Path) {
    exists k: nat, q, d :: WroteAt(log, k, q, d) && Prefix(q, p)
  }

  /** A call of this kind was made while nothing at `p` or above it was written. */
  ghost predicate Recorded(log: seq<Event>, p: Path, kind: Event -> bool) {
    exists k: nat :: RecordedAt(log, p, kind, k)
  }

  ghost predicate RecordedAt(log: seq<Event>, p: Path, kind: Event -> bool, k: nat) {
    k < |log| && kind(log[k]) && !TouchedAbove(log[..k], p)
  }

  function Probing(p: Path): Event -> bool {
    (e: Event) => e.op == Exists(p) || e.op == IsDir(p)
  }

  function Reading(p: Path): Event -> bool {
    (e: Event) => e.op == ReadFile(p) && e.answer != Failed(NotExist)
  }

  function Listing(t: Tree, p: Path): Event -> bool {
    (e: Event) => e.op == ReadDir(p) && e.answer != Failed(NotExist) && KindOf(t, p) == Directory
  }

  lemma ModifiedMeans(t: Tree, log: seq<Event>, o: Overlay, p: Path)
    requires Inv(t, o) && StandsFor(t, log, o)
    ensures Modified(o, p) <==> TouchedAbove(log, p)
  {
    if k :| 0 <= k <= |p| && p[..k] in o.changed {
      ChangedMeans(t, log, o, p[..k]);
      var j: nat, d :| WroteAt(log, j, p[..k], d);
      assert Prefix(p[..k], p);
    }
    if j: nat, q, d :| WroteAt(log, j, q, d) && Prefix(q, p) {
      ChangedMeans(t, log, o, q);
      assert q == p[..|q|];
    }
  }

  lemma ChangedMeans(t: Tree, log: seq<Event>, o: Overlay, q: Path)
    requires Inv(t, o) && StandsFor(t, log, o)
    ensures q in o.changed <==> !Untouched(log, q)
  {
    assert Shown(log, o.upper, q);
    TouchedLast(log, |log|, q);
    if q in o.changed {
      WroteTouches(log, q, o.upper[q].data);
    }
  }

  lemma OneMoreRecord(log: seq<Event>, e: Event, p: Path, kind: Event -> bool)
    ensures Recorded(log + [e], p, kind) <==> Recorded(log, p, kind) || (kind(e) && !TouchedAbove(log, p))
  {
    var longer, n := log + [e], |log|;
    assert longer[..n] == log && longer[n] == e;
    hide TouchedAbove;
    forall k: nat ensures RecordedAt(longer, p, kind, k) <==> RecordedAt(log, p, kind, k) || (k == n && kind(e) && !TouchedAbove(log, p)) {
      if k < n { assert longer[..k] == log[..k] && longer[k] == log[k]; }
    }
    if Recorded(log, p, kind) {
      var k: nat :| RecordedAt(log, p, kind, k);
      assert RecordedAt(longer, p, kind, k);
    }
    if kind(e) && !TouchedAbove(log, p) { assert RecordedAt(longer, p, kind, n); }
  }

  /** The read set of a render holds exactly the paths it probed, read and listed while nothing there or
      above was written; reading what does not exist leaves no record. */
  lemma {:induction false} RecordsExactly(t: Tree, ops: seq<Op>, p: Path)
    requires WellFormed(t)
    ensures var seen, log := Replay(t, ops).seen, LogOf(t, ops);
            && (p in seen.nodes <==> Recorded(log, p, Probing(p)))
            && (p in seen.files <==> Recorded(log, p, Reading(p)))
            && (p in seen.dirs <==> Recorded(log, p, Listing(t, p)))
  {
    if ops != [] {
      var last := |ops| - 1;
      RecordsExactly(t, ops[..last], p);
      ReplayStands(t, ops[..last]);
      hide Recorded, Step, StandsFor, Inv, Probing, Reading, Listing;
      var log, o, op := LogOf(t, ops[..last]), Replay(t, ops[..last]), ops[last];
      var e := Event(op, Step(t, o, op).1);
      ModifiedMeans(t, log, o, p);
      StepRecords(t, o, op, p);
      OneMoreRecord(log, e, p, Probing(p));
      OneMoreRecord(log, e, p, Reading(p));
      OneMoreRecord(log, e, p, Listing(t, p));
    }
  }

  lemma StepRecords(t: Tree, o: Overlay, op: Op, p: Path)
    ensures var (after, answer) := Step(t, o, op);
            var e := Event(op, answer);
            && (p in after.seen.nodes <==> p in o.seen.nodes || (Probing(p)(e) && !Modified(o, p)))
            && (p in after.seen.files <==> p in o.seen.files || (Reading(p)(e) && !Modified(o, p)))
            && (p in after.seen.dirs <==> p in o.seen.dirs || (Listing(t, p)(e) && !Modified(o, p)))
  {
    hide Modified;
  }
}
