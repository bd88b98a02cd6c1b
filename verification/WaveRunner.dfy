/** The concurrent validation of recorded remotes, wave by wave (pkg/kustomize/readset.go, 282-356),
    as a state machine whose steps interleave the runner, one task per entry and cancellation. */
module WaveRunner {
  import opened Graph
  import opened RemoteWaves

  /** A task has not been started, waits for its turn, is acquiring its remote, or has reported. */
  datatype Task = Idle | Launched | Acquiring | Done(valid: bool)

  datatype Runner =
    | AtWave(wave: nat)
    | Launching(wave: nat, next: nat)
    | Awaiting(wave: nat, next: nat)
    | Returned(answer: bool, cancelledThen: bool)

  /** One completed acquisition. */
  datatype Acquisition = Acquisition(index: nat, identity: RemoteIdentity)

  datatype Plan = Plan(remotes: seq<RemoteEntry>, waves: seq<seq<nat>>, level: seq<nat>)

  datatype State = State(runner: Runner, tasks: seq<Task>, valid: bool, cancelled: bool, log: seq<Acquisition>)

  ghost predicate Planned(plan: Plan) {
    && Levels(|plan.remotes|, ParentOf(plan.remotes), plan.level)
    && WavesOf(plan.waves, |plan.remotes|, plan.level)
  }

  predicate Matches(entry: RemoteEntry, identity: RemoteIdentity) {
    identity != NO_IDENTITY && identity == entry.identity
  }

  ghost predicate Init(plan: Plan, s: State) {
    && s.runner == AtWave(0) && s.valid && s.log == []
    && s.tasks == seq(|plan.remotes|, i => Idle)
  }

  ghost function Return(s: State): State {
    s.(runner := Returned(s.valid && !s.cancelled, s.cancelled))
  }

  /** The runner's own steps. */
  ghost predicate RunnerStep(plan: Plan, s: State, t: State) {
    match s.runner
    case AtWave(w) =>
      if w >= |plan.waves| then t == Return(s)
      else if s.cancelled then t == Return(s.(valid := false))
      else t == s.(runner := Launching(w, 0))
    case Launching(w, k) =>
      w < |plan.waves| &&
      if k < |plan.waves[w]| then
        plan.waves[w][k] < |s.tasks| &&
        t == s.(runner := Launching(w, k + 1), tasks := s.tasks[plan.waves[w][k] := Launched])
      else t == s.(runner := Awaiting(w, 0))
    case Awaiting(w, k) =>
      w < |plan.waves| &&
      if k < |plan.waves[w]| then
        plan.waves[w][k] < |s.tasks| && s.tasks[plan.waves[w][k]].Done? &&
        t == s.(runner := Awaiting(w, k + 1), valid := s.valid && s.tasks[plan.waves[w][k]].valid)
      else if !s.valid || s.cancelled then t == Return(s)
      else t == s.(runner := AtWave(w + 1))
    case Returned(_, _) => false
  }

  /** A launched task looks at the context first; what it then acquires is up to the environment. */
  ghost predicate TaskStep(plan: Plan, s: State, t: State, i: nat, identity: RemoteIdentity) {
    && i < |s.tasks| && i < |plan.remotes|
    && match s.tasks[i]
       case Launched => t == s.(tasks := s.tasks[i := if s.cancelled then Done(false) else Acquiring])
       case Acquiring =>
         t == s.(tasks := s.tasks[i := Done(Matches(plan.remotes[i], identity))],
                 log := s.log + [Acquisition(i, identity)])
       case _ => false
  }

  ghost predicate Next(plan: Plan, s: State, t: State) {
    || RunnerStep(plan, s, t)
    || (exists i, identity :: TaskStep(plan, s, t, i, identity))
    || t == s.(cancelled := true)
  }

  ghost predicate Run(plan: Plan, trace: seq<State>) {
    && trace != [] && Init(plan, trace[0])
    && forall k | 0 < k < |trace| :: Next(plan, trace[k - 1], trace[k])
  }

  // ---------- the invariant of every run ----------

  /** The entry was acquired with its recorded identity. */
  ghost predicate Confirmed(plan: Plan, s: State, i: nat)
    requires i < |plan.remotes|
  {
    exists k :: 0 <= k < |s.log| && s.log[k].index == i &&
                s.log[k].identity == plan.remotes[i].identity && s.log[k].identity != RemoteIdentity("", 0)
  }

  ghost predicate Logged(s: State, i: nat) {
    exists k :: 0 <= k < |s.log| && s.log[k].index == i
  }

  /** The runner is in wave `w`, has launched the first `launched` of it and heard from the first
      `awaited` of those; everything in earlier waves was found valid, nothing later was started. */
  ghost predicate Active(plan: Plan, s: State, w: nat, launched: nat, awaited: nat)
    requires Planned(plan) && |s.tasks| == |plan.remotes|
  {
    && w <= |plan.waves| && awaited <= launched <= (if w < |plan.waves| then |plan.waves[w]| else 0)
    && (forall i | 0 <= i < |s.tasks| && plan.level[i] < w :: s.tasks[i] == Done(true))
    && (forall i | 0 <= i < |s.tasks| && plan.level[i] > w :: s.tasks[i] == Idle)
    && (w < |plan.waves| ==>
          forall k | 0 <= k < |plan.waves[w]| :: s.tasks[plan.waves[w][k]] == Idle <==> k >= launched)
    && (w < |plan.waves| ==>
          && (forall k | 0 <= k < awaited :: s.tasks[plan.waves[w][k]].Done?)
          && (s.valid <==> forall k | 0 <= k < awaited :: s.tasks[plan.waves[w][k]] == Done(true)))
    && (awaited == 0 ==> s.valid)
  }

  ghost predicate RunnerInv(plan: Plan, s: State)
    requires Planned(plan) && |s.tasks| == |plan.remotes|
  {
    match s.runner
    case AtWave(w) => Active(plan, s, w, 0, 0)
    case Launching(w, k) => w < |plan.waves| && Active(plan, s, w, k, 0)
    case Awaiting(w, k) => w < |plan.waves| && Active(plan, s, w, |plan.waves[w]|, k)
    case Returned(answer, cancelledThen) =>
      && (answer ==> forall i | 0 <= i < |s.tasks| :: s.tasks[i] == Done(true))
      && (answer ==> !cancelledThen)
      && (cancelledThen ==> s.cancelled)
      && (!answer ==> cancelledThen || exists i :: 0 <= i < |s.tasks| && s.tasks[i] == Done(false))
  }

  /** A task is past launch only when everything on lower levels was confirmed. */
  ghost predicate Ordered(plan: Plan, s: State)
    requires Planned(plan) && |s.tasks| == |plan.remotes|
  {
    forall i, j | 0 <= i < |s.tasks| && 0 <= j < |s.tasks| && s.tasks[i] != Idle && plan.level[j] < plan.level[i] ::
      s.tasks[j] == Done(true)
  }

  ghost predicate LogInv(plan: Plan, s: State)
    requires |s.tasks| == |plan.remotes|
  {
    && (forall k | 0 <= k < |s.log| :: s.log[k].index < |plan.remotes|)
    && (forall i: nat | i < |s.tasks| :: Logged(s, i) ==> s.tasks[i].Done?)
    && (forall i: nat | i < |s.tasks| && s.tasks[i] == Done(true) :: Confirmed(plan, s, i))
    && (forall i: nat | i < |s.tasks| && s.tasks[i] == Done(false) && !s.cancelled :: Logged(s, i) && !Confirmed(plan, s, i))
    && (forall k, j | 0 <= k < j < |s.log| :: s.log[k].index != s.log[j].index)
  }

  ghost predicate Inv(plan: Plan, s: State) {
    && Planned(plan) && |s.tasks| == |plan.remotes|
    && RunnerInv(plan, s) && Ordered(plan, s) && LogInv(plan, s)
  }

  lemma InitInv(plan: Plan, s: State)
    requires Planned(plan) && Init(plan, s)
    ensures Inv(plan, s)
  {
  }

  lemma RunnerKeepsInv(plan: Plan, s: State, t: State)
    requires Inv(plan, s) && RunnerStep(plan, s, t)
    ensures Inv(plan, t)
  {
    hide Levels, Active;
    if s.runner.Launching? && s.runner.next < |plan.waves[s.runner.wave]| {
      LaunchKeepsInv(plan, s, t);
    } else {
      assert LogInv(plan, t) by { SameLog(plan, s, t); }
      match s.runner
      case AtWave(w) => AtWaveNext(plan, s, t);
      case Launching(w, k) => LaunchedAll(plan, s, t);
      case Awaiting(w, k) => AwaitNext(plan, s, t);
    }
  }

  lemma LaunchedAll(plan: Plan, s: State, t: State)
    requires Inv(plan, s) && RunnerStep(plan, s, t)
    requires s.runner.Launching? && s.runner.wave < |plan.waves| && s.runner.next >= |plan.waves[s.runner.wave]|
    ensures RunnerInv(plan, t)
  {
    hide Levels, LogInv, Ordered;
  }

  lemma SameLog(plan: Plan, s: State, t: State)
    requires |s.tasks| == |plan.remotes| && LogInv(plan, s)
    requires t.tasks == s.tasks && t.log == s.log && t.cancelled == s.cancelled
    ensures LogInv(plan, t)
  {
    forall i: nat | i < |s.tasks|
      ensures Logged(t, i) == Logged(s, i) && Confirmed(plan, t, i) == Confirmed(plan, s, i)
    {
    }
  }

  lemma LaunchKeepsInv(plan: Plan, s: State, t: State)
    requires Inv(plan, s) && RunnerStep(plan, s, t)
    requires s.runner.Launching? && s.runner.wave < |plan.waves| && s.runner.next < |plan.waves[s.runner.wave]|
    ensures Inv(plan, t)
  {
    hide Levels;
    var i := plan.waves[s.runner.wave][s.runner.next];
    assert plan.level[i] == s.runner.wave && s.tasks[i] == Idle;
    forall j: nat | j < |s.tasks|
      ensures Logged(t, j) == Logged(s, j) && Confirmed(plan, t, j) == Confirmed(plan, s, j)
    {
    }
    hide Logged, Confirmed;
  }

  lemma AtWaveNext(plan: Plan, s: State, t: State)
    requires Inv(plan, s) && RunnerStep(plan, s, t) && s.runner.AtWave?
    ensures RunnerInv(plan, t)
  {
    hide Levels, LogInv, Ordered;
    if s.runner.wave >= |plan.waves| {
      assert forall i | 0 <= i < |s.tasks| :: plan.level[i] < s.runner.wave;
    }
  }

  lemma AwaitNext(plan: Plan, s: State, t: State)
    requires Inv(plan, s) && RunnerStep(plan, s, t) && s.runner.Awaiting?
    ensures RunnerInv(plan, t)
  {
    hide Levels, LogInv, Ordered;
    var w := s.runner.wave;
    if s.runner.next == |plan.waves[w]| {
      AllHeard(plan, s, w);
      if s.valid && w + 1 < |plan.waves| {
        var v := w + 1;
        forall k | 0 <= k < |plan.waves[v]| ensures s.tasks[plan.waves[v][k]] == Idle {
          assert plan.level[plan.waves[v][k]] == v;
        }
      }
    }
  }

  /** Having heard from a whole wave: all of it is valid, or some entry is not. */
  lemma AllHeard(plan: Plan, s: State, w: nat)
    requires Planned(plan) && |s.tasks| == |plan.remotes| && w < |plan.waves|
    requires Active(plan, s, w, |plan.waves[w]|, |plan.waves[w]|)
    ensures s.valid ==> forall i | 0 <= i < |s.tasks| && plan.level[i] <= w :: s.tasks[i] == Done(true)
    ensures !s.valid ==> exists i :: 0 <= i < |s.tasks| && s.tasks[i] == Done(false)
  {
    if s.valid {
      forall i | 0 <= i < |s.tasks| && plan.level[i] == w ensures s.tasks[i] == Done(true) {
        assert i in plan.waves[w];
      }
    } else {
      var k :| 0 <= k < |plan.waves[w]| && s.tasks[plan.waves[w][k]] != Done(true);
      assert s.tasks[plan.waves[w][k]] == Done(false);
    }
  }

  lemma TaskKeepsInv(plan: Plan, s: State, t: State, i: nat, identity: RemoteIdentity)
    requires Inv(plan, s) && TaskStep(plan, s, t, i, identity)
    ensures Inv(plan, t)
  {
    TaskKeepsRunner(plan, s, t, i, identity);
    TaskKeepsLog(plan, s, t, i, identity);
  }

  lemma TaskKeepsRunner(plan: Plan, s: State, t: State, i: nat, identity: RemoteIdentity)
    requires Inv(plan, s) && TaskStep(plan, s, t, i, identity)
    ensures RunnerInv(plan, t) && Ordered(plan, t)
  {
    hide LogInv, Levels, WavesOf, Active;
    assert t.runner == s.runner && t.valid == s.valid;
    assert forall j | 0 <= j < |s.tasks| && j != i :: t.tasks[j] == s.tasks[j];
    assert s.tasks[i] != Idle && !s.tasks[i].Done? && t.tasks[i] != Idle;
    match s.runner
    case AtWave(w) => TaskKeepsActive(plan, s, t, i, w, 0, 0);
    case Launching(w, k) => TaskKeepsActive(plan, s, t, i, w, k, 0);
    case Awaiting(w, k) => TaskKeepsActive(plan, s, t, i, w, |plan.waves[w]|, k);
    case Returned(answer, cancelledThen) =>
      if !answer && !cancelledThen {
        var j :| 0 <= j < |s.tasks| && s.tasks[j] == Done(false);
        assert t.tasks[j] == Done(false);
      }
  }

  lemma TaskKeepsActive(plan: Plan, s: State, t: State, i: nat, w: nat, launched: nat, awaited: nat)
    requires Planned(plan) && |s.tasks| == |t.tasks| == |plan.remotes| && i < |s.tasks|
    requires t.valid == s.valid && forall j | 0 <= j < |s.tasks| && j != i :: t.tasks[j] == s.tasks[j]
    requires s.tasks[i] != Idle && !s.tasks[i].Done? && t.tasks[i] != Idle
    requires Active(plan, s, w, launched, awaited)
    ensures Active(plan, t, w, launched, awaited)
  {
    hide Levels;
  }

  lemma TaskKeepsLog(plan: Plan, s: State, t: State, i: nat, identity: RemoteIdentity)
    requires Inv(plan, s) && TaskStep(plan, s, t, i, identity)
    ensures LogInv(plan, t)
  {
    hide RunnerInv, Ordered, Levels, WavesOf;
    assert !Logged(s, i) by { assert !s.tasks[i].Done?; }
    if s.tasks[i].Acquiring? {
      var n := |s.log|;
      assert t.log[n] == Acquisition(i, identity);
      forall j: nat | j < |t.tasks|
        ensures Logged(t, j) <==> Logged(s, j) || j == i
        ensures Confirmed(plan, t, j) <==> Confirmed(plan, s, j) || (j == i && Matches(plan.remotes[i], identity))
      {
        LogGrows(plan, s, t, j, Acquisition(i, identity));
      }
    }
  }

  lemma LogGrows(plan: Plan, s: State, t: State, j: nat, a: Acquisition)
    requires j < |plan.remotes| && t.log == s.log + [a]
    ensures Logged(t, j) <==> Logged(s, j) || j == a.index
    ensures Confirmed(plan, t, j) <==> Confirmed(plan, s, j) || (j == a.index && Matches(plan.remotes[j], a.identity))
  {
    assert t.log[|s.log|] == a;
    if Logged(s, j) {
      var k :| 0 <= k < |s.log| && s.log[k].index == j;
      assert t.log[k].index == j;
    }
    if Confirmed(plan, s, j) {
      var k :| 0 <= k < |s.log| && s.log[k].index == j &&
               s.log[k].identity == plan.remotes[j].identity && s.log[k].identity != RemoteIdentity("", 0);
      assert t.log[k] == s.log[k];
    }
  }

  lemma NextKeepsInv(plan: Plan, s: State, t: State)
    requires Inv(plan, s) && Next(plan, s, t)
    ensures Inv(plan, t)
  {
    if RunnerStep(plan, s, t) {
      RunnerKeepsInv(plan, s, t);
    } else if i, identity :| TaskStep(plan, s, t, i, identity) {
      TaskKeepsInv(plan, s, t, i, identity);
    } else {
      CancelKeepsInv(plan, s, t);
    }
  }

  lemma CancelKeepsInv(plan: Plan, s: State, t: State)
    requires Inv(plan, s) && t == s.(cancelled := true)
    ensures Inv(plan, t)
  {
    hide Levels;
    forall i: nat | i < |s.tasks|
      ensures Logged(t, i) == Logged(s, i) && Confirmed(plan, t, i) == Confirmed(plan, s, i)
    {
    }
  }

  lemma {:induction false} RunKeepsInv(plan: Plan, trace: seq<State>, k: nat)
    requires Planned(plan) && Run(plan, trace) && k < |trace|
    ensures Inv(plan, trace[k])
  {
    if k == 0 {
      InitInv(plan, trace[0]);
    } else {
      RunKeepsInv(plan, trace, k - 1);
      hide Inv, Planned;
      NextKeepsInv(plan, trace[k - 1], trace[k]);
    }
  }

  // ---------- what every schedule guarantees ----------

  /** In every schedule, a remote is being acquired only when each of its ancestors has been acquired
      again with its recorded identity. */
  lemma AncestorsFirst(plan: Plan, trace: seq<State>, k: nat, path: seq<nat>, j: nat)
    requires Planned(plan) && Run(plan, trace) && k < |trace|
    requires Chain(|plan.remotes|, ParentOf(plan.remotes), path) && j < |path| - 1
    requires path[|path| - 1] < |trace[k].tasks|
    requires trace[k].tasks[path[|path| - 1]].Acquiring? || Logged(trace[k], path[|path| - 1])
    ensures Confirmed(plan, trace[k], path[j])
  {
    var s := trace[k];
    RunKeepsInv(plan, trace, k);
    var tail := path[j..];
    forall i | 0 < i < |tail| ensures ParentOf(plan.remotes)(tail[i - 1], tail[i]) {
      assert tail[i] == path[j + i] && tail[i - 1] == path[j + i - 1];
    }
    assert Chain(|plan.remotes|, ParentOf(plan.remotes), tail);
    LevelBoundsChain(|plan.remotes|, ParentOf(plan.remotes), plan.level, tail);
    assert plan.level[path[j]] < plan.level[path[|path| - 1]];
    hide Levels, WavesOf, Confirmed;
    assert s.tasks[path[|path| - 1]] != Idle;
    assert s.tasks[path[j]] == Done(true);
  }

  /** Each entry is acquired at most once. */
  lemma AcquiredOnce(plan: Plan, trace: seq<State>, k: nat, i: nat, j: nat)
    requires Planned(plan) && Run(plan, trace) && k < |trace|
    requires i < |trace[k].log| && j < |trace[k].log| && trace[k].log[i].index == trace[k].log[j].index
    ensures i == j
  {
    RunKeepsInv(plan, trace, k);
    hide RunnerInv, Ordered, Planned;
  }

  /** When the runner returns, its answer is yes exactly if every entry was acquired with its
      recorded identity and the context had not been cancelled. */
  lemma AnswerIsExact(plan: Plan, trace: seq<State>, k: nat)
    requires Planned(plan) && Run(plan, trace) && 0 < k < |trace|
    requires trace[k].runner.Returned? && !trace[k - 1].runner.Returned?
    ensures trace[k].runner.answer <==>
            !trace[k].cancelled && forall i: nat | i < |plan.remotes| :: Confirmed(plan, trace[k], i)
  {
    var s, t := trace[k - 1], trace[k];
    RunKeepsInv(plan, trace, k);
    hide Planned, Confirmed, Logged, Ordered;
    assert Next(plan, s, t);
    assert t.runner.cancelledThen == t.cancelled;
    if !t.runner.answer && !t.cancelled {
      var i :| 0 <= i < |t.tasks| && t.tasks[i] == Done(false);
      assert !Confirmed(plan, t, i);
    }
  }
}
