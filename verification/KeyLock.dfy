/** The lock per key: a mutex over a map of one-slot channels, which are made on first use
    (internal/keylock/keylock.go, 15-49). Every access to the map or a channel is a step of its own. */
module KeyLock {
  import opened Text

  type Key = string

  /** Where a call of `Acquire` or its release is. */
  datatype Thread =
    | Outside
    | Calling(key: Key)
    | LookingUp(key: Key)
    | Making(key: Key)
    | Unlocking(key: Key, slot: nat)
    | Waiting(key: Key, slot: nat)
    | Inside(key: Key, slot: nat)

  /** A channel is full while some thread is inside. */
  datatype State = State(mutex: Option<nat>, locks: map<Key, nat>, full: seq<bool>, threads: seq<Thread>)

  ghost predicate Init(s: State) {
    && s.mutex == None && s.locks == map[] && s.full == []
    && forall i | 0 <= i < |s.threads| :: s.threads[i] == Outside
  }

  function Goes(s: State, i: nat, to: Thread): State
    requires i < |s.threads|
  {
    s.(threads := s.threads[i := to])
  }

  ghost predicate Step(s: State, t: State, i: nat) {
    && i < |s.threads|
    && match s.threads[i]
       case Outside => exists key :: t == Goes(s, i, Calling(key))
       case Calling(key) => s.mutex == None && t == Goes(s, i, LookingUp(key)).(mutex := Some(i))
       case LookingUp(key) => t == Goes(s, i, if key in s.locks then Unlocking(key, s.locks[key]) else Making(key))
       case Making(key) =>
         t == Goes(s, i, Unlocking(key, |s.full|)).(full := s.full + [false], locks := s.locks[key := |s.full|])
       case Unlocking(key, slot) => t == Goes(s, i, Waiting(key, slot)).(mutex := None)
       case Waiting(key, slot) =>
         || t == Goes(s, i, Outside)
         || (slot < |s.full| && !s.full[slot] && t == Goes(s, i, Inside(key, slot)).(full := s.full[slot := true]))
       case Inside(_, slot) => slot < |s.full| && t == Goes(s, i, Outside).(full := s.full[slot := false])
  }

  ghost predicate Next(s: State, t: State) {
    exists i :: Step(s, t, i)
  }

  ghost predicate Run(trace: seq<State>) {
    && trace != [] && Init(trace[0])
    && forall k | 0 < k < |trace| :: Next(trace[k - 1], trace[k])
  }

  // ---------- the invariant ----------

  predicate Guarded(t: Thread) {
    t.LookingUp? || t.Making? || t.Unlocking?
  }

  predicate HasSlot(t: Thread) {
    t.Unlocking? || t.Waiting? || t.Inside?
  }

  /** A thread past the lookup has the channel of its key, one about to make a channel makes the first. */
  ghost predicate ThreadOk(s: State, t: Thread) {
    && (t.Making? ==> t.key !in s.locks)
    && (HasSlot(t) ==> t.key in s.locks && s.locks[t.key] == t.slot)
  }

  ghost predicate Inv(s: State) {
    && (forall i | 0 <= i < |s.threads| :: ThreadOk(s, s.threads[i]) && (Guarded(s.threads[i]) <==> s.mutex == Some(i)))
    && (forall k | k in s.locks :: s.locks[k] < |s.full|)
    && (forall k, l | k in s.locks && l in s.locks && k != l :: s.locks[k] != s.locks[l])
    && OnePerSlot(s)
  }

  ghost predicate OnePerSlot(s: State) {
    && (forall i | 0 <= i < |s.threads| && s.threads[i].Inside? :: s.threads[i].slot < |s.full| && s.full[s.threads[i].slot])
    && (forall i, j | 0 <= i < j < |s.threads| && s.threads[i].Inside? && s.threads[j].Inside? ::
          s.threads[i].slot != s.threads[j].slot)
  }

  lemma StepKeepsSlots(s: State, t: State, i: nat)
    requires OnePerSlot(s) && Step(s, t, i)
    ensures OnePerSlot(t)
  {
    forall j, k | 0 <= j < k < |t.threads| && t.threads[j].Inside? && t.threads[k].Inside?
      ensures t.threads[j].slot != t.threads[k].slot
    {
      assert j != i ==> s.threads[j].Inside?;
      assert k != i ==> s.threads[k].Inside?;
    }
  }

  lemma StepKeepsInv(s: State, t: State, i: nat)
    requires Inv(s) && Step(s, t, i)
    ensures Inv(t)
  {
    StepKeepsSlots(s, t, i);
    hide OnePerSlot;
    assert ThreadOk(s, s.threads[i]);
    forall j | 0 <= j < |t.threads|
      ensures ThreadOk(t, t.threads[j]) && (Guarded(t.threads[j]) <==> t.mutex == Some(j))
    {
      assert ThreadOk(s, s.threads[j]);
      if s.threads[i].Making? && j != i {
        assert s.mutex == Some(i);
        assert !Guarded(s.threads[j]);
      }
    }
  }

  lemma {:induction false} RunKeepsInv(trace: seq<State>)
    requires Run(trace)
    ensures Inv(trace[|trace| - 1])
  {
    var last := |trace| - 1;
    if last > 0 {
      assert Run(trace[..last]);
      RunKeepsInv(trace[..last]);
      assert Next(trace[last - 1], trace[last]);
      var i :| Step(trace[last - 1], trace[last], i);
      StepKeepsInv(trace[last - 1], trace[last], i);
    }
  }

  /** In every run, two threads are never inside the lock of one key. */
  lemma Exclusion(trace: seq<State>, i: nat, j: nat)
    requires Run(trace)
    ensures var s := trace[|trace| - 1];
            i < j < |s.threads| && s.threads[i].Inside? && s.threads[j].Inside? ==> s.threads[i].key != s.threads[j].key
  {
    RunKeepsInv(trace);
    var s := trace[|trace| - 1];
    if i < j < |s.threads| {
      assert ThreadOk(s, s.threads[i]) && ThreadOk(s, s.threads[j]);
    }
  }

  // ---------- seen from outside: one map from keys to the threads inside ----------

  predicate Holds(s: State, i: nat, k: Key) {
    i < |s.threads| && s.threads[i].Inside? && s.threads[i].key == k
  }

  ghost predicate Holders(s: State, holders: map<Key, nat>) {
    && (forall k | k in holders :: Holds(s, holders[k], k))
    && (forall i: nat, k | Holds(s, i, k) :: k in holders && holders[k] == i)
  }

  /** Every step leaves the holders alone, or adds one for a free key, or takes one away. */
  lemma StepRefines(s: State, t: State, i: nat, holders: map<Key, nat>) returns (after: map<Key, nat>)
    requires Inv(s) && Step(s, t, i) && Holders(s, holders)
    ensures Holders(t, after)
    ensures || after == holders
            || (t.threads[i].Inside? && t.threads[i].key !in holders && after == holders[t.threads[i].key := i])
            || (s.threads[i].Inside? && after == map k | k in holders && k != s.threads[i].key :: holders[k])
  {
    after := holders;
    var before := s.threads[i];
    assert ThreadOk(s, before);
    assert forall j: nat, k | j != i :: Holds(t, j, k) <==> Holds(s, j, k);
    if before.Inside? {
      assert Holds(s, i, before.key);
      after := map k | k in holders && k != before.key :: holders[k];
    } else if t.threads[i].Inside? {
      var key := before.key;
      FreeKey(s, holders, i);
      after := holders[key := i];
    }
  }

  lemma FreeKey(s: State, holders: map<Key, nat>, i: nat)
    requires Inv(s) && Holders(s, holders) && i < |s.threads| && s.threads[i].Waiting?
    requires s.threads[i].slot < |s.full| && !s.full[s.threads[i].slot]
    ensures s.threads[i].key !in holders
  {
    var key := s.threads[i].key;
    assert ThreadOk(s, s.threads[i]);
    forall j: nat ensures !Holds(s, j, key) {
      if j < |s.threads| { assert ThreadOk(s, s.threads[j]); }
    }
  }
}
