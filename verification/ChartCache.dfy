/** The chart cache, with its lock per key and its lock over the map, as steps of any number of threads
    (pkg/helm/client.go, 105-248; pkg/helm/template.go, 518; pkg/helm/template_cache.go, 536;
    internal/keylock/keylock.go, 31-49). */
module ChartCache {
  import opened Text

  type Key = string

  /** A decoded chart; every decoding makes a new one. */
  type Chart = nat

  datatype Record = Record(id: nat, analysis: Option<string>)

  datatype Description = Description(key: Key, captured: Option<string>, chart: Option<Chart>,
                                     analysis: Option<string>, record: Option<Record>)

  type Cache = map<Key, Description>

  /** What a thread is doing. In hand it may have the description of its last call. */
  datatype Thread =
    | Free(hand: Option<Description>)
    | Looking(key: Key, captured: Option<string>)
    | AwaitingDescribe(key: Key, captured: Option<string>)
    | Rechecking(key: Key, captured: Option<string>)
    | Capturing(key: Key)
    | Describing(description: Description)
    | AwaitingDecode(description: Description)
    | Checking(description: Description)
    | Loading(description: Description)
    | Decoded(description: Description)
    | Releasing(key: Key, hand: Option<Description>)

  /** `holders` are the threads in the one-slot locks; `decoded` lists the keys decoded with success. */
  datatype State = State(cache: Cache, holders: map<Key, nat>, threads: seq<Thread>, decoded: multiset<Key>, charts: nat)

  // ---------- storing a description ----------

  /** What a description becomes on its way into the cache: a chart or an analysis already there stays. */
  function Merged(cache: Cache, d: Description, renewed: Option<Record>): Description {
    var previous := if d.key in cache then cache[d.key] else Description("", None, None, None, None);
    var kept :=
      if previous.chart.Some? then d.(chart := previous.chart, analysis := previous.analysis)
      else if previous.analysis.Some? then d.(analysis := previous.analysis)
      else d;
    var recorded :=
      if renewed.Some? then
        var analysis := if kept.analysis.None? then renewed.value.analysis else kept.analysis;
        kept.(analysis := analysis, record := Some(renewed.value.(analysis := analysis)))
      else kept.(record := previous.record);
    if recorded.chart.Some? then recorded.(captured := None) else recorded
  }

  function Remember(cache: Cache, d: Description, renewed: Option<Record>): Cache {
    cache[d.key := Merged(cache, d, renewed)]
  }

  // ---------- the steps ----------

  ghost predicate Init(s: State) {
    && s.cache == map[] && s.holders == map[] && s.decoded == multiset{} && s.charts == 0
    && forall i | 0 <= i < |s.threads| :: s.threads[i] == Free(None)
  }

  ghost function Goes(s: State, i: nat, to: Thread): State
    requires i < |s.threads|
  {
    s.(threads := s.threads[i := to])
  }

  ghost function Frees(s: State, key: Key): map<Key, nat> {
    map k | k in s.holders && k != key :: s.holders[k]
  }

  /** A call is made: to describe a chart, whose bytes are captured first when it has no pin; to decode the chart
      in hand; or to store a fresh record for it, which takes no key lock. */
  ghost predicate Call(s: State, t: State, i: nat)
    requires i < |s.threads|
  {
    && s.threads[i].Free?
    && (|| (exists key, captured :: t == Goes(s, i, Looking(key, captured)))
        || (s.threads[i].hand.Some? && s.threads[i].hand.value.chart.None? &&
            t == Goes(s, i, AwaitingDecode(s.threads[i].hand.value)))
        || (s.threads[i].hand.Some? && exists record: Record :: t == Stored(s, i, record)))
  }

  ghost function Stored(s: State, i: nat, record: Record): State
    requires i < |s.threads| && s.threads[i].Free? && s.threads[i].hand.Some?
  {
    s.(cache := Remember(s.cache, s.threads[i].hand.value, Some(record)))
  }

  ghost predicate Locks(s: State, t: State, i: nat, key: Key, to: Thread)
    requires i < |s.threads|
  {
    key !in s.holders && t == Goes(s, i, to).(holders := s.holders[key := i])
  }

  /** The description as a thread finds it in the cache. */
  ghost predicate DescribeStep(s: State, t: State, i: nat)
    requires i < |s.threads|
  {
    match s.threads[i]
    case Looking(key, captured) =>
      t == Goes(s, i, if key in s.cache then Free(Some(s.cache[key])) else AwaitingDescribe(key, captured))
    case AwaitingDescribe(key, captured) =>
      || t == Goes(s, i, Free(None))
      || Locks(s, t, i, key, Rechecking(key, captured))
    case Rechecking(key, captured) =>
      t == Goes(s, i,
                if key in s.cache then Releasing(key, Some(s.cache[key]))
                else if captured.Some? then Describing(Description(key, captured, None, None, None))
                else Capturing(key))
    case Capturing(key) =>
      || t == Goes(s, i, Releasing(key, None))
      || exists bytes: string :: t == Goes(s, i, Describing(Description(key, Some(bytes), None, None, None)))
    case Describing(d) =>
      t == Goes(s, i, Releasing(d.key, Some(Merged(s.cache, d, None)))).(cache := Remember(s.cache, d, None))
    case _ => false
  }

  ghost predicate DecodeStep(s: State, t: State, i: nat)
    requires i < |s.threads|
  {
    match s.threads[i]
    case AwaitingDecode(d) =>
      || t == Goes(s, i, Free(Some(d)))
      || Locks(s, t, i, d.key, Checking(d))
    case Checking(d) =>
      var previous := if d.key in s.cache then s.cache[d.key] else Description("", None, None, None, None);
      t == Goes(s, i,
                if previous.chart.Some? then
                  Releasing(d.key, Some(d.(chart := previous.chart, analysis := previous.analysis, captured := None)))
                else Loading(d))
    case Loading(d) =>
      || t == Goes(s, i, Releasing(d.key, Some(d)))
      || (d.captured.Some? &&
          t == Goes(s, i, Decoded(d.(chart := Some(s.charts)))).(decoded := s.decoded + multiset{d.key}, charts := s.charts + 1))
    case Decoded(d) =>
      t == Goes(s, i, Releasing(d.key, Some(Merged(s.cache, d, None)))).(cache := Remember(s.cache, d, None))
    case Releasing(key, hand) =>
      t == Goes(s, i, Free(hand)).(holders := Frees(s, key))
    case _ => false
  }

  ghost predicate Step(s: State, t: State, i: nat) {
    i < |s.threads| && (Call(s, t, i) || DescribeStep(s, t, i) || DecodeStep(s, t, i))
  }

  ghost predicate Next(s: State, t: State) {
    exists i :: Step(s, t, i)
  }

  ghost predicate Run(trace: seq<State>) {
    && trace != [] && Init(trace[0])
    && forall k | 0 < k < |trace| :: Next(trace[k - 1], trace[k])
  }

  // ---------- the invariant ----------

  /** The lock a thread holds. */
  function Holding(t: Thread): Option<Key> {
    match t
    case Rechecking(key, _) => Some(key)
    case Capturing(key) => Some(key)
    case Describing(d) => Some(d.key)
    case Checking(d) => Some(d.key)
    case Loading(d) => Some(d.key)
    case Decoded(d) => Some(d.key)
    case Releasing(key, _) => Some(key)
    case _ => None
  }

  /** A description holds its chart or the bytes to make it from. */
  ghost predicate Whole(d: Description) {
    d.chart.Some? != d.captured.Some?
  }

  /** A chart in hand is the one in the cache. */
  ghost predicate Known(cache: Cache, d: Description) {
    && d.key in cache && Whole(d)
    && (d.chart.Some? ==> cache[d.key].chart == d.chart)
  }

  ghost predicate ThreadOk(cache: Cache, t: Thread) {
    match t
    case Free(hand) => hand.Some? ==> Known(cache, hand.value)
    case Releasing(_, hand) => hand.Some? ==> Known(cache, hand.value)
    case Describing(d) => d.chart.None? && d.captured.Some? && d.key !in cache
    case AwaitingDecode(d) => Known(cache, d) && d.chart.None?
    case Checking(d) => Known(cache, d) && d.chart.None?
    case Loading(d) => Known(cache, d) && d.chart.None? && cache[d.key].chart.None?
    case Decoded(d) => d.key in cache && d.chart.Some? && cache[d.key].chart.None?
    case Capturing(key) => key !in cache
    case _ => true
  }

  ghost predicate LocksOk(s: State) {
    && (forall i | 0 <= i < |s.threads| && Holding(s.threads[i]).Some? ::
          Holding(s.threads[i]).value in s.holders && s.holders[Holding(s.threads[i]).value] == i)
    && (forall k | k in s.holders :: s.holders[k] < |s.threads| && Holding(s.threads[s.holders[k]]) == Some(k))
  }

  /** Between decoding and storing, the chart of this key is with the thread that decoded it. */
  ghost predicate InTransit(s: State, key: Key) {
    key in s.holders && s.holders[key] < |s.threads| && s.threads[s.holders[key]].Decoded?
  }

  ghost predicate Inv(s: State) {
    && (forall k | k in s.cache :: s.cache[k].key == k && Whole(s.cache[k]))
    && (forall i | 0 <= i < |s.threads| :: ThreadOk(s.cache, s.threads[i]))
    && LocksOk(s)
    && (forall k :: s.decoded[k] == (if k in s.cache && s.cache[k].chart.Some? then 1 else 0) +
                                    (if InTransit(s, k) then 1 else 0))
  }

  // ---------- storing keeps what others rely on ----------

  /** Entries stay, and a chart or an analysis once there never changes. */
  ghost predicate Settled(before: Cache, after: Cache) {
    forall k | k in before ::
      && k in after
      && (before[k].chart.Some? ==> after[k].chart == before[k].chart)
      && (before[k].analysis.Some? ==> after[k].analysis == before[k].analysis)
  }

  lemma MergedSettles(cache: Cache, d: Description, renewed: Option<Record>)
    requires Whole(d) || d.chart.Some?
    ensures var m := Merged(cache, d, renewed);
            && m.key == d.key && Whole(m)
            && Settled(cache, Remember(cache, d, renewed))
            && Known(Remember(cache, d, renewed), m)
            && (d.chart.None? && (d.key in cache ==> cache[d.key].chart.None?) ==> m.chart.None?)
            && (d.key in cache && cache[d.key].chart.Some? ==> m.chart == cache[d.key].chart)
            && ((d.key in cache ==> cache[d.key].chart.None?) ==> m.chart == d.chart)
  {
  }

  /** A thread relies on the cache only for what storing never takes away, or for its key having no chart yet. */
  lemma ThreadKept(before: Cache, after: Cache, t: Thread, key: Key)
    requires ThreadOk(before, t) && Settled(before, after)
    requires forall k | k in after && k != key :: k in before && after[k] == before[k]
    requires t.Loading? || t.Decoded? ==>
               (t.description.key == key ==> key in after && after[key].chart.None?)
    requires t.Describing? ==> t.description.key != key || key !in after
    requires t.Capturing? ==> t.key != key || key !in after
    ensures ThreadOk(after, t)
  {
  }

  // ---------- every step keeps the invariant ----------

  lemma TransitKept(s: State, t: State, i: nat, key: Key)
    requires i < |s.threads| && |t.threads| == |s.threads| && t.holders == s.holders
    requires forall j | 0 <= j < |s.threads| && j != i :: t.threads[j] == s.threads[j]
    requires s.threads[i].Decoded? == t.threads[i].Decoded?
    ensures InTransit(s, key) == InTransit(t, key)
  {
  }

  lemma GoesKeepsInv(s: State, t: State, i: nat, to: Thread)
    requires Inv(s) && i < |s.threads| && t == Goes(s, i, to)
    requires ThreadOk(s.cache, to) && Holding(to) == Holding(s.threads[i])
    requires !to.Decoded? && !s.threads[i].Decoded?
    ensures Inv(t)
  {
    hide ThreadOk, Whole, InTransit;
    forall k { TransitKept(s, t, i, k); }
  }

  lemma LockKeepsInv(s: State, t: State, i: nat, key: Key, to: Thread)
    requires Inv(s) && i < |s.threads| && Locks(s, t, i, key, to)
    requires ThreadOk(s.cache, to) && Holding(s.threads[i]) == None && Holding(to) == Some(key)
    requires !to.Decoded? && !s.threads[i].Decoded?
    ensures Inv(t)
  {
    hide ThreadOk, Whole, LocksOk, InTransit;
    LockTaken(s, t, i, key, to);
  }

  lemma LockTaken(s: State, t: State, i: nat, key: Key, to: Thread)
    requires LocksOk(s) && i < |s.threads| && Locks(s, t, i, key, to)
    requires Holding(s.threads[i]) == None && Holding(to) == Some(key) && !to.Decoded?
    ensures LocksOk(t)
    ensures forall k :: InTransit(s, k) == InTransit(t, k)
  {
    forall j | 0 <= j < |t.threads| && j != i ensures t.threads[j] == s.threads[j] {}
    forall k | k in s.holders ensures s.holders[k] != i && t.holders[k] == s.holders[k] {}
  }

  lemma ReleaseKeepsInv(s: State, t: State, i: nat, to: Thread)
    requires Inv(s) && i < |s.threads| && s.threads[i].Releasing?
    requires t == Goes(s, i, to).(holders := Frees(s, s.threads[i].key))
    requires ThreadOk(s.cache, to) && Holding(to) == None
    ensures Inv(t)
  {
    hide ThreadOk, Whole;
    var key := s.threads[i].key;
    assert Holding(s.threads[i]) == Some(key) && s.holders[key] == i;
    forall j | 0 <= j < |t.threads| && Holding(t.threads[j]).Some?
      ensures Holding(t.threads[j]).value in t.holders && t.holders[Holding(t.threads[j]).value] == j
    {
      assert t.threads[j] == s.threads[j];
    }
  }

  /** Storing what agrees with the cache changes no chart in it. */
  lemma StoreKeepsInv(s: State, t: State, i: nat, d: Description, renewed: Option<Record>, to: Thread)
    requires Inv(s) && i < |s.threads| && Known(s.cache, d)
    requires t == Goes(s, i, to).(cache := Remember(s.cache, d, renewed))
    requires ThreadOk(t.cache, to) && Holding(to) == Holding(s.threads[i]) && !to.Decoded? && !s.threads[i].Decoded?
    ensures Inv(t)
  {
    hide InTransit, Merged, LocksOk;
    MergedSettles(s.cache, d, renewed);
    assert t.cache[d.key].chart == s.cache[d.key].chart;
    forall j | 0 <= j < |t.threads| ensures ThreadOk(t.cache, t.threads[j]) {
      if j != i {
        ThreadKept(s.cache, t.cache, s.threads[j], d.key);
      }
    }
    forall k { TransitKept(s, t, i, k); }
    LocksAsBefore(s, t, i);
  }

  lemma LocksAsBefore(s: State, t: State, i: nat)
    requires LocksOk(s) && i < |s.threads| && |t.threads| == |s.threads| && t.holders == s.holders
    requires forall j | 0 <= j < |s.threads| && j != i :: t.threads[j] == s.threads[j]
    requires Holding(t.threads[i]) == Holding(s.threads[i])
    ensures LocksOk(t)
  {
  }

  /** Two threads never hold the lock of one key. */
  lemma OneHolder(s: State, i: nat, j: nat)
    requires LocksOk(s) && i < |s.threads| && j < |s.threads| && i != j && Holding(s.threads[i]).Some?
    ensures Holding(s.threads[j]) != Holding(s.threads[i])
  {
  }

  lemma DescribedKeepsInv(s: State, t: State, i: nat)
    requires Inv(s) && i < |s.threads| && s.threads[i].Describing? && DescribeStep(s, t, i)
    ensures Inv(t)
  {
    hide InTransit, Merged;
    var d := s.threads[i].description;
    assert ThreadOk(s.cache, s.threads[i]);
    MergedSettles(s.cache, d, None);
    forall j | 0 <= j < |t.threads| ensures ThreadOk(t.cache, t.threads[j]) {
      if j != i {
        OneHolder(s, i, j);
        ThreadKept(s.cache, t.cache, s.threads[j], d.key);
      }
    }
    forall k { TransitKept(s, t, i, k); }
    LocksAsBefore(s, t, i);
  }

  lemma DecodedKeepsInv(s: State, t: State, i: nat)
    requires Inv(s) && i < |s.threads| && s.threads[i].Decoded? && DecodeStep(s, t, i)
    ensures Inv(t)
  {
    hide Merged, LocksOk, InTransit;
    var d := s.threads[i].description;
    assert ThreadOk(s.cache, s.threads[i]);
    MergedSettles(s.cache, d, None);
    forall j | 0 <= j < |t.threads| ensures ThreadOk(t.cache, t.threads[j]) {
      if j != i {
        OneHolder(s, i, j);
        ThreadKept(s.cache, t.cache, s.threads[j], d.key);
      }
    }
    LocksAsBefore(s, t, i);
    TransitEnds(s, t, i, d.key);
  }

  lemma TransitEnds(s: State, t: State, i: nat, key: Key)
    requires LocksOk(s) && i < |s.threads| && s.threads[i].Decoded? && Holding(s.threads[i]) == Some(key)
    requires |t.threads| == |s.threads| && t.threads == s.threads[i := t.threads[i]] && !t.threads[i].Decoded?
    requires t.holders == s.holders
    ensures InTransit(s, key) && !InTransit(t, key)
    ensures forall k | k != key :: InTransit(s, k) == InTransit(t, k)
  {
  }

  lemma LoadedKeepsInv(s: State, t: State, i: nat)
    requires Inv(s) && i < |s.threads| && s.threads[i].Loading? && DecodeStep(s, t, i) && t.threads[i].Decoded?
    ensures Inv(t)
  {
    var d := s.threads[i].description;
    assert ThreadOk(s.cache, s.threads[i]);
    LocksAsBefore(s, t, i);
    assert Holding(s.threads[i]) == Some(d.key);
    assert !InTransit(s, d.key) && InTransit(t, d.key);
    forall k | k != d.key ensures InTransit(s, k) == InTransit(t, k) {}
  }

  lemma CallKeepsInv(s: State, t: State, i: nat)
    requires Inv(s) && i < |s.threads| && Call(s, t, i)
    ensures Inv(t)
  {
    hide LocksOk, InTransit, Merged;
    var thread := s.threads[i];
    assert ThreadOk(s.cache, thread);
    if key, captured :| t == Goes(s, i, Looking(key, captured)) {
      GoesKeepsInv(s, t, i, Looking(key, captured));
    } else if thread.hand.Some? && thread.hand.value.chart.None? && t == Goes(s, i, AwaitingDecode(thread.hand.value)) {
      GoesKeepsInv(s, t, i, AwaitingDecode(thread.hand.value));
    } else {
      var record: Record :| t == Stored(s, i, record);
      var d := thread.hand.value;
      MergedSettles(s.cache, d, Some(record));
      assert t.threads == s.threads[i := thread];
      StoreKeepsInv(s, t, i, d, Some(record), thread);
    }
  }

  lemma DescribeKeepsInv(s: State, t: State, i: nat)
    requires Inv(s) && i < |s.threads| && DescribeStep(s, t, i)
    ensures Inv(t)
  {
    hide LocksOk, InTransit, Merged;
    var thread := s.threads[i];
    assert ThreadOk(s.cache, thread);
    match thread
    case Looking(key, captured) =>
      GoesKeepsInv(s, t, i, t.threads[i]);
    case AwaitingDescribe(key, captured) =>
      if t == Goes(s, i, Free(None)) {
        GoesKeepsInv(s, t, i, Free(None));
      } else {
        LockKeepsInv(s, t, i, key, Rechecking(key, captured));
      }
    case Rechecking(key, captured) =>
      GoesKeepsInv(s, t, i, t.threads[i]);
    case Capturing(key) =>
      GoesKeepsInv(s, t, i, t.threads[i]);
    case Describing(d) =>
      DescribedKeepsInv(s, t, i);
  }

  lemma DecodeKeepsInv(s: State, t: State, i: nat)
    requires Inv(s) && i < |s.threads| && DecodeStep(s, t, i)
    ensures Inv(t)
  {
    hide LocksOk, InTransit, Merged;
    var thread := s.threads[i];
    assert ThreadOk(s.cache, thread);
    match thread
    case AwaitingDecode(d) =>
      if t == Goes(s, i, Free(Some(d))) {
        GoesKeepsInv(s, t, i, Free(Some(d)));
      } else {
        LockKeepsInv(s, t, i, d.key, Checking(d));
      }
    case Checking(d) =>
      GoesKeepsInv(s, t, i, t.threads[i]);
    case Loading(d) =>
      if t == Goes(s, i, Releasing(d.key, Some(d))) {
        GoesKeepsInv(s, t, i, Releasing(d.key, Some(d)));
      } else {
        LoadedKeepsInv(s, t, i);
      }
    case Decoded(d) =>
      DecodedKeepsInv(s, t, i);
    case Releasing(key, hand) =>
      ReleaseKeepsInv(s, t, i, Free(hand));
  }

  lemma {:induction false} RunKeepsInv(trace: seq<State>)
    requires Run(trace)
    ensures Inv(trace[|trace| - 1])
  {
    hide Inv, Step, Init;
    var last := |trace| - 1;
    if last == 0 {
      Starts(trace[0]);
    } else {
      assert Run(trace[..last]);
      RunKeepsInv(trace[..last]);
      assert Next(trace[last - 1], trace[last]);
      var i :| Step(trace[last - 1], trace[last], i);
      StepKeepsInv(trace[last - 1], trace[last], i);
    }
  }

  lemma Starts(s: State)
    requires Init(s)
    ensures Inv(s)
  {
  }

  lemma StepKeepsInv(s: State, t: State, i: nat)
    requires Inv(s) && Step(s, t, i)
    ensures Inv(t)
  {
    hide Inv, Call, DescribeStep, DecodeStep;
    if Call(s, t, i) {
      CallKeepsInv(s, t, i);
    } else if DescribeStep(s, t, i) {
      DescribeKeepsInv(s, t, i);
    } else {
      DecodeKeepsInv(s, t, i);
    }
  }

  // ---------- what every run keeps ----------

  /** In every run each chart is decoded with success at most once, and once decoded and stored every
      description that has it in hand has that one; every entry has its chart or the bytes to make it from. */
  lemma DecodedOnce(trace: seq<State>)
    requires Run(trace)
    ensures var s := trace[|trace| - 1];
            && (forall k :: s.decoded[k] <= 1)
            && (forall k | k in s.cache :: Whole(s.cache[k]))
            && (forall k | k in s.cache && s.cache[k].chart.Some? :: s.decoded[k] == 1)
            && (forall i | 0 <= i < |s.threads| && s.threads[i].Free? && s.threads[i].hand.Some? &&
                           s.threads[i].hand.value.chart.Some? ::
                  var d := s.threads[i].hand.value;
                  d.key in s.cache && s.cache[d.key].chart == d.chart)
  {
    RunKeepsInv(trace);
    var s := trace[|trace| - 1];
    forall k ensures InTransit(s, k) ==> k in s.cache && s.cache[k].chart.None? {
      TransitUnstored(s, k);
    }
    forall i | 0 <= i < |s.threads| && s.threads[i].Free? && s.threads[i].hand.Some? &&
               s.threads[i].hand.value.chart.Some?
      ensures var d := s.threads[i].hand.value; d.key in s.cache && s.cache[d.key].chart == d.chart
    {
      assert ThreadOk(s.cache, s.threads[i]);
    }
  }

  lemma TransitUnstored(s: State, key: Key)
    requires Inv(s)
    ensures InTransit(s, key) ==> key in s.cache && s.cache[key].chart.None?
  {
    if InTransit(s, key) {
      assert ThreadOk(s.cache, s.threads[s.holders[key]]);
      assert Holding(s.threads[s.holders[key]]) == Some(key);
    }
  }

  lemma StepSettles(s: State, t: State, i: nat)
    requires Inv(s) && Step(s, t, i)
    ensures Settled(s.cache, t.cache)
  {
    hide LocksOk, InTransit, Merged, Frees;
    assert ThreadOk(s.cache, s.threads[i]);
    match s.threads[i]
    case Free(hand) =>
      if hand.Some? {
        if record: Record :| t == Stored(s, i, record) {
          MergedSettles(s.cache, hand.value, Some(record));
        }
      }
    case Describing(d) => MergedSettles(s.cache, d, None);
    case Decoded(d) => MergedSettles(s.cache, d, None);
    case _ =>
  }

  /** A chart or an analysis in the cache never changes, over any run and from any point of it. */
  lemma {:induction false} CacheOnlyGrows(trace: seq<State>, k: nat)
    requires Run(trace) && k < |trace|
    ensures Settled(trace[k].cache, trace[|trace| - 1].cache)
  {
    hide Inv, Step, Init;
    var last := |trace| - 1;
    if k < last {
      assert Run(trace[..last]);
      CacheOnlyGrows(trace[..last], k);
      RunKeepsInv(trace[..last]);
      assert Next(trace[last - 1], trace[last]);
      var i :| Step(trace[last - 1], trace[last], i);
      StepSettles(trace[last - 1], trace[last], i);
    }
  }
}
