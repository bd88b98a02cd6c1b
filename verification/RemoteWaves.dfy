/** The order in which recorded remote inputs are validated (pkg/kustomize/readset.go, 358-414). */
module RemoteWaves {
  import opened Graph

  datatype Operation = RemoteHttp | RemoteGit

  datatype RemoteInput = RemoteInput(operation: Operation, url: string, reference: string, timeout: int, submodules: bool)

  /** What an acquisition was identified by; the empty identity stands for a failed one. */
  datatype RemoteIdentity = RemoteIdentity(artifact: string, httpStatus: nat)

  const NO_IDENTITY := RemoteIdentity("", 0)

  datatype RemoteEntry = RemoteEntry(input: RemoteInput, identity: RemoteIdentity, parents: seq<RemoteInput>)

  // ---------- what the recorded entries say ----------

  ghost predicate DistinctInputs(remotes: seq<RemoteEntry>) {
    forall i, j | 0 <= i < j < |remotes| :: remotes[i].input != remotes[j].input
  }

  ghost predicate IsInput(remotes: seq<RemoteEntry>, input: RemoteInput) {
    exists i :: 0 <= i < |remotes| && remotes[i].input == input
  }

  ghost predicate ParentsKnown(remotes: seq<RemoteEntry>) {
    forall i, k | 0 <= i < |remotes| && 0 <= k < |remotes[i].parents| :: IsInput(remotes, remotes[i].parents[k])
  }

  /** Entry `p` is a parent of entry `c`. */
  ghost function ParentOf(remotes: seq<RemoteEntry>): Edge {
    (p: nat, c: nat) => p < |remotes| && c < |remotes| && remotes[p].input in remotes[c].parents
  }

  /** The waves are `level` read off as lists: wave w holds exactly the indices of level w. */
  ghost predicate WavesOf(waves: seq<seq<nat>>, n: nat, level: seq<nat>) {
    && |level| == n
    && (forall w | 0 <= w < |waves| :: waves[w] != [] && Distinct(waves[w]) && Within(waves[w], n))
    && (forall w, k | 0 <= w < |waves| && 0 <= k < |waves[w]| :: level[waves[w][k]] == w)
    && (forall c | 0 <= c < n :: level[c] < |waves| && c in waves[level[c]])
  }

  // ---------- counting edges ----------

  function Count(s: seq<nat>, c: nat): nat {
    if s == [] then 0 else (if s[0] == c then 1 else 0) + Count(s[1..], c)
  }

  /** How often `c` is listed as a child. */
  function InDegree(children: seq<seq<nat>>, c: nat): nat {
    if children == [] then 0 else Count(children[0], c) + InDegree(children[1..], c)
  }

  lemma {:induction false} CountZero(s: seq<nat>, c: nat)
    ensures Count(s, c) == 0 <==> c !in s
  {
    if s != [] { CountZero(s[1..], c); }
  }

  lemma {:induction false} CountSnoc(s: seq<nat>, x: nat, c: nat)
    ensures Count(s + [x], c) == Count(s, c) + (if x == c then 1 else 0)
  {
    if s == [] {
      assert s + [x] == [x];
    } else {
      assert (s + [x])[1..] == s[1..] + [x];
      CountSnoc(s[1..], x, c);
    }
  }

  lemma {:induction false} InDegreeZero(children: seq<seq<nat>>, c: nat)
    ensures InDegree(children, c) == 0 <==> forall i | 0 <= i < |children| :: c !in children[i]
  {
    if children != [] {
      CountZero(children[0], c);
      InDegreeZero(children[1..], c);
      assert children == [children[0]] + children[1..];
    }
  }

  lemma {:induction false} InDegreeUpdate(children: seq<seq<nat>>, i: nat, s: seq<nat>, c: nat)
    requires i < |children|
    ensures InDegree(children[i := s], c) == InDegree(children, c) - Count(children[i], c) + Count(s, c)
  {
    if i == 0 {
      assert children[0 := s][1..] == children[1..];
    } else {
      assert children[i := s][1..] == children[1..][i - 1 := s];
      InDegreeUpdate(children[1..], i - 1, s, c);
    }
  }

  ghost function ChildOf(children: seq<seq<nat>>): Edge {
    (p: nat, c: nat) => p < |children| && c in children[p]
  }

  // ---------- orderRemoteValidation ----------

  /** How far a validation order has got: `level` is -1 for indices not yet in a wave, and `rest`
      holds the edges not yet followed. */
  ghost predicate Progress(n: nat, children: seq<seq<nat>>, pending: seq<int>, level: seq<int>, rest: seq<seq<nat>>) {
    && |children| == |pending| == |level| == |rest| == n
    && (forall p | 0 <= p < n :: Within(children[p], n) && Remaining(rest[p], children[p]))
    && (forall c: nat | c < n :: pending[c] == InDegree(rest, c))
    && (forall c: nat | c < n :: level[c] >= 0 <==> pending[c] == 0)
    && (forall c: nat | c < n && level[c] >= 0 :: ParentsBelow(n, children, level, c))
    && (forall c: nat | c < n && level[c] > 0 :: Reached(n, children, level, c))
  }

  ghost predicate ParentsBelow(n: nat, children: seq<seq<nat>>, level: seq<int>, c: nat)
    requires |children| == |level| == n && c < n
  {
    forall p | 0 <= p < n && c in children[p] :: 0 <= level[p] < level[c]
  }

  /** `rest` is a tail of `all`. */
  ghost predicate Remaining(rest: seq<nat>, all: seq<nat>) {
    |rest| <= |all| && rest == all[|all| - |rest|..]
  }

  ghost predicate Reached(n: nat, children: seq<seq<nat>>, level: seq<int>, c: nat)
    requires |children| == |level| == n && c < n
  {
    exists p: nat :: p < n && c in children[p] && level[p] + 1 == level[c]
  }

  /** Exactly the indices of level `w`, each once. */
  ghost predicate Wave(list: seq<nat>, n: nat, level: seq<int>, w: int)
    requires |level| == n
  {
    && Distinct(list) && Within(list, n)
    && (forall c: nat | c < n :: c in list <==> level[c] == w)
  }

  ghost predicate Followed(n: nat, children: seq<seq<nat>>, level: seq<int>, rest: seq<seq<nat>>, current: int)
    requires |children| == |level| == |rest| == n
  {
    forall p | 0 <= p < n :: rest[p] == if 0 <= level[p] < current then [] else children[p]
  }

  /** The child of the next edge out of `index`. */
  ghost function NextChild(rest: seq<seq<nat>>, index: nat): nat
    requires index < |rest| && rest[index] != []
  {
    rest[index][0]
  }

  lemma NextChildPending(n: nat, children: seq<seq<nat>>, pending: seq<int>, level: seq<int>, rest: seq<seq<nat>>, index: nat)
    requires Progress(n, children, pending, level, rest) && index < n && rest[index] != []
    ensures var c := NextChild(rest, index);
            c < n && pending[c] > 0 && level[c] < 0 && c in children[index]
  {
    hide ParentsBelow, Reached, InDegree;
    var c := rest[index][0];
    RemainingWithin(rest[index], children[index], c);
    InDegreeZero(rest, c);
  }

  lemma PendingAfter(n: nat, pending: seq<int>, rest: seq<seq<nat>>, index: nat)
    requires |pending| == |rest| == n && forall c: nat | c < n :: pending[c] == InDegree(rest, c)
    requires index < n && rest[index] != [] && NextChild(rest, index) < n
    ensures var c := NextChild(rest, index);
            var pending' := pending[c := pending[c] - 1];
            forall d: nat | d < n :: pending'[d] == InDegree(rest[index := rest[index][1..]], d)
  {
    hide InDegree;
    forall d: nat | d < n
      ensures InDegree(rest[index := rest[index][1..]], d) ==
              InDegree(rest, d) - (if rest[index][0] == d then 1 else 0)
    {
      CountFirst(rest[index], d);
      InDegreeUpdate(rest, index, rest[index][1..], d);
    }
  }

  /** Following one edge: its child loses a pending parent, and joins the next wave at zero. */
  lemma FollowEdge(n: nat, children: seq<seq<nat>>, pending: seq<int>, level: seq<int>, rest: seq<seq<nat>>,
                   index: nat, w: int)
    requires Progress(n, children, pending, level, rest)
    requires index < n && level[index] == w - 1 && rest[index] != []
    requires forall p | 0 <= p < n && p != index && rest[p] != children[p] :: 0 <= level[p] < w
    requires w > 0 && forall c | 0 <= c < n :: -1 <= level[c] <= w
    ensures var c := NextChild(rest, index);
            && c < n && level[c] == -1
            && var pending' := pending[c := pending[c] - 1];
              var level' := if pending'[c] == 0 then level[c := w] else level;
              Progress(n, children, pending', level', rest[index := rest[index][1..]])
  {
    NextChildPending(n, children, pending, level, rest, index);
    var c := NextChild(rest, index);
    if pending[c] == 1 {
      FollowLast(n, children, pending, level, rest, index, w);
      ProgressAfter(n, children, pending, level, rest, index, level[c := w]);
    } else {
      ProgressAfter(n, children, pending, level, rest, index, level);
    }
  }

  lemma ProgressAfter(n: nat, children: seq<seq<nat>>, pending: seq<int>, level: seq<int>, rest: seq<seq<nat>>,
                      index: nat, level': seq<int>)
    requires Progress(n, children, pending, level, rest) && index < n && rest[index] != []
    requires |level'| == n && NextChild(rest, index) < n && pending[NextChild(rest, index)] > 0
    requires var c := NextChild(rest, index);
             forall d: nat | d < n :: level'[d] >= 0 <==> (if d == c then pending[c] == 1 else level[d] >= 0)
    requires forall d: nat | d < n && level'[d] >= 0 :: ParentsBelow(n, children, level', d)
    requires forall d: nat | d < n && level'[d] > 0 :: Reached(n, children, level', d)
    ensures var c := NextChild(rest, index);
            Progress(n, children, pending[c := pending[c] - 1], level', rest[index := rest[index][1..]])
  {
    hide ParentsBelow, Reached, InDegree;
    PendingAfter(n, pending, rest, index);
    RemainingTail(rest[index], children[index]);
  }

  lemma FollowLast(n: nat, children: seq<seq<nat>>, pending: seq<int>, level: seq<int>, rest: seq<seq<nat>>,
                   index: nat, w: int)
    requires Progress(n, children, pending, level, rest)
    requires index < n && level[index] == w - 1 && rest[index] != []
    requires forall p | 0 <= p < n && p != index && rest[p] != children[p] :: 0 <= level[p] < w
    requires w > 0 && forall c | 0 <= c < n :: -1 <= level[c] <= w
    requires NextChild(rest, index) < n && pending[NextChild(rest, index)] == 1
    ensures var c := NextChild(rest, index);
            forall d: nat | d < n && (d == c || level[d] >= 0) ::
              ParentsBelow(n, children, level[c := w], d) &&
              (level[d] != 0 ==> Reached(n, children, level[c := w], d))
  {
    NextChildPending(n, children, pending, level, rest, index);
    PendingAfter(n, pending, rest, index);
    hide ParentsBelow, Reached, InDegree, Remaining;
    var c := NextChild(rest, index);
    var rest' := rest[index := rest[index][1..]];
    assert pending[c := pending[c] - 1][c] == 0;
    InDegreeZero(rest', c);
    FollowedLast(n, children, level, rest', index, c, w);
    forall d: nat | d < n && d != c && level[d] >= 0
      ensures ParentsBelow(n, children, level[c := w], d)
      ensures level[d] > 0 ==> Reached(n, children, level[c := w], d)
    {
      LevelKept(n, children, level, c, d, w);
    }
  }

  lemma CountFirst(s: seq<nat>, c: nat)
    requires s != []
    ensures Count(s, c) == Count(s[1..], c) + (if s[0] == c then 1 else 0)
  {
  }

  /** A child with no edge left to follow has all its parents in the waves so far. */
  lemma FollowedLast(n: nat, children: seq<seq<nat>>, level: seq<int>, rest: seq<seq<nat>>, index: nat, c: nat, w: nat)
    requires |children| == |level| == |rest| == n && index < n && c < n
    requires c in children[index] && level[index] == w - 1 && level[c] == -1
    requires forall p | 0 <= p < n && p != index && rest[p] != children[p] :: 0 <= level[p] < w
    requires w > 0 && forall p | 0 <= p < n :: c !in rest[p]
    ensures ParentsBelow(n, children, level[c := w], c) && Reached(n, children, level[c := w], c)
  {
    var after := level[c := w];
    forall p | 0 <= p < n && c in children[p] ensures 0 <= after[p] < after[c] {
      assert rest[p] != children[p];
      assert 0 <= level[p] < w;
    }
    assert after[index] + 1 == after[c];
  }

  lemma LevelKept(n: nat, children: seq<seq<nat>>, level: seq<int>, c: nat, d: nat, w: nat)
    requires |children| == |level| == n && c < n && d < n && d != c && level[c] == -1
    requires ParentsBelow(n, children, level, d)
    ensures ParentsBelow(n, children, level[c := w], d)
    ensures Reached(n, children, level, d) && level[d] > 0 ==> Reached(n, children, level[c := w], d)
  {
    var after := level[c := w];
    forall p | 0 <= p < n && d in children[p] ensures 0 <= after[p] < after[d] {}
    if Reached(n, children, level, d) && level[d] > 0 {
      var p: nat :| p < n && d in children[p] && level[p] + 1 == level[d];
      assert after[p] + 1 == after[d];
    }
  }

  /** Where a wave is being followed: the first `r` of `ready` are done, and the edges of the
      next one are followed up to those still in `rest`. */
  ghost predicate Following(n: nat, children: seq<seq<nat>>, level: seq<int>, rest: seq<seq<nat>>,
                            ready: seq<nat>, r: nat, w: int)
    requires |children| == |level| == |rest| == n
  {
    forall p: nat | p < n ::
      if 0 <= level[p] < w - 1 || p in ready[..Min(r, |ready|)] then rest[p] == []
      else if r < |ready| && p == ready[r] then true
      else rest[p] == children[p]
  }

  function Min(a: nat, b: nat): nat {
    if a < b then a else b
  }

  ghost predicate Kept(before: seq<int>, after: seq<int>, w: int)
    requires |before| == |after|
  {
    forall c | 0 <= c < |before| :: if before[c] >= 0 then after[c] == before[c] else after[c] == -1 || after[c] == w
  }

  /** The state of the inner loops: edge `k` of `ready[r]` is next. */
  ghost predicate At(n: nat, children: seq<seq<nat>>, pending: seq<int>, before: seq<int>, level: seq<int>,
                     rest: seq<seq<nat>>, ready: seq<nat>, r: nat, k: nat, next: seq<nat>, w: nat)
  {
    && Progress(n, children, pending, level, rest)
    && |before| == n && Kept(before, level, w) && Wave(next, n, level, w)
    && w > 0 && Wave(ready, n, before, w - 1) && (forall c | 0 <= c < n :: -1 <= before[c] < w)
    && r <= |ready| && Following(n, children, level, rest, ready, r, w)
    && (r < |ready| ==> k <= |children[ready[r]]| && rest[ready[r]] == children[ready[r]][k..])
  }

  lemma AtEdge(n: nat, children: seq<seq<nat>>, pending: seq<int>, before: seq<int>, level: seq<int>,
               rest: seq<seq<nat>>, ready: seq<nat>, r: nat, k: nat, next: seq<nat>, w: nat)
    requires At(n, children, pending, before, level, rest, ready, r, k, next, w)
    requires r < |ready| && k < |children[ready[r]]|
    ensures var c := children[ready[r]][k];
            && c < n && level[c] == -1
            && var pending' := pending[c := pending[c] - 1];
              var zero := pending'[c] == 0;
              At(n, children, pending', before, if zero then level[c := w] else level,
                 rest[ready[r] := rest[ready[r]][1..]], ready, r, k + 1, if zero then next + [c] else next, w)
  {
    hide ParentsBelow, Reached, InDegree, Remaining;
    var index := ready[r];
    assert index in ready;
    assert level[index] == w - 1;
    assert rest[index][0] == children[index][k];
    FollowingSources(n, children, before, level, rest, ready, r, w);
    hide Following, Kept, Wave;
    FollowEdge(n, children, pending, level, rest, index, w);
    hide Progress;
    var c := children[index][k];
    var rest' := rest[index := rest[index][1..]];
    FollowingRest(n, children, level, rest, ready, r, w);
    JoinWave(n, children, before, level, rest', ready, r, c, next, w);
  }

  /** Edges are followed from the waves so far only. */
  lemma FollowingSources(n: nat, children: seq<seq<nat>>, before: seq<int>, level: seq<int>,
                         rest: seq<seq<nat>>, ready: seq<nat>, r: nat, w: nat)
    requires |children| == |before| == |level| == |rest| == n && w > 0 && r < |ready|
    requires Wave(ready, n, before, w - 1) && Kept(before, level, w)
    requires forall c | 0 <= c < n :: -1 <= before[c] < w
    requires Following(n, children, level, rest, ready, r, w)
    ensures forall p | 0 <= p < n && p != ready[r] && rest[p] != children[p] :: 0 <= level[p] < w
    ensures forall c | 0 <= c < n :: -1 <= level[c] <= w
  {
    forall p: nat | p < n && p != ready[r] && rest[p] != children[p] ensures 0 <= level[p] < w {
      if p in ready[..r] { assert p in ready; }
    }
  }

  lemma FollowingRest(n: nat, children: seq<seq<nat>>, level: seq<int>, rest: seq<seq<nat>>, ready: seq<nat>,
                      r: nat, w: nat)
    requires |children| == |level| == |rest| == n && r < |ready| && Distinct(ready) && Within(ready, n)
    requires rest[ready[r]] != [] && level[ready[r]] == w - 1 && Following(n, children, level, rest, ready, r, w)
    ensures Following(n, children, level, rest[ready[r] := rest[ready[r]][1..]], ready, r, w)
  {
  }

  /** A child that joins the next wave keeps the bookkeeping of this one. */
  lemma JoinWave(n: nat, children: seq<seq<nat>>, before: seq<int>, level: seq<int>, rest: seq<seq<nat>>,
                 ready: seq<nat>, r: nat, c: nat, next: seq<nat>, w: nat)
    requires |children| == |before| == |level| == |rest| == n && w > 0 && r < |ready|
    requires Wave(ready, n, before, w - 1) && Kept(before, level, w) && Wave(next, n, level, w)
    requires c < n && level[c] == -1 && (forall p | 0 <= p < n :: -1 <= before[p] < w)
    requires Following(n, children, level, rest, ready, r, w)
    ensures Kept(before, level[c := w], w) && Wave(next + [c], n, level[c := w], w)
    ensures Following(n, children, level[c := w], rest, ready, r, w)
  {
    assert c !in next;
    assert before[c] == -1;
    assert c !in ready;
    assert forall p :: p in ready[..r] ==> p in ready;
    assert forall p :: p in next + [c] <==> p in next || p == c;
  }

  lemma AtNextRow(n: nat, children: seq<seq<nat>>, pending: seq<int>, before: seq<int>, level: seq<int>,
                  rest: seq<seq<nat>>, ready: seq<nat>, r: nat, next: seq<nat>, w: nat)
    requires r < |ready| && ready[r] < |children|
    requires At(n, children, pending, before, level, rest, ready, r, |children[ready[r]]|, next, w)
    ensures At(n, children, pending, before, level, rest, ready, r + 1, 0, next, w)
  {
    hide ParentsBelow, Reached, InDegree, Remaining;
    var done := ready[..r + 1];
    assert done == ready[..r] + [ready[r]];
    if r + 1 < |ready| {
      var p := ready[r + 1];
      assert p in ready && p !in done;
      assert before[p] == w - 1;
      assert level[p] == w - 1;
    }
  }

  /** The two inner loops: every edge out of the wave `ready` is followed once. */
  method FollowWave(pending: array<int>, children: seq<seq<nat>>, ready: seq<nat>, ghost level: seq<int>,
                    ghost rest: seq<seq<nat>>, ghost w: nat)
    returns (next: seq<nat>, ghost lv: seq<int>, ghost left: seq<seq<nat>>)
    requires w > 0 && Progress(|children|, children, pending[..], level, rest)
    requires Wave(ready, |children|, level, w - 1) && Followed(|children|, children, level, rest, w - 1)
    requires forall c | 0 <= c < |children| :: -1 <= level[c] < w
    modifies pending
    ensures Progress(|children|, children, pending[..], lv, left)
    ensures Wave(next, |children|, lv, w) && Followed(|children|, children, lv, left, w)
    ensures Kept(level, lv, w)
  {
    hide *;
    ghost var n := |children|;
    next := [];
    lv, left := level, rest;
    AtStart(n, children, pending[..], level, rest, ready, w);
    for r := 0 to |ready|
      invariant At(n, children, pending[..], level, lv, left, ready, r, 0, next, w)
    {
      AtBounds(n, children, pending[..], level, lv, left, ready, r, 0, next, w);
      next, lv, left := FollowEdges(pending, children, ready, r, level, lv, left, next, w);
      AtNextRow(n, children, pending[..], level, lv, left, ready, r, next, w);
    }
    AtEnd(n, children, pending[..], level, lv, left, ready, next, w);
  }

  /** The innermost loop: the edges out of `ready[r]`. */
  method FollowEdges(pending: array<int>, children: seq<seq<nat>>, ready: seq<nat>, r: nat, ghost before: seq<int>,
                     ghost level: seq<int>, ghost rest: seq<seq<nat>>, next0: seq<nat>, ghost w: nat)
    returns (next: seq<nat>, ghost lv: seq<int>, ghost left: seq<seq<nat>>)
    requires r < |ready| && ready[r] < |children|
    requires At(|children|, children, pending[..], before, level, rest, ready, r, 0, next0, w)
    modifies pending
    ensures At(|children|, children, pending[..], before, lv, left, ready, r, |children[ready[r]]|, next, w)
  {
    hide *;
    ghost var n := |children|;
    var index := ready[r];
    next, lv, left := next0, level, rest;
    for k := 0 to |children[index]|
      invariant At(n, children, pending[..], before, lv, left, ready, r, k, next, w)
    {
      var child := children[index][k];
      AtBounds(n, children, pending[..], before, lv, left, ready, r, k, next, w);
      AtEdge(n, children, pending[..], before, lv, left, ready, r, k, next, w);
      ghost var was := pending[..];
      pending[child] := pending[child] - 1;
      assert pending[..] == was[child := was[child] - 1];
      left := left[index := left[index][1..]];
      if pending[child] == 0 {
        next := next + [child];
        lv := lv[child := w];
      }
    }
  }

  lemma AtStart(n: nat, children: seq<seq<nat>>, pending: seq<int>, level: seq<int>, rest: seq<seq<nat>>,
                ready: seq<nat>, w: nat)
    requires w > 0 && Progress(n, children, pending, level, rest)
    requires Wave(ready, n, level, w - 1) && Followed(n, children, level, rest, w - 1)
    requires forall c | 0 <= c < n :: -1 <= level[c] < w
    ensures At(n, children, pending, level, level, rest, ready, 0, 0, [], w)
  {
    hide ParentsBelow, Reached, InDegree, Remaining;
    assert ready[..0] == [];
    if ready != [] { assert ready[0] in ready; }
  }

  lemma AtBounds(n: nat, children: seq<seq<nat>>, pending: seq<int>, before: seq<int>, level: seq<int>,
                 rest: seq<seq<nat>>, ready: seq<nat>, r: nat, k: nat, next: seq<nat>, w: nat)
    requires At(n, children, pending, before, level, rest, ready, r, k, next, w)
    ensures |children| == |pending| == |level| == |rest| == n && r <= |ready|
    ensures r < |ready| ==> ready[r] < n && k <= |children[ready[r]]| && rest[ready[r]] == children[ready[r]][k..]
  {
    hide ParentsBelow, Reached, InDegree, Remaining;
  }

  lemma AtEnd(n: nat, children: seq<seq<nat>>, pending: seq<int>, before: seq<int>, level: seq<int>,
              rest: seq<seq<nat>>, ready: seq<nat>, next: seq<nat>, w: nat)
    requires At(n, children, pending, before, level, rest, ready, |ready|, 0, next, w)
    ensures Progress(n, children, pending, level, rest)
    ensures Wave(next, n, level, w) && Followed(n, children, level, rest, w) && Kept(before, level, w)
  {
    hide ParentsBelow, Reached, InDegree, Remaining;
    assert ready[..|ready|] == ready;
    forall p | 0 <= p < n ensures rest[p] == if 0 <= level[p] < w then [] else children[p] {
      assert p in ready <==> before[p] == w - 1;
    }
  }

  /** With nothing ready and something left over, what is left over is fed by itself. */
  lemma Stuck(n: nat, children: seq<seq<nat>>, pending: seq<int>, level: seq<int>, rest: seq<seq<nat>>, w: nat)
    requires Progress(n, children, pending, level, rest) && Followed(n, children, level, rest, w)
    requires Wave([], n, level, w) && forall c | 0 <= c < n :: -1 <= level[c] <= w
    requires exists c: nat :: c < n && level[c] == -1
    ensures Cyclic(n, ChildOf(children))
  {
    hide ParentsBelow, Reached, InDegree, Remaining;
    var u := set c | c in Range(n) && level[c] == -1;
    forall c | c in u ensures Fed(u, ChildOf(children), c) {
      var p := LeftParent(n, children, pending, level, rest, w, c);
      assert p in u;
    }
    var c: nat :| c < n && level[c] == -1;
    assert c in u;
    hide *;
    NoSourceMeansCyclic(n, ChildOf(children), u);
  }

  lemma LeftParent(n: nat, children: seq<seq<nat>>, pending: seq<int>, level: seq<int>, rest: seq<seq<nat>>,
                   w: nat, c: nat) returns (p: nat)
    requires Progress(n, children, pending, level, rest) && Followed(n, children, level, rest, w)
    requires Wave([], n, level, w) && forall c | 0 <= c < n :: -1 <= level[c] <= w
    requires c < n && level[c] == -1
    ensures p < n && level[p] == -1 && ChildOf(children)(p, c)
  {
    hide ParentsBelow, Reached, InDegree, Remaining;
    InDegreeZero(rest, c);
    p :| p < n && c in rest[p];
    RemainingWithin(rest[p], children[p], c);
    assert level[p] != w by { assert p !in []; }
  }

  lemma RemainingTail(rest: seq<nat>, all: seq<nat>)
    requires Remaining(rest, all) && rest != []
    ensures Remaining(rest[1..], all)
  {
    assert all[|all| - |rest|..][1..] == all[|all| - |rest| + 1..];
  }

  lemma RemainingWithin(rest: seq<nat>, all: seq<nat>, x: nat)
    requires Remaining(rest, all) && x in rest
    ensures x in all
  {
    var i :| 0 <= i < |rest| && rest[i] == x;
    assert all[|all| - |rest| + i] == x;
  }

  lemma Start(n: nat, children: seq<seq<nat>>, pending: seq<int>, level: seq<int>)
    requires |children| == |pending| == |level| == n
    requires forall p | 0 <= p < n :: Within(children[p], n)
    requires forall c: nat | c < n :: pending[c] == InDegree(children, c)
    requires forall c: nat | c < n :: level[c] == if pending[c] == 0 then 0 else -1
    ensures Progress(n, children, pending, level, children)
  {
    hide InDegree;
    forall c: nat | c < n && level[c] >= 0 ensures ParentsBelow(n, children, level, c) {
      InDegreeZero(children, c);
    }
    forall p | 0 <= p < n ensures Remaining(children[p], children[p]) {}
  }

  /** The state of the outer loop: `waves` are done, `ready` is next, `order` lists what is done. */
  ghost predicate Round(n: nat, children: seq<seq<nat>>, pending: seq<int>, level: seq<int>, rest: seq<seq<nat>>,
                        waves: seq<seq<nat>>, ready: seq<nat>, order: seq<nat>)
  {
    && Progress(n, children, pending, level, rest)
    && Wave(ready, n, level, |waves|) && Followed(n, children, level, rest, |waves|)
    && (forall c: nat | c < n :: -1 <= level[c] <= |waves|)
    && (forall w: nat | w < |waves| :: waves[w] != [] && Wave(waves[w], n, level, w))
    && Distinct(order) && Within(order, n)
    && (forall c: nat | c < n :: c in order <==> 0 <= level[c] < |waves|)
  }

  lemma RoundStart(n: nat, children: seq<seq<nat>>, pending: seq<int>, ready: seq<nat>) returns (level: seq<int>)
    requires |children| == |pending| == n && forall p | 0 <= p < n :: Within(children[p], n)
    requires forall c: nat | c < n :: pending[c] == InDegree(children, c)
    requires Distinct(ready) && Within(ready, n)
    requires forall c: nat | c < n :: c in ready <==> pending[c] == 0
    ensures Round(n, children, pending, level, children, [], ready, [])
  {
    hide InDegree;
    level := seq(n, i requires 0 <= i < n => if pending[i] == 0 then 0 else -1);
    Start(n, children, pending, level);
    hide Progress;
  }

  lemma RoundAppend(n: nat, children: seq<seq<nat>>, pending: seq<int>, level: seq<int>, rest: seq<seq<nat>>,
                    waves: seq<seq<nat>>, ready: seq<nat>, order: seq<nat>)
    requires Round(n, children, pending, level, rest, waves, ready, order)
    ensures Distinct(order + ready) && Within(order + ready, n) && |order| + |ready| <= n && |level| == n
    ensures forall w: nat | w < |waves| :: waves[w] != [] && Wave(waves[w], n, level, w)
    ensures forall c: nat | c < n :: c in order <==> 0 <= level[c] < |waves|
    ensures Progress(n, children, pending, level, rest)
    ensures Wave(ready, n, level, |waves|) && Followed(n, children, level, rest, |waves|)
    ensures forall c: nat | c < n :: -1 <= level[c] < |waves| + 1
  {
    hide ParentsBelow, Reached, InDegree, Remaining;
    forall i, j | 0 <= i < |order| && 0 <= j < |ready| ensures order[i] != ready[j] {
      assert order[i] in order && ready[j] in ready;
    }
    Pigeonhole(order + ready, n);
  }

  lemma RoundNext(n: nat, children: seq<seq<nat>>, before: seq<int>, level: seq<int>, pending: seq<int>,
                  rest: seq<seq<nat>>, waves: seq<seq<nat>>, ready: seq<nat>, order: seq<nat>, next: seq<nat>)
    requires |before| == |level| == n && ready != [] && Wave(ready, n, before, |waves|)
    requires forall c: nat | c < n :: -1 <= before[c] <= |waves|
    requires forall w: nat | w < |waves| :: waves[w] != [] && Wave(waves[w], n, before, w)
    requires forall c: nat | c < n :: c in order <==> 0 <= before[c] < |waves|
    requires Distinct(order + ready) && Within(order + ready, n)
    requires Progress(n, children, pending, level, rest) && Kept(before, level, |waves| + 1)
    requires Wave(next, n, level, |waves| + 1) && Followed(n, children, level, rest, |waves| + 1)
    ensures Round(n, children, pending, level, rest, waves + [ready], next, order + ready)
  {
    hide Progress, Followed;
    var all := waves + [ready];
    assert forall c: nat | c < n && before[c] >= 0 :: level[c] == before[c];
    assert forall c: nat | c < n && before[c] < 0 :: level[c] == -1 || level[c] == |waves| + 1;
    forall w: nat | w < |all| ensures all[w] != [] && Wave(all[w], n, level, w) {
      assert w < |waves| ==> all[w] == waves[w];
      assert Wave(all[w], n, before, w);
    }
    forall c: nat | c < n ensures c in order + ready <==> 0 <= level[c] < |all| {
      assert c in ready <==> before[c] == |waves|;
    }
  }

  lemma RoundEnd(n: nat, children: seq<seq<nat>>, pending: seq<int>, level: seq<int>, rest: seq<seq<nat>>,
                 waves: seq<seq<nat>>, order: seq<nat>)
    requires Round(n, children, pending, level, rest, waves, [], order)
    ensures |order| <= n
    ensures |order| < n ==> Cyclic(n, ChildOf(children))
    ensures |order| == n ==> |level| == n && (forall c: nat | c < n :: level[c] >= 0)
    ensures |order| == n ==> Levels(n, ChildOf(children), level) && WavesOf(waves, n, level) && !Cyclic(n, ChildOf(children))
  {
    hide InDegree, Remaining;
    Pigeonhole(order, n);
    forall c: nat | c < n ensures level[c] != |waves| { assert c !in []; }
    if |order| < n {
      var c: nat :| c < n && c !in order;
      assert level[c] == -1;
      Stuck(n, children, pending, level, rest, |waves|);
    } else {
      forall c: nat | c < n ensures 0 <= level[c] < |waves| { assert c in order; }
      hide Progress, Followed;
      AllPlaced(n, children, pending, level, rest, waves);
    }
  }

  lemma AllPlaced(n: nat, children: seq<seq<nat>>, pending: seq<int>, level: seq<int>, rest: seq<seq<nat>>,
                  waves: seq<seq<nat>>)
    requires Progress(n, children, pending, level, rest)
    requires forall c: nat | c < n :: 0 <= level[c] < |waves|
    requires forall w: nat | w < |waves| :: waves[w] != [] && Wave(waves[w], n, level, w)
    ensures Levels(n, ChildOf(children), level) && WavesOf(waves, n, level) && !Cyclic(n, ChildOf(children))
  {
    hide InDegree, Remaining, Wave;
    forall p: nat, c: nat | p < n && c < n && ChildOf(children)(p, c) ensures level[p] < level[c] {
      assert ParentsBelow(n, children, level, c);
    }
    forall c: nat | c < n && level[c] > 0 ensures JustAbove(n, ChildOf(children), level, c) {
      assert Reached(n, children, level, c);
      var p: nat :| p < n && c in children[p] && level[p] + 1 == level[c];
      assert ChildOf(children)(p, c);
    }
    LevelsMeanAcyclic(n, ChildOf(children), level);
    WavesPlaced(n, level, waves);
  }

  lemma WavesPlaced(n: nat, level: seq<nat>, waves: seq<seq<nat>>)
    requires |level| == n && forall c: nat | c < n :: level[c] < |waves|
    requires forall w: nat | w < |waves| :: waves[w] != [] && Wave(waves[w], n, level, w)
    ensures WavesOf(waves, n, level)
  {
    forall w, k | 0 <= w < |waves| && 0 <= k < |waves[w]| ensures level[waves[w][k]] == w {
      assert waves[w][k] in waves[w];
    }
  }

  /** `orderRemoteValidation` over the lists of children: succeeds exactly on acyclic graphs, and
      then every wave holds the indices whose longest chain of parents has its number. */
  method OrderRemoteValidation(pending: array<int>, children: seq<seq<nat>>, ready0: seq<nat>)
    returns (waves: seq<seq<nat>>, ok: bool, ghost level: seq<nat>)
    requires |children| == pending.Length && forall p | 0 <= p < |children| :: Within(children[p], |children|)
    requires forall c: nat | c < |children| :: pending[c] == InDegree(children, c)
    requires Distinct(ready0) && Within(ready0, |children|)
    requires forall c: nat | c < |children| :: c in ready0 <==> pending[c] == 0
    modifies pending
    ensures ok <==> !Cyclic(|children|, ChildOf(children))
    ensures !ok ==> waves == []
    ensures ok ==> Levels(|children|, ChildOf(children), level) && WavesOf(waves, |children|, level)
  {
    ghost var n := |children|;
    waves := [];
    var visited := 0;
    var ready := ready0;
    ghost var rest := children;
    ghost var order: seq<nat> := [];
    ghost var lv := RoundStart(n, children, pending[..], ready);
    hide *;
    while |ready| > 0
      invariant Round(n, children, pending[..], lv, rest, waves, ready, order)
      invariant visited == |order|
      decreases n - visited
    {
      RoundAppend(n, children, pending[..], lv, rest, waves, ready, order);
      ghost var done, before := waves, lv;
      waves := waves + [ready];
      visited := visited + |ready|;
      var next;
      next, lv, rest := FollowWave(pending, children, ready, lv, rest, |waves|);
      RoundNext(n, children, before, lv, pending[..], rest, done, ready, order, next);
      order := order + ready;
      ready := next;
    }
    RoundEnd(n, children, pending[..], lv, rest, waves, order);
    if visited != pending.Length {
      return [], false, [];
    }
    level := lv;
    ok := true;
  }

  // ---------- remoteValidationWaves ----------

  /** `children` lists the edges of the entries before `index`, and those of its first `k` parents. */
  ghost predicate Linked(remotes: seq<RemoteEntry>, children: seq<seq<nat>>, index: nat, k: nat) {
    var n := |remotes|;
    && |children| == n && (forall p | 0 <= p < n :: Within(children[p], n))
    && (forall p: nat, c: nat | p < n && c < n :: LinkedEdge(remotes, children, p, c, index, k))
    && (forall c: nat | c < n :: InDegree(children, c) == |ParentsSoFar(remotes, c, index, k)|)
  }

  ghost predicate LinkedEdge(remotes: seq<RemoteEntry>, children: seq<seq<nat>>, p: nat, c: nat, index: nat, k: nat)
    requires |children| == |remotes| && p < |remotes| && c < |remotes|
  {
    c in children[p] <==> remotes[p].input in ParentsSoFar(remotes, c, index, k)
  }

  function ParentsSoFar(remotes: seq<RemoteEntry>, c: nat, index: nat, k: nat): seq<RemoteInput>
    requires c < |remotes|
  {
    if c < index then remotes[c].parents
    else if c == index && k <= |remotes[c].parents| then remotes[c].parents[..k]
    else []
  }

  function NoChildren(n: nat): seq<seq<nat>> {
    seq(n, i => [])
  }

  lemma {:induction false} NoEdges(n: nat, c: nat)
    ensures InDegree(NoChildren(n), c) == 0
  {
    if n > 0 {
      NoEdges(n - 1, c);
      assert NoChildren(n)[1..] == NoChildren(n - 1);
    }
  }

  lemma LinkedStart(remotes: seq<RemoteEntry>)
    ensures Linked(remotes, NoChildren(|remotes|), 0, 0)
  {
    forall c: nat | c < |remotes| ensures InDegree(NoChildren(|remotes|), c) == 0 {
      NoEdges(|remotes|, c);
    }
  }

  lemma LinkParent(remotes: seq<RemoteEntry>, children: seq<seq<nat>>, index: nat, k: nat, p: nat)
    requires Linked(remotes, children, index, k) && index < |remotes| && k < |remotes[index].parents|
    requires p < |remotes| && remotes[p].input == remotes[index].parents[k] && DistinctInputs(remotes)
    ensures Linked(remotes, children[p := children[p] + [index]], index, k + 1)
  {
    hide InDegree;
    var after := children[p := children[p] + [index]];
    var parents := remotes[index].parents;
    assert parents[..k + 1] == parents[..k] + [parents[k]];
    forall c: nat | c < |remotes| ensures InDegree(after, c) == |ParentsSoFar(remotes, c, index, k + 1)| {
      CountSnoc(children[p], index, c);
      InDegreeUpdate(children, p, children[p] + [index], c);
    }
    var k1 := k + 1;
    forall q: nat, c: nat | q < |remotes| && c < |remotes| ensures LinkedEdge(remotes, after, q, c, index, k1) {
      assert LinkedEdge(remotes, children, q, c, index, k);
      assert remotes[q].input == parents[k] <==> q == p;
    }
  }

  lemma LinkedNext(remotes: seq<RemoteEntry>, children: seq<seq<nat>>, index: nat)
    requires index < |remotes| && Linked(remotes, children, index, |remotes[index].parents|)
    ensures Linked(remotes, children, index + 1, 0)
  {
    hide InDegree, LinkedEdge;
    assert remotes[index].parents[..|remotes[index].parents|] == remotes[index].parents;
    forall c: nat | c < |remotes|
      ensures ParentsSoFar(remotes, c, index, |remotes[index].parents|) == ParentsSoFar(remotes, c, index + 1, 0)
    {
    }
    var next := index + 1;
    forall p: nat, c: nat | p < |remotes| && c < |remotes| ensures LinkedEdge(remotes, children, p, c, next, 0) {
      SameEdge(remotes, children, p, c, index);
    }
  }

  lemma SameEdge(remotes: seq<RemoteEntry>, children: seq<seq<nat>>, p: nat, c: nat, index: nat)
    requires |children| == |remotes| && p < |remotes| && c < |remotes| && index < |remotes|
    requires LinkedEdge(remotes, children, p, c, index, |remotes[index].parents|)
    ensures LinkedEdge(remotes, children, p, c, index + 1, 0)
  {
    assert remotes[index].parents[..|remotes[index].parents|] == remotes[index].parents;
  }

  lemma LinkedEnd(remotes: seq<RemoteEntry>, children: seq<seq<nat>>)
    requires Linked(remotes, children, |remotes|, 0)
    ensures forall p: nat, c: nat | p < |remotes| && c < |remotes| :: ChildOf(children)(p, c) == ParentOf(remotes)(p, c)
  {
    hide InDegree;
    forall p: nat, c: nat | p < |remotes| && c < |remotes|
      ensures ChildOf(children)(p, c) == ParentOf(remotes)(p, c)
    {
      assert LinkedEdge(remotes, children, p, c, |remotes|, 0);
    }
  }

  ghost predicate Indexed(remotes: seq<RemoteEntry>, indices: map<RemoteInput, nat>, count: nat) {
    && count <= |remotes|
    && (forall i | 0 <= i < count :: remotes[i].input in indices && indices[remotes[i].input] == i)
    && (forall input | input in indices :: indices[input] < count && remotes[indices[input]].input == input)
  }

  /** `remoteValidationWaves`: succeeds exactly when the inputs are distinct, every parent is known
      and no input is its own ancestor; the waves are then the levels of the parent relation. */
  method RemoteValidationWaves(remotes: seq<RemoteEntry>)
    returns (waves: seq<seq<nat>>, ok: bool, ghost level: seq<nat>)
    ensures ok <==> DistinctInputs(remotes) && ParentsKnown(remotes) && !Cyclic(|remotes|, ParentOf(remotes))
    ensures !ok ==> waves == []
    ensures ok ==> Levels(|remotes|, ParentOf(remotes), level) && WavesOf(waves, |remotes|, level)
  {
    hide Cyclic, Levels, WavesOf, Linked, InDegree, Indexed, DistinctInputs, IsInput;
    level := [];
    var n := |remotes|;
    var indices: map<RemoteInput, nat> := map[];
    IndexedStart(remotes);
    for index := 0 to n
      invariant Indexed(remotes, indices, index)
    {
      var entry := remotes[index];
      IndexedAdd(remotes, indices, index);
      if entry.input in indices {
        return [], false, [];
      }
      indices := indices[entry.input := index];
    }
    IndexedAll(remotes, indices);
    var pending := new int[n];
    var children: seq<seq<nat>> := NoChildren(n);
    var ready: seq<nat> := [];
    LinkedStart(remotes);
    for index := 0 to n
      invariant Linked(remotes, children, index, 0)
      invariant forall i | 0 <= i < index :: pending[i] == |remotes[i].parents|
      invariant forall i, k | 0 <= i < index && 0 <= k < |remotes[i].parents| :: IsInput(remotes, remotes[i].parents[k])
      invariant Distinct(ready) && Within(ready, index)
      invariant forall c: nat | c < index :: c in ready <==> remotes[c].parents == []
    {
      var entry := remotes[index];
      pending[index] := |entry.parents|;
      if pending[index] == 0 {
        ready := ready + [index];
      }
      for k := 0 to |entry.parents|
        invariant Linked(remotes, children, index, k)
        invariant forall j | 0 <= j < k :: IsInput(remotes, entry.parents[j])
        invariant forall i | 0 <= i <= index :: pending[i] == |remotes[i].parents|
      {
        var parent := entry.parents[k];
        Lookup(remotes, indices, parent);
        if parent !in indices {
          return [], false, [];
        }
        LinkParent(remotes, children, index, k, indices[parent]);
        LinkedShape(remotes, children, index, k);
        children := children[indices[parent] := children[indices[parent]] + [index]];
      }
      LinkedNext(remotes, children, index);
    }
    LinkedEnd(remotes, children);
    LinkedCounts(remotes, children);
    SameCycles(n, ChildOf(children), ParentOf(remotes));
    waves, ok, level := OrderRemoteValidation(pending, children, ready);
    if ok { SameLevels(n, ChildOf(children), ParentOf(remotes), level); }
  }

  lemma IndexedStart(remotes: seq<RemoteEntry>)
    ensures Indexed(remotes, map[], 0)
  {
  }

  lemma IndexedAdd(remotes: seq<RemoteEntry>, indices: map<RemoteInput, nat>, index: nat)
    requires Indexed(remotes, indices, index) && index < |remotes|
    ensures remotes[index].input in indices ==> !DistinctInputs(remotes)
    ensures remotes[index].input !in indices ==> Indexed(remotes, indices[remotes[index].input := index], index + 1)
  {
  }

  lemma IndexedAll(remotes: seq<RemoteEntry>, indices: map<RemoteInput, nat>)
    requires Indexed(remotes, indices, |remotes|)
    ensures DistinctInputs(remotes)
  {
  }

  lemma Lookup(remotes: seq<RemoteEntry>, indices: map<RemoteInput, nat>, parent: RemoteInput)
    requires Indexed(remotes, indices, |remotes|)
    ensures parent in indices <==> IsInput(remotes, parent)
    ensures parent in indices ==> indices[parent] < |remotes| && remotes[indices[parent]].input == parent
  {
  }

  lemma LinkedShape(remotes: seq<RemoteEntry>, children: seq<seq<nat>>, index: nat, k: nat)
    requires Linked(remotes, children, index, k)
    ensures |children| == |remotes|
  {
    hide InDegree, ParentsSoFar;
  }

  lemma LinkedCounts(remotes: seq<RemoteEntry>, children: seq<seq<nat>>)
    requires Linked(remotes, children, |remotes|, 0)
    ensures |children| == |remotes| && forall p | 0 <= p < |children| :: Within(children[p], |children|)
    ensures forall c: nat | c < |remotes| :: InDegree(children, c) == |remotes[c].parents|
  {
    hide InDegree;
  }

  lemma SameLevels(n: nat, e: Edge, f: Edge, level: seq<nat>)
    requires forall p: nat, c: nat | p < n && c < n :: e(p, c) == f(p, c)
    requires Levels(n, e, level)
    ensures Levels(n, f, level)
  {
    forall c: nat | c < n && level[c] > 0 ensures JustAbove(n, f, level, c) {
      assert JustAbove(n, e, level, c);
    }
  }

  /** What the waves mean: together they list every index once, each entry comes in a later wave
      than all its parents, and its wave number is the length of its longest chain of ancestors. */
  lemma WavesRespectParents(remotes: seq<RemoteEntry>, waves: seq<seq<nat>>, level: seq<nat>, w: nat, k: nat)
    requires Levels(|remotes|, ParentOf(remotes), level) && WavesOf(waves, |remotes|, level)
    requires w < |waves| && k < |waves[w]|
    ensures waves[w][k] < |remotes|
    ensures forall p: nat | p < |remotes| && remotes[p].input in remotes[waves[w][k]].parents ::
              level[p] < w && p in waves[level[p]]
    ensures exists path :: Chain(|remotes|, ParentOf(remotes), path) && path[|path| - 1] == waves[w][k] && |path| == w + 1
    ensures forall path | Chain(|remotes|, ParentOf(remotes), path) && path[|path| - 1] == waves[w][k] :: |path| <= w + 1
    ensures forall v, j | 0 <= v < |waves| && 0 <= j < |waves[v]| && waves[v][j] == waves[w][k] :: v == w && j == k
  {
    var c := waves[w][k];
    forall p: nat | p < |remotes| && remotes[p].input in remotes[c].parents ensures level[p] < w && p in waves[level[p]] {
      assert ParentOf(remotes)(p, c);
    }
    LevelIsLongestChain(|remotes|, ParentOf(remotes), level, c);
  }
}
