/** When a dependency is ready, blocked or failed (pkg/depwait/classify.go, 60-209;
    pkg/depwait/availability.go, 33-146). */
module DependencyWait {
  type Id = string

  datatype Kind = Terminal | Blocked | DependencyFailed

  datatype Classification = Classification(kind: Kind, message: string, error: string)

  datatype Status = Unset | Pending | Ready | Failed

  datatype Artifact = NoArtifact | NoContent | Content

  /** What evaluating a ready expression on the object would give. */
  datatype Evaluation = NotYet | Satisfied | Broken(failure: string)

  /** What the store knows about one identity. */
  datatype Facts = Facts(hasObject: bool, status: Status, statusful: bool, reason: string, dependencyFailure: bool,
                         skipped: bool, artifact: Artifact, existenceOnly: bool, isCRD: bool,
                         evaluation: Evaluation, blockedBy: seq<Id>)

  const UNKNOWN := Facts(false, Unset, false, "", false, false, NoArtifact, false, false, NotYet, [])

  type Snapshot = map<Id, Facts>

  function At(s: Snapshot, id: Id): Facts {
    if id in s then s[id] else UNKNOWN
  }

  datatype Dependency = Dependency(id: Id, hasExpression: bool, artifact: bool, artifactOnly: bool, chartSource: bool)

  type Level = n: nat | n <= 2
  const CASCADE: Level := 1
  const FORCE: Level := 2

  datatype Policy = Policy(materializer: bool, allowMissingCRDs: bool, parent: Id)

  // ---------- the decisions ----------

  function Done(kind: Kind): Classification {
    Classification(kind, "", "")
  }

  function Fails(message: string): Classification {
    Classification(DependencyFailed, message, "")
  }

  function Refuses(error: string): Classification {
    Classification(Terminal, "", error)
  }

  function ArtifactReady(f: Facts, dep: Dependency, level: Level): Classification {
    if !dep.artifact then Done(Terminal)
    else if f.skipped then Refuses("skipped")
    else if f.existenceOnly && !dep.artifactOnly then Done(Terminal)
    else if f.artifact == Content then Done(Terminal)
    else if dep.artifactOnly then Refuses("no readable content")
    else if level >= CASCADE then
      Refuses(if !dep.chartSource && f.artifact == NoArtifact then "artifact not found" else "artifact content unavailable")
    else Done(Blocked)
  }

  function ClassifyAbsent(p: Policy, f: Facts, dep: Dependency, level: Level): Classification {
    if dep.artifact && f.artifact != NoArtifact then ArtifactReady(f, dep, level)
    else if level < CASCADE then Done(Blocked)
    else if p.allowMissingCRDs && f.isCRD then ArtifactReady(f, dep, level)
    else Fails("dependency not found")
  }

  function ClassifyPresent(p: Policy, f: Facts, dep: Dependency, level: Level): Classification {
    if !dep.hasExpression && f.status == Ready then ArtifactReady(f, dep, level)
    else if f.status == Failed then
      (if p.materializer && f.dependencyFailure then Fails("declaration not emitted") else Fails(f.reason))
    else if dep.hasExpression && level >= CASCADE then Fails("readyExpr timeout: context deadline exceeded")
    else if !dep.hasExpression && level >= FORCE then Fails("not ready")
    else Done(Blocked)
  }

  predicate Present(f: Facts) {
    f.hasObject || f.status != Unset
  }

  /** Whether an absent dependency comes to be looked up outside the store. */
  predicate Asks(p: Policy, f: Facts, dep: Dependency) {
    && !(dep.artifactOnly && f.artifact == Content)
    && !Present(f)
    && !(dep.hasExpression && f.evaluation.Broken?)
  }

  /** The answer from one snapshot. */
  function Decide(p: Policy, s: Snapshot, dep: Dependency, level: Level): Classification {
    var f := At(s, dep.id);
    if dep.artifactOnly && f.artifact == Content then Done(Terminal)
    else if !p.materializer && Present(f) && !f.statusful then ArtifactReady(f, dep, level)
    else if dep.hasExpression && f.evaluation.Broken? then Fails(f.evaluation.failure)
    else if Present(f) && dep.hasExpression && f.evaluation == Satisfied then ArtifactReady(f, dep, level)
    else if !Present(f) then ClassifyAbsent(p, f, dep, level)
    else ClassifyPresent(p, f, dep, level)
  }

  /** What promoting an absent dependency would do. */
  datatype Existence = NoLookup | Declines | Errs(error: string) | Promotes(after: Snapshot)

  ghost function Answer(p: Policy, s: Snapshot, existence: Existence, dep: Dependency, level: Level): Classification {
    if existence == NoLookup || existence == Declines || !Asks(p, At(s, dep.id), dep) then Decide(p, s, dep, level)
    else if existence.Errs? then Refuses(existence.error)
    else Decide(p, existence.after, dep, level)
  }

  // ---------- what the decisions are for ----------

  /** A readable artifact is all that was asked for. */
  predicate Taken(f: Facts, dep: Dependency) {
    dep.artifactOnly && f.artifact == Content
  }

  predicate BrokenExpression(f: Facts, dep: Dependency) {
    dep.hasExpression && f.evaluation.Broken?
  }

  /** The dependency is there: what is present is ready, or of a kind without a status; what is absent has an
      artifact that is asked for, or may be missing for good. */
  predicate Arrived(p: Policy, f: Facts, dep: Dependency, level: Level) {
    if Present(f) then
      || (!p.materializer && !f.statusful)
      || (if dep.hasExpression then f.evaluation == Satisfied else f.status == Ready)
    else
      && !BrokenExpression(f, dep)
      && ((dep.artifact && f.artifact != NoArtifact) || (level >= CASCADE && p.allowMissingCRDs && f.isCRD))
  }

  predicate HasWanted(f: Facts, dep: Dependency) {
    !dep.artifact || (!f.skipped && ((f.existenceOnly && !dep.artifactOnly) || f.artifact == Content))
  }

  /** Something that is there may still get the artifact that is asked for. */
  predicate LacksArtifact(f: Facts, dep: Dependency) {
    dep.artifact && !f.skipped && !dep.artifactOnly && !f.existenceOnly && f.artifact != Content
  }

  ghost predicate IsReady(p: Policy, f: Facts, dep: Dependency, level: Level) {
    Taken(f, dep) || (Arrived(p, f, dep, level) && HasWanted(f, dep))
  }

  ghost predicate IsBlocked(p: Policy, f: Facts, dep: Dependency, level: Level) {
    && !Taken(f, dep)
    && if Arrived(p, f, dep, level) then LacksArtifact(f, dep) && level < CASCADE
       else !BrokenExpression(f, dep) &&
            if Present(f) then f.status != Failed && level < (if dep.hasExpression then CASCADE else FORCE)
            else level < CASCADE
  }

  ghost predicate IsRefused(p: Policy, f: Facts, dep: Dependency, level: Level, error: string) {
    && !Taken(f, dep) && Arrived(p, f, dep, level) && dep.artifact
    && if f.skipped then error == "skipped"
       else if dep.artifactOnly then error == "no readable content"
       else LacksArtifact(f, dep) && level >= CASCADE &&
            error == if f.artifact == NoArtifact && !dep.chartSource then "artifact not found" else "artifact content unavailable"
  }

  ghost predicate IsFailed(p: Policy, f: Facts, dep: Dependency, level: Level, message: string) {
    && !Taken(f, dep) && !Arrived(p, f, dep, level)
    && if BrokenExpression(f, dep) then message == f.evaluation.failure
       else if !Present(f) then level >= CASCADE && message == "dependency not found"
       else if f.status == Failed then
         message == if p.materializer && f.dependencyFailure then "declaration not emitted" else f.reason
       else if dep.hasExpression then level >= CASCADE && message == "readyExpr timeout: context deadline exceeded"
       else level >= FORCE && message == "not ready"
  }

  /** The one answer that the facts call for. */
  ghost predicate Right(p: Policy, f: Facts, dep: Dependency, level: Level, r: Classification) {
    && (r == Classification(Terminal, "", "") <==> IsReady(p, f, dep, level))
    && (r == Classification(Blocked, "", "") <==> IsBlocked(p, f, dep, level))
    && (forall e | e != "" :: r == Classification(Terminal, "", e) <==> IsRefused(p, f, dep, level, e))
    && (forall m :: r == Classification(DependencyFailed, m, "") <==> IsFailed(p, f, dep, level, m))
  }

  lemma ArtifactRight(f: Facts, dep: Dependency, level: Level)
    requires !Taken(f, dep)
    ensures ArtifactReady(f, dep, level) ==
            if HasWanted(f, dep) then Classification(Terminal, "", "")
            else if f.skipped then Classification(Terminal, "", "skipped")
            else if dep.artifactOnly then Classification(Terminal, "", "no readable content")
            else if level < CASCADE then Classification(Blocked, "", "")
            else Classification(Terminal, "", if f.artifact == NoArtifact && !dep.chartSource then "artifact not found"
                                              else "artifact content unavailable")
    ensures HasWanted(f, dep) <==> !(dep.artifact && (f.skipped || dep.artifactOnly || LacksArtifact(f, dep)))
    ensures LacksArtifact(f, dep) <==> !HasWanted(f, dep) && !f.skipped && !dep.artifactOnly
  {
  }

  lemma DecideSplit(p: Policy, s: Snapshot, dep: Dependency, level: Level)
    ensures var f := At(s, dep.id);
            && (Taken(f, dep) ==> Decide(p, s, dep, level) == Done(Terminal))
            && (!Taken(f, dep) && Arrived(p, f, dep, level) ==> Decide(p, s, dep, level) == ArtifactReady(f, dep, level))
            && (!Taken(f, dep) && !Arrived(p, f, dep, level) ==>
                  && Decide(p, s, dep, level).kind != Terminal && Decide(p, s, dep, level).error == ""
                  && (Decide(p, s, dep, level).kind == Blocked ==> Decide(p, s, dep, level) == Done(Blocked))
                  && (Decide(p, s, dep, level).kind == Blocked <==> IsBlocked(p, f, dep, level))
                  && (Decide(p, s, dep, level).kind == DependencyFailed ==> IsFailed(p, f, dep, level, Decide(p, s, dep, level).message)))
  {
    hide ArtifactReady;
  }

  lemma DecideRight(p: Policy, s: Snapshot, dep: Dependency, level: Level)
    ensures Right(p, At(s, dep.id), dep, level, Decide(p, s, dep, level))
  {
    var f := At(s, dep.id);
    DecideSplit(p, s, dep, level);
    if !Taken(f, dep) { ArtifactRight(f, dep, level); }
    hide Decide, ArtifactReady, Taken, Arrived, HasWanted, LacksArtifact;
  }

  class Waiter {
    const policy: Policy
    const existence: Existence
    var store: Snapshot
    var promotions: nat

    constructor (policy: Policy, existence: Existence, store: Snapshot)
      ensures this.policy == policy && this.existence == existence && this.store == store && promotions == 0
    {
      this.policy, this.existence, this.store, promotions := policy, existence, store, 0;
    }

    /** Promotes at most once, and then answers from the store as promoted. */
    method Classify(dep: Dependency, level: Level) returns (result: Classification)
      modifies this
      ensures result == Answer(policy, old(store), existence, dep, level)
      ensures existence.Errs? && Asks(policy, At(old(store), dep.id), dep) ==> result == Classification(Terminal, "", existence.error)
      ensures !(existence.Errs? && Asks(policy, At(old(store), dep.id), dep)) ==> Right(policy, At(store, dep.id), dep, level, result)
      ensures promotions == old(promotions) + (if existence.Promotes? && Asks(policy, At(old(store), dep.id), dep) then 1 else 0)
      ensures store == if promotions == old(promotions) then old(store) else existence.after
    {
      var lookup := existence;
      var promoted := true;
      result := Done(Terminal);
      while promoted
        invariant promoted ==>
                    || (lookup == existence && store == old(store) && promotions == old(promotions))
                    || (lookup == NoLookup && existence.Promotes? && Asks(policy, At(old(store), dep.id), dep) &&
                        store == existence.after && promotions == old(promotions) + 1)
        invariant !promoted ==>
                    && result == Answer(policy, old(store), existence, dep, level)
                    && promotions == old(promotions) + (if existence.Promotes? && Asks(policy, At(old(store), dep.id), dep) then 1 else 0)
                    && store == if promotions == old(promotions) then old(store) else existence.after
        decreases promoted, lookup.Promotes?
      {
        result, promoted := ClassifyOnce(dep, level, lookup);
        lookup := NoLookup;
      }
      DecideRight(policy, store, dep, level);
    }

    method ClassifyOnce(dep: Dependency, level: Level, lookup: Existence) returns (result: Classification, promoted: bool)
      modifies this
      ensures promoted <==> lookup.Promotes? && Asks(policy, At(old(store), dep.id), dep)
      ensures promoted ==> store == lookup.after && promotions == old(promotions) + 1
      ensures !promoted ==> store == old(store) && promotions == old(promotions)
      ensures !promoted && lookup.Errs? && Asks(policy, At(old(store), dep.id), dep) ==> result == Refuses(lookup.error)
      ensures !promoted && !(lookup.Errs? && Asks(policy, At(old(store), dep.id), dep)) ==>
                result == Decide(policy, old(store), dep, level) && Right(policy, At(store, dep.id), dep, level, result)
    {
      DecideRight(policy, store, dep, level);
      var f := At(store, dep.id);
      if dep.artifactOnly && f.artifact == Content {
        return Done(Terminal), false;
      }
      if !policy.materializer && Present(f) && !f.statusful {
        return ArtifactReady(f, dep, level), false;
      }
      var ready := false;
      if dep.hasExpression {
        if f.evaluation.Broken? {
          return Fails(f.evaluation.failure), false;
        }
        ready := f.evaluation == Satisfied;
      }
      if !Present(f) && lookup != NoLookup {
        if lookup.Errs? {
          return Refuses(lookup.error), false;
        }
        if lookup.Promotes? {
          store, promotions := lookup.after, promotions + 1;
          return Done(Terminal), true;
        }
      }
      if Present(f) && ready {
        return ArtifactReady(f, dep, level), false;
      }
      if !Present(f) {
        return ClassifyAbsent(policy, f, dep, level), false;
      }
      return ClassifyPresent(policy, f, dep, level), false;
    }
  }

  /** Draining harder only ever decides what was still blocked. */
  lemma AnswersStand(p: Policy, s: Snapshot, existence: Existence, dep: Dependency, low: Level, high: Level)
    requires low <= high
    ensures Answer(p, s, existence, dep, low).kind != Blocked ==>
              Answer(p, s, existence, dep, high) == Answer(p, s, existence, dep, low)
    ensures Answer(p, s, existence, dep, FORCE).kind != Blocked
    ensures Answer(p, s, existence, dep, low).kind == Blocked ==> Answer(p, s, existence, dep, low).error == ""
  {
    hide Decide, Asks;
    DecisionsStand(p, s, dep, low, high);
    if existence.Promotes? {
      DecisionsStand(p, existence.after, dep, low, high);
    }
  }

  lemma DecisionsStand(p: Policy, s: Snapshot, dep: Dependency, low: Level, high: Level)
    requires low <= high
    ensures Decide(p, s, dep, low).kind != Blocked ==> Decide(p, s, dep, high) == Decide(p, s, dep, low)
    ensures Decide(p, s, dep, FORCE).kind != Blocked
    ensures Decide(p, s, dep, low).kind == Blocked ==> Decide(p, s, dep, low).error == ""
  {
    hide Decide;
    DecidedKept(p, s, dep, low, high);
    BlockedPlainly(p, s, dep, FORCE);
    BlockedPlainly(p, s, dep, low);
  }

  lemma DecidedKept(p: Policy, s: Snapshot, dep: Dependency, low: Level, high: Level)
    requires low <= high
    ensures Decide(p, s, dep, low).kind != Blocked ==> Decide(p, s, dep, high) == Decide(p, s, dep, low)
  {
    hide ArtifactReady;
    ReadinessStands(At(s, dep.id), dep, low, high);
  }

  lemma BlockedPlainly(p: Policy, s: Snapshot, dep: Dependency, level: Level)
    ensures Decide(p, s, dep, level).kind == Blocked ==> Decide(p, s, dep, level).error == "" && level < FORCE
  {
    hide ArtifactReady;
    ReadinessStands(At(s, dep.id), dep, level, level);
  }

  lemma ReadinessStands(f: Facts, dep: Dependency, low: Level, high: Level)
    requires low <= high
    ensures ArtifactReady(f, dep, low).kind != Blocked ==> ArtifactReady(f, dep, high) == ArtifactReady(f, dep, low)
    ensures ArtifactReady(f, dep, FORCE).kind != Blocked && ArtifactReady(f, dep, CASCADE).kind != Blocked
    ensures ArtifactReady(f, dep, low).kind == Blocked ==> ArtifactReady(f, dep, low).error == ""
  {
  }

  // ---------- what blocks the parent ----------

  ghost predicate BlockingPath(s: Snapshot, path: seq<Id>) {
    && path != []
    && forall k | 0 < k < |path| :: path[k] in At(s, path[k - 1]).blockedBy
  }

  ghost predicate Reaches(s: Snapshot, from: Id, to: Id) {
    exists path :: BlockingPath(s, path) && path[0] == from && path[|path| - 1] == to
  }

  lemma ReachesOn(s: Snapshot, from: Id, via: Id, to: Id)
    requires Reaches(s, from, via) && to in At(s, via).blockedBy
    ensures Reaches(s, from, to)
  {
    var path :| BlockingPath(s, path) && path[0] == from && path[|path| - 1] == via;
    var longer := path + [to];
    assert BlockingPath(s, longer) && longer[0] == from && longer[|longer| - 1] == to;
  }

  lemma {:induction false} NeverLeaves(s: Snapshot, seen: set<Id>, path: seq<Id>)
    requires BlockingPath(s, path) && path[0] in seen
    requires forall x, y | x in seen && y in At(s, x).blockedBy :: y in seen
    ensures path[|path| - 1] in seen
  {
    if |path| > 1 {
      assert path[1] in At(s, path[0]).blockedBy;
      assert BlockingPath(s, path[1..]) by {
        assert forall k | 0 < k < |path| - 1 :: path[1..][k] == path[k + 1] && path[1..][k - 1] == path[k];
      }
      NeverLeaves(s, seen, path[1..]);
    }
  }

  /** Every identity the snapshot speaks of. */
  ghost function Mentioned(s: Snapshot, id: Id): set<Id> {
    {id} + s.Keys + set x, y | x in s && y in s[x].blockedBy :: y
  }

  /** The search from `id`: what was seen has its neighbours seen or pending, and the parent was not seen. */
  ghost predicate Searching(s: Snapshot, id: Id, parent: Id, seen: set<Id>, pending: seq<Id>) {
    && seen <= Mentioned(s, id) && parent !in seen
    && (forall x | x in pending :: x in Mentioned(s, id) && Reaches(s, id, x))
    && (id in seen || id in pending)
    && (forall x, y | x in seen && y in At(s, x).blockedBy :: y in seen || y in pending)
  }

  lemma SearchFirst(s: Snapshot, id: Id, parent: Id)
    ensures Searching(s, id, parent, {}, [id])
  {
    ReachesSelf(s, id);
  }

  lemma SearchPast(s: Snapshot, id: Id, parent: Id, seen: set<Id>, pending: seq<Id>, current: Id)
    requires Searching(s, id, parent, seen, pending + [current]) && current in seen
    ensures Searching(s, id, parent, seen, pending)
  {
    hide Reaches, Mentioned, At;
    forall x ensures x in pending + [current] <==> x in pending || x == current {}
  }

  lemma SearchOn(s: Snapshot, id: Id, parent: Id, seen: set<Id>, pending: seq<Id>, current: Id)
    requires Searching(s, id, parent, seen, pending + [current]) && current !in seen && current != parent
    ensures Searching(s, id, parent, seen + {current}, pending + At(s, current).blockedBy)
    ensures |Mentioned(s, id) - (seen + {current})| < |Mentioned(s, id) - seen|
  {
    hide Reaches, Mentioned, At;
    var next := At(s, current).blockedBy;
    forall x ensures x in pending + [current] <==> x in pending || x == current {}
    forall x ensures x in pending + next <==> x in pending || x in next {}
    forall y | y in next ensures y in Mentioned(s, id) && Reaches(s, id, y) {
      ReachesOn(s, id, current, y);
      NextMentioned(s, id, current, y);
    }
    Fewer(Mentioned(s, id), seen, current);
  }

  lemma NextMentioned(s: Snapshot, id: Id, x: Id, y: Id)
    requires y in At(s, x).blockedBy
    ensures y in Mentioned(s, id)
  {
  }

  lemma SearchEnds(s: Snapshot, id: Id, parent: Id, seen: set<Id>)
    requires Searching(s, id, parent, seen, [])
    ensures !Reaches(s, id, parent)
  {
    Unreached(s, seen, id, parent);
  }

  lemma SearchFound(s: Snapshot, id: Id, parent: Id, seen: set<Id>, pending: seq<Id>)
    requires Searching(s, id, parent, seen, pending) && parent in pending
    ensures Reaches(s, id, parent)
  {
  }

  /** The parent blocks, through others or itself, exactly when some path leads to it; rings end the search too. */
  method BlocksParent(s: Snapshot, parent: Id, id: Id) returns (blocks: bool)
    ensures blocks <==> Reaches(s, id, parent)
  {
    hide *;
    var seen: set<Id> := {};
    var pending := [id];
    SearchFirst(s, id, parent);
    while pending != []
      invariant Searching(s, id, parent, seen, pending)
      decreases |Mentioned(s, id) - seen|, |pending|
    {
      var last := |pending| - 1;
      var current := pending[last];
      assert pending == pending[..last] + [current];
      if current == parent {
        SearchFound(s, id, parent, seen, pending);
        return true;
      }
      pending := pending[..last];
      if current in seen {
        SearchPast(s, id, parent, seen, pending, current);
        continue;
      }
      SearchOn(s, id, parent, seen, pending, current);
      seen := seen + {current};
      pending := pending + At(s, current).blockedBy;
    }
    SearchEnds(s, id, parent, seen);
    blocks := false;
  }

  lemma ReachesSelf(s: Snapshot, id: Id)
    ensures Reaches(s, id, id)
  {
    assert BlockingPath(s, [id]);
  }

  lemma Fewer(all: set<Id>, seen: set<Id>, x: Id)
    requires x in all && x !in seen
    ensures |all - (seen + {x})| < |all - seen|
  {
    assert all - seen == (all - (seen + {x})) + {x};
  }

  lemma Unreached(s: Snapshot, seen: set<Id>, id: Id, parent: Id)
    requires id in seen && parent !in seen
    requires forall x, y | x in seen && y in At(s, x).blockedBy :: y in seen
    ensures !Reaches(s, id, parent)
  {
    forall path | BlockingPath(s, path) && path[0] == id ensures path[|path| - 1] != parent {
      NeverLeaves(s, seen, path);
    }
  }

  // ---------- values that others produce ----------

  datatype Data = Data(dep: Dependency, hasData: bool, materializers: seq<Id>, optional: bool, allowMissing: bool,
                       allowsAbsence: bool, offline: bool)

  datatype Availability = Availability(kind: Kind, error: string, message: string, failed: seq<Id>, blocked: seq<Id>, omit: bool)

  function Plain(kind: Kind, omit: bool): Availability {
    Availability(kind, "", "", [], [], omit)
  }

  function Producer(id: Id): Dependency {
    Dependency(id, false, false, false, false)
  }

  predicate Allowed(d: Data) {
    d.optional || d.allowMissing || d.allowsAbsence
  }

  /** A producer's failure counts, unless absence is allowed or it failed for reasons that are not the parent's. */
  ghost predicate Counts(p: Policy, s: Snapshot, d: Data, producer: Id, level: Level) {
    && Decide(p, s, Producer(producer), level).kind == DependencyFailed && !Allowed(d)
    && (At(s, producer).status == Failed ==> Reaches(s, producer, p.parent))
  }

  function Failure(p: Policy, s: Snapshot, producer: Id, level: Level): Availability {
    var message := if At(s, producer).status == Failed then "not ready" else Decide(p, s, Producer(producer), level).message;
    Availability(DependencyFailed, "", message, [producer], [], false)
  }

  predicate Waits(p: Policy, s: Snapshot, unsettled: set<Id>, producer: Id, level: Level) {
    var kind := Decide(p, s, Producer(producer), level).kind;
    kind == Blocked || (kind == Terminal && level < FORCE && producer in unsettled)
  }

  function AvailableAbsent(p: Policy, s: Snapshot, d: Data, level: Level): Availability {
    if d.allowsAbsence || |d.materializers| != 0 then
      (if Allowed(d) then Plain(Terminal, true) else Availability(DependencyFailed, "", "dependency not found", [], [], false))
    else if Allowed(d) && !d.offline then Plain(Terminal, true)
    else
      var cl := Decide(p, s, d.dep, level);
      if cl.error != "" then Availability(Terminal, cl.error, "", [], [], false)
      else if cl.kind == Blocked then Availability(Blocked, "", "", [], [d.dep.id], false)
      else if Allowed(d) then Plain(Terminal, true)
      else if cl.kind == Terminal then Availability(DependencyFailed, "", "dependency not found", [], [], false)
      else Availability(cl.kind, "", cl.message, [], [], false)
  }

  /** The answer once the first `n` producers are gone through. */
  ghost function After(p: Policy, s: Snapshot, unsettled: set<Id>, d: Data, level: Level, n: nat, blocked: seq<Id>): Availability
    requires n <= |d.materializers|
    decreases |d.materializers| - n
  {
    if n == |d.materializers| then
      if blocked != [] then Availability(Blocked, "", "", [], blocked, false)
      else if d.hasData then Plain(Terminal, false)
      else AvailableAbsent(p, s, d, level)
    else
      var producer := d.materializers[n];
      if producer == p.parent then After(p, s, unsettled, d, level, n + 1, blocked)
      else if Counts(p, s, d, producer, level) then Failure(p, s, producer, level)
      else After(p, s, unsettled, d, level, n + 1, if Waits(p, s, unsettled, producer, level) then blocked + [producer] else blocked)
  }

  ghost function AvailableAnswer(p: Policy, s: Snapshot, unsettled: set<Id>, d: Data, level: Level): Availability {
    After(p, s, if d.hasData then {} else unsettled, d, level, 0, [])
  }

  // ---------- what the answer is for ----------

  /** A present object has neither become ready nor failed, and its status counts. */
  predicate Unfinished(p: Policy, f: Facts) {
    (p.materializer || f.statusful) && f.status != Ready && f.status != Failed
  }

  /** This producer keeps the value from ever being there: it failed because of the parent, does not finish, or
      does not exist. */
  ghost predicate Blamed(p: Policy, s: Snapshot, d: Data, producer: Id, level: Level, message: string) {
    var f := At(s, producer);
    && producer != p.parent && !d.optional && !d.allowMissing && !d.allowsAbsence
    && if f.hasObject || f.status != Unset then
         && message == "not ready"
         && (p.materializer || f.statusful)
         && (if f.status == Failed then Reaches(s, producer, p.parent) else f.status != Ready && level >= FORCE)
       else message == "dependency not found" && level >= CASCADE && !(p.allowMissingCRDs && f.isCRD)
  }

  /** This producer is worth waiting for: it is on its way, or what it made is not settled yet. */
  predicate Awaited(p: Policy, s: Snapshot, unsettled: set<Id>, d: Data, producer: Id, level: Level) {
    var f := At(s, producer);
    var unsure := !d.hasData && producer in unsettled && level < FORCE;
    && producer != p.parent
    && if f.hasObject || f.status != Unset then
         if Unfinished(p, f) then level < FORCE else (f.status == Failed ==> !p.materializer && !f.statusful) && unsure
       else level < CASCADE || (p.allowMissingCRDs && f.isCRD && unsure)
  }

  /** The producers from the nth on that are waited for, in order. */
  function AwaitedFrom(p: Policy, s: Snapshot, unsettled: set<Id>, d: Data, level: Level, n: nat): seq<Id>
    requires n <= |d.materializers|
    decreases |d.materializers| - n
  {
    if n == |d.materializers| then []
    else (if Awaited(p, s, unsettled, d, d.materializers[n], level) then [d.materializers[n]] else [])
         + AwaitedFrom(p, s, unsettled, d, level, n + 1)
  }

  /** The answer when nobody is to blame, nobody is waited for, and there is no data. */
  ghost predicate AbsentRight(p: Policy, s: Snapshot, d: Data, level: Level, r: Availability) {
    var allowed := d.optional || d.allowMissing || d.allowsAbsence;
    if allowed && (d.allowsAbsence || d.materializers != [] || !d.offline) then
      r == Availability(Terminal, "", "", [], [], true)
    else if d.materializers != [] then
      r == Availability(DependencyFailed, "", "dependency not found", [], [], false)
    else
      exists cl :: Right(p, At(s, d.dep.id), d.dep, level, cl) && r == WithoutProducers(d.dep.id, allowed, cl)
  }

  /** The answer that the classification of the value itself leads to. */
  function WithoutProducers(id: Id, allowed: bool, cl: Classification): Availability {
    if cl.error != "" then Availability(Terminal, cl.error, "", [], [], false)
    else if cl.kind == Blocked then Availability(Blocked, "", "", [], [id], false)
    else if allowed then Availability(Terminal, "", "", [], [], true)
    else if cl.kind == Terminal then Availability(DependencyFailed, "", "dependency not found", [], [], false)
    else Availability(DependencyFailed, "", cl.message, [], [], false)
  }

  /** What the producers from the nth on call for, with `blocked` waited for already. */
  ghost predicate AvailableRight(p: Policy, s: Snapshot, unsettled: set<Id>, d: Data, level: Level, n: nat, blocked: seq<Id>,
                                 r: Availability)
    requires n <= |d.materializers|
  {
    && (forall k: nat, m | FirstBlamed(p, s, d, level, n, k, m) ::
          r == Availability(DependencyFailed, "", m, [d.materializers[k]], [], false))
    && (NoneBlamed(p, s, d, level, n) ==>
          var waiting := blocked + AwaitedFrom(p, s, unsettled, d, level, n);
          if waiting != [] then r == Availability(Blocked, "", "", [], waiting, false)
          else if d.hasData then r == Availability(Terminal, "", "", [], [], false)
          else AbsentRight(p, s, d, level, r))
  }

  ghost predicate FirstBlamed(p: Policy, s: Snapshot, d: Data, level: Level, n: nat, k: nat, message: string) {
    && n <= k < |d.materializers| && Blamed(p, s, d, d.materializers[k], level, message)
    && forall j, m | n <= j < k :: !Blamed(p, s, d, d.materializers[j], level, m)
  }

  ghost predicate NoneBlamed(p: Policy, s: Snapshot, d: Data, level: Level, n: nat) {
    forall j, m | n <= j < |d.materializers| :: !Blamed(p, s, d, d.materializers[j], level, m)
  }

  lemma ProducerRight(p: Policy, s: Snapshot, unsettled: set<Id>, d: Data, producer: Id, level: Level)
    requires producer != p.parent
    ensures Counts(p, s, d, producer, level) ==>
              exists m :: Blamed(p, s, d, producer, level, m) && Failure(p, s, producer, level) ==
                          Availability(DependencyFailed, "", m, [producer], [], false)
    ensures !Counts(p, s, d, producer, level) ==> forall m :: !Blamed(p, s, d, producer, level, m)
    ensures forall m, k | Blamed(p, s, d, producer, level, m) && Blamed(p, s, d, producer, level, k) :: m == k
    ensures Waits(p, s, if d.hasData then {} else unsettled, producer, level) <==> Awaited(p, s, unsettled, d, producer, level)
  {
    hide Reaches;
    var f := At(s, producer);
    var m := if Present(f) then "not ready" else "dependency not found";
    PlainRight(p, s, producer, level);
    hide Decide;
    assert Counts(p, s, d, producer, level) <==> Blamed(p, s, d, producer, level, m);
  }

  lemma PlainRight(p: Policy, s: Snapshot, producer: Id, level: Level)
    ensures var f, r := At(s, producer), Decide(p, s, Producer(producer), level);
            if Present(f) then
              if !Unfinished(p, f) && (f.status == Failed ==> !p.materializer && !f.statusful) then r.kind == Terminal
              else if f.status == Failed then r.kind == DependencyFailed
              else if level < FORCE then r.kind == Blocked else r == Classification(DependencyFailed, "not ready", "")
            else if level < CASCADE then r.kind == Blocked
            else if p.allowMissingCRDs && f.isCRD then r.kind == Terminal
            else r == Classification(DependencyFailed, "dependency not found", "")
  {
  }

  lemma {:induction false} AfterRight(p: Policy, s: Snapshot, unsettled: set<Id>, d: Data, level: Level, n: nat, blocked: seq<Id>)
    requires n <= |d.materializers|
    ensures AvailableRight(p, s, unsettled, d, level, n, blocked,
                           After(p, s, if d.hasData then {} else unsettled, d, level, n, blocked))
    decreases |d.materializers| - n
  {
    hide Decide, Reaches, Counts, Blamed, Awaited, AbsentRight, AvailableAbsent, Failure, Waits;
    var pending := if d.hasData then {} else unsettled;
    if n == |d.materializers| {
      AvailableAbsentRight(p, s, d, level);
      assert blocked + [] == blocked;
    } else {
      var producer := d.materializers[n];
      if producer == p.parent {
        NotTheParent(p, s, unsettled, d, level);
        AfterRight(p, s, unsettled, d, level, n + 1, blocked);
        FirstLater(p, s, d, level, n);
      } else {
        ProducerRight(p, s, unsettled, d, producer, level);
        if Counts(p, s, d, producer, level) {
          FirstHere(p, s, d, level, n);
        } else {
          var longer := if Waits(p, s, pending, producer, level) then blocked + [producer] else blocked;
          AfterRight(p, s, unsettled, d, level, n + 1, longer);
          FirstLater(p, s, d, level, n);
          assert blocked + ([producer] + AwaitedFrom(p, s, unsettled, d, level, n + 1)) ==
                 blocked + [producer] + AwaitedFrom(p, s, unsettled, d, level, n + 1);
          assert blocked + ([] + AwaitedFrom(p, s, unsettled, d, level, n + 1)) ==
                 blocked + AwaitedFrom(p, s, unsettled, d, level, n + 1);
        }
      }
    }
  }

  lemma NotTheParent(p: Policy, s: Snapshot, unsettled: set<Id>, d: Data, level: Level)
    ensures !Awaited(p, s, unsettled, d, p.parent, level) && forall m :: !Blamed(p, s, d, p.parent, level, m)
  {
  }

  lemma FirstLater(p: Policy, s: Snapshot, d: Data, level: Level, n: nat)
    requires n < |d.materializers| && forall m :: !Blamed(p, s, d, d.materializers[n], level, m)
    ensures forall k: nat, m :: FirstBlamed(p, s, d, level, n, k, m) <==> FirstBlamed(p, s, d, level, n + 1, k, m)
    ensures NoneBlamed(p, s, d, level, n) <==> NoneBlamed(p, s, d, level, n + 1)
  {
    hide Blamed;
  }

  lemma FirstHere(p: Policy, s: Snapshot, d: Data, level: Level, n: nat)
    requires n < |d.materializers| && exists m :: Blamed(p, s, d, d.materializers[n], level, m)
    ensures !NoneBlamed(p, s, d, level, n)
    ensures forall k: nat, m | FirstBlamed(p, s, d, level, n, k, m) :: k == n && Blamed(p, s, d, d.materializers[n], level, m)
  {
    hide Blamed;
  }

  lemma AvailableAbsentRight(p: Policy, s: Snapshot, d: Data, level: Level)
    ensures AbsentRight(p, s, d, level, AvailableAbsent(p, s, d, level))
  {
    DecideRight(p, s, d.dep, level);
    hide Decide, Right;
  }

  method Available(p: Policy, s: Snapshot, unsettled: set<Id>, d: Data, level: Level) returns (r: Availability)
    ensures r == AvailableAnswer(p, s, unsettled, d, level)
    ensures AvailableRight(p, s, unsettled, d, level, 0, [], r)
  {
    hide Decide, Reaches, AvailableRight;
    AfterRight(p, s, unsettled, d, level, 0, []);
    var pending: set<Id> := {};
    if !d.hasData {
      pending := unsettled;
    }
    var blocked: seq<Id> := [];
    for n := 0 to |d.materializers|
      invariant AvailableAnswer(p, s, unsettled, d, level) == After(p, s, pending, d, level, n, blocked)
    {
      var producer := d.materializers[n];
      if producer == p.parent {
        continue;
      }
      ProducersNeverRefuse(p, s, producer, level);
      var cl := Decide(p, s, Producer(producer), level);
      var waits := cl.kind == Blocked || (cl.kind == Terminal && level < FORCE && producer in pending);
      if cl.kind == DependencyFailed && !Allowed(d) {
        var blocks := BlocksParent(s, p.parent, producer);
        if At(s, producer).status != Failed || blocks {
          return Failure(p, s, producer, level);
        }
      }
      if waits {
        blocked := blocked + [producer];
      }
    }
    if blocked != [] {
      return Availability(Blocked, "", "", [], blocked, false);
    }
    if d.hasData {
      return Plain(Terminal, false);
    }
    r := AvailableAbsent(p, s, d, level);
  }

  lemma ProducersNeverRefuse(p: Policy, s: Snapshot, producer: Id, level: Level)
    ensures Decide(p, s, Producer(producer), level).error == ""
  {
  }

  /** Under force nothing is left blocked. */
  lemma {:induction false} ForceDecides(p: Policy, s: Snapshot, unsettled: set<Id>, d: Data, n: nat)
    requires n <= |d.materializers|
    ensures After(p, s, unsettled, d, FORCE, n, []).kind != Blocked
    decreases |d.materializers| - n
  {
    hide Reaches;
    AnswersStand(p, s, NoLookup, d.dep, FORCE, FORCE);
    if n < |d.materializers| {
      AnswersStand(p, s, NoLookup, Producer(d.materializers[n]), FORCE, FORCE);
      ForceDecides(p, s, unsettled, d, n + 1);
    }
  }

  lemma {:induction false} BlockedStays(p: Policy, s: Snapshot, unsettled: set<Id>, d: Data, level: Level, n: nat, blocked: seq<Id>)
    requires n <= |d.materializers| && blocked != []
    ensures After(p, s, unsettled, d, level, n, blocked).kind != Terminal
    ensures After(p, s, unsettled, d, level, n, blocked).kind == DependencyFailed ==> Failing(p, s, d, level, n)
    decreases |d.materializers| - n
  {
    hide Decide, Reaches;
    if n < |d.materializers| {
      var producer := d.materializers[n];
      if producer == p.parent || !Counts(p, s, d, producer, level) {
        BlockedStays(p, s, unsettled, d, level, n + 1,
                     if producer != p.parent && Waits(p, s, unsettled, producer, level) then blocked + [producer] else blocked);
      }
    }
  }

  /** Some producer from the nth on fails in a way that counts. */
  ghost predicate Failing(p: Policy, s: Snapshot, d: Data, level: Level, n: nat) {
    exists k :: n <= k < |d.materializers| && d.materializers[k] != p.parent && Counts(p, s, d, d.materializers[k], level)
  }

  lemma {:induction false} FailingFails(p: Policy, s: Snapshot, unsettled: set<Id>, d: Data, level: Level, n: nat, blocked: seq<Id>)
    requires n <= |d.materializers| && Failing(p, s, d, level, n)
    ensures var r := After(p, s, unsettled, d, level, n, blocked); r.kind == DependencyFailed && r.error == "" && !r.omit
    decreases |d.materializers| - n
  {
    hide Decide, Reaches, Counts;
    var k :| n <= k < |d.materializers| && d.materializers[k] != p.parent && Counts(p, s, d, d.materializers[k], level);
    var producer := d.materializers[n];
    if producer == p.parent || !Counts(p, s, d, producer, level) {
      assert k != n;
      FailingFails(p, s, unsettled, d, level, n + 1,
                   if producer != p.parent && Waits(p, s, unsettled, producer, level) then blocked + [producer] else blocked);
    }
  }

  lemma CountsStands(p: Policy, s: Snapshot, d: Data, producer: Id, low: Level, high: Level)
    requires low <= high && Counts(p, s, d, producer, low)
    ensures Counts(p, s, d, producer, high)
  {
    hide Reaches;
    AnswersStand(p, s, NoLookup, Producer(producer), low, high);
  }

  /** Draining harder keeps the kind of every answer that was not blocked, its error and its omission. */
  lemma {:induction false} AvailabilityStands(p: Policy, s: Snapshot, unsettled: set<Id>, d: Data, low: Level, high: Level, n: nat)
    requires low <= high && n <= |d.materializers|
    ensures var a, b := After(p, s, unsettled, d, low, n, []), After(p, s, unsettled, d, high, n, []);
            a.kind != Blocked ==> b.kind == a.kind && b.error == a.error && b.omit == a.omit
    decreases |d.materializers| - n
  {
    hide Reaches, Decide, Counts;
    var a := After(p, s, unsettled, d, low, n, []);
    if Failing(p, s, d, low, n) {
      var k :| n <= k < |d.materializers| && d.materializers[k] != p.parent && Counts(p, s, d, d.materializers[k], low);
      CountsStands(p, s, d, d.materializers[k], low, high);
      assert Failing(p, s, d, high, n);
      FailingFails(p, s, unsettled, d, low, n, []);
      FailingFails(p, s, unsettled, d, high, n, []);
    } else if n == |d.materializers| {
      AbsentStands(p, s, d, low, high);
    } else {
      var producer := d.materializers[n];
      NotFailingHere(p, s, d, low, n);
      if producer == p.parent {
        AvailabilityStands(p, s, unsettled, d, low, high, n + 1);
      } else if Waits(p, s, unsettled, producer, low) {
        assert [] + [producer] == [producer];
        BlockedStays(p, s, unsettled, d, low, n + 1, [producer]);
      } else {
        AvailabilityStands(p, s, unsettled, d, low, high, n + 1);
        SettledStands(p, s, unsettled, d, producer, low, high);
      }
    }
  }

  lemma NotFailingHere(p: Policy, s: Snapshot, d: Data, level: Level, n: nat)
    requires !Failing(p, s, d, level, n) && n < |d.materializers|
    ensures !Failing(p, s, d, level, n + 1)
    ensures d.materializers[n] == p.parent || !Counts(p, s, d, d.materializers[n], level)
  {
    hide Counts;
  }

  lemma AbsentStands(p: Policy, s: Snapshot, d: Data, low: Level, high: Level)
    requires low <= high
    ensures AvailableAbsent(p, s, d, low).kind != Blocked ==>
              AvailableAbsent(p, s, d, high) == AvailableAbsent(p, s, d, low)
  {
    hide Decide;
    AnswersStand(p, s, NoLookup, d.dep, low, high);
  }

  lemma SettledStands(p: Policy, s: Snapshot, unsettled: set<Id>, d: Data, producer: Id, low: Level, high: Level)
    requires low <= high && !Waits(p, s, unsettled, producer, low) && !Counts(p, s, d, producer, low)
    ensures !Waits(p, s, unsettled, producer, high) && !Counts(p, s, d, producer, high)
  {
    hide Reaches, Decide;
    AnswersStand(p, s, NoLookup, Producer(producer), low, high);
  }

  // ---------- exactly when the whole answer stands ----------

  /** The first producer from the nth on that fails in a way that counts; their number if none does. */
  ghost function Cause(p: Policy, s: Snapshot, d: Data, level: Level, n: nat): (k: nat)
    requires n <= |d.materializers|
    ensures n <= k <= |d.materializers|
    ensures k < |d.materializers| <==> Failing(p, s, d, level, n)
    ensures k < |d.materializers| ==> d.materializers[k] != p.parent && Counts(p, s, d, d.materializers[k], level)
    ensures forall j | n <= j < k :: d.materializers[j] == p.parent || !Counts(p, s, d, d.materializers[j], level)
    decreases |d.materializers| - n
  {
    if n == |d.materializers| then n
    else if d.materializers[n] != p.parent && Counts(p, s, d, d.materializers[n], level) then n
    else Cause(p, s, d, level, n + 1)
  }

  lemma {:induction false} CauseAnswers(p: Policy, s: Snapshot, unsettled: set<Id>, d: Data, level: Level, n: nat, blocked: seq<Id>)
    requires n <= |d.materializers| && Failing(p, s, d, level, n)
    ensures After(p, s, unsettled, d, level, n, blocked) ==
            Failure(p, s, d.materializers[Cause(p, s, d, level, n)], level)
    decreases |d.materializers| - n
  {
    hide Decide, Reaches, Counts, Failure;
    var producer := d.materializers[n];
    if producer == p.parent || !Counts(p, s, d, producer, level) {
      assert Cause(p, s, d, level, n) == Cause(p, s, d, level, n + 1);
      CauseAnswers(p, s, unsettled, d, level, n + 1,
                   if producer != p.parent && Waits(p, s, unsettled, producer, level) then blocked + [producer] else blocked);
    }
  }

  /** Where nothing counted at the lower level, nothing does at the higher, and the answer is the same. */
  lemma {:induction false} DecidedStands(p: Policy, s: Snapshot, unsettled: set<Id>, d: Data, low: Level, high: Level, n: nat)
    requires low <= high && n <= |d.materializers| && !Failing(p, s, d, low, n)
    requires After(p, s, unsettled, d, low, n, []).kind != Blocked
    ensures !Failing(p, s, d, high, n)
    ensures After(p, s, unsettled, d, high, n, []) == After(p, s, unsettled, d, low, n, [])
    decreases |d.materializers| - n
  {
    hide Decide, Reaches, Counts;
    if n == |d.materializers| {
      AbsentStands(p, s, d, low, high);
    } else {
      var producer := d.materializers[n];
      NotFailingHere(p, s, d, low, n);
      if producer != p.parent && Waits(p, s, unsettled, producer, low) {
        assert [] + [producer] == [producer];
        BlockedStays(p, s, unsettled, d, low, n + 1, [producer]);
      } else {
        if producer != p.parent { SettledStands(p, s, unsettled, d, producer, low, high); }
        DecidedStands(p, s, unsettled, d, low, high, n + 1);
      }
    }
  }

  lemma FailureStands(p: Policy, s: Snapshot, d: Data, producer: Id, low: Level, high: Level)
    requires low <= high && Counts(p, s, d, producer, low)
    ensures Failure(p, s, producer, high) == Failure(p, s, producer, low)
  {
    hide Decide, Reaches;
    AnswersStand(p, s, NoLookup, Producer(producer), low, high);
  }

  /** Draining harder keeps the whole of an answer that was not blocked exactly when no producer
      listed before the one it names comes to fail in a way that counts. */
  lemma AnswerStandsIff(p: Policy, s: Snapshot, unsettled: set<Id>, d: Data, low: Level, high: Level)
    requires low <= high && AvailableAnswer(p, s, unsettled, d, low).kind != Blocked
    ensures AvailableAnswer(p, s, unsettled, d, high) == AvailableAnswer(p, s, unsettled, d, low) <==>
            forall k | 0 <= k < Cause(p, s, d, low, 0) ::
              d.materializers[k] == p.parent || !Counts(p, s, d, d.materializers[k], high)
  {
    hide Decide, Reaches, Counts, Failing, After;
    var pending := if d.hasData then {} else unsettled;
    var first, later := Cause(p, s, d, low, 0), Cause(p, s, d, high, 0);
    if Failing(p, s, d, low, 0) {
      var named := d.materializers[first];
      CountsStands(p, s, d, named, low, high);
      FailingAt(p, s, d, high, 0, first);
      CauseAnswers(p, s, pending, d, low, 0, []);
      CauseAnswers(p, s, pending, d, high, 0, []);
      assert later <= first;
      FailureStands(p, s, d, named, low, high);
      if later < first {
        assert !Counts(p, s, d, d.materializers[later], low);
      }
    } else {
      DecidedStands(p, s, pending, d, low, high, 0);
    }
  }

  lemma FailingAt(p: Policy, s: Snapshot, d: Data, level: Level, n: nat, k: nat)
    requires n <= k < |d.materializers| && d.materializers[k] != p.parent && Counts(p, s, d, d.materializers[k], level)
    ensures Failing(p, s, d, level, n)
  {
    hide Counts;
  }

  /** But which producer is named may change: one that was blocked at the lower level can come first. */
  lemma ReasonMayChange()
    ensures exists p: Policy, s: Snapshot, d: Data ::
              && AvailableAnswer(p, s, {}, d, 0).kind == DependencyFailed
              && AvailableAnswer(p, s, {}, d, 0) != AvailableAnswer(p, s, {}, d, FORCE)
  {
    var p := Policy(false, false, "parent");
    var slow := UNKNOWN.(hasObject := true, statusful := true, status := Pending);
    var failed := UNKNOWN.(hasObject := true, statusful := true, status := Failed, blockedBy := ["parent"]);
    var s := map["slow" := slow, "failed" := failed];
    var d := Data(Producer("values"), false, ["slow", "failed"], false, false, false, false);
    assert BlockingPath(s, ["failed", "parent"]) && ["failed", "parent"][1] == "parent";
    assert Reaches(s, "failed", "parent");
    SlowAndFailed(p, s, slow, failed);
    hide Decide, Reaches;
    assert Counts(p, s, d, "failed", 0) && !Counts(p, s, d, "slow", 0) && Counts(p, s, d, "slow", FORCE);
    assert AvailableAnswer(p, s, {}, d, FORCE).failed == ["slow"];
    assert After(p, s, {}, d, 0, 1, ["slow"]) == Failure(p, s, "failed", 0);
    assert AvailableAnswer(p, s, {}, d, 0).failed == ["failed"];
  }

  lemma SlowAndFailed(p: Policy, s: Snapshot, slow: Facts, failed: Facts)
    requires !p.materializer && At(s, "slow") == slow && At(s, "failed") == failed
    requires slow == UNKNOWN.(hasObject := true, statusful := true, status := Pending)
    requires failed == UNKNOWN.(hasObject := true, statusful := true, status := Failed, blockedBy := failed.blockedBy)
    ensures Decide(p, s, Producer("slow"), 0) == Done(Blocked)
    ensures Decide(p, s, Producer("slow"), FORCE).kind == DependencyFailed
    ensures Decide(p, s, Producer("failed"), 0).kind == DependencyFailed
  {
  }
}
