/** The paths a change is compared on, found without reading the whole base
    (pkg/baseline/lazy.go, 112-201, 302-417 and 505-526). */
module LazyBaseline {
  import opened Ordering
  import opened Text

  type Path = string

  datatype File = File(executable: bool, content: seq<int>)

  type Tree = map<Path, File>

  function Get(t: Tree, p: Path): Option<File> {
    if p in t then Some(t[p]) else None
  }

  ghost predicate Differs(a: Tree, b: Tree, p: Path) {
    Get(a, p) != Get(b, p)
  }

  ghost function Difference(a: Tree, b: Tree): set<Path> {
    set p | p in a.Keys + b.Keys && Differs(a, b, p)
  }

  // ---------- comparing two streams ----------

  const CHUNK: nat := 32 * 1024

  datatype Outcome<T> = Ok(value: T) | Failed

  datatype Ending = NoError | EndOfFile | ReadError

  /** A stream of bytes that ends, or breaks off with an error. */
  class Reader {
    const data: seq<int>
    const breaks: bool
    var at: nat

    ghost predicate Valid()
      reads this
    {
      at <= |data|
    }

    constructor (data: seq<int>, breaks: bool)
      ensures Valid() && this.data == data && this.breaks == breaks && at == 0
    {
      this.data, this.breaks, at := data, breaks, 0;
    }

    /** Fills the buffer, unless the stream ends first. */
    method ReadFull(size: nat) returns (chunk: seq<int>, ending: Ending)
      requires Valid()
      modifies this
      ensures Valid() && at == old(at) + |chunk| && chunk == data[old(at)..at]
      ensures |chunk| == if |data| - old(at) < size then |data| - old(at) else size
      ensures ending == if |chunk| == size then NoError else if breaks then ReadError else EndOfFile
    {
      var n := if |data| - at < size then |data| - at else size;
      chunk := data[at..at + n];
      at := at + n;
      ending := if n == size then NoError else if breaks then ReadError else EndOfFile;
    }
  }

  /** Streams that do not break are compared exactly; a break is reported, or comes after a difference. */
  method EqualReaders(a: Reader, b: Reader) returns (r: Outcome<bool>)
    requires a.Valid() && b.Valid() && a.at == 0 && b.at == 0 && a != b
    modifies a, b
    ensures !a.breaks && !b.breaks ==> r == Ok(a.data == b.data)
    ensures r == Ok(true) ==> a.data == b.data && !a.breaks && !b.breaks
    ensures r == Ok(false) ==> a.data != b.data
  {
    while true
      invariant a.Valid() && b.Valid() && a.at == b.at && a.data[..a.at] == b.data[..b.at]
      decreases |a.data| - a.at
    {
      ghost var before := a.at;
      var aa, ea := a.ReadFull(CHUNK);
      var bb, eb := b.ReadFull(CHUNK);
      if ea == ReadError || eb == ReadError {
        return Failed;
      }
      assert a.data[..a.at] == a.data[..before] + aa;
      assert b.data[..b.at] == b.data[..before] + bb;
      if |aa| != |bb| || aa != bb {
        assert a.data[before..a.at] == aa && b.data[before..b.at] == bb;
        return Ok(false);
      }
      if |aa| < CHUNK {
        assert a.data[..a.at] == a.data && b.data[..b.at] == b.data;
        return Ok(true);
      }
    }
  }

  // ---------- candidates ----------

  /** Every difference from HEAD that git knows of is in the status: HEAD's own paths, staged or not. */
  ghost predicate StatusComplete(head: Tree, current: Tree, status: set<Path>) {
    forall p | p in head && Differs(head, current, p) :: p in status
  }

  /** False marks a path that HEAD changed and the checkout left as HEAD has it. */
  type Candidates = map<Path, bool>

  method MarkAll(candidates: Candidates, names: set<Path>, dirty: bool) returns (marked: Candidates)
    ensures marked == candidates + map p | p in names :: dirty
  {
    marked := candidates;
    var left := names;
    while left != {}
      invariant left <= names
      invariant marked == candidates + map p | p in names - left :: dirty
      decreases |left|
    {
      var name :| name in left;
      marked, left := marked[name := dirty], left - {name};
    }
  }

  method HeadCandidates(base: Tree, head: Option<Tree>) returns (headEntries: Tree, candidates: Candidates)
    ensures headEntries == if head.Some? then head.value else map[]
    ensures head.None? ==> candidates == map p | p in base :: true
    ensures head.Some? ==> candidates == map p | p in Difference(base, head.value) :: false
  {
    candidates := map[];
    if head.None? {
      headEntries := map[];
      candidates := MarkAll(candidates, base.Keys, true);
      return;
    }
    headEntries := head.value;
    var diff := set p | p in base.Keys + headEntries.Keys && Get(base, p) != Get(headEntries, p);
    assert diff == Difference(base, head.value);
    candidates := MarkAll(candidates, diff, false);
  }

  /** A path is a candidate when HEAD, the status or the checkout says so; with no status, every base path is. */
  method FindCandidates(base: Tree, head: Option<Tree>, current: Tree, status: Option<set<Path>>)
    returns (candidates: Candidates)
    ensures Covering(base, head, current, status, candidates)
  {
    hide *;
    var headEntries, marked := HeadCandidates(base, head);
    var dirty := marked;
    if status.Some? {
      dirty := MarkAll(marked, status.value, true);
    }
    var added := MarkAll(dirty, current.Keys - headEntries.Keys, true);
    candidates := added;
    if status.None? {
      candidates := MarkAll(added, base.Keys, true);
    }
    AllMarked(base, head, current, status, headEntries, marked, dirty, added, candidates);
  }

  lemma AllMarked(base: Tree, head: Option<Tree>, current: Tree, status: Option<set<Path>>, headEntries: Tree,
                  marked: Candidates, dirty: Candidates, added: Candidates, candidates: Candidates)
    requires headEntries == if head.Some? then head.value else map[]
    requires head.None? ==> marked == map p | p in base :: true
    requires head.Some? ==> marked == map p | p in Difference(base, head.value) :: false
    requires dirty == if status.Some? then marked + map p | p in status.value :: true else marked
    requires added == dirty + map p | p in current.Keys - headEntries.Keys :: true
    requires candidates == if status.None? then added + map p | p in base.Keys :: true else added
    ensures Covering(base, head, current, status, candidates)
  {
    hide Differs;
    forall p
      ensures p in Difference(base, headEntries) ==> p in candidates
      ensures p in candidates && !candidates[p] ==>
                && head.Some? && p in Difference(base, headEntries)
                && (status.Some? ==> p !in status.value) && (p in current ==> p in headEntries)
                && (status.None? ==> p !in base)
    {
      if head.None? { NothingBut(base, p); }
    }
  }

  lemma NothingBut(base: Tree, p: Path)
    ensures p in Difference(base, map[]) <==> p in base
  {
  }

  ghost predicate Covering(base: Tree, head: Option<Tree>, current: Tree, status: Option<set<Path>>,
                           candidates: Candidates)
  {
    var headEntries := if head.Some? then head.value else map[];
    && (forall p | p in Difference(base, headEntries) :: p in candidates)
    && (status.Some? ==> forall p | p in status.value :: p in candidates && candidates[p])
    && (forall p | p in current && p !in headEntries :: p in candidates && candidates[p])
    && (status.None? ==> forall p | p in base :: p in candidates && candidates[p])
    && (forall p | p in candidates && !candidates[p] ::
          && head.Some? && Differs(base, headEntries, p)
          && (status.Some? ==> p !in status.value) && (p in current ==> p in headEntries)
          && (status.None? ==> p !in base))
  }

  // ---------- comparing ----------

  method CandidateChanged(current: Tree, name: Path, entry: File) returns (changed: bool)
    ensures changed == (Get(current, name) != Some(entry))
  {
    if name !in current {
      return true;
    }
    if current[name].executable != entry.executable {
      return true;
    }
    var a := new Reader(entry.content, false);
    var b := new Reader(current[name].content, false);
    var equal := EqualReaders(a, b);
    changed := !equal.value;
  }

  ghost predicate Routed(base: Tree, current: Tree, candidates: Candidates, p: Path) {
    p in candidates && (p !in base || !candidates[p] || Differs(base, current, p))
  }

  /** Each candidate once, in whatever order they come. */
  method CompareCandidates(base: Tree, current: Tree, candidates: Candidates) returns (routing: seq<Path>)
    ensures forall p :: p in routing <==> Routed(base, current, candidates, p)
  {
    routing := [];
    var left := candidates.Keys;
    while left != {}
      invariant left <= candidates.Keys
      invariant forall p :: p in routing <==> p !in left && Routed(base, current, candidates, p)
      decreases |left|
    {
      var name :| name in left;
      left := left - {name};
      if name !in base {
        routing := routing + [name];
        continue;
      }
      if !candidates[name] {
        routing := routing + [name];
        continue;
      }
      var changed := CandidateChanged(current, name, base[name]);
      if changed {
        routing := routing + [name];
      }
    }
  }

  /** With a complete status, or none, or no HEAD, the routing holds every path where base and checkout differ,
      and besides those only paths that neither has. */
  lemma RoutingExact(base: Tree, head: Option<Tree>, current: Tree, status: Option<set<Path>>,
                     candidates: Candidates, p: Path)
    requires Covering(base, head, current, status, candidates)
    requires head.Some? && status.Some? ==> StatusComplete(head.value, current, status.value)
    requires head.None? ==> forall q | q in base :: q in candidates && candidates[q]
    ensures Differs(base, current, p) ==> Routed(base, current, candidates, p)
    ensures Routed(base, current, candidates, p) ==> Differs(base, current, p) || (p !in base && p !in current)
  {
    var headEntries := if head.Some? then head.value else map[];
    assert p in Difference(base, headEntries) <==> Differs(base, headEntries, p);
  }

  // ---------- policies ----------

  const SOURCE_IGNORE := ".sourceignore"

  predicate IsPolicyFile(p: Path) {
    p == SOURCE_IGNORE || (|p| > |SOURCE_IGNORE| && p[|p| - |SOURCE_IGNORE| - 1..] == "/" + SOURCE_IGNORE)
  }

  /** The last name of the path is that of a policy file. */
  lemma PolicyFileIff(p: Path)
    ensures IsPolicyFile(p) <==> exists dir :: p == dir + ".sourceignore" && (dir == "" || dir[|dir| - 1] == '/')
  {
    var n := |SOURCE_IGNORE|;
    if IsPolicyFile(p) {
      var dir := p[..|p| - n];
      assert p == dir + p[|p| - n..];
      if p != SOURCE_IGNORE {
        assert p[|p| - n - 1..] == [p[|p| - n - 1]] + p[|p| - n..];
        assert p[|p| - n - 1] == '/' && p[|p| - n..] == SOURCE_IGNORE;
      }
      assert p == dir + ".sourceignore" && (dir == "" || dir[|dir| - 1] == '/');
    }
    if dir :| p == dir + ".sourceignore" && (dir == "" || dir[|dir| - 1] == '/') {
      if dir == "" {
        assert p == SOURCE_IGNORE;
      } else {
        assert p[|p| - n - 1..] == "/" + SOURCE_IGNORE;
      }
    }
  }

  ghost function PolicyFiles(t: Tree): Tree {
    map p | p in t && IsPolicyFile(p) :: t[p]
  }

  /** What a tree's policy files leave in it. */
  type Policy = (Tree, Path) -> bool

  ghost function Filtered(policy: Policy, t: Tree): Tree {
    map p | p in t && policy(PolicyFiles(t), p) :: t[p]
  }

  method Select(members: set<Path>, rules: Tree, policy: Policy) returns (kept: set<Path>)
    ensures kept == set p | p in members && policy(rules, p)
  {
    kept := set p | p in members && policy(rules, p);
  }

  /** The changed paths, once both trees are seen through their own policies. */
  method FilterChanges(base: Tree, current: Tree, routing: seq<Path>, policy: Policy,
                       beforeRules: Tree, afterRules: Tree)
    returns (selected: seq<Path>)
    requires beforeRules == PolicyFiles(base) && afterRules == PolicyFiles(current)
    requires forall p | p in routing :: Differs(base, current, p) || (p !in base && p !in current)
    requires forall p | Differs(base, current, p) :: p in routing
    ensures Ascending(selected)
    ensures forall p :: p in selected <==> Differs(Filtered(policy, base), Filtered(policy, current), p)
  {
    hide *;
    var before, after, membership := Memberships(base, current, routing, policy, beforeRules, afterRules);
    var listed := Picked(routing, before, after);
    var flipped := Listing(set p | p in membership && ((p in before) != (p in after)));
    var all := listed + flipped;
    selected := Compact(Sort(all, LexLe));
    forall p ensures p in selected <==> Differs(Filtered(policy, base), Filtered(policy, current), p) {
      InCompacted(all, p);
      SelectedExactly(base, current, routing, policy, p);
    }
    CompactedAscends(all);
  }

  ghost predicate Wide(routing: seq<Path>) {
    exists k :: 0 <= k < |routing| && IsPolicyFile(routing[k])
  }

  /** A path is looked at in one tree when the routing names it, or when a policy file is routed and both have it. */
  ghost predicate Member(t: Tree, other: Tree, routing: seq<Path>, policy: Policy, p: Path) {
    p in t && (p in routing || (Wide(routing) && p in other)) && policy(PolicyFiles(t), p)
  }

  method Memberships(base: Tree, current: Tree, routing: seq<Path>, policy: Policy, beforeRules: Tree, afterRules: Tree)
    returns (before: set<Path>, after: set<Path>, membership: set<Path>)
    requires beforeRules == PolicyFiles(base) && afterRules == PolicyFiles(current)
    ensures forall p :: p in before <==> Member(base, current, routing, policy, p)
    ensures forall p :: p in after <==> Member(current, base, routing, policy, p)
    ensures forall p :: p in membership <==> Wide(routing) && p in base && p in current
  {
    hide PolicyFiles, IsPolicyFile;
    before := set p | p in routing && p in base;
    after := set p | p in routing && p in current;
    membership := {};
    if exists k :: 0 <= k < |routing| && IsPolicyFile(routing[k]) {
      membership := set p | p in current && p in base;
      before, after := before + membership, after + membership;
    }
    before := Select(before, beforeRules, policy);
    after := Select(after, afterRules, policy);
  }

  method Picked(routing: seq<Path>, before: set<Path>, after: set<Path>) returns (picked: seq<Path>)
    ensures forall p :: p in picked <==> p in routing && (p in before || p in after)
  {
    picked := [];
    for k := 0 to |routing|
      invariant forall p :: p in picked <==> p in routing[..k] && (p in before || p in after)
    {
      assert routing[..k + 1] == routing[..k] + [routing[k]];
      if routing[k] in before || routing[k] in after {
        picked := picked + [routing[k]];
      }
    }
    assert routing[..|routing|] == routing;
  }

  method Listing(s: set<Path>) returns (list: seq<Path>)
    ensures forall p :: p in list <==> p in s
  {
    list := [];
    var left := s;
    while left != {}
      invariant left <= s
      invariant forall p :: p in list <==> p in s && p !in left
      decreases |left|
    {
      var p :| p in left;
      list, left := list + [p], left - {p};
    }
  }

  /** Only a changed policy file can make two trees treat a path they share differently. */
  lemma SelectedExactly(base: Tree, current: Tree, routing: seq<Path>, policy: Policy, p: Path)
    requires forall q | q in routing :: Differs(base, current, q) || (q !in base && q !in current)
    requires forall q | Differs(base, current, q) :: q in routing
    ensures var before, after := Member(base, current, routing, policy, p), Member(current, base, routing, policy, p);
            Differs(Filtered(policy, base), Filtered(policy, current), p) <==>
            (p in routing && (before || after)) || (Wide(routing) && p in base && p in current && before != after)
  {
    if !Wide(routing) {
      forall q ensures Get(PolicyFiles(base), q) == Get(PolicyFiles(current), q) {
        if IsPolicyFile(q) && Differs(base, current, q) {
          assert q in routing;
        }
      }
      SamePolicyFiles(PolicyFiles(base), PolicyFiles(current));
    }
  }

  lemma SamePolicyFiles(a: Tree, b: Tree)
    requires forall q :: Get(a, q) == Get(b, q)
    ensures a == b
  {
    forall q ensures q in a <==> q in b {
      assert Get(a, q) == Get(b, q);
    }
    forall q | q in a ensures a[q] == b[q] {
      assert Get(a, q) == Get(b, q);
    }
  }

  /** The lazy selection is the full comparison of the two filtered trees. */
  method SelectChanges(base: Tree, head: Option<Tree>, current: Tree, status: Option<set<Path>>, policy: Policy,
                       beforeRules: Tree, afterRules: Tree)
    returns (selected: seq<Path>)
    requires beforeRules == PolicyFiles(base) && afterRules == PolicyFiles(current)
    requires head.Some? && status.Some? ==> StatusComplete(head.value, current, status.value)
    ensures Ascending(selected)
    ensures forall p :: p in selected <==> Differs(Filtered(policy, base), Filtered(policy, current), p)
  {
    var candidates := FindCandidates(base, head, current, status);
    var routing := CompareCandidates(base, current, candidates);
    forall p
      ensures p in routing ==> Differs(base, current, p) || (p !in base && p !in current)
      ensures Differs(base, current, p) ==> p in routing
    {
      RoutingExact(base, head, current, status, candidates, p);
    }
    selected := FilterChanges(base, current, routing, policy, beforeRules, afterRules);
  }
}
