/** The files that differ between two trees, each seen under its own ignore policy (pkg/change/detect.go,
    268-373 and 527-555; pkg/change/with_readers.go, 538-579). */
module TreeChanges {
  import opened Graph
  import opened Ordering
  import opened Text

  type Path = string

  type Content = seq<int>

  type Tree = map<Path, Content>

  /** One admitted input: its files, what its policy keeps, and where the other input lies inside it, if it does. */
  datatype Input = Input(files: Tree, keeps: Path -> bool, opposite: Path)

  predicate Under(dir: Path, p: Path) {
    p == dir || HasPrefix(p, dir + "/")
  }

  lemma UnderIff(dir: seq<string>, p: seq<string>)
    requires dir != [] && p != [] && SlashFree(dir) && SlashFree(p)
    ensures Under(Join(dir, "/"), Join(p, "/")) <==> dir <= p
  {
    BelowIff(dir, p);
  }

  /** What counts of an input. */
  ghost function View(input: Input): Tree {
    map p | p in input.files && input.keeps(p) && !Under(input.opposite, p) :: input.files[p]
  }

  ghost predicate Differs(a: Tree, b: Tree, p: Path) {
    if p in a then p !in b || a[p] != b[p] else p in b
  }

  type Fingerprint = Content -> string

  ghost predicate Injective(f: Fingerprint) {
    forall x, y | f(x) == f(y) :: x == y
  }

  type Digests = map<Path, string>

  /** Digests prepared with a tree: one for each file its policy keeps. */
  ghost predicate DigestsOf(input: Input, f: Fingerprint, digests: Digests) {
    digests == map p | p in input.files && input.keeps(p) :: f(input.files[p])
  }

  /** The names scanned, with their sizes; without reading sizes when there are digests. */
  method ScanTree(input: Input, digests: Option<Digests>, ghost f: Fingerprint) returns (sizes: map<Path, nat>)
    requires digests.Some? ==> DigestsOf(input, f, digests.value)
    ensures sizes.Keys == View(input).Keys
    ensures forall p | p in sizes :: sizes[p] == if digests.Some? then 0 else |input.files[p]|
  {
    sizes := map[];
    if digests.Some? {
      var left := digests.value.Keys;
      while left != {}
        invariant left <= digests.value.Keys
        invariant forall p :: p in sizes <==> p in digests.value && p !in left && !Under(input.opposite, p)
        invariant forall p | p in sizes :: sizes[p] == 0
        decreases |left|
      {
        var name :| name in left;
        left := left - {name};
        if !Under(input.opposite, name) {
          sizes := sizes[name := 0];
        }
      }
      return;
    }
    var left := input.files.Keys;
    while left != {}
      invariant left <= input.files.Keys
      invariant forall p :: p in sizes <==> p in input.files && p !in left && !Under(input.opposite, p)
      invariant forall p | p in sizes :: sizes[p] == |input.files[p]|
      decreases |left|
    {
      var name :| name in left;
      left := left - {name};
      if !Under(input.opposite, name) {
        sizes := sizes[name := |input.files[name]|];
      }
    }
    sizes := map p | p in sizes && input.keeps(p) :: sizes[p];
  }

  datatype Comparison = Comparison(paths: set<Path>, jobs: seq<Path>, oneSided: seq<Path>)

  /** What names, sizes and digests settle, and what is left to read. */
  ghost predicate Compared(before: map<Path, nat>, after: map<Path, nat>, digests: Option<(Digests, Digests)>, r: Comparison) {
    && (forall p :: p in r.paths <==>
          || (p in before && p !in after) || (p in after && p !in before)
          || (p in before && p in after && (before[p] != after[p] || DigestsDiffer(digests, p))))
    && (forall p :: p in r.jobs <==> digests.None? && p in before && p in after && before[p] == after[p])
    && Distinct(r.jobs)
    && (forall p :: p in r.oneSided <==> (p in before) != (p in after))
  }

  predicate DigestsDiffer(digests: Option<(Digests, Digests)>, p: Path) {
    digests.Some? && Digest(digests.value.0, p) != Digest(digests.value.1, p)
  }

  function Digest(d: Digests, p: Path): string {
    if p in d then d[p] else ""
  }

  method CompareScannedFiles(before: map<Path, nat>, after: map<Path, nat>, digests: Option<(Digests, Digests)>)
    returns (r: Comparison)
    ensures Compared(before, after, digests, r)
  {
    var paths: set<Path> := {};
    var jobs: seq<Path> := [];
    var oneSided: seq<Path> := [];
    var left := after.Keys;
    while left != {}
      invariant left <= after.Keys
      invariant forall p :: p in paths <==> (p in after && p !in left && (p !in before || before[p] != after[p] || DigestsDiffer(digests, p)))
      invariant forall p :: p in jobs <==> p in after && p !in left && digests.None? && p in before && before[p] == after[p]
      invariant forall p :: p in oneSided <==> p in after && p !in left && p !in before
      invariant Distinct(jobs)
      decreases |left|
    {
      var name :| name in left;
      left := left - {name};
      if name !in before || before[name] != after[name] || DigestsDiffer(digests, name) {
        paths := paths + {name};
        if name !in before {
          oneSided := oneSided + [name];
        }
        continue;
      }
      if digests.None? {
        jobs := jobs + [name];
      }
    }
    left := before.Keys;
    ghost var changed, gained := paths, oneSided;
    while left != {}
      invariant left <= before.Keys
      invariant forall p :: p in paths <==> p in changed || (p in before && p !in left && p !in after)
      invariant forall p :: p in oneSided <==> p in gained || (p in before && p !in left && p !in after)
      decreases |left|
    {
      var name :| name in left;
      left := left - {name};
      if name !in after {
        paths, oneSided := paths + {name}, oneSided + [name];
      }
    }
    r := Comparison(paths, jobs, oneSided);
  }

  // ---------- reading the rest, by workers ----------

  const HASH_WORKERS: nat := 8

  /** Worker w has done its jobs below next[w], each once; nobody else's are its own. */
  ghost predicate Striding(n: nat, workers: nat, next: seq<nat>, touched: seq<nat>) {
    && workers == (if n < HASH_WORKERS then n else HASH_WORKERS) && |next| == workers && |touched| == n
    && (forall w | 0 <= w < workers :: next[w] % HASH_WORKERS == w)
    && forall i | 0 <= i < n :: touched[i] == (if i < next[Own(n, i)] then 1 else 0)
  }

  function Own(n: nat, i: nat): (w: nat)
    requires i < n
    ensures w < n && w < HASH_WORKERS
  {
    i % HASH_WORKERS
  }

  lemma StrideOn(n: nat, workers: nat, next: seq<nat>, touched: seq<nat>, w: nat)
    requires Striding(n, workers, next, touched) && w < workers && next[w] < n
    ensures touched[next[w]] == 0 && Own(n, next[w]) == w
    ensures Striding(n, workers, next[w := next[w] + HASH_WORKERS], touched[next[w] := 1])
  {
    var more := next[w := next[w] + HASH_WORKERS];
    forall i | 0 <= i < n
      ensures touched[next[w] := 1][i] == (if i < more[Own(n, i)] then 1 else 0)
    {
      if Own(n, i) == w && i >= next[w] && i != next[w] {
        SameStride(next[w], i);
      }
    }
  }

  /** Of two numbers with one remainder the larger is a whole stride beyond. */
  lemma SameStride(a: nat, b: nat)
    requires a < b && a % HASH_WORKERS == b % HASH_WORKERS
    ensures a + HASH_WORKERS <= b
  {
  }

  /** In whatever order the workers take turns, each job is done once, by the worker it belongs to. */
  method HashJobs(before: Input, after: Input, jobs: seq<Path>, f: Fingerprint) returns (changed: seq<bool>, ghost touched: seq<nat>)
    requires forall i | 0 <= i < |jobs| :: jobs[i] in before.files && jobs[i] in after.files
    ensures |changed| == |jobs| == |touched| && forall i | 0 <= i < |jobs| :: touched[i] == 1
    ensures forall i | 0 <= i < |jobs| :: changed[i] == Changed(before, after, jobs[i], f)
  {
    hide Striding, Remaining, Own, Changed;
    var n := |jobs|;
    var workers := if n < HASH_WORKERS then n else HASH_WORKERS;
    var slots := new bool[n](_ => false);
    var next: seq<nat> := seq(workers, w => w);
    touched := seq(n, _ => 0);
    var running: set<nat> := Workers(workers);
    StrideStart(n, workers);
    while running != {}
      invariant Striding(n, workers, next, touched)
      invariant |next| == workers && |touched| == n
      invariant forall w | w in running :: w < workers
      invariant forall w | 0 <= w < workers && w !in running :: next[w] >= n
      invariant forall i | 0 <= i < n && touched[i] == 1 :: slots[i] == Changed(before, after, jobs[i], f)
      decreases Remaining(next, n), |running|
    {
      var w :| w in running;
      if next[w] >= n {
        running := running - {w};
        continue;
      }
      StrideOn(n, workers, next, touched, w);
      FewerRemain(next, n, w);
      var i := next[w];
      slots[i] := Changed(before, after, jobs[i], f);
      touched := touched[i := 1];
      next := next[w := next[w] + HASH_WORKERS];
    }
    changed := slots[..];
    StrideEnd(n, workers, next, touched);
  }

  method Workers(n: nat) returns (all: set<nat>)
    ensures forall x: nat :: x in all <==> x < n
  {
    all := {};
    for w := 0 to n
      invariant forall x: nat :: x in all <==> x < w
    {
      all := all + {w};
    }
  }

  predicate Changed(before: Input, after: Input, p: Path, f: Fingerprint)
    requires p in before.files && p in after.files
  {
    f(after.files[p]) != f(before.files[p])
  }

  lemma StrideStart(n: nat, workers: nat)
    requires workers == if n < HASH_WORKERS then n else HASH_WORKERS
    ensures Striding(n, workers, seq(workers, w => w), seq(n, _ => 0))
  {
  }

  lemma StrideEnd(n: nat, workers: nat, next: seq<nat>, touched: seq<nat>)
    requires Striding(n, workers, next, touched) && forall w | 0 <= w < workers :: next[w] >= n
    ensures forall i | 0 <= i < n :: touched[i] == 1
  {
    forall i | 0 <= i < n ensures touched[i] == 1 {
      assert next[Own(n, i)] >= n;
    }
  }

  /** How far the workers still have to go. */
  ghost function Remaining(next: seq<nat>, n: nat): nat {
    if next == [] then 0
    else Remaining(next[..|next| - 1], n) + (if next[|next| - 1] < n then n - next[|next| - 1] else 0)
  }

  lemma {:induction false} FewerRemain(next: seq<nat>, n: nat, w: nat)
    requires w < |next| && next[w] < n
    ensures Remaining(next[w := next[w] + HASH_WORKERS], n) < Remaining(next, n)
  {
    var last := |next| - 1;
    var more := next[w := next[w] + HASH_WORKERS];
    if w == last {
      assert more[..last] == next[..last];
    } else {
      FewerRemain(next[..last], n, w);
      assert more[..last] == next[..last][w := next[w] + HASH_WORKERS];
    }
  }

  // ---------- the whole comparison ----------

  /** With digests on both sides or without, the changed paths are exactly those whose presence or content
      differs between the two views. */
  method Detect(before: Input, after: Input, digests: Option<(Digests, Digests)>, f: Fingerprint)
    returns (paths: set<Path>, oneSided: seq<Path>)
    requires Injective(f)
    requires digests.Some? ==> DigestsOf(before, f, digests.value.0) && DigestsOf(after, f, digests.value.1)
    ensures forall p :: p in paths <==> Differs(View(before), View(after), p)
    ensures SortedBy(oneSided, LexLe)
    ensures forall p :: p in oneSided <==> (p in View(before)) != (p in View(after))
  {
    var bef := ScanTree(before, if digests.Some? then Some(digests.value.0) else None, f);
    var aft := ScanTree(after, if digests.Some? then Some(digests.value.1) else None, f);
    var comparison := CompareScannedFiles(bef, aft, digests);
    var jobs := comparison.jobs;
    forall i | 0 <= i < |jobs| ensures jobs[i] in before.files && jobs[i] in after.files {
      assert jobs[i] in jobs;
      assert jobs[i] in bef.Keys && jobs[i] in aft.Keys;
    }
    var changed, touched := HashJobs(before, after, jobs, f);
    paths := Marked(comparison.paths, jobs, changed);
    oneSided := Sort(comparison.oneSided, LexLe);
    LexIsTotalOrder();
    SortSpec(comparison.oneSided, LexLe);
    forall p ensures p in paths <==> Differs(View(before), View(after), p) {
      DetectedExactly(before, after, digests, f, bef, aft, comparison, changed, p);
    }
    forall p ensures p in oneSided <==> (p in View(before)) != (p in View(after)) {
      InSorted(comparison.oneSided, p);
    }
  }

  method Marked(paths: set<Path>, jobs: seq<Path>, changed: seq<bool>) returns (all: set<Path>)
    requires |jobs| == |changed|
    ensures forall p :: p in all <==> p in paths || exists i :: 0 <= i < |jobs| && jobs[i] == p && changed[i]
  {
    all := paths;
    for k := 0 to |jobs|
      invariant forall p :: p in all <==> p in paths || exists i :: 0 <= i < k && jobs[i] == p && changed[i]
    {
      if changed[k] {
        all := all + {jobs[k]};
      }
    }
  }

  lemma DetectedExactly(before: Input, after: Input, digests: Option<(Digests, Digests)>, f: Fingerprint,
                        bef: map<Path, nat>, aft: map<Path, nat>, comparison: Comparison, changed: seq<bool>, p: Path)
    requires Injective(f)
    requires digests.Some? ==> DigestsOf(before, f, digests.value.0) && DigestsOf(after, f, digests.value.1)
    requires bef.Keys == View(before).Keys && aft.Keys == View(after).Keys
    requires forall q | q in bef :: bef[q] == if digests.Some? then 0 else |before.files[q]|
    requires forall q | q in aft :: aft[q] == if digests.Some? then 0 else |after.files[q]|
    requires Compared(bef, aft, digests, comparison) && |changed| == |comparison.jobs|
    requires forall i | 0 <= i < |changed| ::
               && comparison.jobs[i] in before.files && comparison.jobs[i] in after.files
               && changed[i] == Changed(before, after, comparison.jobs[i], f)
    ensures Differs(View(before), View(after), p) <==>
            p in comparison.paths || exists i :: 0 <= i < |comparison.jobs| && comparison.jobs[i] == p && changed[i]
  {
    assert p in bef <==> p in bef.Keys;
    assert p in aft <==> p in aft.Keys;
    if p in bef && p in aft {
      assert f(before.files[p]) == f(after.files[p]) <==> before.files[p] == after.files[p];
      if digests.None? && bef[p] == aft[p] {
        assert p in comparison.jobs;
        var i :| 0 <= i < |comparison.jobs| && comparison.jobs[i] == p;
        if before.files[p] != after.files[p] {
          assert changed[i];
        }
      }
    }
  }
}
