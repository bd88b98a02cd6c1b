/** Control files and what they refer to (pkg/kustomize/preflight.go, 67-71 and 230-321), and how far a
    walk over them has come, whether or not they contain each other. */
module ControlFiles {
  import opened RemoteWaves

  /** A control file, by its canonical location. */
  type Location = string

  /** What a control file refers to: another one, a remote file, or a directory of a remote base. */
  datatype Reference =
    | Local(child: Location)
    | RemoteFile(input: RemoteInput)
    | RemoteBase(input: RemoteInput, child: Location)

  type Controls = map<Location, seq<Reference>>

  // ---------- what can be reached ----------

  ghost predicate RefersTo(g: Controls, key: Location, child: Location) {
    key in g && child in g && exists i :: 0 <= i < |g[key]| && !g[key][i].RemoteFile? && g[key][i].child == child
  }

  ghost predicate Way(g: Controls, way: seq<Location>) {
    && way != [] && way[0] in g
    && forall k | 0 < k < |way| :: RefersTo(g, way[k - 1], way[k])
  }

  /** Some way of references leads from `key` to `to`. */
  ghost predicate LeadsTo(g: Controls, key: Location, to: Location) {
    exists way :: Way(g, way) && way[0] == key && way[|way| - 1] == to
  }

  ghost predicate Names(g: Controls, key: Location, input: RemoteInput) {
    key in g && exists i :: 0 <= i < |g[key]| && !g[key][i].Local? && g[key][i].input == input
  }

  /** A control file reached from `key` names this remote. */
  ghost predicate Meets(g: Controls, key: Location, input: RemoteInput) {
    exists file :: LeadsTo(g, key, file) && Names(g, file, input)
  }

  lemma ReachesItself(g: Controls, key: Location)
    requires key in g
    ensures LeadsTo(g, key, key)
  {
    assert Way(g, [key]);
  }

  lemma ReachedThrough(g: Controls, key: Location, child: Location, to: Location)
    requires RefersTo(g, key, child) && LeadsTo(g, child, to)
    ensures LeadsTo(g, key, to)
  {
    var way :| Way(g, way) && way[0] == child && way[|way| - 1] == to;
    var longer := [key] + way;
    forall k | 0 < k < |longer| ensures RefersTo(g, longer[k - 1], longer[k]) {
      if k > 1 { assert longer[k] == way[k - 1] && longer[k - 1] == way[k - 2]; }
    }
    assert Way(g, longer) && longer[0] == key && longer[|longer| - 1] == to;
  }

  // ---------- what a remote is reached through ----------

  /** A reference, by its control file and its place there. */
  type Hop = (Location, nat)

  predicate IsHop(g: Controls, hop: Hop) {
    hop.0 in g && hop.1 < |g[hop.0]|
  }

  function At(g: Controls, hop: Hop): Reference
    requires IsHop(g, hop)
  {
    g[hop.0][hop.1]
  }

  predicate Leads(g: Controls, a: Hop, b: Hop) {
    IsHop(g, a) && IsHop(g, b) && !At(g, a).RemoteFile? && At(g, a).child == b.0
  }

  /** References, each in the file the one before it leads to. */
  ghost predicate Along(g: Controls, hops: seq<Hop>) {
    && hops != [] && (forall k | 0 <= k < |hops| :: IsHop(g, hops[k]))
    && forall k | 0 < k < |hops| :: Leads(g, hops[k - 1], hops[k])
  }

  /** Some references lead from `key` to one that names the input. */
  ghost predicate ComesTo(g: Controls, key: Location, input: RemoteInput, hops: seq<Hop>) {
    Along(g, hops) && hops[0].0 == key && var last := At(g, hops[|hops| - 1]); !last.Local? && last.input == input
  }

  ghost predicate Met(g: Controls, key: Location, input: RemoteInput) {
    exists hops :: ComesTo(g, key, input, hops)
  }

  /** On some way from `key` to the input the parent is a remote base passed before. */
  ghost predicate Through(g: Controls, key: Location, input: RemoteInput, parent: RemoteInput) {
    exists hops, k :: ComesTo(g, key, input, hops) && PassesBase(g, hops, k, parent)
  }

  ghost predicate PassesBase(g: Controls, hops: seq<Hop>, k: int, parent: RemoteInput)
    requires Along(g, hops)
  {
    0 <= k < |hops| - 1 && At(g, hops[k]).RemoteBase? && At(g, hops[k]).input == parent
  }

  /** One more reference in front. */
  lemma InFront(g: Controls, hop: Hop, input: RemoteInput, hops: seq<Hop>)
    requires IsHop(g, hop) && !At(g, hop).RemoteFile? && ComesTo(g, At(g, hop).child, input, hops)
    ensures ComesTo(g, hop.0, input, [hop] + hops)
    ensures forall k, parent | PassesBase(g, hops, k, parent) :: PassesBase(g, [hop] + hops, k + 1, parent)
    ensures forall parent | At(g, hop).RemoteBase? && At(g, hop).input == parent :: PassesBase(g, [hop] + hops, 0, parent)
  {
    var longer := [hop] + hops;
    forall k | 0 < k < |longer| ensures Leads(g, longer[k - 1], longer[k]) {
      if k > 1 { assert longer[k] == hops[k - 1] && longer[k - 1] == hops[k - 2]; }
    }
  }

  /** The first reference taken away. */
  lemma Behind(g: Controls, key: Location, input: RemoteInput, hops: seq<Hop>)
    requires ComesTo(g, key, input, hops) && |hops| > 1
    ensures !At(g, hops[0]).RemoteFile? && ComesTo(g, At(g, hops[0]).child, input, hops[1..])
    ensures forall k, parent | PassesBase(g, hops, k, parent) && k > 0 :: PassesBase(g, hops[1..], k - 1, parent)
  {
    var rest := hops[1..];
    assert forall k | 0 <= k < |rest| :: rest[k] == hops[k + 1];
    assert Leads(g, hops[0], hops[1]);
    forall k | 0 < k < |rest| ensures Leads(g, rest[k - 1], rest[k]) {
      var next := k + 1;
      assert Leads(g, hops[next - 1], hops[next]);
    }
  }

  lemma MetFirst(g: Controls, key: Location, i: nat, input: RemoteInput)
    requires IsHop(g, (key, i)) && !g[key][i].Local? && g[key][i].input == input
    ensures Met(g, key, input)
  {
    assert ComesTo(g, key, input, [(key, i)]);
  }

  lemma MetBelow(g: Controls, key: Location, i: nat, input: RemoteInput)
    requires IsHop(g, (key, i)) && !g[key][i].RemoteFile? && Met(g, g[key][i].child, input)
    ensures Met(g, key, input)
    ensures g[key][i].RemoteBase? ==> Through(g, key, input, g[key][i].input)
  {
    var hops :| ComesTo(g, g[key][i].child, input, hops);
    InFront(g, (key, i), input, hops);
    assert g[key][i].RemoteBase? ==> PassesBase(g, [(key, i)] + hops, 0, g[key][i].input);
  }

  lemma ThroughBelow(g: Controls, key: Location, i: nat, input: RemoteInput, parent: RemoteInput)
    requires IsHop(g, (key, i)) && !g[key][i].RemoteFile? && Through(g, g[key][i].child, input, parent)
    ensures Through(g, key, input, parent)
  {
    var hops, k :| ComesTo(g, g[key][i].child, input, hops) && PassesBase(g, hops, k, parent);
    InFront(g, (key, i), input, hops);
    assert PassesBase(g, [(key, i)] + hops, k + 1, parent);
  }

  /** The first reference of a way: it names the input, or what is below it is met. */
  lemma MetSplit(g: Controls, key: Location, input: RemoteInput) returns (i: nat)
    requires Met(g, key, input)
    ensures IsHop(g, (key, i))
    ensures (!g[key][i].Local? && g[key][i].input == input) || (!g[key][i].RemoteFile? && Met(g, g[key][i].child, input))
  {
    var hops: seq<Hop> :| ComesTo(g, key, input, hops);
    i := hops[0].1;
    assert hops[0] == (key, i) && IsHop(g, hops[0]);
    if |hops| > 1 { Behind(g, key, input, hops); }
  }

  lemma ThroughSplit(g: Controls, key: Location, input: RemoteInput, parent: RemoteInput) returns (i: nat)
    requires Through(g, key, input, parent)
    ensures IsHop(g, (key, i)) && !g[key][i].RemoteFile?
    ensures || (g[key][i].RemoteBase? && g[key][i].input == parent && Met(g, g[key][i].child, input))
            || Through(g, g[key][i].child, input, parent)
  {
    var hops: seq<Hop>, k :| ComesTo(g, key, input, hops) && PassesBase(g, hops, k, parent);
    i := hops[0].1;
    assert hops[0] == (key, i) && IsHop(g, hops[0]);
    Behind(g, key, input, hops);
    if k > 0 { assert PassesBase(g, hops[1..], k - 1, parent); }
  }

  // ---------- how far a walk has come ----------

  /** What this reference leads to has been seen. */
  predicate Seen(g: Controls, files: set<Location>, inputs: set<RemoteInput>, r: Reference) {
    && (!r.Local? ==> r.input in inputs)
    && (!r.RemoteFile? && r.child in g ==> r.child in files)
  }

  /** The first `n` references of a control file have been seen. */
  ghost predicate SeenUpTo(g: Controls, files: set<Location>, inputs: set<RemoteInput>, key: Location, n: nat) {
    key in g && n <= |g[key]| && forall i | 0 <= i < n :: Seen(g, files, inputs, g[key][i])
  }

  /** All references of every file come to have been seen, but for those still `open`. */
  ghost predicate Explored(g: Controls, files: set<Location>, inputs: set<RemoteInput>, open: seq<Location>) {
    forall k | k in files && k !in open :: k in g && SeenUpTo(g, files, inputs, k, |g[k]|)
  }

  /** Nothing is forgotten, and only what `key` leads to is added. */
  ghost predicate Grown(g: Controls, key: Location, files: set<Location>, inputs: set<RemoteInput>,
                        after: set<Location>, more: set<RemoteInput>) {
    && files <= after && inputs <= more
    && (forall k | k in after && k !in files :: LeadsTo(g, key, k))
    && (forall i | i in more && i !in inputs :: Meets(g, key, i))
  }

  lemma GrownOn(g: Controls, key: Location, f0: set<Location>, i0: set<RemoteInput>, f1: set<Location>,
                i1: set<RemoteInput>, f2: set<Location>, i2: set<RemoteInput>)
    requires Grown(g, key, f0, i0, f1, i1) && Grown(g, key, f1, i1, f2, i2)
    ensures Grown(g, key, f0, i0, f2, i2)
  {
    hide LeadsTo, Meets;
  }

  lemma GrownThrough(g: Controls, key: Location, i: nat, f0: set<Location>, i0: set<RemoteInput>,
                     f1: set<Location>, i1: set<RemoteInput>)
    requires key in g && i < |g[key]| && !g[key][i].RemoteFile?
    requires Grown(g, g[key][i].child, f0, i0, f1, i1)
    ensures Grown(g, key, f0, i0, f1, i1)
  {
    var child := g[key][i].child;
    forall k | LeadsTo(g, child, k) ensures LeadsTo(g, key, k) {
      StartsInside(g, child, k);
      assert RefersTo(g, key, child);
      ReachedThrough(g, key, child, k);
    }
    hide LeadsTo, Names;
  }

  lemma StartsInside(g: Controls, key: Location, to: Location)
    requires LeadsTo(g, key, to)
    ensures key in g
  {
  }

  lemma NamedHere(g: Controls, key: Location, i: nat)
    requires key in g && i < |g[key]| && !g[key][i].Local?
    ensures Meets(g, key, g[key][i].input)
  {
    ReachesItself(g, key);
    assert Names(g, key, g[key][i].input);
  }

  lemma MeetsThrough(g: Controls, key: Location, i: nat, input: RemoteInput)
    requires key in g && i < |g[key]| && !g[key][i].RemoteFile? && Meets(g, g[key][i].child, input)
    ensures Meets(g, key, input)
  {
    hide Names;
    var child := g[key][i].child;
    var file :| LeadsTo(g, child, file) && Names(g, file, input);
    StartsInside(g, child, file);
    assert RefersTo(g, key, child);
    ReachedThrough(g, key, child, file);
  }

  lemma SeenKept(g: Controls, files: set<Location>, inputs: set<RemoteInput>, after: set<Location>,
                 more: set<RemoteInput>, key: Location, n: nat)
    requires SeenUpTo(g, files, inputs, key, n) && files <= after && inputs <= more
    ensures SeenUpTo(g, after, more, key, n)
  {
  }

  lemma ExploredInputs(g: Controls, files: set<Location>, inputs: set<RemoteInput>, more: set<RemoteInput>,
                       open: seq<Location>)
    requires Explored(g, files, inputs, open) && inputs <= more
    ensures Explored(g, files, more, open)
  {
    hide SeenUpTo;
    forall k | k in files && k !in open ensures k in g && SeenUpTo(g, files, more, k, |g[k]|) {
      SeenKept(g, files, inputs, files, more, k, |g[k]|);
    }
  }

  /** A file come to for the first time is open. */
  lemma ExploredOpened(g: Controls, files: set<Location>, inputs: set<RemoteInput>, open: seq<Location>, key: Location)
    requires Explored(g, files, inputs, open)
    ensures Explored(g, files + {key}, inputs, [key] + open)
  {
    hide SeenUpTo;
    forall k | k in files + {key} && k !in [key] + open ensures k in g && SeenUpTo(g, files + {key}, inputs, k, |g[k]|) {
      assert k !in open && k != key;
      SeenKept(g, files, inputs, files + {key}, inputs, k, |g[k]|);
    }
  }

  /** Once all its references have been seen it is closed. */
  lemma ExploredClosed(g: Controls, files: set<Location>, inputs: set<RemoteInput>, open: seq<Location>, key: Location)
    requires Explored(g, files, inputs, [key] + open) && key in g && SeenUpTo(g, files, inputs, key, |g[key]|)
    ensures Explored(g, files, inputs, open)
  {
    hide SeenUpTo;
    forall k | k in files && k !in open && k != key ensures k !in [key] + open {}
  }

  // ---------- a walk that has come to its end ----------

  lemma {:induction false} WayExplored(g: Controls, files: set<Location>, inputs: set<RemoteInput>, way: seq<Location>)
    requires Explored(g, files, inputs, []) && Way(g, way) && way[0] in files
    ensures way[|way| - 1] in files
    decreases |way|
  {
    if |way| > 1 {
      var last := |way| - 2;
      assert way[..last + 1][|way[..last + 1]| - 1] == way[last];
      WayExplored(g, files, inputs, way[..last + 1]);
      assert RefersTo(g, way[last], way[last + 1]);
      var i :| 0 <= i < |g[way[last]]| && !g[way[last]][i].RemoteFile? && g[way[last]][i].child == way[last + 1];
      assert way[last] !in [];
      assert Seen(g, files, inputs, g[way[last]][i]);
    }
  }

  /** A finished walk from `root` has come to all files and remotes that `root` leads to, and no others. */
  lemma AllExplored(g: Controls, root: Location, files: set<Location>, inputs: set<RemoteInput>)
    requires Explored(g, files, inputs, []) && Grown(g, root, {}, {}, files, inputs)
    requires root in g ==> root in files
    ensures forall k :: k in files <==> LeadsTo(g, root, k)
    ensures forall i :: i in inputs <==> Meets(g, root, i)
  {
    hide Names, LeadsTo, SeenUpTo;
    forall k | LeadsTo(g, root, k) ensures k in files { ReachedExplored(g, files, inputs, root, k); }
    forall i | Meets(g, root, i) ensures i in inputs {
      var file :| LeadsTo(g, root, file) && Names(g, file, i);
      NamedSeen(g, files, inputs, file, i);
    }
  }

  lemma ReachedExplored(g: Controls, files: set<Location>, inputs: set<RemoteInput>, root: Location, k: Location)
    requires Explored(g, files, inputs, []) && (root in g ==> root in files) && LeadsTo(g, root, k)
    ensures k in files
  {
    hide Explored;
    var way :| Way(g, way) && way[0] == root && way[|way| - 1] == k;
    WayExplored(g, files, inputs, way);
  }

  lemma NamedSeen(g: Controls, files: set<Location>, inputs: set<RemoteInput>, file: Location, input: RemoteInput)
    requires Explored(g, files, inputs, []) && file in files && Names(g, file, input)
    ensures input in inputs
  {
    var i :| 0 <= i < |g[file]| && !g[file][i].Local? && g[file][i].input == input;
    assert file !in [];
    assert Seen(g, files, inputs, g[file][i]);
  }
}
