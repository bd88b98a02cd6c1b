/** The objects of a render: the read set it fills and the filesystem it sees
    (pkg/kustomize/readset.go, 45-112, 176-222 and 239-279; pkg/kustomize/treefs.go, 134-248,
    317-330 and 360-370), proved against the step function of `RenderOverlay`. */
module TreeFiles {
  import opened Ordering
  import opened Text
  import opened SourceTree
  import opened RenderOverlay

  datatype FileEntry = FileEntry(path: Path, digest: Digest)
  datatype DirEntry = DirEntry(path: Path, names: set<string>)
  datatype NodeEntry = NodeEntry(path: Path, kind: Kind)

  datatype Snapshot = Snapshot(files: seq<FileEntry>, dirs: seq<DirEntry>, nodes: seq<NodeEntry>)

  /** The snapshot lists the files and listings of the read set, and the nodes that survive. */
  ghost predicate Lists(snap: Snapshot, seen: Reads) {
    && (forall p, h :: FileEntry(p, h) in snap.files <==> p in seen.files && seen.files[p] == h)
    && (forall p, n :: DirEntry(p, n) in snap.dirs <==> p in seen.dirs && seen.dirs[p] == n)
    && (forall p, k :: NodeEntry(p, k) in snap.nodes <==> Kept(seen, p) && seen.nodes[p] == k)
  }

  /** Entries are in the order of their paths as text, and none is repeated. */
  ghost predicate InOrder<E(!new)>(entries: seq<E>, path: E -> Path) {
    && (forall i, j | 0 <= i < j < |entries| :: LexLe(PathText(path(entries[i])), PathText(path(entries[j]))))
    && (forall e | e in entries :: multiset(entries)[e] == 1)
  }

  function PathText(p: Path): string {
    Join(p, "/")
  }

  function InPathOrder<E>(entries: seq<E>, path: E -> Path): seq<E> {
    Sort(entries, (a, b) => LexLe(PathText(path(a)), PathText(path(b))))
  }

  lemma PathOrder<E(!new)>(entries: seq<E>, path: E -> Path)
    requires forall e | e in entries :: multiset(entries)[e] == 1
    ensures InOrder(InPathOrder(entries, path), path)
    ensures forall e :: e in InPathOrder(entries, path) <==> e in entries
  {
    hide LexLe, PathText;
    LexIsTotalOrder();
    var le := (a: E, b: E) => LexLe(PathText(path(a)), PathText(path(b)));
    assert TotalPreorder(le);
    SortSpec(entries, le);
    var sorted := InPathOrder(entries, path);
    assert sorted == Sort(entries, le);
    forall e ensures e in sorted <==> e in entries {
      assert e in multiset(sorted) <==> e in multiset(entries);
    }
  }

  lemma OnceMore<E>(entries: seq<E>, e: E)
    requires e !in entries && forall x | x in entries :: multiset(entries)[x] == 1
    ensures forall x | x in entries + [e] :: multiset(entries + [e])[x] == 1
  {
    assert multiset(entries + [e]) == multiset(entries) + multiset{e};
    assert e !in multiset(entries);
  }

  lemma Survivors(seen: Reads, n: seq<NodeEntry>, sorted: seq<NodeEntry>)
    requires forall p, k :: NodeEntry(p, k) in n <==> Kept(seen, p) && seen.nodes[p] == k
    requires forall e :: e in sorted <==> e in n
    ensures forall e | e in sorted ::
              e.path in seen.nodes && e.kind == seen.nodes[e.path] && e.path !in seen.files && e.path !in seen.dirs
    ensures forall p | p in seen.nodes && p !in seen.files && p !in seen.dirs :: NodeEntry(p, seen.nodes[p]) in sorted
  {
    forall e | e in sorted
      ensures e.path in seen.nodes && e.kind == seen.nodes[e.path] && e.path !in seen.files && e.path !in seen.dirs
    {
      assert e == NodeEntry(e.path, e.kind);
    }
  }

  class ReadSet {
    var files: map<Path, Digest>
    var dirs: map<Path, set<string>>
    var nodes: map<Path, Kind>

    function Seen(): Reads
      reads this
    {
      Reads(files, dirs, nodes)
    }

    constructor ()
      ensures Seen() == NO_READS
    {
      files, dirs, nodes := map[], map[], map[];
    }

    /** A file that was read, or the absence of a digest when reading failed. */
    method RecordFile(p: Path, content: Data, failed: bool)
      modifies this
      ensures Seen() == old(Seen()).(files := old(files)[p := if failed then NoDigest else Sha256(content)])
    {
      var h := NoDigest;
      if !failed {
        h := Sha256(content);
      }
      files := files[p := h];
    }

    method RecordDir(p: Path, names: set<string>)
      modifies this
      ensures Seen() == old(Seen()).(dirs := old(dirs)[p := names])
    {
      dirs := dirs[p := names];
    }

    method RecordNode(p: Path, kind: Kind)
      modifies this
      ensures Seen() == old(Seen()).(nodes := old(nodes)[p := kind])
    {
      nodes := nodes[p := kind];
    }

    /** The persisted form of the read set: each map is listed once, in the order of paths, and a node
        entry is left out where the same path was read or listed. */
    method TakeSnapshot() returns (snap: Snapshot)
      ensures Lists(snap, Seen())
      ensures forall e | e in snap.nodes :: e.path in nodes && e.kind == nodes[e.path] && e.path !in files && e.path !in dirs
      ensures forall p | p in nodes && p !in files && p !in dirs :: NodeEntry(p, nodes[p]) in snap.nodes
      ensures InOrder(snap.files, (e: FileEntry) => e.path)
      ensures InOrder(snap.dirs, (e: DirEntry) => e.path)
      ensures InOrder(snap.nodes, (e: NodeEntry) => e.path)
    {
      var f: seq<FileEntry> := [];
      var left := files.Keys;
      while left != {}
        invariant left <= files.Keys
        invariant forall p, h :: FileEntry(p, h) in f <==> p in files && p !in left && files[p] == h
        invariant forall e | e in f :: multiset(f)[e] == 1
        decreases |left|
      {
        var p :| p in left;
        OnceMore(f, FileEntry(p, files[p]));
        f := f + [FileEntry(p, files[p])];
        left := left - {p};
      }
      var d: seq<DirEntry> := [];
      left := dirs.Keys;
      while left != {}
        invariant left <= dirs.Keys
        invariant forall p, n :: DirEntry(p, n) in d <==> p in dirs && p !in left && dirs[p] == n
        invariant forall e | e in d :: multiset(d)[e] == 1
        decreases |left|
      {
        var p :| p in left;
        OnceMore(d, DirEntry(p, dirs[p]));
        d := d + [DirEntry(p, dirs[p])];
        left := left - {p};
      }
      var n: seq<NodeEntry> := [];
      left := nodes.Keys;
      while left != {}
        invariant left <= nodes.Keys
        invariant forall p, k :: NodeEntry(p, k) in n <==> Kept(Seen(), p) && p !in left && nodes[p] == k
        invariant forall e | e in n :: multiset(n)[e] == 1
        decreases |left|
      {
        var p :| p in left;
        left := left - {p};
        if p in files {
          continue;
        }
        if p in dirs {
          continue;
        }
        OnceMore(n, NodeEntry(p, nodes[p]));
        n := n + [NodeEntry(p, nodes[p])];
      }
      PathOrder(f, (e: FileEntry) => e.path);
      PathOrder(d, (e: DirEntry) => e.path);
      PathOrder(n, (e: NodeEntry) => e.path);
      Survivors(Seen(), n, InPathOrder(n, (e: NodeEntry) => e.path));
      return Snapshot(InPathOrder(f, (e: FileEntry) => e.path), InPathOrder(d, (e: DirEntry) => e.path),
                      InPathOrder(n, (e: NodeEntry) => e.path));
    }
  }

  /** `localsValid`: three loops over the snapshot, the first mismatch ends the check. The tree of an
      immutable source is not looked at. `cancelled` tells whether the context is cancelled when the
      check starts, and when it ends. */
  method LocalsValid(snap: Snapshot, lower: Tree, immutable: bool, cancelled: (bool, bool), ghost seen: Reads)
    returns (valid: bool)
    requires Lists(snap, seen)
    ensures valid <==> !cancelled.0 && !cancelled.1 && (immutable || Valid(seen, lower))
  {
    if cancelled.0 {
      return false;
    }
    if immutable {
      return !cancelled.1;
    }
    for i := 0 to |snap.files|
      invariant forall j | 0 <= j < i :: FileDigest(lower, snap.files[j].path) == snap.files[j].digest
    {
      var f := snap.files[i];
      var failed := f.path !in lower || lower[f.path].Dir?;
      if failed != (f.digest == NoDigest) || (!failed && Sha256(lower[f.path].data) != f.digest) {
        assert FileEntry(f.path, f.digest) in snap.files;
        return false;
      }
    }
    for i := 0 to |snap.dirs|
      invariant forall j | 0 <= j < i ::
          KindOf(lower, snap.dirs[j].path) == Directory && Names(lower, snap.dirs[j].path) == snap.dirs[j].names
    {
      var d := snap.dirs[i];
      if KindOf(lower, d.path) != Directory || Names(lower, d.path) != d.names {
        assert DirEntry(d.path, d.names) in snap.dirs;
        return false;
      }
    }
    for i := 0 to |snap.nodes|
      invariant forall j | 0 <= j < i :: KindOf(lower, snap.nodes[j].path) == snap.nodes[j].kind
    {
      var n := snap.nodes[i];
      if KindOf(lower, n.path) != n.kind {
        assert NodeEntry(n.path, n.kind) in snap.nodes;
        return false;
      }
    }
    AllHold(snap, lower, seen);
    return !cancelled.1;
  }

  lemma AllHold(snap: Snapshot, lower: Tree, seen: Reads)
    requires Lists(snap, seen)
    requires forall j | 0 <= j < |snap.files| :: FileDigest(lower, snap.files[j].path) == snap.files[j].digest
    requires forall j | 0 <= j < |snap.dirs| ::
        KindOf(lower, snap.dirs[j].path) == Directory && Names(lower, snap.dirs[j].path) == snap.dirs[j].names
    requires forall j | 0 <= j < |snap.nodes| :: KindOf(lower, snap.nodes[j].path) == snap.nodes[j].kind
    ensures Valid(seen, lower)
  {
    forall p | p in seen.files ensures FileDigest(lower, p) == seen.files[p] {
      assert FileEntry(p, seen.files[p]) in snap.files;
    }
    forall p | p in seen.dirs ensures KindOf(lower, p) == Directory && Names(lower, p) == seen.dirs[p] {
      assert DirEntry(p, seen.dirs[p]) in snap.dirs;
    }
    forall p | Kept(seen, p) ensures KindOf(lower, p) == seen.nodes[p] {
      assert NodeEntry(p, seen.nodes[p]) in snap.nodes;
    }
  }

  class TreeFS {
    const lower: Tree
    const rec: ReadSet
    var upper: Tree
    var changed: set<Path>

    /** The overlay this object stands for. */
    function State(): Overlay
      reads this, rec
    {
      Overlay(upper, changed, rec.Seen())
    }

    constructor (lower: Tree, rec: ReadSet)
      requires rec.Seen() == NO_READS
      ensures State() == START && this.lower == lower && this.rec == rec
    {
      this.lower, this.rec := lower, rec;
      upper, changed := map[], {};
    }

    /** Whether the path, or one above it, was written: walks up to the root. */
    method WasModified(p: Path) returns (r: bool)
      ensures r <==> Modified(State(), p)
    {
      var k := |p|;
      while true
        invariant 0 <= k <= |p|
        invariant forall j | k < j <= |p| :: p[..j] !in changed
        decreases k
      {
        if p[..k] in changed {
          return true;
        }
        if k == 0 {
          return false;
        }
        k := k - 1;
      }
    }

    method Probe(p: Path)
      modifies rec
      ensures State() == SeeNode(lower, old(State()), p)
    {
      var modified := WasModified(p);
      if !modified {
        rec.RecordNode(p, KindOf(lower, p));
      }
    }

    method Exists(p: Path) returns (r: bool)
      modifies rec
      ensures (State(), Bool(r)) == Step(lower, old(State()), Op.Exists(p))
    {
      r := p in View(lower, State());
      Probe(p);
    }

    method IsDir(p: Path) returns (r: bool)
      modifies rec
      ensures (State(), Bool(r)) == Step(lower, old(State()), Op.IsDir(p))
    {
      var view := View(lower, State());
      if p !in view {
        Probe(p);
        return false;
      }
      Probe(p);
      return view[p].Dir?;
    }

    method ReadFile(p: Path) returns (r: Answer)
      modifies rec
      ensures (State(), r) == Step(lower, old(State()), Op.ReadFile(p))
    {
      var view := View(lower, State());
      if p !in view {
        return Failed(NotExist);
      }
      var failed := view[p].Dir?;
      var data := if failed then "" else view[p].data;
      var modified := WasModified(p);
      if !modified {
        rec.RecordFile(p, data, failed);
      }
      return if failed then Failed(IsADirectory) else Content(data);
    }

    method ReadDir(p: Path) returns (r: Answer)
      modifies rec
      ensures (State(), r) == Step(lower, old(State()), Op.ReadDir(p))
    {
      var view := View(lower, State());
      if p !in view {
        return Failed(NotExist);
      }
      r := if view[p].Dir? then Listing(Names(view, p)) else Failed(NotADirectory);
      var modified := WasModified(p);
      if !modified && KindOf(lower, p) == Directory {
        rec.RecordDir(p, Names(lower, p));
      }
    }

    /** A write replaces a file or adds one, with the directories above it, and marks the path. */
    method WriteFile(p: Path, data: Data) returns (r: Answer)
      modifies this
      ensures (State(), r) == Step(lower, old(State()), Op.WriteFile(p, data))
    {
      var view := View(lower, State());
      if p == [] {
        return Failed(Invalid);
      }
      if KindOf(view, p) == Directory || FileAbove(view, p) {
        return Failed(Conflict);
      }
      ghost var before := State();
      upper := upper + Above(p) + map[p := File(data)];
      changed := changed + {p};
      assert State() == Write(before, p, data);
      return Written;
    }
  }
}
