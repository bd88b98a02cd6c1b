/** The root packages of a scan (pkg/discovery/partition.go, 16-24). */
module EntryRoots {
  /** A part of the working tree that a pinned source claims. */
  type Claim = string

  /** An object a root leads to, and where it is declared. */
  datatype Occurrence = Occurrence(identity: string, declaration: string)

  datatype EntryRoot = EntryRoot(path: string, scans: seq<string>, occurrences: seq<Occurrence>,
                                 anchors: seq<string>, pinned: seq<Claim>)
}
