/** A directory graph that symbolic links may tie into cycles, and what lies at a path in it. */
module DirGraph {
  import opened Wrappers

  type Path = seq<string>

  /** A directory by its canonical identity. */
  type DirId = nat

  /** Where a symbolic link leads once fully resolved. */
  datatype Target = ToFile | ToDir(id: DirId) | Nowhere

  datatype Entry = FileEntry | DirEntry(id: DirId) | LinkEntry(target: Target)

  datatype Listed = Listed(name: string, entry: Entry)

  type Graph = map<DirId, seq<Listed>>

  datatype Policy = Reject | Preserve | Follow

  /** What the walk takes an entry for under a symbolic-link policy. */
  datatype Sort = AFile | ALink | ADir(id: DirId) | AnError

  function SortOf(e: Entry, policy: Policy): Sort {
    match e
    case FileEntry => AFile
    case DirEntry(id) => ADir(id)
    case LinkEntry(target) =>
      match policy
      case Reject => AnError
      case Preserve => ALink
      case Follow => match target case ToFile => AFile case ToDir(id) => ADir(id) case Nowhere => AnError
  }

  predicate Known(g: Graph, e: Entry) {
    (e.DirEntry? ==> e.id in g) && (e.LinkEntry? && e.target.ToDir? ==> e.target.id in g)
  }

  predicate Listing(g: Graph, entries: seq<Listed>) {
    && (forall i :: 0 <= i < |entries| ==> Known(g, entries[i].entry))
    && (forall i, j :: 0 <= i < j < |entries| ==> entries[i].name != entries[j].name)
  }

  predicate WellFormed(g: Graph) { forall d :: d in g ==> Listing(g, g[d]) }

  // ---------- what lies where ----------

  function Child(entries: seq<Listed>, name: string): Option<Entry> {
    if entries == [] then None
    else if entries[0].name == name then Some(entries[0].entry)
    else Child(entries[1..], name)
  }

  lemma {:induction false} ChildIsKnown(g: Graph, entries: seq<Listed>, name: string)
    requires Listing(g, entries)
    ensures Child(entries, name).Some? ==> Known(g, Child(entries, name).value)
  {
    if entries != [] { ChildIsKnown(g, entries[1..], name); }
  }

  /** The sort of what lies at `x` below an entry, following the policy. */
  function Below(g: Graph, policy: Policy, e: Entry, x: Path): Option<Sort>
    requires WellFormed(g) && Known(g, e)
    decreases |x|
  {
    if x == [] then Some(SortOf(e, policy))
    else match SortOf(e, policy)
      case ADir(id) =>
        ChildIsKnown(g, g[id], x[0]);
        (match Child(g[id], x[0])
         case None => None
         case Some(child) => Below(g, policy, child, x[1..]))
      case _ => None
  }

  function DirAt(g: Graph, policy: Policy, e: Entry, x: Path): Option<DirId>
    requires WellFormed(g) && Known(g, e)
  {
    match Below(g, policy, e, x)
    case Some(ADir(id)) => Some(id)
    case _ => None
  }

  lemma DirAtStep(g: Graph, policy: Policy, e: Entry, id: DirId, child: Entry, x: Path, k: nat)
    requires WellFormed(g) && Known(g, e) && Known(g, child) && SortOf(e, policy) == ADir(id)
    requires x != [] && Child(g[id], x[0]) == Some(child) && 0 < k <= |x|
    ensures DirAt(g, policy, e, x[..k]) == DirAt(g, policy, child, x[1..][..k - 1])
  {
    assert x[..k][0] == x[0] && x[..k][1..] == x[1..][..k - 1];
  }

  // ---------- why a walk ends ----------

  /** Directories not on the current path yet: the measure that makes the walk end on every graph. */
  function Unvisited(g: Graph, visited: set<DirId>): nat { |g.Keys - visited| }

  lemma VisitOne(g: Graph, visited: set<DirId>, id: DirId)
    requires id in g && id !in visited
    ensures Unvisited(g, visited + {id}) < Unvisited(g, visited)
  {
    assert g.Keys - (visited + {id}) == (g.Keys - visited) - {id};
  }
}
