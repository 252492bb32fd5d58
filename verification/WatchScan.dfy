/** One scan of a watched directory: which files it finds in a graph that links may tie into cycles. */
module WatchScan {
  import opened DirGraph
  import opened Wrappers

  datatype Scanned = Failed | Found(files: set<Path>)

  function Joined(a: Scanned, b: Scanned): Scanned {
    if a.Failed? || b.Failed? then Failed else Found(a.files + b.files)
  }

  /** A link that the policy rejects is found whatever the filters say; one that leads nowhere is an
      error when links are followed. */
  function ScanEntry(g: Graph, policy: Policy, selected: Path -> bool, e: Entry, at: Path, visited: set<DirId>): Scanned
    requires WellFormed(g) && Known(g, e)
    decreases Unvisited(g, visited), 0, 1
  {
    match SortOf(e, policy)
    case AnError => if policy == Reject then Found({at}) else Failed
    case AFile => Found(if selected(at) then {at} else {})
    case ALink => Found(if selected(at) then {at} else {})
    case ADir(id) => ScanDir(g, policy, selected, id, at, visited)
  }

  /** A directory that is on its own path is passed over. */
  function ScanDir(g: Graph, policy: Policy, selected: Path -> bool, id: DirId, at: Path, visited: set<DirId>): Scanned
    requires WellFormed(g) && id in g
    decreases Unvisited(g, visited), 0, 0
  {
    if id in visited then Found({})
    else
      VisitOne(g, visited, id);
      ScanAll(g, policy, selected, g[id], at, visited + {id})
  }

  function ScanAll(g: Graph, policy: Policy, selected: Path -> bool, entries: seq<Listed>, at: Path,
                   visited: set<DirId>): Scanned
    requires WellFormed(g) && Listing(g, entries)
    decreases Unvisited(g, visited), |entries|, 0
  {
    if entries == [] then Found({})
    else Joined(ScanEntry(g, policy, selected, entries[0].entry, at + [entries[0].name], visited),
                ScanAll(g, policy, selected, entries[1..], at, visited))
  }

  // ---------- what a scan should find ----------

  /** The directories on the way to `x` are distinct, and none was on the way here. */
  predicate Simple(g: Graph, policy: Policy, e: Entry, visited: set<DirId>, x: Path)
    requires WellFormed(g) && Known(g, e)
  {
    forall k :: 0 <= k < |x| ==>
      match DirAt(g, policy, e, x[..k])
      case None => true
      case Some(d) => d !in visited && forall j :: 0 <= j < k ==> DirAt(g, policy, e, x[..j]) != Some(d)
  }

  /** At `x` lies something to watch. */
  predicate Watched(g: Graph, policy: Policy, selected: Path -> bool, e: Entry, at: Path, x: Path)
    requires WellFormed(g) && Known(g, e)
  {
    match Below(g, policy, e, x)
    case Some(AFile) => selected(at + x)
    case Some(ALink) => selected(at + x)
    case Some(AnError) => policy == Reject
    case _ => false
  }

  predicate Broken(g: Graph, policy: Policy, e: Entry, x: Path)
    requires WellFormed(g) && Known(g, e)
  {
    Below(g, policy, e, x) == Some(AnError) && policy != Reject
  }

  lemma SimpleStep(g: Graph, policy: Policy, e: Entry, visited: set<DirId>, x: Path, id: DirId, child: Entry)
    requires WellFormed(g) && Known(g, e) && Known(g, child) && SortOf(e, policy) == ADir(id)
    requires x != [] && Child(g[id], x[0]) == Some(child)
    ensures Simple(g, policy, e, visited, x) <==> id !in visited && Simple(g, policy, child, visited + {id}, x[1..])
    ensures Below(g, policy, e, x) == Below(g, policy, child, x[1..])
  {
    var y := x[1..];
    assert x[..0] == [] && DirAt(g, policy, e, x[..0]) == Some(id);
    forall k | 0 < k <= |x| ensures DirAt(g, policy, e, x[..k]) == DirAt(g, policy, child, y[..k - 1]) {
      DirAtStep(g, policy, e, id, child, x, k);
    }
    if Simple(g, policy, e, visited, x) {
      forall k | 0 <= k < |y| && DirAt(g, policy, child, y[..k]).Some?
        ensures var d := DirAt(g, policy, child, y[..k]).value;
                d !in visited + {id} && forall j :: 0 <= j < k ==> DirAt(g, policy, child, y[..j]) != Some(d)
      {
        var d := DirAt(g, policy, child, y[..k]).value;
        assert DirAt(g, policy, e, x[..k + 1]) == Some(d);
        forall j | 0 <= j < k ensures DirAt(g, policy, child, y[..j]) != Some(d) {
          assert DirAt(g, policy, e, x[..j + 1]) != Some(d);
        }
      }
    }
    if id !in visited && Simple(g, policy, child, visited + {id}, y) {
      forall k | 0 <= k < |x| && DirAt(g, policy, e, x[..k]).Some?
        ensures var d := DirAt(g, policy, e, x[..k]).value;
                d !in visited && forall j :: 0 <= j < k ==> DirAt(g, policy, e, x[..j]) != Some(d)
      {
        if k > 0 {
          var d := DirAt(g, policy, e, x[..k]).value;
          assert DirAt(g, policy, child, y[..k - 1]) == Some(d);
          forall j | 0 <= j < k ensures DirAt(g, policy, e, x[..j]) != Some(d) {
            if j > 0 { assert DirAt(g, policy, child, y[..j - 1]) != Some(d); }
          }
        }
      }
    }
  }

  // ---------- it finds exactly that ----------

  /** Everything found lies below the starting point. */
  lemma {:induction false} FoundBelow(g: Graph, policy: Policy, selected: Path -> bool, e: Entry, at: Path,
                                      visited: set<DirId>)
    requires WellFormed(g) && Known(g, e) && ScanEntry(g, policy, selected, e, at, visited).Found?
    ensures forall p :: p in ScanEntry(g, policy, selected, e, at, visited).files ==> at <= p
    decreases Unvisited(g, visited), 0, 1
  {
    match SortOf(e, policy)
    case ADir(id) => FoundBelowDir(g, policy, selected, id, at, visited);
    case _ =>
  }

  lemma {:induction false} FoundBelowDir(g: Graph, policy: Policy, selected: Path -> bool, id: DirId, at: Path,
                                        visited: set<DirId>)
    requires WellFormed(g) && id in g && ScanDir(g, policy, selected, id, at, visited).Found?
    ensures forall p :: p in ScanDir(g, policy, selected, id, at, visited).files ==> at <= p
    decreases Unvisited(g, visited), 0, 0
  {
    if id !in visited {
      VisitOne(g, visited, id);
      FoundBelowChildren(g, policy, selected, g[id], at, visited + {id});
    }
  }

  lemma {:induction false} FoundBelowChildren(g: Graph, policy: Policy, selected: Path -> bool, entries: seq<Listed>,
                                        at: Path, visited: set<DirId>)
    requires WellFormed(g) && Listing(g, entries) && ScanAll(g, policy, selected, entries, at, visited).Found?
    ensures forall p :: p in ScanAll(g, policy, selected, entries, at, visited).files ==>
              at < p && exists k :: 0 <= k < |entries| && entries[k].name == p[|at|]
    decreases Unvisited(g, visited), |entries|, 0
  {
    if entries != [] {
      var name := entries[0].name;
      var first := ScanEntry(g, policy, selected, entries[0].entry, at + [name], visited);
      FoundBelow(g, policy, selected, entries[0].entry, at + [name], visited);
      FoundBelowChildren(g, policy, selected, entries[1..], at, visited);
      forall p | p in ScanAll(g, policy, selected, entries, at, visited).files
        ensures at < p && exists k :: 0 <= k < |entries| && entries[k].name == p[|at|]
      {
        if p in first.files {
          Extends(at, name, p);
          assert entries[0].name == p[|at|];
        } else {
          var k :| 0 <= k < |entries[1..]| && entries[1..][k].name == p[|at|];
          assert entries[k + 1].name == p[|at|];
        }
      }
    }
  }

  lemma Extends(at: Path, name: string, p: Path)
    requires at + [name] <= p
    ensures at < p && p[|at|] == name
  {
    assert p[|at|] == (at + [name])[|at|];
    assert at == (at + [name])[..|at|] == p[..|at|];
  }

  /** A scan that succeeds finds, below its starting point, the watched paths that lead through
      distinct directories, and nothing else. */
  lemma {:induction false} ScanFindsExactly(g: Graph, policy: Policy, selected: Path -> bool, e: Entry, at: Path,
                                        visited: set<DirId>, x: Path)
    requires WellFormed(g) && Known(g, e) && ScanEntry(g, policy, selected, e, at, visited).Found?
    ensures at + x in ScanEntry(g, policy, selected, e, at, visited).files
            <==> Watched(g, policy, selected, e, at, x) && Simple(g, policy, e, visited, x)
    decreases |x|
  {
    assert at + [] == at;
    match SortOf(e, policy)
    case ADir(id) =>
      if id !in visited { DirFindsExactly(g, policy, selected, e, id, at, visited, x); }
      else if x != [] { assert x[..0] == [] && DirAt(g, policy, e, x[..0]) == Some(id); }
    case _ => if x != [] { assert at + x != at; }
  }

  lemma {:induction false} DirFindsExactly(g: Graph, policy: Policy, selected: Path -> bool, e: Entry, id: DirId,
                                        at: Path, visited: set<DirId>, x: Path)
    requires WellFormed(g) && Known(g, e) && SortOf(e, policy) == ADir(id) && id !in visited
    requires ScanAll(g, policy, selected, g[id], at, visited + {id}).Found?
    ensures at + x in ScanAll(g, policy, selected, g[id], at, visited + {id}).files
            <==> Watched(g, policy, selected, e, at, x) && Simple(g, policy, e, visited, x)
    decreases |x|, 0
  {
    FoundBelowChildren(g, policy, selected, g[id], at, visited + {id});
    if x != [] {
      ChildIsKnown(g, g[id], x[0]);
      match Child(g[id], x[0])
      case None => OnlyListed(g, policy, selected, g[id], at, visited + {id}, x);
      case Some(child) =>
        SimpleStep(g, policy, e, visited, x, id, child);
        ChildScan(g, policy, selected, g[id], at, visited + {id}, x, child);
        ScanFindsExactly(g, policy, selected, child, at + [x[0]], visited + {id}, x[1..]);
        assert at + [x[0]] + x[1..] == at + x;
    }
  }

  lemma {:induction false} NotListed(entries: seq<Listed>, name: string)
    requires Child(entries, name).None?
    ensures forall k :: 0 <= k < |entries| ==> entries[k].name != name
  {
    if entries != [] {
      NotListed(entries[1..], name);
      assert forall k :: 0 < k < |entries| ==> entries[k] == entries[1..][k - 1];
    }
  }

  lemma OnlyListed(g: Graph, policy: Policy, selected: Path -> bool, entries: seq<Listed>, at: Path,
                   visited: set<DirId>, x: Path)
    requires WellFormed(g) && Listing(g, entries) && ScanAll(g, policy, selected, entries, at, visited).Found?
    requires x != [] && Child(entries, x[0]).None?
    ensures at + x !in ScanAll(g, policy, selected, entries, at, visited).files
  {
    FoundBelowChildren(g, policy, selected, entries, at, visited);
    NotListed(entries, x[0]);
    assert (at + x)[|at|] == x[0];
  }

  /** Of a listing only the entry of that name can find a path below it. */
  lemma {:induction false} ChildScan(g: Graph, policy: Policy, selected: Path -> bool, entries: seq<Listed>,
                                     at: Path, visited: set<DirId>, x: Path, child: Entry)
    requires WellFormed(g) && Listing(g, entries) && Known(g, child)
             && ScanAll(g, policy, selected, entries, at, visited).Found?
    requires x != [] && Child(entries, x[0]) == Some(child)
    ensures var scan := ScanEntry(g, policy, selected, child, at + [x[0]], visited);
            scan.Found? && (at + x in ScanAll(g, policy, selected, entries, at, visited).files <==>
                at + x in scan.files)
    decreases |entries|
  {
    var name := entries[0].name;
    if name == x[0] {
      NoOther(entries);
      OnlyListed(g, policy, selected, entries[1..], at, visited, x);
    } else {
      ChildScan(g, policy, selected, entries[1..], at, visited, x, child);
      FoundBelow(g, policy, selected, entries[0].entry, at + [name], visited);
      if at + [name] <= at + x { Extends(at, name, at + x); }
    }
  }

  lemma NoOther(entries: seq<Listed>)
    requires entries != [] && forall i, j :: 0 <= i < j < |entries| ==> entries[i].name != entries[j].name
    ensures Child(entries[1..], entries[0].name).None?
  {
    NewName(entries[1..], entries[0].name);
  }

  lemma {:induction false} NewName(entries: seq<Listed>, name: string)
    requires forall k :: 0 <= k < |entries| ==> entries[k].name != name
    ensures Child(entries, name).None?
  {
    if entries != [] { NewName(entries[1..], name); }
  }

  // ---------- when it fails ----------

  lemma {:induction false} BrokenFails(g: Graph, policy: Policy, selected: Path -> bool, e: Entry, at: Path,
                                       visited: set<DirId>, x: Path)
    requires WellFormed(g) && Known(g, e) && Broken(g, policy, e, x) && Simple(g, policy, e, visited, x)
    ensures ScanEntry(g, policy, selected, e, at, visited).Failed?
    decreases |x|
  {
    if x != [] {
      match SortOf(e, policy)
      case ADir(id) =>
        ChildIsKnown(g, g[id], x[0]);
        var child := Child(g[id], x[0]).value;
        SimpleStep(g, policy, e, visited, x, id, child);
        BrokenFails(g, policy, selected, child, at + [x[0]], visited + {id}, x[1..]);
        ChildFails(g, policy, selected, g[id], at, visited + {id}, x[0], child);
      case _ =>
    }
  }

  lemma {:induction false} ChildFails(g: Graph, policy: Policy, selected: Path -> bool, entries: seq<Listed>,
                                      at: Path, visited: set<DirId>, name: string, child: Entry)
    requires WellFormed(g) && Listing(g, entries) && Known(g, child) && Child(entries, name) == Some(child)
    requires ScanEntry(g, policy, selected, child, at + [name], visited).Failed?
    ensures ScanAll(g, policy, selected, entries, at, visited).Failed?
    decreases |entries|
  {
    if entries[0].name != name { ChildFails(g, policy, selected, entries[1..], at, visited, name, child); }
  }

  lemma {:induction false} FailureIsBroken(g: Graph, policy: Policy, selected: Path -> bool, e: Entry, at: Path,
                                        visited: set<DirId>)
    returns (x: Path)
    requires WellFormed(g) && Known(g, e) && ScanEntry(g, policy, selected, e, at, visited).Failed?
    ensures Broken(g, policy, e, x) && Simple(g, policy, e, visited, x)
    decreases Unvisited(g, visited), 0
  {
    x := [];
    if SortOf(e, policy).ADir? {
      var id := SortOf(e, policy).id;
      VisitOne(g, visited, id);
      var name, child, y := FailedChild(g, policy, selected, g[id], at, visited + {id});
      x := [name] + y;
      assert x[1..] == y;
      SimpleStep(g, policy, e, visited, x, id, child);
    }
  }

  lemma {:induction false} FailedChild(g: Graph, policy: Policy, selected: Path -> bool, entries: seq<Listed>,
                                       at: Path, visited: set<DirId>)
    returns (name: string, child: Entry, y: Path)
    requires WellFormed(g) && Listing(g, entries) && ScanAll(g, policy, selected, entries, at, visited).Failed?
    ensures Child(entries, name) == Some(child) && Known(g, child)
    ensures Broken(g, policy, child, y) && Simple(g, policy, child, visited, y)
    decreases Unvisited(g, visited), |entries|
  {
    name, child := entries[0].name, entries[0].entry;
    if ScanEntry(g, policy, selected, child, at + [name], visited).Failed? {
      y := FailureIsBroken(g, policy, selected, child, at + [name], visited);
    } else {
      NoOther(entries);
      name, child, y := FailedChild(g, policy, selected, entries[1..], at, visited);
    }
  }

  /** A scan ends on every graph, cycles and all; it fails exactly when a link that leads nowhere is
      to be followed at the end of a path through distinct directories. */
  lemma ScanFailsExactly(g: Graph, policy: Policy, selected: Path -> bool, e: Entry, at: Path, visited: set<DirId>)
    requires WellFormed(g) && Known(g, e)
    ensures ScanEntry(g, policy, selected, e, at, visited).Failed?
            <==> exists x :: Broken(g, policy, e, x) && Simple(g, policy, e, visited, x)
  {
    if ScanEntry(g, policy, selected, e, at, visited).Failed? {
      var x := FailureIsBroken(g, policy, selected, e, at, visited);
    }
    forall x | Broken(g, policy, e, x) && Simple(g, policy, e, visited, x)
      ensures ScanEntry(g, policy, selected, e, at, visited).Failed?
    {
      BrokenFails(g, policy, selected, e, at, visited, x);
    }
  }

  // ---------- links under the policies ----------

  /** A followed link finds what its target finds, and fails the scan when it leads nowhere. A kept or a
      rejected one is found itself wherever it leads, the kept one if it is selected, and never entered. */
  lemma LinkIsScanned(g: Graph, selected: Path -> bool, target: Target, at: Path, visited: set<DirId>)
    requires WellFormed(g) && Known(g, LinkEntry(target))
    ensures ScanEntry(g, Follow, selected, LinkEntry(target), at, visited)
            == match target
               case ToDir(id) => ScanEntry(g, Follow, selected, DirEntry(id), at, visited)
               case ToFile => ScanEntry(g, Follow, selected, FileEntry, at, visited)
               case Nowhere => Failed
    ensures ScanEntry(g, Preserve, selected, LinkEntry(target), at, visited)
            == Found(if selected(at) then {at} else {})
    ensures ScanEntry(g, Reject, selected, LinkEntry(target), at, visited) == Found({at})
  {}

  /** A file is found if it is selected, a directory on its own path is passed over, under every policy. */
  lemma PlainIsScanned(g: Graph, policy: Policy, selected: Path -> bool, id: DirId, at: Path, visited: set<DirId>)
    requires WellFormed(g) && id in g
    ensures ScanEntry(g, policy, selected, FileEntry, at, visited) == Found(if selected(at) then {at} else {})
    ensures id in visited ==> ScanEntry(g, policy, selected, DirEntry(id), at, visited) == Found({})
    ensures id !in visited ==>
              ScanEntry(g, policy, selected, DirEntry(id), at, visited)
              == ScanAll(g, policy, selected, g[id], at, visited + {id})
  {}

  // ---------- the code ----------

  class Scanner {
    const graph: Graph
    const policy: Policy
    const selected: Path -> bool
    var visited: set<DirId>
    var out: set<Path>

    constructor (graph: Graph, policy: Policy, selected: Path -> bool)
      ensures this.graph == graph && this.policy == policy && this.selected == selected
      ensures visited == {} && out == {}
    {
      this.graph, this.policy, this.selected := graph, policy, selected;
      visited, out := {}, {};
    }

    /** What one directory entry adds. On success `visited` is back to what it was. */
    method Consider(entry: Entry, path: Path) returns (ok: bool)
      requires WellFormed(graph) && Known(graph, entry)
      modifies this
      ensures match ScanEntry(graph, policy, selected, entry, path, old(visited))
              case Failed => !ok
              case Found(files) => ok && out == old(out) + files && visited == old(visited)
      decreases Unvisited(graph, visited), 0, 1
    {
      if entry.LinkEntry? && policy == Reject {
        out := out + {path};
        return true;
      }
      if entry.LinkEntry? && policy == Follow && entry.target.Nowhere? { return false; }
      if entry.DirEntry? || (entry.LinkEntry? && policy == Follow && entry.target.ToDir?) {
        ok := ScanDirectory(if entry.DirEntry? then entry.id else entry.target.id, path);
        return;
      }
      if selected(path) { out := out + {path}; }
      ok := true;
    }

    method ScanDirectory(id: DirId, directory: Path) returns (ok: bool)
      requires WellFormed(graph) && id in graph
      modifies this
      ensures match ScanDir(graph, policy, selected, id, directory, old(visited))
              case Failed => !ok
              case Found(files) => ok && out == old(out) + files && visited == old(visited)
      decreases Unvisited(graph, visited), 0, 0
    {
      if id in visited { return true; }
      VisitOne(graph, visited, id);
      visited := visited + {id};
      ok := ScanEntries(graph[id], directory);
      if ok { visited := visited - {id}; }
    }

    method ScanEntries(entries: seq<Listed>, directory: Path) returns (ok: bool)
      requires WellFormed(graph) && Listing(graph, entries)
      modifies this
      ensures match ScanAll(graph, policy, selected, entries, directory, old(visited))
              case Failed => !ok
              case Found(files) => ok && out == old(out) + files && visited == old(visited)
      decreases Unvisited(graph, visited), 1, 0
    {
      ghost var whole := ScanAll(graph, policy, selected, entries, directory, visited);
      ghost var found: set<Path> := {};
      NothingFound(whole);
      var rest := entries;
      while rest != []
        invariant Listing(graph, rest) && visited == old(visited) && out == old(out) + found
        invariant whole == Joined(Found(found), ScanAll(graph, policy, selected, rest, directory, visited))
        decreases |rest|
      {
        var path := directory + [rest[0].name];
        ghost var scan := ScanEntry(graph, policy, selected, rest[0].entry, path, visited);
        JoinedThree(found, scan, ScanAll(graph, policy, selected, rest[1..], directory, visited));
        var scanned := Consider(rest[0].entry, path);
        if !scanned { return false; }
        assert old(out) + found + scan.files == old(out) + (found + scan.files);
        found, rest := found + scan.files, rest[1..];
      }
      NothingMore(found);
      ok := true;
    }
  }

  lemma NothingMore(found: set<Path>)
    ensures Joined(Found(found), Found({})) == Found(found)
  {}

  lemma NothingFound(s: Scanned)
    ensures Joined(Found({}), s) == s
  {
    if s.Found? { assert {} + s.files == s.files; }
  }

  lemma JoinedThree(found: set<Path>, a: Scanned, b: Scanned)
    ensures Joined(Found(found), Joined(a, b)) == if a.Failed? then Failed else Joined(Found(found + a.files), b)
  {
    if a.Found? && b.Found? { assert found + (a.files + b.files) == found + a.files + b.files; }
  }
}
