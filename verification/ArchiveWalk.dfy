/** The filtered archive walk over a directory graph that symbolic links may tie into cycles. */
module ArchiveWalk {
  import opened DirGraph
  import opened Sequences
  import opened Wrappers

  /** The globs, as predicates on archive-relative paths. */
  datatype Filters = Filters(includes: Option<Path -> bool>, excludes: Path -> bool)

  predicate Excluded(f: Filters, p: Path) { f.excludes(p) }

  predicate Selected(f: Filters, p: Path) {
    !f.excludes(p) && (f.includes.Some? ==> f.includes.value(p))
  }

  datatype Item = FileItem(path: Path) | LinkItem(path: Path) | DirItem(path: Path)

  // ---------- the walk ----------

  datatype Walked = Stopped | Done(items: seq<Item>)

  function Walk(g: Graph, policy: Policy, f: Filters, e: Entry, arch: Path, rel: Path, visited: set<DirId>): Walked
    requires WellFormed(g) && Known(g, e)
    decreases Unvisited(g, visited), 0, 1
  {
    match SortOf(e, policy)
    case AnError => Stopped
    case AFile => Done(if Selected(f, rel) then [FileItem(arch)] else [])
    case ALink => Done(if Selected(f, rel) then [LinkItem(arch)] else [])
    case ADir(id) => WalkDir(g, policy, f, id, arch, rel, visited)
  }

  function WalkDir(g: Graph, policy: Policy, f: Filters, id: DirId, arch: Path, rel: Path, visited: set<DirId>): Walked
    requires WellFormed(g) && id in g
    decreases Unvisited(g, visited), 0, 0
  {
    if Excluded(f, rel) then Done([])
    else if id in visited then Stopped
    else
      VisitOne(g, visited, id);
      match WalkAll(g, policy, f, g[id], arch, rel, visited + {id})
      case Stopped => Stopped
      case Done(items) => Done(if Selected(f, rel) || items != [] then items + [DirItem(arch)] else [])
  }

  function WalkAll(g: Graph, policy: Policy, f: Filters, entries: seq<Listed>, arch: Path, rel: Path,
                   visited: set<DirId>): Walked
    requires WellFormed(g) && Listing(g, entries)
    decreases Unvisited(g, visited), |entries|, 0
  {
    if entries == [] then Done([])
    else
      var name := entries[0].name;
      match Walk(g, policy, f, entries[0].entry, arch + [name], rel + [name], visited)
      case Stopped => Stopped
      case Done(first) =>
        match WalkAll(g, policy, f, entries[1..], arch, rel, visited)
        case Stopped => Stopped
        case Done(rest) => Done(first + rest)
  }

  // ---------- the way to a path ----------

  /** No directory on the way to `rel + x`, from `rel` on, is excluded. */
  predicate Open(f: Filters, rel: Path, x: Path) {
    forall k :: 0 <= k < |x| ==> !Excluded(f, rel + x[..k])
  }

  lemma OpenStep(f: Filters, rel: Path, x: Path)
    requires x != []
    ensures Open(f, rel, x) <==> !Excluded(f, rel) && Open(f, rel + [x[0]], x[1..])
  {
    assert rel + x[..0] == rel;
    forall k | 0 <= k < |x| - 1 ensures rel + [x[0]] + x[1..][..k] == rel + x[..k + 1] {}
    if !Excluded(f, rel) && Open(f, rel + [x[0]], x[1..]) {
      forall k | 0 <= k < |x| ensures !Excluded(f, rel + x[..k]) {
        if k > 0 { assert rel + [x[0]] + x[1..][..k - 1] == rel + x[..k]; }
      }
    }
  }

  // ---------- order and uniqueness ----------

  /** No item's path lies at or below that of an earlier one: paths are distinct, and every
      directory comes after all its descendants. */
  predicate PostOrder(items: seq<Item>) {
    forall i, j :: 0 <= i < j < |items| ==> !(items[i].path <= items[j].path)
  }

  predicate Under(items: seq<Item>, arch: Path) {
    forall i :: 0 <= i < |items| ==> arch <= items[i].path
  }

  /** All items lie below one of the children `entries` of `arch`. */
  predicate UnderChildren(items: seq<Item>, arch: Path, entries: seq<Listed>) {
    forall i :: 0 <= i < |items| ==> exists k :: 0 <= k < |entries| && arch + [entries[k].name] <= items[i].path
  }

  lemma {:induction false} WalkOrder(g: Graph, policy: Policy, f: Filters, e: Entry, arch: Path, rel: Path,
                                     visited: set<DirId>)
    requires WellFormed(g) && Known(g, e) && Walk(g, policy, f, e, arch, rel, visited).Done?
    ensures var items := Walk(g, policy, f, e, arch, rel, visited).items; PostOrder(items) && Under(items, arch)
    decreases Unvisited(g, visited), 0, 1
  {
    match SortOf(e, policy)
    case ADir(id) => WalkDirOrder(g, policy, f, id, arch, rel, visited);
    case _ =>
  }

  lemma {:induction false} WalkDirOrder(g: Graph, policy: Policy, f: Filters, id: DirId, arch: Path, rel: Path,
                                        visited: set<DirId>)
    requires WellFormed(g) && id in g && WalkDir(g, policy, f, id, arch, rel, visited).Done?
    ensures var items := WalkDir(g, policy, f, id, arch, rel, visited).items; PostOrder(items) && Under(items, arch)
    decreases Unvisited(g, visited), 0, 0
  {
    if !Excluded(f, rel) {
      VisitOne(g, visited, id);
      WalkAllOrder(g, policy, f, g[id], arch, rel, visited + {id});
      DirComesLast(WalkAll(g, policy, f, g[id], arch, rel, visited + {id}).items, arch, g[id]);
    }
  }

  lemma DirComesLast(items: seq<Item>, arch: Path, entries: seq<Listed>)
    requires PostOrder(items) && UnderChildren(items, arch, entries)
    ensures PostOrder(items + [DirItem(arch)]) && Under(items + [DirItem(arch)], arch)
    ensures items == [] ==> PostOrder(items) && Under(items, arch)
  {
    ChildrenAreDeeper(items, arch, entries);
  }

  lemma ChildrenAreDeeper(items: seq<Item>, arch: Path, entries: seq<Listed>)
    requires UnderChildren(items, arch, entries)
    ensures Under(items, arch) && forall i :: 0 <= i < |items| ==> !(items[i].path <= arch)
  {
    forall i | 0 <= i < |items| ensures arch <= items[i].path && !(items[i].path <= arch) {
      var k :| 0 <= k < |entries| && arch + [entries[k].name] <= items[i].path;
      assert arch == (arch + [entries[k].name])[..|arch|] == items[i].path[..|arch|];
    }
  }

  lemma {:induction false} WalkAllOrder(g: Graph, policy: Policy, f: Filters, entries: seq<Listed>, arch: Path,
                                        rel: Path, visited: set<DirId>)
    requires WellFormed(g) && Listing(g, entries) && WalkAll(g, policy, f, entries, arch, rel, visited).Done?
    ensures var items := WalkAll(g, policy, f, entries, arch, rel, visited).items;
            PostOrder(items) && UnderChildren(items, arch, entries)
    decreases Unvisited(g, visited), |entries|, 0
  {
    if entries != [] {
      var name := entries[0].name;
      WalkOrder(g, policy, f, entries[0].entry, arch + [name], rel + [name], visited);
      WalkAllOrder(g, policy, f, entries[1..], arch, rel, visited);
      var first := Walk(g, policy, f, entries[0].entry, arch + [name], rel + [name], visited).items;
      var rest := WalkAll(g, policy, f, entries[1..], arch, rel, visited).items;
      SiblingsApart(first, rest, arch, entries);
    }
  }

  lemma SiblingsApart(first: seq<Item>, rest: seq<Item>, arch: Path, entries: seq<Listed>)
    requires entries != [] && forall i, j :: 0 <= i < j < |entries| ==> entries[i].name != entries[j].name
    requires PostOrder(first) && Under(first, arch + [entries[0].name])
    requires PostOrder(rest) && UnderChildren(rest, arch, entries[1..])
    ensures PostOrder(first + rest) && UnderChildren(first + rest, arch, entries)
  {
    var items := first + rest;
    forall i | 0 <= i < |items| ensures exists k :: 0 <= k < |entries| && arch + [entries[k].name] <= items[i].path {
      if i >= |first| {
        var k :| 0 <= k < |entries[1..]| && arch + [entries[1..][k].name] <= rest[i - |first|].path;
        assert arch + [entries[k + 1].name] <= items[i].path;
      } else {
        assert arch + [entries[0].name] <= items[i].path;
      }
    }
    forall i, j | 0 <= i < j < |items| ensures !(items[i].path <= items[j].path) {
      if i < |first| <= j {
        var k :| 0 <= k < |entries[1..]| && arch + [entries[1..][k].name] <= rest[j - |first|].path;
        assert items[i].path[|arch|] == (arch + [entries[0].name])[|arch|];
        assert items[j].path[|arch|] == (arch + [entries[k + 1].name])[|arch|];
      }
    }
  }

  // ---------- the walk below a path is a walk of its own ----------

  /** The part of a walk that concerns `x`: the walk of the entry found there, if it is reached. */
  function Sub(g: Graph, policy: Policy, f: Filters, e: Entry, arch: Path, rel: Path, visited: set<DirId>,
               x: Path): Walked
    requires WellFormed(g) && Known(g, e)
    decreases |x|
  {
    if x == [] then Walk(g, policy, f, e, arch, rel, visited)
    else match SortOf(e, policy)
      case ADir(id) =>
        if Excluded(f, rel) || id in visited then Done([])
        else SubChild(g, policy, f, g[id], arch, rel, visited + {id}, x)
      case _ => Done([])
  }

  function SubChild(g: Graph, policy: Policy, f: Filters, entries: seq<Listed>, arch: Path, rel: Path,
                    visited: set<DirId>, x: Path): Walked
    requires WellFormed(g) && Listing(g, entries) && x != []
    decreases |x|, 0
  {
    ChildIsKnown(g, entries, x[0]);
    match Child(entries, x[0])
    case None => Done([])
    case Some(child) => Sub(g, policy, f, child, arch + [x[0]], rel + [x[0]], visited, x[1..])
  }

  /** Two item lists hold the same items at and below a path. */
  ghost predicate AgreeUnder(items: seq<Item>, other: seq<Item>, p: Path) {
    forall item: Item :: p <= item.path ==> (item in items <==> item in other)
  }

  lemma {:induction false} WalkContainsSub(g: Graph, policy: Policy, f: Filters, e: Entry, arch: Path, rel: Path,
                                        visited: set<DirId>, x: Path)
    requires WellFormed(g) && Known(g, e) && Walk(g, policy, f, e, arch, rel, visited).Done?
    ensures var sub := Sub(g, policy, f, e, arch, rel, visited, x);
            sub.Done? && AgreeUnder(Walk(g, policy, f, e, arch, rel, visited).items, sub.items, arch + x)
    decreases Unvisited(g, visited), 0, 1
  {
    if x != [] {
      match SortOf(e, policy)
      case ADir(id) => DirContainsSub(g, policy, f, id, arch, rel, visited, x);
      case AFile => OnlyAt(Walk(g, policy, f, e, arch, rel, visited).items, arch, x);
      case ALink => OnlyAt(Walk(g, policy, f, e, arch, rel, visited).items, arch, x);
      case AnError =>
    }
  }

  lemma {:induction false} DirContainsSub(g: Graph, policy: Policy, f: Filters, id: DirId, arch: Path, rel: Path,
                                        visited: set<DirId>, x: Path)
    requires WellFormed(g) && id in g && WalkDir(g, policy, f, id, arch, rel, visited).Done? && x != []
    ensures Excluded(f, rel) ==> WalkDir(g, policy, f, id, arch, rel, visited).items == []
    ensures !Excluded(f, rel) ==>
              var sub := SubChild(g, policy, f, g[id], arch, rel, visited + {id}, x);
              sub.Done? && AgreeUnder(WalkDir(g, policy, f, id, arch, rel, visited).items, sub.items, arch + x)
    decreases Unvisited(g, visited), 0, 0
  {
    if !Excluded(f, rel) {
      VisitOne(g, visited, id);
      WalkAllContainsSub(g, policy, f, g[id], arch, rel, visited + {id}, x);
      AddDir(WalkAll(g, policy, f, g[id], arch, rel, visited + {id}).items,
             SubChild(g, policy, f, g[id], arch, rel, visited + {id}, x).items, arch, x);
    }
  }

  lemma AddDir(items: seq<Item>, sub: seq<Item>, arch: Path, x: Path)
    requires x != [] && AgreeUnder(items, sub, arch + x)
    ensures AgreeUnder(items + [DirItem(arch)], sub, arch + x)
  {}

  lemma OnlyAt(items: seq<Item>, arch: Path, x: Path)
    requires x != [] && forall item :: item in items ==> item.path == arch
    ensures AgreeUnder(items, [], arch + x)
  {}

  lemma {:induction false} WalkAllContainsSub(g: Graph, policy: Policy, f: Filters, entries: seq<Listed>, arch: Path,
                                        rel: Path,
                                              visited: set<DirId>, x: Path)
    requires WellFormed(g) && Listing(g, entries) && WalkAll(g, policy, f, entries, arch, rel, visited).Done? && x != []
    ensures var sub := SubChild(g, policy, f, entries, arch, rel, visited, x);
            sub.Done? && AgreeUnder(WalkAll(g, policy, f, entries, arch, rel, visited).items, sub.items, arch + x)
    decreases Unvisited(g, visited), |entries|, 0
  {
    if entries != [] {
      var name := entries[0].name;
      var first := Walk(g, policy, f, entries[0].entry, arch + [name], rel + [name], visited).items;
      var rest := WalkAll(g, policy, f, entries[1..], arch, rel, visited).items;
      WalkOrder(g, policy, f, entries[0].entry, arch + [name], rel + [name], visited);
      WalkAllOrder(g, policy, f, entries[1..], arch, rel, visited);
      if name == x[0] {
        WalkContainsSub(g, policy, f, entries[0].entry, arch + [name], rel + [name], visited, x[1..]);
        assert arch + [name] + x[1..] == arch + x;
        NotUnderOthers(rest, arch, entries[1..], x);
      } else {
        WalkAllContainsSub(g, policy, f, entries[1..], arch, rel, visited, x);
        NotUnderSibling(first, arch, name, x);
      }
    }
  }

  lemma NotUnderOthers(items: seq<Item>, arch: Path, entries: seq<Listed>, x: Path)
    requires UnderChildren(items, arch, entries) && x != []
    requires forall k :: 0 <= k < |entries| ==> entries[k].name != x[0]
    ensures forall item :: item in items ==> !(arch + x <= item.path)
  {
    forall i | 0 <= i < |items| ensures !(arch + x <= items[i].path) {
      var k :| 0 <= k < |entries| && arch + [entries[k].name] <= items[i].path;
      assert items[i].path[|arch|] == (arch + [entries[k].name])[|arch|];
      assert (arch + x)[|arch|] == x[0];
    }
  }

  lemma NotUnderSibling(items: seq<Item>, arch: Path, name: string, x: Path)
    requires Under(items, arch + [name]) && x != [] && x[0] != name
    ensures forall item :: item in items ==> !(arch + x <= item.path)
  {
    forall i | 0 <= i < |items| ensures !(arch + x <= items[i].path) {
      assert items[i].path[|arch|] == (arch + [name])[|arch|];
      assert (arch + x)[|arch|] == x[0];
    }
  }

  /** What `Sub` is, in terms of where `x` leads: nothing, or a walk of that entry. */
  lemma {:induction false} SubIsWalk(g: Graph, policy: Policy, f: Filters, e: Entry, arch: Path, rel: Path,
                                     visited: set<DirId>, x: Path)
    returns (entry: Entry, there: set<DirId>)
    requires WellFormed(g) && Known(g, e) && Walk(g, policy, f, e, arch, rel, visited).Done?
    ensures Known(g, entry)
    ensures Below(g, policy, e, x).Some? && Open(f, rel, x) ==>
              && Below(g, policy, e, x) == Some(SortOf(entry, policy))
              && Sub(g, policy, f, e, arch, rel, visited, x) == Walk(g, policy, f, entry, arch + x, rel + x, there)
    ensures !(Below(g, policy, e, x).Some? && Open(f, rel, x)) ==>
            Sub(g, policy, f, e, arch, rel, visited, x) == Done([])
    decreases |x|
  {
    entry, there := e, visited;
    assert arch + [] == arch && rel + [] == rel;
    if x != [] {
      OpenStep(f, rel, x);
      match SortOf(e, policy)
      case ADir(id) =>
        if !Excluded(f, rel) {
          ChildIsKnown(g, g[id], x[0]);
          match Child(g[id], x[0])
          case None =>
          case Some(child) =>
            ChildWalks(g, policy, f, g[id], arch, rel, visited + {id}, x[0]);
            entry, there := SubIsWalk(g, policy, f, child, arch + [x[0]], rel + [x[0]], visited + {id}, x[1..]);
            assert arch + [x[0]] + x[1..] == arch + x && rel + [x[0]] + x[1..] == rel + x;
        }
      case _ =>
    }
  }

  /** When a listing is walked to its end, so is each of its entries. */
  lemma {:induction false} ChildWalks(g: Graph, policy: Policy, f: Filters, entries: seq<Listed>, arch: Path, rel: Path,
                                      visited: set<DirId>, name: string)
    requires WellFormed(g) && Listing(g, entries) && WalkAll(g, policy, f, entries, arch, rel, visited).Done?
    requires Child(entries, name).Some? && Known(g, Child(entries, name).value)
    ensures Walk(g, policy, f, Child(entries, name).value, arch + [name], rel + [name], visited).Done?
    decreases |entries|
  {
    if entries[0].name != name { ChildWalks(g, policy, f, entries[1..], arch, rel, visited, name); }
  }

  // ---------- what is emitted ----------

  /** A file is emitted iff it is there, selected, and no directory above it is excluded; the same
      goes for a link that is kept. */
  lemma WalkEmitsLeaves(g: Graph, policy: Policy, f: Filters, e: Entry, arch: Path, rel: Path, visited: set<DirId>,
                        x: Path)
    requires WellFormed(g) && Known(g, e) && Walk(g, policy, f, e, arch, rel, visited).Done?
    ensures var items := Walk(g, policy, f, e, arch, rel, visited).items;
            && (FileItem(arch + x) in items <==>
                Below(g, policy, e, x) == Some(AFile) && Open(f, rel, x) && Selected(f, rel + x))
            && (LinkItem(arch + x) in items <==>
                Below(g, policy, e, x) == Some(ALink) && Open(f, rel, x) && Selected(f, rel + x))
  {
    WalkContainsSub(g, policy, f, e, arch, rel, visited, x);
    var entry, there := SubIsWalk(g, policy, f, e, arch, rel, visited, x);
    if Below(g, policy, e, x).Some? && Open(f, rel, x) {
      WalkRoot(g, policy, f, entry, arch + x, rel + x, there);
    }
  }

  /** A directory is emitted iff it is there, neither it nor one above it is excluded, and it is
      selected itself or something below it is emitted. */
  lemma WalkEmitsDirs(g: Graph, policy: Policy, f: Filters, e: Entry, arch: Path, rel: Path, visited: set<DirId>,
                      x: Path)
    requires WellFormed(g) && Known(g, e) && Walk(g, policy, f, e, arch, rel, visited).Done?
    ensures var items := Walk(g, policy, f, e, arch, rel, visited).items;
            DirItem(arch + x) in items <==>
              && Below(g, policy, e, x).Some? && Below(g, policy, e, x).value.ADir?
              && Open(f, rel, x) && !Excluded(f, rel + x)
              && (Selected(f, rel + x)
                  || exists item :: item in items && arch + x <= item.path && item.path != arch + x)
  {
    WalkContainsSub(g, policy, f, e, arch, rel, visited, x);
    var entry, there := SubIsWalk(g, policy, f, e, arch, rel, visited, x);
    if Below(g, policy, e, x).Some? && Open(f, rel, x) {
      WalkRoot(g, policy, f, entry, arch + x, rel + x, there);
      WalkOrder(g, policy, f, entry, arch + x, rel + x, there);
      var sub := Walk(g, policy, f, entry, arch + x, rel + x, there).items;
      assert forall item :: item in sub ==> arch + x <= item.path;
    }
  }

  lemma DirStandsOut(inner: seq<Item>, arch: Path, entries: seq<Listed>)
    requires UnderChildren(inner, arch, entries)
    ensures forall item :: item in inner ==> item.path != arch
    ensures DirItem(arch) in inner + [DirItem(arch)]
    ensures forall item :: item in inner + [DirItem(arch)] && item.path == arch ==> item == DirItem(arch)
    ensures inner != [] <==> exists item :: item in inner + [DirItem(arch)] && item.path != arch
  {
    ChildrenAreDeeper(inner, arch, entries);
    var all := inner + [DirItem(arch)];
    assert all[|inner|] == DirItem(arch);
    if inner != [] { assert all[0] == inner[0] && inner[0] in all; }
  }

  /** The item a walk emits for its own starting point. */
  lemma WalkRoot(g: Graph, policy: Policy, f: Filters, e: Entry, arch: Path, rel: Path, visited: set<DirId>)
    requires WellFormed(g) && Known(g, e) && Walk(g, policy, f, e, arch, rel, visited).Done?
    ensures var items := Walk(g, policy, f, e, arch, rel, visited).items;
            && (FileItem(arch) in items <==> SortOf(e, policy) == AFile && Selected(f, rel))
            && (LinkItem(arch) in items <==> SortOf(e, policy) == ALink && Selected(f, rel))
            && (DirItem(arch) in items <==> SortOf(e, policy).ADir? && items != [])
            && (SortOf(e, policy).ADir? ==> DirRoot(f, items, arch, rel))
  {
    match SortOf(e, policy)
    case ADir(id) => WalkDirRoot(g, policy, f, id, arch, rel, visited);
    case _ =>
  }

  /** A directory's items: none, or with the directory because it is selected or something else is there. */
  ghost predicate DirRoot(f: Filters, items: seq<Item>, arch: Path, rel: Path) {
    && (items != [] <==> !Excluded(f, rel) && (Selected(f, rel) || exists item :: item in items && item.path != arch))
    && (items != [] ==> DirItem(arch) in items)
    && (forall item :: item in items && item.path == arch ==> item == DirItem(arch))
  }

  lemma WalkDirRoot(g: Graph, policy: Policy, f: Filters, id: DirId, arch: Path, rel: Path, visited: set<DirId>)
    requires WellFormed(g) && id in g && WalkDir(g, policy, f, id, arch, rel, visited).Done?
    ensures DirRoot(f, WalkDir(g, policy, f, id, arch, rel, visited).items, arch, rel)
  {
    if !Excluded(f, rel) {
      VisitOne(g, visited, id);
      WalkAllOrder(g, policy, f, g[id], arch, rel, visited + {id});
      DirStandsOut(WalkAll(g, policy, f, g[id], arch, rel, visited + {id}).items, arch, g[id]);
    }
  }

  /** Whatever is emitted brings the directory it lies in. */
  lemma WalkKeepsParents(g: Graph, policy: Policy, f: Filters, e: Entry, arch: Path, rel: Path, visited: set<DirId>,
                         item: Item)
    requires WellFormed(g) && Known(g, e) && Walk(g, policy, f, e, arch, rel, visited).Done?
    requires item in Walk(g, policy, f, e, arch, rel, visited).items
    ensures arch <= item.path
    ensures item.path != arch ==>
            DirItem(item.path[..|item.path| - 1]) in Walk(g, policy, f, e, arch, rel, visited).items
  {
    var items := Walk(g, policy, f, e, arch, rel, visited).items;
    WalkOrder(g, policy, f, e, arch, rel, visited);
    if item.path != arch {
      var x := item.path[|arch|..|item.path| - 1];
      var parent := item.path[..|item.path| - 1];
      assert parent == arch + x && parent <= item.path;
      WalkContainsSub(g, policy, f, e, arch, rel, visited, x);
      var entry, there := SubIsWalk(g, policy, f, e, arch, rel, visited, x);
      WalkRoot(g, policy, f, entry, parent, rel + x, there);
      assert item in Walk(g, policy, f, entry, parent, rel + x, there).items;
      if !SortOf(entry, policy).ADir? { LeafAlone(g, policy, f, entry, parent, rel + x, there); }
    }
  }

  lemma LeafAlone(g: Graph, policy: Policy, f: Filters, e: Entry, arch: Path, rel: Path, visited: set<DirId>)
    requires WellFormed(g) && Known(g, e) && Walk(g, policy, f, e, arch, rel, visited).Done? && !SortOf(e, policy).ADir?
    ensures forall item :: item in Walk(g, policy, f, e, arch, rel, visited).items ==> item.path == arch
  {}

  // ---------- when the walk stops ----------

  /** At `x`, reached through directories none of which is excluded, lies a link the walk refuses,
      or a directory that is also on the way to `x` (or was on the way here) and is not excluded. */
  predicate Blocked(g: Graph, policy: Policy, f: Filters, e: Entry, rel: Path, visited: set<DirId>, x: Path)
    requires WellFormed(g) && Known(g, e)
  {
    Open(f, rel, x) &&
    match Below(g, policy, e, x)
    case Some(AnError) => true
    case Some(ADir(id)) =>
      !Excluded(f, rel + x)
      && (id in visited || exists k :: 0 <= k < |x| && DirAt(g, policy, e, x[..k]) == Some(id))
    case _ => false
  }

  lemma BlockedStep(g: Graph, policy: Policy, f: Filters, e: Entry, rel: Path, visited: set<DirId>, x: Path,
                    id: DirId, child: Entry)
    requires WellFormed(g) && Known(g, e) && Known(g, child) && SortOf(e, policy) == ADir(id)
    requires x != [] && Child(g[id], x[0]) == Some(child) && !Excluded(f, rel)
    ensures Blocked(g, policy, f, e, rel, visited, x) <==>
              Blocked(g, policy, f, child, rel + [x[0]], visited + {id}, x[1..])
  {
    OpenStep(f, rel, x);
    var y := x[1..];
    assert rel + [x[0]] + y == rel + x;
    assert Below(g, policy, e, x) == Below(g, policy, child, y);
    match Below(g, policy, e, x)
    case Some(ADir(d)) =>
      assert x[..0] == [] && DirAt(g, policy, e, x[..0]) == Some(id);
      forall k | 0 < k <= |x| ensures DirAt(g, policy, e, x[..k]) == DirAt(g, policy, child, y[..k - 1]) {
        DirAtStep(g, policy, e, id, child, x, k);
      }
      if k :| 0 <= k < |x| && DirAt(g, policy, e, x[..k]) == Some(d) {
        assert k == 0 || DirAt(g, policy, child, y[..k - 1]) == Some(d);
      }
      if k :| 0 <= k < |y| && DirAt(g, policy, child, y[..k]) == Some(d) {
        assert DirAt(g, policy, e, x[..k + 1]) == Some(d);
      }
    case _ =>
  }

  lemma {:induction false} BlockedStops(g: Graph, policy: Policy, f: Filters, e: Entry, arch: Path, rel: Path,
                                        visited: set<DirId>, x: Path)
    requires WellFormed(g) && Known(g, e) && Blocked(g, policy, f, e, rel, visited, x)
    ensures Walk(g, policy, f, e, arch, rel, visited).Stopped?
    decreases |x|
  {
    assert rel + [] == rel;
    if x != [] {
      OpenStep(f, rel, x);
      match SortOf(e, policy)
      case ADir(id) =>
        if id !in visited {
          ChildIsKnown(g, g[id], x[0]);
          var child := Child(g[id], x[0]).value;
          BlockedStep(g, policy, f, e, rel, visited, x, id, child);
          BlockedStops(g, policy, f, child, arch + [x[0]], rel + [x[0]], visited + {id}, x[1..]);
          if WalkAll(g, policy, f, g[id], arch, rel, visited + {id}).Done? {
            ChildWalks(g, policy, f, g[id], arch, rel, visited + {id}, x[0]);
          }
        }
      case _ =>
    }
  }

  lemma {:induction false} StoppedIsBlocked(g: Graph, policy: Policy, f: Filters, e: Entry, arch: Path, rel: Path,
                                        visited: set<DirId>)
    returns (x: Path)
    requires WellFormed(g) && Known(g, e) && Walk(g, policy, f, e, arch, rel, visited).Stopped?
    ensures Blocked(g, policy, f, e, rel, visited, x)
    decreases Unvisited(g, visited), 0
  {
    x := [];
    assert rel + [] == rel;
    match SortOf(e, policy)
    case ADir(id) =>
      if id !in visited {
        VisitOne(g, visited, id);
        var name, child, y := StoppedChild(g, policy, f, g[id], arch, rel, visited + {id});
        x := [name] + y;
        assert x[1..] == y;
        BlockedStep(g, policy, f, e, rel, visited, x, id, child);
      }
    case _ =>
  }

  lemma {:induction false} StoppedChild(g: Graph, policy: Policy, f: Filters, entries: seq<Listed>, arch: Path,
                                        rel: Path, visited: set<DirId>)
    returns (name: string, child: Entry, y: Path)
    requires WellFormed(g) && Listing(g, entries) && WalkAll(g, policy, f, entries, arch, rel, visited).Stopped?
    ensures Child(entries, name) == Some(child) && Known(g, child)
    ensures Blocked(g, policy, f, child, rel + [name], visited, y)
    decreases Unvisited(g, visited), |entries|
  {
    name, child := entries[0].name, entries[0].entry;
    if Walk(g, policy, f, child, arch + [name], rel + [name], visited).Stopped? {
      y := StoppedIsBlocked(g, policy, f, child, arch + [name], rel + [name], visited);
    } else {
      name, child, y := StoppedChild(g, policy, f, entries[1..], arch, rel, visited);
      ChildIsListed(entries[1..], name);
    }
  }

  lemma {:induction false} ChildIsListed(entries: seq<Listed>, name: string)
    requires Child(entries, name).Some?
    ensures exists k :: 0 <= k < |entries| && entries[k].name == name
  {
    if entries[0].name != name {
      ChildIsListed(entries[1..], name);
      var k :| 0 <= k < |entries[1..]| && entries[1..][k].name == name;
      assert entries[k + 1].name == name;
    }
  }

  /** The walk comes to an end on every graph; it is an error exactly when some path is blocked. */
  lemma WalkStopsExactly(g: Graph, policy: Policy, f: Filters, e: Entry, arch: Path, rel: Path, visited: set<DirId>)
    requires WellFormed(g) && Known(g, e)
    ensures Walk(g, policy, f, e, arch, rel, visited).Stopped? <==>
            exists x :: Blocked(g, policy, f, e, rel, visited, x)
  {
    if Walk(g, policy, f, e, arch, rel, visited).Stopped? {
      var x := StoppedIsBlocked(g, policy, f, e, arch, rel, visited);
    }
    forall x | Blocked(g, policy, f, e, rel, visited, x) ensures Walk(g, policy, f, e, arch, rel, visited).Stopped? {
      BlockedStops(g, policy, f, e, arch, rel, visited, x);
    }
  }

  // ---------- several inputs ----------

  /** `path.is_dir()` looks through links whatever the policy; a directory is its own filter root. */
  function FilterRoot(input: Listed): Path {
    if input.entry.DirEntry? || (input.entry.LinkEntry? && input.entry.target.ToDir?) then [] else [input.name]
  }

  function WalkInputs(g: Graph, policy: Policy, f: Filters, root: string, inputs: seq<Listed>): Walked
    requires WellFormed(g) && forall i :: 0 <= i < |inputs| ==> Known(g, inputs[i].entry)
  {
    if inputs == [] then Done([])
    else match WalkInputs(g, policy, f, root, inputs[..|inputs| - 1])
      case Stopped => Stopped
      case Done(items) =>
        var last := inputs[|inputs| - 1];
        match Walk(g, policy, f, last.entry, [root] + [last.name], FilterRoot(last), {})
        case Stopped => Stopped
        case Done(more) => Done(items + more)
  }

  predicate DistinctNames(inputs: seq<Listed>) {
    forall i, j :: 0 <= i < j < |inputs| ==> inputs[i].name != inputs[j].name
  }

  /** The entries of a finished archive have distinct paths, directories after what they hold. */
  lemma {:induction false} InputsOrder(g: Graph, policy: Policy, f: Filters, root: string, inputs: seq<Listed>)
    requires WellFormed(g) && (forall i :: 0 <= i < |inputs| ==> Known(g, inputs[i].entry)) && DistinctNames(inputs)
    requires WalkInputs(g, policy, f, root, inputs).Done?
    ensures var items := WalkInputs(g, policy, f, root, inputs).items;
            PostOrder(items) && UnderChildren(items, [root], inputs)
  {
    if inputs != [] {
      var before, last := inputs[..|inputs| - 1], inputs[|inputs| - 1];
      InputsOrder(g, policy, f, root, before);
      WalkOrder(g, policy, f, last.entry, [root] + [last.name], FilterRoot(last), {});
      SiblingsAfter(WalkInputs(g, policy, f, root, before).items,
                    Walk(g, policy, f, last.entry, [root] + [last.name], FilterRoot(last), {}).items, [root], inputs);
    }
  }

  lemma SiblingsAfter(items: seq<Item>, more: seq<Item>, arch: Path, entries: seq<Listed>)
    requires entries != [] && DistinctNames(entries)
    requires PostOrder(items) && UnderChildren(items, arch, entries[..|entries| - 1])
    requires PostOrder(more) && Under(more, arch + [entries[|entries| - 1].name])
    ensures PostOrder(items + more) && UnderChildren(items + more, arch, entries)
  {
    var last := |entries| - 1;
    var all := items + more;
    forall i | 0 <= i < |all| ensures exists k :: 0 <= k < |entries| && arch + [entries[k].name] <= all[i].path {
      if i < |items| {
        var k :| 0 <= k < last && arch + [entries[..last][k].name] <= items[i].path;
        assert arch + [entries[k].name] <= all[i].path;
      } else {
        assert arch + [entries[last].name] <= all[i].path;
      }
    }
    forall i, j | 0 <= i < j < |all| ensures !(all[i].path <= all[j].path) {
      if i < |items| <= j {
        var k :| 0 <= k < last && arch + [entries[..last][k].name] <= items[i].path;
        assert all[i].path[|arch|] == (arch + [entries[k].name])[|arch|];
        assert all[j].path[|arch|] == (arch + [entries[last].name])[|arch|];
      }
    }
  }

  /** Whether the file at `x` below an input belongs into the archive. Inside a directory, or a link to
      one, the globs are matched against the path from that directory on, for any other input against
      its name; no directory on the way may be excluded. */
  predicate FileBelongs(g: Graph, policy: Policy, f: Filters, input: Listed, x: Path)
    requires WellFormed(g) && Known(g, input.entry)
  {
    var leadsToDir := match input.entry
      case DirEntry(_) => true
      case LinkEntry(ToDir(_)) => true
      case _ => false;
    var matched := if leadsToDir then x else [input.name] + x;
    && Below(g, policy, input.entry, x) == Some(AFile)
    && !f.excludes(matched) && (f.includes == None || f.includes.value(matched))
    && forall k :: 0 <= k < |x| ==> !f.excludes(if leadsToDir then x[..k] else [input.name] + x[..k])
  }

  /** The archive holds exactly those files of each input. */
  ghost predicate FilesAreThose(g: Graph, policy: Policy, f: Filters, root: string, inputs: seq<Listed>,
                                items: seq<Item>)
    requires WellFormed(g) && forall i :: 0 <= i < |inputs| ==> Known(g, inputs[i].entry)
  {
    forall i, x: Path :: 0 <= i < |inputs| ==>
      (FileItem([root] + [inputs[i].name] + x) in items <==> FileBelongs(g, policy, f, inputs[i], x))
  }

  lemma InputEmitsFiles(g: Graph, policy: Policy, f: Filters, arch: Path, input: Listed, x: Path)
    requires WellFormed(g) && Known(g, input.entry)
    requires Walk(g, policy, f, input.entry, arch, FilterRoot(input), {}).Done?
    ensures FileItem(arch + x) in Walk(g, policy, f, input.entry, arch, FilterRoot(input), {}).items <==>
              FileBelongs(g, policy, f, input, x)
  {
    WalkEmitsLeaves(g, policy, f, input.entry, arch, FilterRoot(input), {}, x);
    forall k | 0 <= k <= |x|
      ensures FilterRoot(input) + x[..k] == if FilterRoot(input) == [] then x[..k] else [input.name] + x[..k]
    {
      if FilterRoot(input) == [] { assert [] + x[..k] == x[..k]; }
    }
    assert x[..|x|] == x;
  }

  lemma {:induction false} InputsEmitFiles(g: Graph, policy: Policy, f: Filters, root: string, inputs: seq<Listed>)
    requires WellFormed(g) && (forall i :: 0 <= i < |inputs| ==> Known(g, inputs[i].entry)) && DistinctNames(inputs)
    requires WalkInputs(g, policy, f, root, inputs).Done?
    ensures FilesAreThose(g, policy, f, root, inputs, WalkInputs(g, policy, f, root, inputs).items)
  {
    if inputs != [] {
      var before, last := inputs[..|inputs| - 1], inputs[|inputs| - 1];
      var items := WalkInputs(g, policy, f, root, before).items;
      var more := Walk(g, policy, f, last.entry, [root] + [last.name], FilterRoot(last), {}).items;
      InputsEmitFiles(g, policy, f, root, before);
      InputsOrder(g, policy, f, root, before);
      WalkOrder(g, policy, f, last.entry, [root] + [last.name], FilterRoot(last), {});
      forall i, x: Path | 0 <= i < |inputs|
        ensures FileItem([root] + [inputs[i].name] + x) in items + more <==> FileBelongs(g, policy, f, inputs[i], x)
      {
        var p := [root] + [inputs[i].name] + x;
        assert p[1] == inputs[i].name;
        if i < |before| {
          assert before[i] == inputs[i];
          assert FileItem(p) !in more;
        } else {
          InputEmitsFiles(g, policy, f, [root] + [last.name], last, x);
          assert FileItem(p) !in items;
        }
      }
    }
  }

  // ---------- links under the policies ----------

  /** A followed link yields what its target yields, and stops the walk when it leads nowhere. */
  lemma FollowedLink(g: Graph, f: Filters, id: DirId, arch: Path, rel: Path, visited: set<DirId>)
    requires WellFormed(g) && id in g
    ensures Walk(g, Follow, f, LinkEntry(ToDir(id)), arch, rel, visited)
            == Walk(g, Follow, f, DirEntry(id), arch, rel, visited)
    ensures Walk(g, Follow, f, LinkEntry(ToFile), arch, rel, visited)
            == Walk(g, Follow, f, FileEntry, arch, rel, visited)
    ensures Walk(g, Follow, f, LinkEntry(Nowhere), arch, rel, visited).Stopped?
  {}

  /** A kept link is a link and nothing else wherever it leads, and is never entered; a rejected one stops
      the walk whatever the globs say. */
  lemma UnfollowedLink(g: Graph, f: Filters, target: Target, arch: Path, rel: Path, visited: set<DirId>)
    requires WellFormed(g) && Known(g, LinkEntry(target))
    ensures Walk(g, Preserve, f, LinkEntry(target), arch, rel, visited)
            == Done(if !f.excludes(rel) && (f.includes == None || f.includes.value(rel)) then [LinkItem(arch)] else [])
    ensures Walk(g, Reject, f, LinkEntry(target), arch, rel, visited).Stopped?
  {}

  /** A file is a file, and a directory what it lists, under every policy. */
  lemma PlainEntries(g: Graph, policy: Policy, f: Filters, id: DirId, arch: Path, rel: Path, visited: set<DirId>)
    requires WellFormed(g) && id in g
    ensures Walk(g, policy, f, FileEntry, arch, rel, visited)
            == Done(if !f.excludes(rel) && (f.includes == None || f.includes.value(rel)) then [FileItem(arch)] else [])
    ensures f.excludes(rel) ==> Walk(g, policy, f, DirEntry(id), arch, rel, visited) == Done([])
    ensures !f.excludes(rel) && id in visited ==> Walk(g, policy, f, DirEntry(id), arch, rel, visited).Stopped?
    ensures !f.excludes(rel) && id !in visited ==>
              Walk(g, policy, f, DirEntry(id), arch, rel, visited)
              == match WalkAll(g, policy, f, g[id], arch, rel, visited + {id})
                 case Stopped => Stopped
                 case Done(items) =>
                   var whole := items != [] || f.includes == None || f.includes.value(rel);
                   Done(if whole then items + [DirItem(arch)] else [])
  {
    if id !in visited { VisitOne(g, visited, id); }
  }

  // ---------- the code ----------

  class Archiver {
    const graph: Graph
    const policy: Policy
    const filters: Filters
    var builder: seq<Item>
    var visited: set<DirId>

    constructor (graph: Graph, policy: Policy, filters: Filters)
      ensures this.graph == graph && this.policy == policy && this.filters == filters
      ensures builder == [] && visited == {}
    {
      this.graph, this.policy, this.filters := graph, policy, filters;
      builder, visited := [], {};
    }

    /** Append what the filters let through; the result is whether anything was, or none on an error.
        On success `visited` is back to what it was. */
    method AppendFilteredPath(e: Entry, archivePath: Path, filterPath: Path) returns (appended: Option<bool>)
      requires WellFormed(graph) && Known(graph, e)
      modifies this
      ensures match Walk(graph, policy, filters, e, archivePath, filterPath, old(visited))
              case Stopped => appended == None
              case Done(items) =>
                && appended == Some(items != []) && builder == old(builder) + items && visited == old(visited)
      decreases Unvisited(graph, visited), 0, 1
    {
      ghost var spec := Walk(graph, policy, filters, e, archivePath, filterPath, visited);
      if e.LinkEntry? && policy == Reject { return None; }
      if e.LinkEntry? && policy == Preserve {
        if !Selected(filters, filterPath) { return Some(false); }
        builder := builder + [LinkItem(archivePath)];
        return Some(true);
      }
      if e.LinkEntry? && e.target.Nowhere? { return None; }
      if e.FileEntry? || (e.LinkEntry? && e.target.ToFile?) {
        if !Selected(filters, filterPath) { return Some(false); }
        builder := builder + [FileItem(archivePath)];
        return Some(true);
      }
      appended := AppendDirectory(if e.DirEntry? then e.id else e.target.id, archivePath, filterPath);
    }

    method AppendDirectory(id: DirId, archivePath: Path, filterPath: Path) returns (appended: Option<bool>)
      requires WellFormed(graph) && id in graph
      modifies this
      ensures match WalkDir(graph, policy, filters, id, archivePath, filterPath, old(visited))
              case Stopped => appended == None
              case Done(items) =>
                && appended == Some(items != []) && builder == old(builder) + items && visited == old(visited)
      decreases Unvisited(graph, visited), 0, 0
    {
      if Excluded(filters, filterPath) { return Some(false); }
      if id in visited { return None; }
      VisitOne(graph, visited, id);
      visited := visited + {id};
      var any := AppendEntries(graph[id], archivePath, filterPath);
      if any.None? { return None; }
      visited := visited - {id};
      appended := Some(Selected(filters, filterPath) || any.value);
      if appended.value { builder := builder + [DirItem(archivePath)]; }
    }

    method AppendEntries(entries: seq<Listed>, archivePath: Path, filterPath: Path) returns (any: Option<bool>)
      requires WellFormed(graph) && Listing(graph, entries)
      modifies this
      ensures match WalkAll(graph, policy, filters, entries, archivePath, filterPath, old(visited))
              case Stopped => any == None
              case Done(items) => any == Some(items != []) && builder == old(builder) + items && visited == old(visited)
      decreases Unvisited(graph, visited), 1, 0
    {
      ghost var whole := WalkAll(graph, policy, filters, entries, archivePath, filterPath, visited);
      ghost var written: seq<Item> := [];
      NothingPrefixed(whole);
      assert entries[0..] == entries;
      any := Some(false);
      var i := 0;
      while i < |entries|
        invariant i <= |entries| && visited == old(visited) && builder == old(builder) + written
        invariant any == Some(written != [])
        invariant whole == Prefixed(written,
                  WalkAll(graph, policy, filters, entries[i..], archivePath, filterPath, visited))
      {
        WalkAllStep(graph, policy, filters, entries, i, archivePath, filterPath, visited, written);
        var name := entries[i].name;
        ghost var first :=
          Walk(graph, policy, filters, entries[i].entry, archivePath + [name], filterPath + [name], visited);
        var child := AppendFilteredPath(entries[i].entry, archivePath + [name], filterPath + [name]);
        if child.None? { return None; }
        Regroup(old(builder), written, first.items);
        written := written + first.items;
        any := Some(any.value || child.value);
        i := i + 1;
      }
      assert entries[i..] == [] && written + [] == written;
    }

    /** The inputs one after another: none on a repeated name or a failed walk. */
    method AppendInputs(root: string, inputs: seq<Listed>) returns (appended: Option<bool>)
      requires WellFormed(graph) && forall i :: 0 <= i < |inputs| ==> Known(graph, inputs[i].entry)
      requires builder == [] && visited == {}
      modifies this
      ensures appended.Some? <==> NoRepeat(inputs) && WalkInputs(graph, policy, filters, root, inputs).Done?
      ensures appended.Some? ==>
                builder == WalkInputs(graph, policy, filters, root, inputs).items && appended.value == (builder != [])
    {
      var seen: set<string> := {};
      var any := false;
      var i := 0;
      while i < |inputs|
        invariant i <= |inputs| && visited == {}
        invariant NoRepeat(inputs[..i]) && seen == Names(inputs[..i])
        invariant WalkInputs(graph, policy, filters, root, inputs[..i]) == Done(builder)
        invariant any == (builder != [])
      {
        var input := inputs[i];
        InputStep(graph, policy, filters, root, inputs, i);
        if input.name in seen {
          RepeatStays(inputs, i + 1);
          return None;
        }
        seen := seen + {input.name};
        var r := AppendFilteredPath(input.entry, [root] + [input.name], FilterRoot(input));
        if r.None? {
          StoppedStays(graph, policy, filters, root, inputs, i + 1);
          return None;
        }
        any := any || r.value;
        i := i + 1;
      }
      assert inputs[..|inputs|] == inputs;
      appended := Some(any);
    }

    /** One archive from several inputs: an error on a repeated name, a failed walk or an empty result. */
    method FromArchive(root: string, inputs: seq<Listed>) returns (ok: bool)
      requires WellFormed(graph) && forall i :: 0 <= i < |inputs| ==> Known(graph, inputs[i].entry)
      requires builder == [] && visited == {}
      modifies this
      ensures ok <==>
                && DistinctNames(inputs)
                && WalkInputs(graph, policy, filters, root, inputs).Done?
                && WalkInputs(graph, policy, filters, root, inputs).items != []
      ensures ok ==> builder == WalkInputs(graph, policy, filters, root, inputs).items && PostOrder(builder)
      ensures ok ==> FilesAreThose(graph, policy, filters, root, inputs, builder)
    {
      var appended := AppendInputs(root, inputs);
      NoRepeatIsDistinct(inputs);
      ok := appended == Some(true);
      if ok {
        InputsOrder(graph, policy, filters, root, inputs);
        InputsEmitFiles(graph, policy, filters, root, inputs);
      }
    }
  }

  function Names(inputs: seq<Listed>): set<string> {
    if inputs == [] then {} else Names(inputs[..|inputs| - 1]) + {inputs[|inputs| - 1].name}
  }

  /** No input has the name of an earlier one. */
  predicate NoRepeat(inputs: seq<Listed>) {
    inputs == [] || (NoRepeat(inputs[..|inputs| - 1]) && inputs[|inputs| - 1].name !in Names(inputs[..|inputs| - 1]))
  }

  lemma {:induction false} NameIsThere(inputs: seq<Listed>, name: string)
    ensures name in Names(inputs) <==> exists k :: 0 <= k < |inputs| && inputs[k].name == name
  {
    if inputs != [] {
      var last := |inputs| - 1;
      NameIsThere(inputs[..last], name);
      if k :| 0 <= k < |inputs| && inputs[k].name == name {
        assert k == last || inputs[..last][k].name == name;
      }
      if k :| 0 <= k < last && inputs[..last][k].name == name { assert inputs[k].name == name; }
      assert inputs[last].name == name ==> exists k :: 0 <= k < |inputs| && inputs[k].name == name;
    }
  }

  lemma {:induction false} NoRepeatIsDistinct(inputs: seq<Listed>)
    ensures NoRepeat(inputs) <==> DistinctNames(inputs)
  {
    if inputs != [] {
      var last := |inputs| - 1;
      var before := inputs[..last];
      NoRepeatIsDistinct(before);
      NameIsThere(before, inputs[last].name);
      if NoRepeat(inputs) {
        forall i, j | 0 <= i < j < |inputs| ensures inputs[i].name != inputs[j].name {
          assert before[i].name == inputs[i].name;
          if j < last { assert before[j].name == inputs[j].name; }
        }
      }
      if DistinctNames(inputs) {
        assert forall k :: 0 <= k < last ==> before[k] == inputs[k];
      }
    }
  }

  lemma {:induction false} RepeatStays(inputs: seq<Listed>, i: nat)
    requires i <= |inputs| && !NoRepeat(inputs[..i])
    ensures !NoRepeat(inputs)
    decreases |inputs|
  {
    if i < |inputs| {
      assert inputs[..|inputs| - 1][..i] == inputs[..i];
      RepeatStays(inputs[..|inputs| - 1], i);
    } else {
      assert inputs[..i] == inputs;
    }
  }

  function Prefixed(items: seq<Item>, w: Walked): Walked {
    match w
    case Stopped => Stopped
    case Done(more) => Done(items + more)
  }

  lemma NothingPrefixed(w: Walked)
    ensures Prefixed([], w) == w
  {
    if w.Done? { assert [] + w.items == w.items; }
  }

  /** The inputs up to and including number `i`. */
  lemma InputStep(g: Graph, policy: Policy, f: Filters, root: string, inputs: seq<Listed>, i: nat)
    requires WellFormed(g) && (forall k :: 0 <= k < |inputs| ==> Known(g, inputs[k].entry)) && i < |inputs|
    ensures WalkInputs(g, policy, f, root, inputs[..i + 1])
            == match WalkInputs(g, policy, f, root, inputs[..i])
               case Stopped => Stopped
               case Done(items) =>
                 Prefixed(items, Walk(g, policy, f, inputs[i].entry, [root] + [inputs[i].name],
                                      FilterRoot(inputs[i]), {}))
    ensures Names(inputs[..i + 1]) == Names(inputs[..i]) + {inputs[i].name}
    ensures NoRepeat(inputs[..i + 1]) <==> NoRepeat(inputs[..i]) && inputs[i].name !in Names(inputs[..i])
  {
    assert inputs[..i + 1][..i] == inputs[..i] && inputs[..i + 1][i] == inputs[i];
  }

  lemma WalkAllStep(g: Graph, policy: Policy, f: Filters, entries: seq<Listed>, i: nat, arch: Path, rel: Path,
                    visited: set<DirId>, written: seq<Item>)
    requires WellFormed(g) && Listing(g, entries) && i < |entries|
    ensures var name := entries[i].name;
            var rest := WalkAll(g, policy, f, entries[i + 1..], arch, rel, visited);
            Prefixed(written, WalkAll(g, policy, f, entries[i..], arch, rel, visited))
            == match Walk(g, policy, f, entries[i].entry, arch + [name], rel + [name], visited)
               case Stopped => Stopped
               case Done(first) => Prefixed(written + first, rest)
  {
    assert entries[i..][0] == entries[i] && entries[i..][1..] == entries[i + 1..];
    var name := entries[i].name;
    match Walk(g, policy, f, entries[i].entry, arch + [name], rel + [name], visited)
    case Stopped =>
    case Done(first) =>
      match WalkAll(g, policy, f, entries[i + 1..], arch, rel, visited)
      case Stopped =>
      case Done(more) => assert written + (first + more) == written + first + more;
  }

  lemma {:induction false} StoppedStays(g: Graph, policy: Policy, f: Filters, root: string, inputs: seq<Listed>, i: nat)
    requires WellFormed(g) && forall k :: 0 <= k < |inputs| ==> Known(g, inputs[k].entry)
    requires i <= |inputs| && WalkInputs(g, policy, f, root, inputs[..i]).Stopped?
    ensures WalkInputs(g, policy, f, root, inputs).Stopped?
    decreases |inputs|
  {
    if i < |inputs| {
      assert inputs[..|inputs| - 1][..i] == inputs[..i];
      StoppedStays(g, policy, f, root, inputs[..|inputs| - 1], i);
    } else {
      assert inputs[..i] == inputs;
    }
  }
}
