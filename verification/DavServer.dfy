/** The WebDAV server's lock table and file operations, one atomic request at a time
    (sections 6.1, 7 and 9.7 to 9.11 of RFC 4918, as the code implements them). */
module DavServer {
  import opened Wrappers
  import opened Bytes
  import opened DavTree
  import opened RequestBody
  import ChunkedStreams

  type Token = string

  datatype Lock = Lock(token: Token, expires: int)

  type Locks = map<Path, Lock>

  datatype Status =
    | Ok | Created | NoContent
    | BadRequest | Forbidden | NotFound | NotAllowed | Conflict | PreconditionFailed | Unsupported | Locked
    | Failed  // the handler returned an error after changing or not changing the disk

  /** The files and the locks. */
  datatype Store = Store(nodes: Tree, locks: Locks)

  datatype Reply = Reply(store: Store, status: Status)

  // ---------- locks ----------

  function Live(locks: Locks, now: int): Locks {
    map p | p in locks && locks[p].expires > now :: locks[p]
  }

  /** Every live lock on the way to `target` or below it is presented. */
  predicate Permits(locks: Locks, now: int, target: Path, presented: set<Token>) {
    forall p :: p in Live(locks, now) && Comparable(p, target) ==> Live(locks, now)[p].token in presented
  }

  function LockAt(locks: Locks, p: Path): Option<Lock> {
    if p in locks then Some(locks[p]) else None
  }

  /** Locks at or below `source` follow the resource; one already at the new place is replaced. */
  function MovedLocks(locks: Locks, source: Path, destination: Path): (r: Locks)
    ensures forall k: Path ::
              LockAt(r, k) == if destination <= k && Rebase(k, destination, source) in locks
                              then Some(locks[Rebase(k, destination, source)])
                              else if source <= k then None else LockAt(locks, k)
  {
    forall q | q in locks && source <= q { RebaseBack(q, source, destination); }
    var arriving := set q | q in locks && source <= q :: Rebase(q, source, destination);
    var keys := (set q | q in locks && !(source <= q)) + arriving;
    assert forall k: Path :: destination <= k ==> (k in arriving <==> Rebase(k, destination, source) in locks) by {
      forall k: Path | destination <= k ensures k in arriving <==> Rebase(k, destination, source) in locks {
        RebaseBack(k, destination, source);
      }
    }
    map k | k in keys :: if k in arriving then locks[Rebase(k, destination, source)] else locks[k]
  }

  function Timeout(header: Option<nat>): nat {
    match header
    case None => 3600
    case Some(n) => if n < 1 then 1 else if n > 3600 then 3600 else n
  }

  // ---------- one request ----------

  /** `writable_target`: the parent must exist; the root has none. */
  predicate Writable(t: Tree, p: Path) { p != [] && Parent(p) in t }

  function PutReply(st: Store, now: int, presented: set<Token>, path: Path, body: Option<seq<Byte>>): Reply {
    if !Writable(st.nodes, path) then Reply(st, Conflict)
    else
      var pruned := st.(locks := Live(st.locks, now));
      if !Permits(st.locks, now, path, presented) then Reply(pruned, Locked)
      else if st.nodes[Parent(path)].File? then Reply(pruned, Failed)
      else if body.None? then Reply(pruned, BadRequest)
      else if At(st.nodes, path) == Some(Dir) then Reply(pruned, Conflict)
      else Reply(pruned.(nodes := st.nodes[path := File(body.value)]), Created)
  }

  /** A file may be put at `path`: there is a directory for it, its lock is presented, no directory is there. */
  predicate CanPut(st: Store, now: int, presented: set<Token>, path: Path) {
    && path != [] && At(st.nodes, Parent(path)) == Some(Dir) && At(st.nodes, path) != Some(Dir)
    && Permits(st.locks, now, path, presented)
  }

  /** A file is put exactly when it may be and its body has come; for the body alone the answer is 400. */
  lemma PutSucceedsExactly(st: Store, now: int, presented: set<Token>, path: Path, body: Option<seq<Byte>>)
    ensures var reply := PutReply(st, now, presented, path, body);
            && (reply.status == Created <==> CanPut(st, now, presented, path) && body.Some?)
            && (CanPut(st, now, presented, path) && body.None? ==> reply.status == BadRequest)
            && reply.store.nodes == if reply.status == Created then st.nodes[path := File(body.value)] else st.nodes
  {}

  function MkcolReply(st: Store, now: int, presented: set<Token>, path: Path, hasBody: bool): Reply {
    if path == [] then Reply(st, NotAllowed)
    else if hasBody then Reply(st, Unsupported)
    else if !Writable(st.nodes, path) then Reply(st, Conflict)
    else
      var pruned := st.(locks := Live(st.locks, now));
      if !Permits(st.locks, now, path, presented) then Reply(pruned, Locked)
      else if st.nodes[Parent(path)].File? then Reply(pruned, Failed)
      else if path in st.nodes then Reply(pruned, NotAllowed)
      else Reply(pruned.(nodes := st.nodes[path := Dir]), Created)
  }

  function DeleteReply(st: Store, now: int, presented: set<Token>, path: Path): Reply {
    if path == [] then Reply(st, Forbidden)
    else if path !in st.nodes then Reply(st, NotFound)
    else
      var pruned := st.(locks := Live(st.locks, now));
      if !Permits(st.locks, now, path, presented) then Reply(pruned, Locked)
      else Reply(pruned.(nodes := RemoveTree(st.nodes, path)), NoContent)
  }

  /** The source can be renamed or copied to a place where nothing is. */
  predicate Transferable(t: Tree, source: Path, destination: Path) {
    source in t && destination != [] && At(t, Parent(destination)) == Some(Dir)
  }

  function TransferReply(st: Store, now: int, presented: set<Token>, move: bool,
                         source: Path, destination: Option<Path>, overwrite: bool): Reply {
    if source == [] then Reply(st, Forbidden)
    else if source !in st.nodes then Reply(st, NotFound)
    else if destination.None? || destination.value == [] then Reply(st, BadRequest)
    else if !Writable(st.nodes, destination.value) then Reply(st, Conflict)
    else
      var target := destination.value;
      var pruned := st.(locks := Live(st.locks, now));
      var occupied := target in st.nodes;
      if !Permits(st.locks, now, source, presented) || !Permits(st.locks, now, target, presented) then
        Reply(pruned, Locked)
      else if st.nodes[source].Dir? && source <= target then Reply(pruned, Forbidden)
      else if occupied && !overwrite then Reply(pruned, PreconditionFailed)
      else
        var cleared := RemoveTree(st.nodes, target);
        var done := if occupied then NoContent else Created;
        if !Transferable(cleared, source, target) then Reply(pruned.(nodes := cleared), Failed)
        else if move then
          Reply(Store(RemoveTree(Graft(cleared, source, target), source), MovedLocks(pruned.locks, source, target)),
              done)
        else
          Reply(pruned.(nodes := Graft(cleared, source, target)), done)
  }

  function LockReply(st: Store, now: int, presented: set<Token>, path: Path, timeout: Option<nat>,
                     newToken: Token): Reply {
    if !Writable(st.nodes, path) then Reply(st, Conflict)
    else
      var live := Live(st.locks, now);
      var done := if path in st.nodes then Ok else Created;
      if path in live then
        if live[path].token in presented then
          Reply(st.(locks := live[path := live[path].(expires := now + Timeout(timeout))]), done)
        else Reply(st.(locks := live), Locked)
      else if exists p :: p in live && Comparable(p, path) then Reply(st.(locks := live), Locked)
      else Reply(st.(locks := live[path := Lock(newToken, now + Timeout(timeout))]), done)
  }

  function UnlockReply(st: Store, now: int, path: Path, token: Option<Token>): Reply {
    if path !in st.nodes && !Writable(st.nodes, path) then Reply(st, Conflict)
    else
      var live := Live(st.locks, now);
      if path in live && Some(live[path].token) == token then Reply(st.(locks := live - {path}), NoContent)
      else Reply(st.(locks := live), Conflict)
  }

  // ---------- the server ----------

  /** Length of the longest path, a bound on how deep a copy recurses. */
  ghost function Depth(paths: set<Path>): (d: nat)
    ensures forall p :: p in paths ==> |p| <= d
  {
    if paths == {} then 0
    else
      var p :| p in paths;
      var rest := Depth(paths - {p});
      if |p| > rest then |p| else rest
  }

  /** A copy in progress: the children named in `done` have been copied, nothing else has changed. */
  ghost predicate PartlyGrafted(before: Tree, after: Tree, source: Path, destination: Path, done: set<string>) {
    forall k: Path ::
      At(after, k) == if destination <= k && (k == destination || k[|destination|] in done)
                      then At(before, Rebase(k, destination, source)) else At(before, k)
  }

  class Server {
    var nodes: Tree
    var locks: Locks

    constructor (nodes: Tree)
      ensures this.nodes == nodes && locks == map[]
    {
      this.nodes, locks := nodes, map[];
    }

    function State(): Store
      reads this
    {
      Store(nodes, locks)
    }

    /** Keep the locks that have not expired. */
    method PruneLocks(now: int)
      modifies this`locks
      ensures locks == Live(old(locks), now)
    {
      ghost var before := locks;
      var left := locks.Keys;
      while left != {}
        invariant left <= before.Keys
        invariant forall k: Path :: LockAt(locks, k) ==
                    if k in before && (k in left || before[k].expires > now) then Some(before[k]) else None
      {
        var p :| p in left;
        assert LockAt(locks, p) == Some(before[p]);
        if !(locks[p].expires > now) { locks := locks - {p}; }
        left := left - {p};
      }
      SameLocks(locks, Live(before, now));
    }

    method LockPermits(now: int, target: Path, presented: set<Token>) returns (ok: bool)
      modifies this`locks
      ensures locks == Live(old(locks), now) && ok == Permits(old(locks), now, target, presented)
    {
      PruneLocks(now);
      var left := locks.Keys;
      while left != {}
        invariant left <= locks.Keys
        invariant forall p :: p in locks && p !in left && Comparable(p, target) ==> locks[p].token in presented
      {
        var p :| p in left;
        if Comparable(p, target) && locks[p].token !in presented { return false; }
        left := left - {p};
      }
      ok := true;
    }

    /** Take out the locks at and below the source, then put them back below the destination. */
    method MoveLocks(now: int, source: Path, destination: Path)
      modifies this`locks
      ensures locks == MovedLocks(Live(old(locks), now), source, destination)
    {
      PruneLocks(now);
      ghost var before := locks;
      var moved: seq<(Path, Lock)> := [];
      var left := set p | p in locks && source <= p;
      while left != {}
        invariant left == set p | p in locks && source <= p
        invariant Extracted(before, locks, source)
        invariant Carries(moved, before, locks, source, destination)
        decreases left
      {
        var p :| p in left;
        OneMoreCarried(moved, before, locks, source, destination, p);
        moved := moved + [(Rebase(p, source, destination), locks[p])];
        locks := locks - {p};
        left := left - {p};
      }
      ghost var stayed := locks;
      assert forall k: Path :: k in stayed && source <= k ==> k in left;
      assert Carries(moved, before, stayed, source, destination);
      for i := 0 to |moved|
        invariant PutBack(before, stayed, locks, moved[..i], source, destination)
      {
        OneMoreArrived(moved, i, before, stayed, locks, source, destination);
        locks := locks[moved[i].0 := moved[i].1];
      }
      assert moved[..|moved|] == moved;
      AllMoved(before, stayed, locks, moved, source, destination);
    }

    /** The lock is looked at first; then the body goes to a temporary file, and what that holds is stored. */
    method Put(now: int, presented: set<Token>, path: Path, framing: Framing, wire: ChunkedStreams.Wire)
      returns (status: Status, ghost body: Option<seq<Byte>>)
      modifies this, wire
      ensures Reply(State(), status) == PutReply(old(State()), now, presented, path, body)
      ensures body.Some? ==> Delivers(framing, old(wire.buffered), old(wire.unread), body.value)
      ensures status == BadRequest ==> MayFail(framing, old(wire.buffered), old(wire.unread))
      ensures nodes == if status == Created && body.Some? then old(nodes)[path := File(body.value)] else old(nodes)
      ensures CanPut(old(State()), now, presented, path) ==>
                status == if body.Some? then Created else BadRequest
      ensures status == Locked ==> wire.Unconsumed() == old(wire.Unconsumed())
    {
      body := None;
      if !Writable(nodes, path) { return Conflict, body; }
      var permitted := LockPermits(now, path, presented);
      if !permitted { return Locked, body; }
      if nodes[Parent(path)].File? { return Failed, body; }
      var contents := ReceiveBody(wire, framing);
      body := contents;
      if contents.None? { return BadRequest, body; }
      if path in nodes && nodes[path].Dir? { return Conflict, body; }
      nodes := nodes[path := File(contents.value)];
      status := Created;
    }

    method Mkcol(now: int, presented: set<Token>, path: Path, hasBody: bool) returns (status: Status)
      modifies this
      ensures Reply(State(), status) == MkcolReply(old(State()), now, presented, path, hasBody)
    {
      if path == [] { return NotAllowed; }
      if hasBody { return Unsupported; }
      if !Writable(nodes, path) { return Conflict; }
      var permitted := LockPermits(now, path, presented);
      if !permitted { return Locked; }
      if nodes[Parent(path)].File? { return Failed; }
      if path in nodes { return NotAllowed; }
      nodes := nodes[path := Dir];
      status := Created;
    }

    method Delete(now: int, presented: set<Token>, path: Path) returns (status: Status)
      modifies this
      ensures Reply(State(), status) == DeleteReply(old(State()), now, presented, path)
    {
      if path == [] { return Forbidden; }
      if path !in nodes { return NotFound; }
      var permitted := LockPermits(now, path, presented);
      if !permitted { return Locked; }
      nodes := RemoveTree(nodes, path);
      status := NoContent;
    }

    /** `copy_path`: create the directory, then copy its entries in whatever order they are listed. */
    method CopyPath(source: Path, destination: Path, ghost depth: nat) returns (ok: bool)
      requires WellFormed(nodes) && destination !in nodes && destination != []
      requires source in nodes && nodes[source].Dir? ==> !(source <= destination)
      requires forall q :: q in nodes && source <= q ==> |q| <= depth
      modifies this`nodes
      ensures ok == Transferable(old(nodes), source, destination)
      ensures nodes == if ok then Graft(old(nodes), source, destination) else old(nodes)
      decreases depth - |source|, 1
    {
      if source !in nodes || At(nodes, Parent(destination)) != Some(Dir) { return false; }
      ghost var before := nodes;
      if nodes[source].File? {
        nodes := nodes[destination := nodes[source]];
        FileCopied(before, source, destination);
        return true;
      }
      var names := set q | q in nodes && q != [] && Parent(q) == source :: q[|q| - 1];
      ChildNames(nodes, source, names);
      nodes := nodes[destination := Dir];
      CopyStarted(before, source, destination);
      CopyEntries(source, destination, names, before, depth);
      ok := true;
    }

    /** Copy the entries of these names, of a directory that was there before the copy began. */
    method CopyEntries(source: Path, destination: Path, entries: set<string>, ghost before: Tree, ghost depth: nat)
      requires WellFormed(before) && destination !in before && Transferable(before, source, destination)
      requires !(source <= destination) && before[source].Dir?
      requires PartlyGrafted(before, nodes, source, destination, {})
      requires forall n: string :: source + [n] in before <==> n in entries
      requires forall q :: q in before && source <= q ==> |q| <= depth
      modifies this`nodes
      ensures nodes == Graft(before, source, destination)
      decreases depth - |source|, 0
    {
      var names := entries;
      ghost var done := {};
      while names != {}
        invariant done !! names
        invariant forall n: string :: source + [n] in before <==> n in names || n in done
        invariant PartlyGrafted(before, nodes, source, destination, done)
        decreases names
      {
        var n :| n in names;
        ChildReady(before, nodes, source, destination, done, n);
        ghost var midway := nodes;
        ChildDepth(before, nodes, source, destination, done, n, depth);
        var ok := CopyPath(source + [n], destination + [n], depth);
        ChildDone(before, midway, nodes, source, destination, done, n);
        done, names := done + {n}, names - {n};
      }
      CopyFinished(before, nodes, source, destination, done);
    }

    method MoveOrCopy(now: int, presented: set<Token>, move: bool,
                      source: Path, destination: Option<Path>, overwrite: bool) returns (status: Status)
      requires WellFormed(nodes)
      modifies this
      ensures Reply(State(), status)
              == TransferReply(old(State()), now, presented, move, source, destination, overwrite)
    {
      if source == [] { return Forbidden; }
      if source !in nodes { return NotFound; }
      if destination.None? || destination.value == [] { return BadRequest; }
      var target := destination.value;
      if !Writable(nodes, target) { return Conflict; }
      var permitted := LockPermits(now, source, presented);
      var permittedThere := LockPermits(now, target, presented);
      PruneTwice(old(locks), now);
      if !permitted || !permittedThere { return Locked; }
      if nodes[source].Dir? && source <= target { return Forbidden; }
      var occupied := target in nodes;
      if occupied && !overwrite { return PreconditionFailed; }
      RemoveKeepsWellFormed(nodes, target);
      if !occupied { NothingToRemove(nodes, target); }
      if occupied { nodes := RemoveTree(nodes, target); }
      assert nodes == RemoveTree(old(nodes), target);
      var ok := Transferable(nodes, source, target);
      if move {
        if ok {
          nodes := RemoveTree(Graft(nodes, source, target), source);
          MoveLocks(now, source, target);
        }
      } else {
        ok := CopyPath(source, target, Depth(nodes.Keys));
      }
      status := if !ok then Failed else if occupied then NoContent else Created;
    }

    method TakeLock(now: int, presented: set<Token>, path: Path, timeout: Option<nat>,
                    newToken: Token) returns (status: Status)
      modifies this
      ensures Reply(State(), status) == LockReply(old(State()), now, presented, path, timeout, newToken)
    {
      var existed := path in nodes;
      if !Writable(nodes, path) { return Conflict; }
      PruneLocks(now);
      if path in locks {
        if locks[path].token !in presented { return Locked; }
        locks := locks[path := locks[path].(expires := now + Timeout(timeout))];
      } else if exists p :: p in locks && Comparable(p, path) {
        return Locked;
      } else {
        locks := locks[path := Lock(newToken, now + Timeout(timeout))];
      }
      status := if existed then Ok else Created;
    }

    method ReleaseLock(now: int, path: Path, token: Option<Token>) returns (status: Status)
      modifies this
      ensures Reply(State(), status) == UnlockReply(old(State()), now, path, token)
    {
      if path !in nodes && !Writable(nodes, path) { return Conflict; }
      PruneLocks(now);
      if path in locks && Some(locks[path].token) == token {
        locks := locks - {path};
        return NoContent;
      }
      status := Conflict;
    }
  }

  // ---------- lemmas of the lock loops ----------

  lemma SameLocks(a: Locks, b: Locks)
    requires forall k: Path :: LockAt(a, k) == LockAt(b, k)
    ensures a == b
  {
    forall k: Path ensures k in a <==> k in b {
      assert LockAt(a, k) == LockAt(b, k);
    }
    forall k: Path | k in a ensures a[k] == b[k] {
      assert LockAt(a, k) == LockAt(b, k);
    }
  }

  /** `locks` is `before` without some of the locks at and below `source`. */
  ghost predicate Extracted(before: Locks, locks: Locks, source: Path) {
    && (forall k: Path :: k in locks ==> k in before && locks[k] == before[k])
    && (forall k: Path :: k in before && !(source <= k) ==> k in locks)
  }

  /** `moved` holds the locks taken out so far under their new paths. */
  ghost predicate Carries(moved: seq<(Path, Lock)>, before: Locks, locks: Locks, source: Path, destination: Path) {
    && (forall m :: m in moved ==> Comes(m, before, source, destination))
    && (forall k: Path :: k in before && k !in locks && source <= k ==>
          (Rebase(k, source, destination), before[k]) in moved)
  }

  /** The lock that moves to `k`, if there is one. */
  function Origin(before: Locks, k: Path, source: Path, destination: Path): Option<Lock> {
    if destination <= k then LockAt(before, Rebase(k, destination, source)) else None
  }

  /** One of them: the new path, and the lock that stood at the old one. */
  ghost predicate Comes(m: (Path, Lock), before: Locks, source: Path, destination: Path) {
    Origin(before, m.0, source, destination) == Some(m.1)
  }

  lemma OneMoreCarried(moved: seq<(Path, Lock)>, before: Locks, locks: Locks, source: Path, destination: Path, p: Path)
    requires Extracted(before, locks, source) && Carries(moved, before, locks, source, destination)
    requires p in locks && source <= p
    ensures Extracted(before, locks - {p}, source)
    ensures Carries(moved + [(Rebase(p, source, destination), locks[p])], before, locks - {p}, source, destination)
  {
    RebaseBack(p, source, destination);
    var m := (Rebase(p, source, destination), locks[p]);
    assert Comes(m, before, source, destination);
    assert forall x :: x in moved + [m] <==> x in moved || x == m;
  }

  ghost predicate Arrives(moved: seq<(Path, Lock)>, k: Path) { exists m :: m in moved && m.0 == k }

  /** `locks` is `stayed` with the locks of `moved` put in. */
  ghost predicate PutBack(before: Locks, stayed: Locks, locks: Locks, moved: seq<(Path, Lock)>, source: Path,
                          destination: Path) {
    forall k: Path :: LockAt(locks, k) ==
      if Arrives(moved, k) then Origin(before, k, source, destination) else LockAt(stayed, k)
  }

  lemma OneMoreArrived(moved: seq<(Path, Lock)>, i: nat, before: Locks, stayed: Locks, locks: Locks, source: Path,
                       destination: Path)
    requires i < |moved| && forall m :: m in moved ==> Comes(m, before, source, destination)
    requires PutBack(before, stayed, locks, moved[..i], source, destination)
    ensures PutBack(before, stayed, locks[moved[i].0 := moved[i].1], moved[..i + 1], source, destination)
  {
    assert moved[..i + 1] == moved[..i] + [moved[i]];
    assert Comes(moved[i], before, source, destination);
    forall k: Path ensures Arrives(moved[..i + 1], k) <==> Arrives(moved[..i], k) || k == moved[i].0 {
      if Arrives(moved[..i], k) {
        var m :| m in moved[..i] && m.0 == k;
        assert m in moved[..i + 1];
      }
      if k == moved[i].0 { assert moved[i] in moved[..i + 1]; }
    }
  }

  lemma AllMoved(before: Locks, stayed: Locks, after: Locks, moved: seq<(Path, Lock)>, source: Path, destination: Path)
    requires Extracted(before, stayed, source) && Carries(moved, before, stayed, source, destination)
    requires forall k: Path :: k in stayed ==> !(source <= k)
    requires PutBack(before, stayed, after, moved, source, destination)
    ensures after == MovedLocks(before, source, destination)
  {
    forall k: Path ensures Arrives(moved, k) <==> Origin(before, k, source, destination).Some? {
      if Origin(before, k, source, destination).Some? {
        var q := Rebase(k, destination, source);
        RebaseBack(k, destination, source);
        assert (k, before[q]) in moved;
      }
      if Arrives(moved, k) {
        var m :| m in moved && m.0 == k;
        assert Comes(m, before, source, destination);
      }
    }
    forall k: Path ensures LockAt(stayed, k) == if source <= k then None else LockAt(before, k) {}
    SameLocks(after, MovedLocks(before, source, destination));
  }

  // ---------- lemmas of the copy loop ----------

  lemma PruneTwice(locks: Locks, now: int)
    ensures Live(Live(locks, now), now) == Live(locks, now)
  {}

  lemma NothingToRemove(t: Tree, p: Path)
    requires WellFormed(t) && p !in t
    ensures RemoveTree(t, p) == t
  {
    forall q | q in t ensures !(p <= q) {
      if p <= q { AncestorsAreDirs(t, q, p); }
    }
  }

  /** In a well-formed tree a free place has nothing below it and does not lie above an existing node. */
  lemma FreePlace(t: Tree, destination: Path, k: Path)
    requires WellFormed(t) && destination !in t && destination <= k
    ensures k !in t
  {
    if k in t && k != destination { AncestorsAreDirs(t, k, destination); }
  }

  lemma FileCopied(t: Tree, source: Path, destination: Path)
    requires WellFormed(t) && destination !in t && At(t, source).Some? && t[source].File?
    ensures t[destination := t[source]] == Graft(t, source, destination)
  {
    var u := t[destination := t[source]];
    forall k: Path ensures At(u, k) == At(Graft(t, source, destination), k) {
      if destination <= k && k != destination {
        FreePlace(t, destination, k);
        var from := Rebase(k, destination, source);
        if from in t { AncestorsAreDirs(t, from, source); }
      } else if k == destination {
        assert Rebase(k, destination, source) == source;
      }
    }
    SameTree(u, Graft(t, source, destination));
  }

  lemma CopyStarted(t: Tree, source: Path, destination: Path)
    requires WellFormed(t) && destination !in t && At(t, source) == Some(Dir)
    ensures PartlyGrafted(t, t[destination := Dir], source, destination, {})
  {
    assert Rebase(destination, destination, source) == source;
  }

  lemma SourceIsElsewhere(t: Tree, source: Path, destination: Path, k: Path)
    requires WellFormed(t) && destination !in t && source in t && !(source <= destination) && source <= k
    ensures !(destination <= k)
  {
    if destination <= k {
      PrefixesCompare(source, destination, k);
      FreePlace(t, destination, source);
    }
  }

  lemma BelowSource(before: Tree, after: Tree, source: Path, destination: Path, done: set<string>, k: Path)
    requires WellFormed(before) && destination !in before && source in before && !(source <= destination)
    requires PartlyGrafted(before, after, source, destination, done) && source <= k
    ensures At(after, k) == At(before, k)
  {
    SourceIsElsewhere(before, source, destination, k);
  }

  lemma ChildReady(before: Tree, after: Tree, source: Path, destination: Path, done: set<string>, n: string)
    requires WellFormed(before) && destination !in before && Transferable(before, source, destination)
    requires !(source <= destination) && before[source].Dir?
    requires PartlyGrafted(before, after, source, destination, done)
    requires source + [n] in before && n !in done
    ensures WellFormed(after) && destination + [n] !in after
    ensures Transferable(after, source + [n], destination + [n]) && !(source + [n] <= destination + [n])
  {
    PartlyWellFormed(before, after, source, destination, done);
    var child := destination + [n];
    assert destination <= child && child[|destination|] == n;
    FreePlace(before, destination, child);
    assert At(after, child) == At(before, child) == None;
    BelowSource(before, after, source, destination, done, source + [n]);
    assert Parent(child) == destination && Rebase(destination, destination, source) == source;
    if source + [n] <= child { ChildPrefix(source, destination, n); }
  }

  lemma ChildPrefix(p: Path, q: Path, n: string)
    requires p + [n] <= q + [n]
    ensures p <= q
  {
    assert p == (p + [n])[..|p|] == (q + [n])[..|p|];
  }

  lemma ChildNames(t: Tree, source: Path, names: set<string>)
    requires names == set q | q in t && q != [] && Parent(q) == source :: q[|q| - 1]
    ensures forall n: string :: source + [n] in t <==> n in names
  {
    forall n: string ensures source + [n] in t <==> n in names {
      var child := source + [n];
      assert Parent(child) == source && child[|child| - 1] == n;
      if n in names {
        var q :| q in t && q != [] && Parent(q) == source && q[|q| - 1] == n;
        assert q == child;
      }
    }
  }

  lemma ChildDepth(before: Tree, after: Tree, source: Path, destination: Path, done: set<string>, n: string, depth: nat)
    requires WellFormed(before) && destination !in before && source in before && !(source <= destination)
    requires PartlyGrafted(before, after, source, destination, done) && source + [n] in before
    requires forall q :: q in before && source <= q ==> |q| <= depth
    ensures |source + [n]| <= depth
    ensures forall q :: q in after && source + [n] <= q ==> |q| <= depth
  {
    forall q | q in after && source + [n] <= q ensures |q| <= depth {
      BelowSource(before, after, source, destination, done, q);
    }
  }

  lemma PartlyWellFormed(before: Tree, after: Tree, source: Path, destination: Path, done: set<string>)
    requires WellFormed(before) && destination !in before && Transferable(before, source, destination)
    requires before[source].Dir? && PartlyGrafted(before, after, source, destination, done)
    ensures WellFormed(after)
  {
    assert !(destination <= Parent(destination)) && !(destination <= []);
    forall k: Path | k in after && k != [] ensures At(after, Parent(k)) == Some(Dir) {
      var up := Parent(k);
      if destination <= k && k != destination && k[|destination|] in done {
        assert destination <= up;
        assert Rebase(up, destination, source) == Parent(Rebase(k, destination, source));
        assert At(before, Rebase(k, destination, source)).Some?;
      } else if k != destination {
        assert At(before, k).Some?;
        if destination <= up { FreePlace(before, destination, k); }
      }
    }
  }

  /** Where a copied child ends up is where the whole copy puts it. */
  lemma ChildRebase(k: Path, source: Path, destination: Path, n: string)
    requires destination <= k
    ensures destination + [n] <= k <==> k != destination && k[|destination|] == n
    ensures destination + [n] <= k ==> Rebase(k, destination + [n], source + [n]) == Rebase(k, destination, source)
  {
    if k != destination {
      assert k == destination + [k[|destination|]] + k[|destination| + 1..];
    }
  }

  lemma ChildDone(before: Tree, midway: Tree, after: Tree, source: Path, destination: Path, done: set<string>,
                  n: string)
    requires WellFormed(before) && destination !in before && source in before && !(source <= destination)
    requires PartlyGrafted(before, midway, source, destination, done)
    requires after == Graft(midway, source + [n], destination + [n])
    ensures PartlyGrafted(before, after, source, destination, done + {n})
  {
    forall k: Path
      ensures At(after, k) == if destination <= k && (k == destination || k[|destination|] in done + {n})
                              then At(before, Rebase(k, destination, source)) else At(before, k)
    {
      if destination <= k {
        ChildRebase(k, source, destination, n);
        var from := Rebase(k, destination, source);
        BelowSource(before, midway, source, destination, done, from);
      } else {
        assert !(destination + [n] <= k);
      }
    }
  }

  lemma CopyFinished(before: Tree, after: Tree, source: Path, destination: Path, done: set<string>)
    requires WellFormed(before) && destination !in before && source in before
    requires PartlyGrafted(before, after, source, destination, done)
    requires forall n: string :: source + [n] in before ==> n in done
    ensures after == Graft(before, source, destination)
  {
    forall k: Path ensures At(after, k) == At(Graft(before, source, destination), k) {
      if destination <= k && k != destination && k[|destination|] !in done {
        FreePlace(before, destination, k);
        var from := Rebase(k, destination, source);
        var child := source + [k[|destination|]];
        assert from == child + k[|destination| + 1..];
        if from in before && from != child { AncestorsAreDirs(before, from, child); }
      }
    }
    SameTree(after, Graft(before, source, destination));
  }
}
