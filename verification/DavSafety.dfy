/** What locks guarantee over whole request histories, and how MOVE relates to COPY and DELETE. */
module DavSafety {
  import opened Wrappers
  import opened Bytes
  import opened DavTree
  import opened DavServer

  datatype Operation =
    | Put(path: Path, body: Option<seq<Byte>>)
    | Mkcol(path: Path, hasBody: bool)
    | Delete(path: Path)
    | Transfer(move: bool, source: Path, destination: Option<Path>, overwrite: bool)
    | TakeLock(path: Path, timeout: Option<nat>, newToken: Token)
    | ReleaseLock(path: Path)

  /** One request at clock reading `now`, with the tokens of its If and Lock-Token headers. */
  datatype Request = Request(now: int, ifTokens: set<Token>, lockToken: Option<Token>, operation: Operation)

  function Presented(r: Request): set<Token> {
    r.ifTokens + if r.lockToken.Some? then {r.lockToken.value} else {}
  }

  /** The request carries the token, in either header. */
  predicate Shows(r: Request, token: Token) { token in r.ifTokens || r.lockToken == Some(token) }

  function Serve(st: Store, r: Request): Reply {
    match r.operation
    case Put(path, body) => PutReply(st, r.now, Presented(r), path, body)
    case Mkcol(path, hasBody) => MkcolReply(st, r.now, Presented(r), path, hasBody)
    case Delete(path) => DeleteReply(st, r.now, Presented(r), path)
    case Transfer(move, source, destination, overwrite) =>
      TransferReply(st, r.now, Presented(r), move, source, destination, overwrite)
    case TakeLock(path, timeout, newToken) => LockReply(st, r.now, Presented(r), path, timeout, newToken)
    case ReleaseLock(path) => UnlockReply(st, r.now, path, r.lockToken)
  }

  function Run(st: Store, requests: seq<Request>): Store
    decreases |requests|
  {
    if requests == [] then st else Run(Serve(st, requests[0]).store, requests[1..])
  }

  // ---------- the tree stays a tree ----------

  lemma LeafKeepsWellFormed(t: Tree, p: Path, node: Node)
    requires WellFormed(t) && p != [] && At(t, Parent(p)) == Some(Dir)
    requires At(t, p) != Some(Dir)
    ensures WellFormed(t[p := node])
  {
    var u := t[p := node];
    forall k: Path | k in u && k != [] ensures At(u, Parent(k)) == Some(Dir) {
      assert Parent(p) != p;
    }
  }

  lemma TransferKeepsWellFormed(t: Tree, source: Path, target: Path)
    requires WellFormed(t) && target != [] && source != []
    ensures var cleared := RemoveTree(t, target);
            WellFormed(cleared)
            && (Transferable(cleared, source, target) ==>
                  && WellFormed(Graft(cleared, source, target))
                  && WellFormed(RemoveTree(Graft(cleared, source, target), source)))
  {
    var cleared := RemoveTree(t, target);
    RemoveKeepsWellFormed(t, target);
    if Transferable(cleared, source, target) {
      GraftKeepsWellFormed(cleared, source, target);
      RemoveKeepsWellFormed(Graft(cleared, source, target), source);
    }
  }

  lemma ServeKeepsWellFormed(st: Store, r: Request)
    requires WellFormed(st.nodes)
    ensures WellFormed(Serve(st, r).store.nodes)
  {
    match r.operation
    case Put(path, body) =>
      if Serve(st, r).status == Created { LeafKeepsWellFormed(st.nodes, path, File(body.value)); }
    case Mkcol(path, _) =>
      if Serve(st, r).status == Created { LeafKeepsWellFormed(st.nodes, path, Dir); }
    case Delete(path) =>
      if path != [] { RemoveKeepsWellFormed(st.nodes, path); }
    case Transfer(move, source, destination, overwrite) =>
      TransferReplyKeepsWellFormed(st, r.now, Presented(r), move, source, destination, overwrite);
    case _ =>
  }

  lemma TransferReplyKeepsWellFormed(st: Store, now: int, presented: set<Token>, move: bool, source: Path,
                                     destination: Option<Path>, overwrite: bool)
    requires WellFormed(st.nodes)
    ensures WellFormed(TransferReply(st, now, presented, move, source, destination, overwrite).store.nodes)
  {
    if destination.Some? && destination.value != [] && source != [] {
      TransferKeepsWellFormed(st.nodes, source, destination.value);
    }
  }

  lemma {:induction false} RunKeepsWellFormed(st: Store, requests: seq<Request>)
    requires WellFormed(st.nodes)
    ensures WellFormed(Run(st, requests).nodes)
    decreases |requests|
  {
    if requests != [] {
      ServeKeepsWellFormed(st, requests[0]);
      RunKeepsWellFormed(Serve(st, requests[0]).store, requests[1..]);
    }
  }

  // ---------- a lock protects its subtree ----------

  ghost predicate SameBelow(t: Tree, u: Tree, p: Path) {
    forall k: Path :: p <= k ==> At(t, k) == At(u, k)
  }

  /** The request comes before the lock at `p` expires and does not present its token. */
  predicate Outsider(lock: Lock, r: Request) {
    r.now < lock.expires && !Shows(r, lock.token)
  }

  /** Trees that differ from `t` only at and below two paths not comparable with `p`. */
  lemma FarAwayTrees(t: Tree, source: Path, target: Path, p: Path)
    requires !Comparable(p, source) && !Comparable(p, target)
    ensures var cleared := RemoveTree(t, target);
            && SameBelow(t, cleared, p)
            && SameBelow(t, Graft(cleared, source, target), p)
            && SameBelow(t, RemoveTree(Graft(cleared, source, target), source), p)
  {
    forall k: Path {:trigger At(t, k)} | p <= k ensures !(source <= k) && !(target <= k) {
      if source <= k { PrefixesCompare(p, source, k); }
      if target <= k { PrefixesCompare(p, target, k); }
    }
  }

  lemma TransferIsGuarded(st: Store, r: Request, p: Path)
    requires r.operation.Transfer? && p in st.locks && Outsider(st.locks[p], r)
    ensures SameBelow(st.nodes, Serve(st, r).store.nodes, p)
    ensures LockAt(Serve(st, r).store.locks, p) == Some(st.locks[p])
  {
    var Transfer(move, source, destination, overwrite) := r.operation;
    assert p in Live(st.locks, r.now);
    if destination.Some? && Permits(st.locks, r.now, source, Presented(r)) {
      if Permits(st.locks, r.now, destination.value, Presented(r)) {
        FarAwayTrees(st.nodes, source, destination.value, p);
        FarAwayLock(Live(st.locks, r.now), source, destination.value, p);
      }
    }
  }

  lemma FarAwayLock(locks: Locks, source: Path, target: Path, p: Path)
    requires p in locks && !Comparable(p, source) && !Comparable(p, target)
    ensures LockAt(MovedLocks(locks, source, target), p) == Some(locks[p])
  {}

  /** Whoever does not present the token changes nothing at or below a locked path, nor the lock. */
  lemma ServeIsGuarded(st: Store, r: Request, p: Path)
    requires p in st.locks && Outsider(st.locks[p], r)
    ensures SameBelow(st.nodes, Serve(st, r).store.nodes, p)
    ensures LockAt(Serve(st, r).store.locks, p) == Some(st.locks[p])
  {
    assert p in Live(st.locks, r.now);
    if r.operation.Transfer? { TransferIsGuarded(st, r, p); }
  }

  /** The same over any history of such requests, in any order and however many. */
  lemma {:induction false} RunIsGuarded(st: Store, requests: seq<Request>, p: Path)
    requires p in st.locks
    requires forall r :: r in requests ==> Outsider(st.locks[p], r)
    ensures SameBelow(st.nodes, Run(st, requests).nodes, p)
    ensures LockAt(Run(st, requests).locks, p) == Some(st.locks[p])
    decreases |requests|
  {
    if requests != [] {
      ServeIsGuarded(st, requests[0], p);
      var next := Serve(st, requests[0]).store;
      assert next.locks[p] == st.locks[p];
      RunIsGuarded(next, requests[1..], p);
    }
  }

  /** The seconds a lock is granted for: an hour unless the request asks for less, and at least one. */
  predicate GrantedFor(asked: Option<nat>, seconds: int) {
    match asked
    case None => seconds == 3600
    case Some(n) =>
      && 1 <= seconds <= 3600
      && (1 <= n <= 3600 ==> seconds == n) && (n == 0 ==> seconds == 1) && (n > 3600 ==> seconds == 3600)
  }

  /** A new or refreshed lock is live at exactly the clock readings before its time has run out. */
  lemma LockLasts(st: Store, lock: Request, seconds: int, later: int)
    requires lock.operation.TakeLock? && Done(Serve(st, lock).status)
    requires GrantedFor(lock.operation.timeout, seconds)
    ensures lock.operation.path in Live(Serve(st, lock).store.locks, later) <==> later < lock.now + seconds
  {}

  /** From a successful LOCK until its seconds have passed, requests without the token it returned leave
      all that was there at and below the path as it was, and the lock in place. */
  lemma LockProtects(st: Store, lock: Request, seconds: int, requests: seq<Request>)
    requires lock.operation.TakeLock? && Serve(st, lock).status in {Ok, Created}
    requires GrantedFor(lock.operation.timeout, seconds)
    requires forall r :: r in requests ==>
               && r.now < lock.now + seconds
               && !Shows(r, Serve(st, lock).store.locks[lock.operation.path].token)
    ensures var after, path := Serve(st, lock).store, lock.operation.path;
            && after.nodes == st.nodes
            && SameBelow(st.nodes, Run(after, requests).nodes, path)
            && LockAt(Run(after, requests).locks, path) == Some(after.locks[path])
  {
    RunIsGuarded(Serve(st, lock).store, requests, lock.operation.path);
  }

  // ---------- locked paths stay apart ----------

  predicate Apart(locks: Locks) {
    forall p, q :: p in locks && q in locks && Comparable(p, q) ==> p == q
  }

  /** Apart locks give each path at most one lock that covers it. */
  lemma OneLockCovers(locks: Locks, k: Path, p: Path, q: Path)
    requires Apart(locks) && p in locks && q in locks && p <= k && q <= k
    ensures p == q
  {
    PrefixesCompare(p, q, k);
  }

  /** No lock that stays behind lies strictly above or below a place a lock moves to. */
  predicate MoveIsClear(locks: Locks, source: Path, destination: Path) {
    forall m, u :: m in locks && source <= m && u in locks && !(source <= u) ==>
      Rebase(m, source, destination) == u || !Comparable(Rebase(m, source, destination), u)
  }

  lemma ArrivalsStayApart(p: Path, q: Path, source: Path, destination: Path)
    requires destination <= p && destination <= q && p <= q
    ensures Rebase(p, destination, source) <= Rebase(q, destination, source)
  {
    assert q[|destination|..][..|p| - |destination|] == q[..|p|][|destination|..] == p[|destination|..];
  }

  lemma MovedPairApart(locks: Locks, source: Path, destination: Path, p: Path, q: Path)
    requires Apart(locks) && MoveIsClear(locks, source, destination)
    requires p in MovedLocks(locks, source, destination) && q in MovedLocks(locks, source, destination) && p <= q
    ensures p == q
  {
    var r := MovedLocks(locks, source, destination);
    assert LockAt(r, p).Some? && LockAt(r, q).Some?;
    var arrivedP := destination <= p && Rebase(p, destination, source) in locks;
    var arrivedQ := destination <= q && Rebase(q, destination, source) in locks;
    assert arrivedP || (p in locks && !(source <= p));
    assert arrivedQ || (q in locks && !(source <= q));
    if arrivedP {
      RebaseBack(p, destination, source);
      if arrivedQ {
        RebaseBack(q, destination, source);
        ArrivalsStayApart(p, q, source, destination);
        assert Comparable(Rebase(p, destination, source), Rebase(q, destination, source));
      } else {
        assert Rebase(Rebase(p, destination, source), source, destination) == p;
      }
    } else if arrivedQ {
      RebaseBack(q, destination, source);
      assert Rebase(Rebase(q, destination, source), source, destination) == q;
    }
  }

  /** Exactly when moving the locks along keeps them apart. */
  lemma MoveKeepsApart(locks: Locks, source: Path, destination: Path)
    requires Apart(locks)
    ensures Apart(MovedLocks(locks, source, destination)) <==> MoveIsClear(locks, source, destination)
  {
    var r := MovedLocks(locks, source, destination);
    if MoveIsClear(locks, source, destination) {
      forall p, q | p in r && q in r && Comparable(p, q) ensures p == q {
        if p <= q { MovedPairApart(locks, source, destination, p, q); }
        else { MovedPairApart(locks, source, destination, q, p); }
      }
    }
    if Apart(r) {
      forall m, u | m in locks && source <= m && u in locks && !(source <= u)
        ensures Rebase(m, source, destination) == u || !Comparable(Rebase(m, source, destination), u)
      {
        var k := Rebase(m, source, destination);
        RebaseBack(m, source, destination);
        assert LockAt(r, k).Some? && LockAt(r, u).Some?;
      }
    }
  }

  lemma PrefixTrans(p: Path, q: Path, k: Path)
    requires p <= q && q <= k
    ensures p <= k
  {
    assert p == q[..|p|] == k[..|p|];
  }

  /** It is enough that no lock staying behind is comparable with the destination. */
  lemma FreeDestinationIsClear(locks: Locks, source: Path, destination: Path)
    requires forall u :: u in locks && !(source <= u) ==> !Comparable(u, destination)
    ensures MoveIsClear(locks, source, destination)
  {
    forall m, u | m in locks && source <= m && u in locks && !(source <= u)
      ensures !Comparable(Rebase(m, source, destination), u)
    {
      var k := Rebase(m, source, destination);
      RebaseBack(m, source, destination);
      if u <= k { PrefixesCompare(u, destination, k); }
      else if k <= u { PrefixTrans(destination, k, u); }
    }
  }

  /** A MOVE that can be carried out moves its locks clear of the others. */
  predicate MovesClear(st: Store, r: Request) {
    r.operation.Transfer? && r.operation.move && CanTransfer(st, r) ==>
      MoveIsClear(Live(st.locks, r.now), r.operation.source, r.operation.destination.value)
  }

  /** Every request keeps the locked paths apart, except exactly a MOVE that can be carried out and is not clear. */
  lemma ServeKeepsApart(st: Store, r: Request)
    requires WellFormed(st.nodes) && Apart(st.locks)
    ensures Apart(Serve(st, r).store.locks) <==> MovesClear(st, r)
  {
    var live := Live(st.locks, r.now);
    assert Apart(live);
    match r.operation
    case Transfer(move, source, destination, overwrite) =>
      TransferSucceedsExactly(st, r);
      TransferLocks(st, r.now, Presented(r), move, source, destination, overwrite);
      if move && CanTransfer(st, r) { MoveKeepsApart(live, source, destination.value); }
    case TakeLock(path, timeout, newToken) => LockLocks(st, r.now, Presented(r), path, timeout, newToken);
    case _ =>
  }

  /** Only a MOVE that succeeds moves locks. */
  lemma TransferLocks(st: Store, now: int, presented: set<Token>, move: bool, source: Path,
                      destination: Option<Path>, overwrite: bool)
    ensures var reply := TransferReply(st, now, presented, move, source, destination, overwrite);
            if move && Succeeded(reply.status)
            then destination.Some? && reply.store.locks == MovedLocks(Live(st.locks, now), source, destination.value)
            else reply.store.locks == st.locks || reply.store.locks == Live(st.locks, now)
  {
    var reply := TransferReply(st, now, presented, move, source, destination, overwrite);
    if move && Succeeded(reply.status) { MovedAlong(st, now, presented, source, destination, overwrite); }
    else { NotMoved(st, now, presented, move, source, destination, overwrite); }
  }

  lemma MovedAlong(st: Store, now: int, presented: set<Token>, source: Path, destination: Option<Path>,
                   overwrite: bool)
    requires Succeeded(TransferReply(st, now, presented, true, source, destination, overwrite).status)
    ensures destination.Some?
    ensures TransferReply(st, now, presented, true, source, destination, overwrite).store.locks
            == MovedLocks(Live(st.locks, now), source, destination.value)
  {}

  lemma NotMoved(st: Store, now: int, presented: set<Token>, move: bool, source: Path, destination: Option<Path>,
                 overwrite: bool)
    requires !(move && Succeeded(TransferReply(st, now, presented, move, source, destination, overwrite).status))
    ensures TransferReply(st, now, presented, move, source, destination, overwrite).store.locks
            in {st.locks, Live(st.locks, now)}
  {}

  lemma LockLocks(st: Store, now: int, presented: set<Token>, path: Path, timeout: Option<nat>, newToken: Token)
    requires Apart(st.locks)
    ensures Apart(LockReply(st, now, presented, path, timeout, newToken).store.locks)
  {
    assert Apart(Live(st.locks, now));
  }

  predicate RunMovesClear(st: Store, requests: seq<Request>)
    decreases |requests|
  {
    requests == [] || (MovesClear(st, requests[0]) && RunMovesClear(Serve(st, requests[0]).store, requests[1..]))
  }

  lemma {:induction false} RunKeepsApart(st: Store, requests: seq<Request>)
    requires WellFormed(st.nodes) && Apart(st.locks) && RunMovesClear(st, requests)
    ensures Apart(Run(st, requests).locks)
    decreases |requests|
  {
    if requests != [] {
      ServeKeepsWellFormed(st, requests[0]);
      ServeKeepsApart(st, requests[0]);
      RunKeepsApart(Serve(st, requests[0]).store, requests[1..]);
    }
  }

  /** A directory `s` holding one locked file `x`, and a lock on the free place `d`. */
  function NestStore(s: string, x: string, d: string): Store {
    Store(map[[] := Dir, [s] := Dir, [s, x] := File([])], map[[s, x] := Lock("one", 9), [d] := Lock("two", 9)])
  }

  function NestRequest(s: string, d: string): Request {
    Request(0, {"one", "two"}, None, Transfer(true, [s], Some([d]), true))
  }

  lemma NestStoreIsGood(s: string, x: string, d: string)
    requires s != d
    ensures var st := NestStore(s, x, d); WellFormed(st.nodes) && Apart(st.locks) && Live(st.locks, 0) == st.locks
  {
    assert Parent([s]) == [] && Parent([s, x]) == [s];
    assert [s, x][0] != [d][0];
  }

  /** A MOVE onto a locked, free place: the lock below the source lands below the lock that was there. */
  lemma MoveCanNestLocks(s: string, x: string, d: string)
    requires s != d
    ensures var st, r := NestStore(s, x, d), NestRequest(s, d);
            && WellFormed(st.nodes) && Apart(st.locks)
            && Serve(st, r).status == Created && !Apart(Serve(st, r).store.locks)
  {
    var st, r := NestStore(s, x, d), NestRequest(s, d);
    NestStoreIsGood(s, x, d);
    assert [s][0] != [d][0] && [s, x][0] != [d][0] && [s] <= [s, x];
    assert Parent([d]) == [];
    NothingToRemove(st.nodes, [d]);
    assert Serve(st, r).status == Created;
    var moved := Rebase([s, x], [s], [d]);
    assert moved == [d] + [x] && [d] <= moved && moved != [d];
    assert !MoveIsClear(st.locks, [s], [d]);
    ServeKeepsApart(st, r);
  }

  // ---------- what an answer means, and what undoes it ----------

  predicate Done(status: Status) { status == Ok || Succeeded(status) }

  predicate Succeeded(status: Status) { status == Created || status == NoContent }

  /** The paths whose locks a request is held against. */
  function Touched(operation: Operation): set<Path> {
    match operation
    case Put(path, _) => {path}
    case Mkcol(path, _) => {path}
    case Delete(path) => {path}
    case Transfer(_, source, destination, _) => {source} + if destination.Some? then {destination.value} else {}
    case TakeLock(path, _, _) => {path}
    case ReleaseLock(_) => {}
  }

  /** The live lock at `p` stands against a request that touches `q`: its token is not presented; or a
      lock is wanted for `q`, which already has one that is not presented or has none while `p` does. */
  predicate StandsAgainst(live: Locks, r: Request, p: Path, q: Path)
    requires p in live
  {
    && (p <= q || q <= p)
    && if r.operation.TakeLock? then (q in live ==> p == q && !Shows(r, live[p].token)) else !Shows(r, live[p].token)
  }

  /** A live lock at, above or below a touched path stands against the request. */
  ghost predicate Blocked(st: Store, r: Request) {
    exists p, q :: p in Live(st.locks, r.now) && q in Touched(r.operation)
                   && StandsAgainst(Live(st.locks, r.now), r, p, q)
  }

  /** 423 is answered only to blocked requests, and no blocked request is carried out. */
  lemma BlockedIsRefused(st: Store, r: Request)
    ensures Serve(st, r).status == Locked ==> Blocked(st, r)
    ensures Done(Serve(st, r).status) ==> !Blocked(st, r)
  {
    match r.operation
    case TakeLock(path, _, _) => LockIsRefused(st, r);
    case Transfer(_, source, destination, _) => TransferIsRefused(st, r);
    case Put(path, _) => OneTouched(st, r, path);
    case Mkcol(path, _) => OneTouched(st, r, path);
    case Delete(path) => OneTouched(st, r, path);
    case ReleaseLock(_) =>
  }

  lemma LockIsRefused(st: Store, r: Request)
    requires r.operation.TakeLock?
    ensures Serve(st, r).status == Locked ==> Blocked(st, r)
    ensures Done(Serve(st, r).status) ==> !Blocked(st, r)
  {
    var live, path := Live(st.locks, r.now), r.operation.path;
    assert path in Touched(r.operation);
    if Serve(st, r).status == Locked {
      var p :| p in live && StandsAgainst(live, r, p, path);
      assert Blocked(st, r);
    }
  }

  lemma TransferIsRefused(st: Store, r: Request)
    requires r.operation.Transfer?
    ensures Serve(st, r).status == Locked ==> Blocked(st, r)
    ensures Done(Serve(st, r).status) ==> !Blocked(st, r)
  {
    var Transfer(_, source, destination, _) := r.operation;
    assert source in Touched(r.operation);
    if destination.Some? {
      var live, target := Live(st.locks, r.now), destination.value;
      assert target in Touched(r.operation);
      if Serve(st, r).status == Locked {
        var p :| p in live && (StandsAgainst(live, r, p, source) || StandsAgainst(live, r, p, target));
        assert Blocked(st, r);
      }
    }
  }

  lemma OneTouched(st: Store, r: Request, path: Path)
    requires Touched(r.operation) == {path} && !r.operation.TakeLock?
    ensures Blocked(st, r) <==> !Permits(st.locks, r.now, path, Presented(r))
  {
    var live := Live(st.locks, r.now);
    assert path in Touched(r.operation);
    if !Permits(st.locks, r.now, path, Presented(r)) {
      var p :| p in live && StandsAgainst(live, r, p, path);
      assert Blocked(st, r);
    }
  }

  /** The paths a request names. */
  function Named(operation: Operation): set<Path> {
    Touched(operation) + if operation.ReleaseLock? then {operation.path} else {}
  }

  /** Nothing that is neither at nor below a named path changes, except that expired locks go. */
  lemma OnlyNamedChanges(st: Store, r: Request, k: Path)
    requires forall q :: q in Named(r.operation) ==> !(q <= k)
    ensures At(Serve(st, r).store.nodes, k) == At(st.nodes, k)
    ensures LockAt(Live(Serve(st, r).store.locks, r.now), k) == LockAt(Live(st.locks, r.now), k)
  {
    if r.operation.Transfer? {
      TransferChanges(st, r, k);
    } else {
      assert r.operation.path in Named(r.operation);
    }
  }

  lemma TransferChanges(st: Store, r: Request, k: Path)
    requires r.operation.Transfer? && forall q :: q in Named(r.operation) ==> !(q <= k)
    ensures At(Serve(st, r).store.nodes, k) == At(st.nodes, k)
    ensures LockAt(Live(Serve(st, r).store.locks, r.now), k) == LockAt(Live(st.locks, r.now), k)
  {
    var Transfer(move, source, destination, overwrite) := r.operation;
    assert source in Named(r.operation) && (destination.Some? ==> destination.value in Named(r.operation));
    TransferLocks(st, r.now, Presented(r), move, source, destination, overwrite);
  }

  /** A request that is not carried out leaves the tree as it was, unless it is a transfer that failed. */
  lemma RefusedIsUnchanged(st: Store, r: Request)
    requires !Done(Serve(st, r).status) && !(r.operation.Transfer? && Serve(st, r).status == Failed)
    ensures Serve(st, r).store.nodes == st.nodes
    ensures Live(Serve(st, r).store.locks, r.now) == Live(st.locks, r.now)
  {
    PruneTwice(st.locks, r.now);
  }

  /** A lock given back before it expires leaves the other locks that would be there without it: for a
      new lock just those there would be without the LOCK, for a refreshed one all of them but itself. */
  lemma UnlockUndoesLock(st: Store, lock: Request, seconds: int, later: int)
    requires lock.operation.TakeLock? && Done(Serve(st, lock).status)
    requires GrantedFor(lock.operation.timeout, seconds) && lock.now <= later < lock.now + seconds
    ensures var locked, path := Serve(st, lock).store, lock.operation.path;
            var unlock := Request(later, {}, Some(locked.locks[path].token), ReleaseLock(path));
            var undone := Serve(locked, unlock);
            && undone.status == NoContent && undone.store.nodes == st.nodes
            && undone.store.locks == Live(st.locks, later) - {path}
            && (path !in Live(st.locks, lock.now) ==> undone.store.locks == Live(st.locks, later))
  {
    var path := lock.operation.path;
    var locked := Serve(st, lock).store.locks;
    assert locked == Live(st.locks, lock.now)[path := Lock(locked[path].token, lock.now + seconds)];
    assert path in Live(locked, later);
    assert Live(locked, later) - {path} == Live(st.locks, later) - {path};
    if path !in Live(st.locks, lock.now) { assert Live(st.locks, later) - {path} == Live(st.locks, later); }
  }

  /** A collection may be made at `path`: nothing is there, it has a directory, no body came along. */
  predicate CanMake(st: Store, now: int, presented: set<Token>, path: Path, hasBody: bool) {
    && !hasBody && path != [] && path !in st.nodes && At(st.nodes, Parent(path)) == Some(Dir)
    && Permits(st.locks, now, path, presented)
  }

  /** MKCOL is carried out exactly then, and adds an empty directory and nothing else. */
  lemma MkcolSucceedsExactly(st: Store, r: Request)
    requires r.operation.Mkcol?
    ensures var Mkcol(path, hasBody) := r.operation;
            && (Serve(st, r).status == Created <==> CanMake(st, r.now, Presented(r), path, hasBody))
            && Serve(st, r).store.nodes ==
                 if CanMake(st, r.now, Presented(r), path, hasBody) then st.nodes[path := Dir] else st.nodes
  {}

  /** DELETE is carried out exactly on what is there, is not the root and has no lock missing its token;
      then the node and all below it are gone and all else is as it was. */
  lemma DeleteSucceedsExactly(st: Store, r: Request, k: Path)
    requires r.operation.Delete?
    ensures var path := r.operation.path;
            var can := path != [] && path in st.nodes && Permits(st.locks, r.now, path, Presented(r));
            && (Done(Serve(st, r).status) <==> can)
            && At(Serve(st, r).store.nodes, k) == if can && path <= k then None else At(st.nodes, k)
  {}

  /** UNLOCK takes away exactly the live lock at its path, given that lock's token for a path that has a node
      or could have one; no other live lock changes, nor any node. */
  lemma UnlockSucceedsExactly(st: Store, r: Request, k: Path)
    requires r.operation.ReleaseLock?
    ensures var path, live := r.operation.path, Live(st.locks, r.now);
            var can := && (path in st.nodes || (path != [] && Parent(path) in st.nodes))
                       && path in live && r.lockToken == Some(live[path].token);
            && (Done(Serve(st, r).status) <==> can)
            && LockAt(Live(Serve(st, r).store.locks, r.now), k) == (if can && k == path then None else LockAt(live, k))
            && Serve(st, r).store.nodes == st.nodes
  {}

  /** LOCK is granted exactly on a path that could hold a file, either against the token of the lock already
      there, which is kept, or with the new token where no live lock is comparable. */
  lemma LockSucceedsExactly(st: Store, r: Request, k: Path)
    requires r.operation.TakeLock?
    ensures var TakeLock(path, _, newToken) := r.operation;
            var live, after := Live(st.locks, r.now), Live(Serve(st, r).store.locks, r.now);
            var refresh := path in live && Shows(r, live[path].token);
            var alone := forall p :: p in live ==> !(p <= path || path <= p);
            var can := path != [] && Parent(path) in st.nodes && (refresh || alone);
            && (Done(Serve(st, r).status) <==> can)
            && (can ==> path in after && after[path].token == if refresh then live[path].token else newToken)
            && (can ==> Serve(st, r).status == if path in st.nodes then Ok else Created)
            && (k != path || !can ==> LockAt(after, k) == LockAt(live, k))
            && Serve(st, r).store.nodes == st.nodes
  {
    var live := Live(st.locks, r.now);
    if r.operation.path in live { assert Comparable(r.operation.path, r.operation.path); }
  }

  /** Every refusal names its reason. */
  lemma RefusalMeans(st: Store, r: Request)
    requires WellFormed(st.nodes)
    ensures match Serve(st, r).status
            case Locked => Blocked(st, r)
            case NotFound => Taken(r.operation).Some? && Taken(r.operation).value !in st.nodes
            case Forbidden =>
              || Taken(r.operation) == Some([])
              || (r.operation.Transfer? && r.operation.source <= r.operation.destination.value)
            case BadRequest =>
              || (r.operation.Put? && r.operation.body.None?)
              || (r.operation.Transfer? && (r.operation.destination.None? || r.operation.destination.value == []))
            case NotAllowed => r.operation.Mkcol? && (r.operation.path == [] || r.operation.path in st.nodes)
            case Unsupported => r.operation.Mkcol? && r.operation.hasBody
            case PreconditionFailed =>
              r.operation.Transfer? && !r.operation.overwrite && r.operation.destination.value in st.nodes
            case Conflict =>
              || (exists q :: q in Named(r.operation) && q != [] && Parent(q) !in st.nodes)
              || ((r.operation.Put? || r.operation.TakeLock?) && r.operation.path == [])
              || (r.operation.Put? && At(st.nodes, r.operation.path) == Some(Dir))
              || (r.operation.ReleaseLock? && !Releases(st, r))
            case Failed =>
              || (exists q :: q in Named(r.operation) && q != [] && At(st.nodes, Parent(q)) != Some(Dir))
              || (r.operation.Transfer? && !CanTransfer(st, r))
            case _ => Done(Serve(st, r).status)
    ensures Taken(r.operation) == Some([]) ==> Serve(st, r).status == Forbidden
    ensures Taken(r.operation).Some? && Taken(r.operation).value !in st.nodes ==> Serve(st, r).status == NotFound
    ensures r.operation.Mkcol? && r.operation.path == [] ==> Serve(st, r).status == NotAllowed
    ensures r.operation.Mkcol? && r.operation.path != [] && r.operation.hasBody ==> Serve(st, r).status == Unsupported
  {
    BlockedIsRefused(st, r);
    if r.operation.Transfer? {
      TransferSucceedsExactly(st, r);
      assert r.operation.destination.Some? ==> r.operation.destination.value in Named(r.operation);
    } else {
      assert r.operation.path in Named(r.operation);
    }
  }

  /** What a request moves, copies or deletes. */
  function Taken(operation: Operation): Option<Path> {
    match operation
    case Delete(path) => Some(path)
    case Transfer(_, source, _, _) => Some(source)
    case _ => None
  }

  /** A live lock at the very path, and its token. */
  predicate Releases(st: Store, r: Request)
    requires r.operation.ReleaseLock?
  {
    var path, live := r.operation.path, Live(st.locks, r.now);
    path in live && r.lockToken == Some(live[path].token)
  }

  /** DELETE by the same presenter takes back a file or collection that PUT or MKCOL has just made. */
  lemma DeleteUndoesCreation(st: Store, r: Request)
    requires WellFormed(st.nodes) && (r.operation.Put? || r.operation.Mkcol?)
    requires Serve(st, r).status == Created && r.operation.path !in st.nodes
    ensures var undone := Serve(Serve(st, r).store, r.(operation := Delete(r.operation.path)));
            undone.status == NoContent && undone.store.nodes == st.nodes
  {
    var path := r.operation.path;
    NothingToRemove(st.nodes, path);
    PruneTwice(st.locks, r.now);
    assert RemoveTree(Serve(st, r).store.nodes, path) == RemoveTree(st.nodes, path);
  }

  // ---------- MOVE, COPY and DELETE ----------

  /** What decides beforehand whether a transfer succeeds: there is a source, neither path contains the
      other, the destination's parent is a directory, an existing destination may be replaced, and
      the locks of both are presented. */
  predicate CanTransfer(st: Store, r: Request)
    requires r.operation.Transfer?
  {
    var Transfer(_, source, destination, overwrite) := r.operation;
    && source in st.nodes && destination.Some? && !Comparable(source, destination.value)
    && At(st.nodes, Parent(destination.value)) == Some(Dir)
    && (destination.value in st.nodes ==> overwrite)
    && Permits(st.locks, r.now, source, Presented(r))
    && Permits(st.locks, r.now, destination.value, Presented(r))
  }

  /** A transfer succeeds exactly under that condition. */
  lemma TransferSucceedsExactly(st: Store, r: Request)
    requires WellFormed(st.nodes) && r.operation.Transfer?
    ensures Succeeded(Serve(st, r).status) <==> CanTransfer(st, r)
  {
    var Transfer(_, source, destination, _) := r.operation;
    if source in st.nodes && destination.Some? && destination.value != [] {
      PlaceableExactly(st.nodes, source, destination.value);
    }
  }

  /** A copy or rename finds its source and a place, once the destination has been removed. */
  lemma PlaceableExactly(t: Tree, source: Path, target: Path)
    requires WellFormed(t) && source in t && target != []
    ensures !(t[source].Dir? && source <= target) && Transferable(RemoveTree(t, target), source, target) <==>
              !Comparable(source, target) && At(t, Parent(target)) == Some(Dir)
  {
    var cleared := RemoveTree(t, target);
    RemoveKeepsWellFormed(t, target);
    assert At(cleared, Parent(target)) == At(t, Parent(target));
    if Transferable(cleared, source, target) && !(t[source].Dir? && source <= target) {
      NotBelowItself(t, cleared, source, target);
    }
  }

  /** What a successful transfer answers, and what it makes of the tree. */
  lemma SuccessfulTransfer(st: Store, r: Request)
    requires WellFormed(st.nodes) && r.operation.Transfer? && Succeeded(Serve(st, r).status)
    ensures CanTransfer(st, r)
    ensures Serve(st, r).status == if r.operation.destination.value in st.nodes then NoContent else Created
    ensures var source, target := r.operation.source, r.operation.destination.value;
            var copied := Graft(RemoveTree(st.nodes, target), source, target);
            Serve(st, r).store.nodes == if r.operation.move then RemoveTree(copied, source) else copied
  {
    TransferSucceedsExactly(st, r);
  }

  lemma NotBelowItself(t: Tree, cleared: Tree, source: Path, target: Path)
    requires WellFormed(cleared) && cleared == RemoveTree(t, target) && Transferable(cleared, source, target)
    requires t[source].Dir? ==> !(source <= target)
    ensures !Comparable(source, target)
  {
    if source <= target && source != target {
      assert source == target[..|source|] == Parent(target)[..|source|];
      if source != Parent(target) { AncestorsAreDirs(cleared, Parent(target), source); }
    }
  }

  /** What COPY makes of the tree: the source below the destination, and everything else as it was. */
  ghost predicate Copied(before: Tree, after: Tree, source: Path, target: Path) {
    && (forall x: Path :: At(after, target + x) == At(before, source + x))
    && (forall x: Path :: At(after, source + x) == At(before, source + x))
    && (forall k: Path :: !(target <= k) ==> At(after, k) == At(before, k))
  }

  lemma CopyReproduces(st: Store, r: Request)
    requires WellFormed(st.nodes) && r.operation.Transfer? && !r.operation.move && Succeeded(Serve(st, r).status)
    ensures Copied(st.nodes, Serve(st, r).store.nodes, r.operation.source, r.operation.destination.value)
  {
    SuccessfulTransfer(st, r);
    ClearedCopy(st.nodes, r.operation.source, r.operation.destination.value);
  }

  lemma ClearedCopy(t: Tree, source: Path, target: Path)
    requires !Comparable(source, target)
    ensures Copied(t, Graft(RemoveTree(t, target), source, target), source, target)
  {
    var cleared := RemoveTree(t, target);
    GraftIsCopy(cleared, source, target);
    forall x: Path ensures At(cleared, source + x) == At(t, source + x) {
      assert source <= source + x;
      if target <= source + x { PrefixesCompare(source, target, source + x); }
    }
  }

  /** MOVE answers as COPY does, and when it succeeds the tree is that of COPY followed by DELETE of the source. */
  lemma MoveIsCopyThenDelete(st: Store, r: Request)
    requires WellFormed(st.nodes) && r.operation.Transfer? && r.operation.move
    ensures var copy := Serve(st, r.(operation := r.operation.(move := false)));
            var deleted := Serve(copy.store, r.(operation := Delete(r.operation.source)));
            && Serve(st, r).status == copy.status
            && (Succeeded(copy.status) ==>
                deleted.status == NoContent && Serve(st, r).store.nodes == deleted.store.nodes)
  {
    var asCopy := r.(operation := r.operation.(move := false));
    var copy := Serve(st, asCopy);
    SameAnswer(st, r);
    if Succeeded(copy.status) {
      SuccessfulTransfer(st, r);
      SuccessfulTransfer(st, asCopy);
      CopyReproduces(st, asCopy);
      var source := r.operation.source;
      assert source + [] == source;
      assert At(copy.store.nodes, source + []) == At(st.nodes, source + []);
      PruneTwice(st.locks, r.now);
    }
  }

  lemma SameAnswer(st: Store, r: Request)
    requires r.operation.Transfer? && r.operation.move
    ensures var copy := Serve(st, r.(operation := r.operation.(move := false)));
            && Serve(st, r).status == copy.status
            && (Succeeded(copy.status) ==>
                  && copy.store.locks == Live(st.locks, r.now)
                  && r.operation.source != []
                  && Permits(st.locks, r.now, r.operation.source, Presented(r)))
  {}

  /** When a transfer fails and yet has changed the tree: exactly when it is permitted to overwrite a
      destination that is the source file itself or contains the source, for then the code has already
      deleted both. */
  lemma FailedTransferLosesData(st: Store, r: Request)
    requires WellFormed(st.nodes) && r.operation.Transfer?
    ensures var Transfer(_, source, destination, overwrite) := r.operation;
            !Succeeded(Serve(st, r).status) && Serve(st, r).store.nodes != st.nodes <==>
              && source in st.nodes && destination.Some? && destination.value != [] && overwrite
              && destination.value <= source && (destination.value == source ==> st.nodes[source].File?)
              && Permits(st.locks, r.now, source, Presented(r))
              && Permits(st.locks, r.now, destination.value, Presented(r))
  {
    var Transfer(move, source, destination, overwrite) := r.operation;
    if Succeeded(Serve(st, r).status) {
      SuccessfulTransfer(st, r);
    } else if destination.Some? && destination.value != [] && source in st.nodes && source != [] {
      FailureLosesData(st, r.now, Presented(r), move, source, destination.value, overwrite);
    }
  }

  /** A root with one file. */
  function FileStore(s: string, data: seq<Byte>): Store { Store(map[[] := Dir, [s] := File(data)], map[]) }

  /** A family of such losses: a file that is moved or copied onto itself is gone. */
  lemma OntoItselfIsLost(s: string, data: seq<Byte>, move: bool, now: int)
    ensures var st := FileStore(s, data);
            var r := Request(now, {}, None, Transfer(move, [s], Some([s]), true));
            && WellFormed(st.nodes) && st.nodes[[s]] == File(data)
            && Serve(st, r).status == Failed && [s] !in Serve(st, r).store.nodes
  {
    var st := FileStore(s, data);
    assert Parent([s]) == [];
    SourceIsLost(st.nodes, [s], [s]);
  }

  lemma FailureLosesData(st: Store, now: int, presented: set<Token>, move: bool, source: Path, target: Path,
                         overwrite: bool)
    requires WellFormed(st.nodes) && source in st.nodes && source != [] && target != []
    requires !Succeeded(TransferReply(st, now, presented, move, source, Some(target), overwrite).status)
    ensures TransferReply(st, now, presented, move, source, Some(target), overwrite).store.nodes != st.nodes <==>
              && overwrite && target <= source && (target == source ==> st.nodes[source].File?)
              && Permits(st.locks, now, source, presented) && Permits(st.locks, now, target, presented)
  {
    if target <= source { SourceIsLost(st.nodes, source, target); }
    else if Writable(st.nodes, target) { NothingIsLost(st.nodes, source, target); }
  }

  /** Removing a destination that contains the source removes the source. */
  lemma SourceIsLost(t: Tree, source: Path, target: Path)
    requires WellFormed(t) && source in t && target != [] && target <= source
    ensures target in t && Writable(t, target) && (source <= target ==> source == target)
    ensures source !in RemoveTree(t, target) && RemoveTree(t, target) != t
  {
    if target != source { AncestorsAreDirs(t, source, target); }
    assert At(t, target).Some? && At(t, Parent(target)).Some?;
  }

  /** Otherwise a transfer fails only when there was nothing to remove. */
  lemma NothingIsLost(t: Tree, source: Path, target: Path)
    requires WellFormed(t) && source in t && target != [] && !(target <= source)
    ensures !Transferable(RemoveTree(t, target), source, target) ==> RemoveTree(t, target) == t
  {
    assert source in RemoveTree(t, target) && !(target <= Parent(target));
    if target !in t { NothingToRemove(t, target); }
    else { assert At(t, Parent(target)) == Some(Dir); }
  }
}
