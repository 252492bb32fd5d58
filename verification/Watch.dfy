/** The directory watcher: a file is sent once its stamp has been stable for long enough. */
module Watch {
  import opened Wrappers

  type Path = string

  datatype Stamp = Stamp(size: nat, modified: int)

  datatype Pending = Pending(stamp: Stamp, since: int)

  /** What the watcher remembers of one path: the stamp last dealt with, and one being timed. */
  datatype Memory = Memory(seen: Option<Stamp>, pending: Option<Pending>)

  datatype Outcome = Outcome(memory: Memory, queued: bool)

  /** One scan at time `now` finds the path with `current`, or not at all. */
  function Observe(m: Memory, current: Option<Stamp>, now: int, stabilize: int): Outcome {
    if current.None? then Outcome(Memory(None, None), false)
    else if m.seen == current then Outcome(m, false)
    else
      var entry := if m.pending.Some? && m.pending.value.stamp == current.value
                   then m.pending.value else Pending(current.value, now);
      if now - entry.since >= stabilize then Outcome(Memory(current, None), true)
      else Outcome(Memory(m.seen, Some(entry)), false)
  }

  // ---------- the history of one path ----------

  datatype Sight = Sight(now: int, stamp: Option<Stamp>)

  predicate InOrder(h: seq<Sight>) {
    forall i, j :: 0 <= i <= j < |h| ==> h[i].now <= h[j].now
  }

  /** The memory before scan `n`, when the start-up scan saw `first`. */
  function Before(first: Option<Stamp>, h: seq<Sight>, n: nat, stabilize: int): Memory
    requires n <= |h|
  {
    if n == 0 then Memory(first, None)
    else Observe(Before(first, h, n - 1, stabilize), h[n - 1].stamp, h[n - 1].now, stabilize).memory
  }

  predicate Queued(first: Option<Stamp>, h: seq<Sight>, n: nat, stabilize: int)
    requires n < |h|
  {
    Observe(Before(first, h, n, stabilize), h[n].stamp, h[n].now, stabilize).queued
  }

  function Seen(first: Option<Stamp>, h: seq<Sight>, n: nat, stabilize: int): Option<Stamp>
    requires n <= |h|
  {
    Before(first, h, n, stabilize).seen
  }

  /** Scan `i` found the path with stamp `s` or with its last `seen` stamp, and did not queue it. */
  predicate Quiet(first: Option<Stamp>, h: seq<Sight>, i: nat, s: Stamp, seen: Option<Stamp>, stabilize: int)
    requires i < |h|
  {
    h[i].stamp.Some? && (h[i].stamp == Some(s) || h[i].stamp == seen) && !Queued(first, h, i, stabilize)
  }

  /** Scan `j` found `s`, which is still not the last `seen` stamp, and since then all was quiet. */
  predicate Window(first: Option<Stamp>, h: seq<Sight>, j: nat, n: nat, s: Stamp, stabilize: int)
    requires n <= |h|
  {
    j < n && h[j].stamp == Some(s) && Seen(first, h, n, stabilize) != Some(s)
    && forall i :: j <= i < n ==> Quiet(first, h, i, s, Seen(first, h, n, stabilize), stabilize)
  }

  lemma SeenIsKept(first: Option<Stamp>, h: seq<Sight>, n: nat, stabilize: int)
    requires n < |h| && h[n].stamp.Some? && !Queued(first, h, n, stabilize)
    ensures Seen(first, h, n + 1, stabilize) == Seen(first, h, n, stabilize)
  {}

  lemma WindowGrows(first: Option<Stamp>, h: seq<Sight>, j: nat, n: nat, s: Stamp, stabilize: int)
    requires n < |h| && Window(first, h, j, n, s, stabilize)
    requires Quiet(first, h, n, s, Seen(first, h, n, stabilize), stabilize)
    ensures Window(first, h, j, n + 1, s, stabilize)
  {
    SeenIsKept(first, h, n, stabilize);
  }

  /** A stamp being timed has been timed since a scan that opened a quiet window. */
  lemma {:induction false} PendingHasWindow(first: Option<Stamp>, h: seq<Sight>, n: nat,
                                        stabilize: int) returns (j: nat)
    requires n <= |h| && Before(first, h, n, stabilize).pending.Some?
    ensures var entry := Before(first, h, n, stabilize).pending.value;
            Window(first, h, j, n, entry.stamp, stabilize) && h[j].now == entry.since
  {
    var m, sight := Before(first, h, n - 1, stabilize), h[n - 1];
    var entry := Before(first, h, n, stabilize).pending.value;
    assert sight.stamp.Some? && !Queued(first, h, n - 1, stabilize);
    SeenIsKept(first, h, n - 1, stabilize);
    if m.pending == Some(entry) {
      j := PendingHasWindow(first, h, n - 1, stabilize);
      WindowGrows(first, h, j, n - 1, entry.stamp, stabilize);
    } else {
      j := n - 1;
    }
  }

  /** A quiet window is being timed, from its opening scan or from even earlier. */
  lemma {:induction false} WindowIsPending(first: Option<Stamp>, h: seq<Sight>, j: nat, n: nat, s: Stamp,
                                        stabilize: int)
    requires n <= |h| && InOrder(h) && Window(first, h, j, n, s, stabilize)
    ensures var p := Before(first, h, n, stabilize).pending;
            p.Some? && p.value.stamp == s && p.value.since <= h[j].now
    decreases n
  {
    assert Quiet(first, h, n - 1, s, Seen(first, h, n, stabilize), stabilize);
    SeenIsKept(first, h, n - 1, stabilize);
    if j < n - 1 {
      WindowIsPending(first, h, j, n - 1, s, stabilize);
    } else if Before(first, h, j, stabilize).pending.Some? {
      var k := PendingHasWindow(first, h, j, stabilize);
    }
  }

  /** A path is queued by scan `n` exactly when the scan finds a stamp other than the last `seen`
      one that some scan at least `stabilize` earlier already found, with nothing but that stamp or
      the `seen` one found, and nothing queued, by the scans in between. */
  lemma QueuedExactly(first: Option<Stamp>, h: seq<Sight>, n: nat, stabilize: int)
    requires n < |h| && InOrder(h)
    ensures Queued(first, h, n, stabilize) <==>
              && h[n].stamp.Some? && h[n].stamp != Seen(first, h, n, stabilize)
              && exists j: nat :: j <= n && h[n].now - h[j].now >= stabilize
                                  && (j == n || Window(first, h, j, n, h[n].stamp.value, stabilize))
  {
    var m := Before(first, h, n, stabilize);
    if Queued(first, h, n, stabilize) {
      if m.pending.Some? && m.pending.value.stamp == h[n].stamp.value {
        var j := PendingHasWindow(first, h, n, stabilize);
      } else {
        assert h[n].now - h[n].now >= stabilize;
      }
    } else if h[n].stamp.Some? && h[n].stamp != m.seen {
      forall j: nat | j <= n && h[n].now - h[j].now >= stabilize
        ensures !(j == n || Window(first, h, j, n, h[n].stamp.value, stabilize))
      {
        if j < n && Window(first, h, j, n, h[n].stamp.value, stabilize) {
          WindowIsPending(first, h, j, n, h[n].stamp.value, stabilize);
        } else if j == n && m.pending.Some? {
          var k := PendingHasWindow(first, h, n, stabilize);
        }
      }
    }
  }

  lemma {:induction false} SeenStays(first: Option<Stamp>, h: seq<Sight>, a: nat, b: nat, s: Stamp, stabilize: int)
    requires a <= b <= |h| && Seen(first, h, a, stabilize) == Some(s)
    requires forall i :: a <= i < b ==> h[i].stamp == Some(s)
    ensures Seen(first, h, b, stabilize) == Some(s)
    decreases b - a
  {
    if a < b { SeenStays(first, h, a, b - 1, s, stabilize); }
  }

  /** The same stamp is not queued twice unless another stamp or an absence was found in between. */
  lemma NeverTwice(first: Option<Stamp>, h: seq<Sight>, a: nat, b: nat, stabilize: int)
    requires a < b < |h| && Queued(first, h, a, stabilize) && Queued(first, h, b, stabilize)
    requires h[a].stamp == h[b].stamp
    ensures exists i :: a < i < b && h[i].stamp != h[a].stamp
  {
    if forall i :: a < i < b ==> h[i].stamp == h[a].stamp {
      SeenStays(first, h, a + 1, b, h[a].stamp.value, stabilize);
    }
  }

  /** A new stamp that holds for `stabilize` has been queued by the first scan at or after that. */
  lemma QueuedInTime(first: Option<Stamp>, h: seq<Sight>, j: nat, n: nat, s: Stamp, stabilize: int)
    requires j <= n < |h| && InOrder(h)
    requires Seen(first, h, j, stabilize) != Some(s)
    requires forall i :: j <= i <= n ==> h[i].stamp == Some(s)
    requires h[n].now - h[j].now >= stabilize
    ensures exists i :: j <= i <= n && Queued(first, h, i, stabilize)
  {
    if forall i :: j <= i < n ==> !Queued(first, h, i, stabilize) {
      StillUnseen(first, h, j, n, s, stabilize);
      assert j == n || Window(first, h, j, n, s, stabilize);
      QueuedExactly(first, h, n, stabilize);
    }
  }

  lemma {:induction false} StillUnseen(first: Option<Stamp>, h: seq<Sight>, j: nat, n: nat, s: Stamp, stabilize: int)
    requires j <= n <= |h| && Seen(first, h, j, stabilize) != Some(s)
    requires forall i :: j <= i < n ==> h[i].stamp == Some(s) && !Queued(first, h, i, stabilize)
    ensures Seen(first, h, n, stabilize) != Some(s)
    decreases n - j
  {
    if j < n { StillUnseen(first, h, j, n - 1, s, stabilize); }
  }

  // ---------- what counts as seen ----------

  /** Every scan from `a` to before `n` found the path and left it unqueued. */
  predicate Undisturbed(first: Option<Stamp>, h: seq<Sight>, a: nat, n: nat, stabilize: int)
    requires n <= |h|
  {
    forall i :: a <= i < n ==> h[i].stamp.Some? && !Queued(first, h, i, stabilize)
  }

  /** Scan `a` queued the stamp `s`, and nothing disturbed it before `n`. */
  predicate QueuedLast(first: Option<Stamp>, h: seq<Sight>, a: nat, n: nat, s: Stamp, stabilize: int)
    requires n <= |h|
  {
    a < n && h[a].stamp == Some(s) && Queued(first, h, a, stabilize) && Undisturbed(first, h, a + 1, n, stabilize)
  }

  ghost predicate WasQueued(first: Option<Stamp>, h: seq<Sight>, n: nat, s: Stamp, stabilize: int)
    requires n <= |h|
  {
    exists a: nat :: QueuedLast(first, h, a, n, s, stabilize)
  }

  lemma SeenStep(first: Option<Stamp>, h: seq<Sight>, n: nat, s: Stamp, stabilize: int)
    requires n < |h|
    ensures Seen(first, h, n + 1, stabilize) == Some(s) <==>
              h[n].stamp.Some? && if Queued(first, h, n, stabilize) then h[n].stamp == Some(s)
                                  else Seen(first, h, n, stabilize) == Some(s)
  {}

  lemma UndisturbedStep(first: Option<Stamp>, h: seq<Sight>, a: nat, n: nat, stabilize: int)
    requires a <= n < |h|
    ensures Undisturbed(first, h, a, n + 1, stabilize) <==>
              Undisturbed(first, h, a, n, stabilize) && h[n].stamp.Some? && !Queued(first, h, n, stabilize)
  {
    if Undisturbed(first, h, a, n + 1, stabilize) {
      assert forall i :: a <= i < n ==> h[i].stamp.Some? && !Queued(first, h, i, stabilize);
      assert h[n].stamp.Some? && !Queued(first, h, n, stabilize);
    }
  }

  lemma WasQueuedStep(first: Option<Stamp>, h: seq<Sight>, n: nat, s: Stamp, stabilize: int)
    requires n < |h|
    ensures WasQueued(first, h, n + 1, s, stabilize) <==>
              h[n].stamp.Some? && if Queued(first, h, n, stabilize) then h[n].stamp == Some(s)
                                  else WasQueued(first, h, n, s, stabilize)
  {
    forall a: nat | a < n
      ensures QueuedLast(first, h, a, n + 1, s, stabilize) <==>
                QueuedLast(first, h, a, n, s, stabilize) && h[n].stamp.Some? && !Queued(first, h, n, stabilize)
    {
      UndisturbedStep(first, h, a + 1, n, stabilize);
    }
    assert QueuedLast(first, h, n, n + 1, s, stabilize) <==>
             h[n].stamp == Some(s) && Queued(first, h, n, stabilize);
    if WasQueued(first, h, n + 1, s, stabilize) {
      var a: nat :| QueuedLast(first, h, a, n + 1, s, stabilize);
      assert a < n || a == n;
      if a < n { assert QueuedLast(first, h, a, n, s, stabilize); }
    } else if WasQueued(first, h, n, s, stabilize) {
      var a: nat :| QueuedLast(first, h, a, n, s, stabilize);
      assert !QueuedLast(first, h, a, n + 1, s, stabilize);
    }
  }

  /** The last `seen` stamp is the one queued last, or the one there at start-up while none has been
      queued; an absence makes the watcher forget it. */
  lemma {:induction false} SeenExactly(first: Option<Stamp>, h: seq<Sight>, n: nat, s: Stamp, stabilize: int)
    requires n <= |h|
    ensures Seen(first, h, n, stabilize) == Some(s) <==>
              (first == Some(s) && Undisturbed(first, h, 0, n, stabilize)) || WasQueued(first, h, n, s, stabilize)
  {
    if n > 0 {
      SeenExactly(first, h, n - 1, s, stabilize);
      SeenStep(first, h, n - 1, s, stabilize);
      UndisturbedStep(first, h, 0, n - 1, stabilize);
      WasQueuedStep(first, h, n - 1, s, stabilize);
    }
  }

  /** A stamp that returns after an absence and holds for `stabilize` is queued again. */
  lemma ReturnIsQueued(first: Option<Stamp>, h: seq<Sight>, j: nat, n: nat, s: Stamp, stabilize: int)
    requires 0 < j <= n < |h| && InOrder(h) && h[j - 1].stamp.None?
    requires forall i :: j <= i <= n ==> h[i].stamp == Some(s)
    requires h[n].now - h[j].now >= stabilize
    ensures exists i :: j <= i <= n && Queued(first, h, i, stabilize)
  {
    SeenExactly(first, h, j, s, stabilize);
    QueuedInTime(first, h, j, n, s, stabilize);
  }

  // ---------- the loop ----------

  datatype Scan = Scan(now: int, files: map<Path, Stamp>)

  function Find<T>(m: map<Path, T>, p: Path): Option<T> {
    if p in m then Some(m[p]) else None
  }

  function Sights(scans: seq<Scan>, p: Path): (h: seq<Sight>)
    ensures |h| == |scans| && forall i :: 0 <= i < |h| ==> h[i] == Sight(scans[i].now, Find(scans[i].files, p))
  {
    seq(|scans|, i requires 0 <= i < |scans| => Sight(scans[i].now, Find(scans[i].files, p)))
  }

  predicate Distinct(jobs: seq<Path>) { forall i, j :: 0 <= i < j < |jobs| ==> jobs[i] != jobs[j] }

  class Watcher {
    const stabilize: int
    var seen: map<Path, Stamp>
    var pending: map<Path, Pending>

    constructor (first: map<Path, Stamp>, stabilize: int)
      ensures this.stabilize == stabilize && forall p :: Recall(p) == Memory(Find(first, p), None)
    {
      this.stabilize, seen, pending := stabilize, first, map[];
    }

    function Recall(p: Path): Memory
      reads this
    {
      Memory(Find(seen, p), Find(pending, p))
    }

    /** Deal with one file found; the result says whether it is to be sent. */
    method Consider(path: Path, stamp: Stamp, now: int) returns (queued: bool)
      modifies this
      ensures Outcome(Recall(path), queued) == Observe(old(Recall(path)), Some(stamp), now, stabilize)
      ensures forall p :: p != path ==> Recall(p) == old(Recall(p))
    {
      if path in seen && seen[path] == stamp { return false; }
      var entry := if path in pending then pending[path] else Pending(stamp, now);
      if entry.stamp != stamp { entry := Pending(stamp, now); }
      pending := pending[path := entry];
      if now - entry.since >= stabilize {
        seen := seen[path := stamp];
        pending := pending - {path};
        return true;
      }
      queued := false;
    }

    /** One turn of the loop: deal with every file found, in any order, then forget those gone. */
    method Turn(now: int, current: map<Path, Stamp>) returns (jobs: seq<Path>)
      modifies this
      ensures forall p :: Recall(p) == Observe(old(Recall(p)), Find(current, p), now, stabilize).memory
      ensures forall p :: p in jobs <==> Observe(old(Recall(p)), Find(current, p), now, stabilize).queued
      ensures Distinct(jobs)
    {
      jobs := [];
      var todo := current.Keys;
      while todo != {}
        invariant todo <= current.Keys
        invariant forall p :: p in todo || p !in current ==> Recall(p) == old(Recall(p))
        invariant forall p :: p in current && p !in todo ==>
                    Recall(p) == Observe(old(Recall(p)), Find(current, p), now, stabilize).memory
        invariant forall p :: p in jobs <==>
                    p in current && p !in todo && Observe(old(Recall(p)), Find(current, p), now, stabilize).queued
        invariant Distinct(jobs)
      {
        var path :| path in todo;
        todo := todo - {path};
        var queued := Consider(path, current[path], now);
        if queued { jobs := jobs + [path]; }
      }
      pending := map p | p in pending && p in current :: pending[p];
      seen := map p | p in seen && p in current :: seen[p];
    }
  }

  /** The watcher over a whole history of scans: turn `n` queues exactly the paths whose own
      history says so. */
  method WatchAll(first: map<Path, Stamp>, scans: seq<Scan>, stabilize: int) returns (log: seq<seq<Path>>)
    ensures |log| == |scans|
    ensures forall n, p :: 0 <= n < |log| ==>
              (p in log[n] <==> Queued(Find(first, p), Sights(scans, p), n, stabilize))
    ensures forall n :: 0 <= n < |log| ==> Distinct(log[n])
  {
    var w := new Watcher(first, stabilize);
    log := [];
    while |log| < |scans|
      invariant |log| <= |scans| && w.stabilize == stabilize
      invariant forall p :: w.Recall(p) == Before(Find(first, p), Sights(scans, p), |log|, stabilize)
      invariant forall n, p :: 0 <= n < |log| ==>
                  (p in log[n] <==> Queued(Find(first, p), Sights(scans, p), n, stabilize))
      invariant forall n :: 0 <= n < |log| ==> Distinct(log[n])
    {
      var n := |log|;
      var jobs := w.Turn(scans[n].now, scans[n].files);
      log := log + [jobs];
    }
  }
}
