/** The keep-alive sender: one loop over running transfers, pending handshakes and a FIFO queue. */
module KeepAlive {
  datatype Limits = Limits(active: nat, queued: nat)

  /** What the select statement can pick. `Stop` is an interrupt or the closing of the endpoint. */
  datatype Event =
    | TransferDone(number: nat, sent: bool)
    | HandshakeDone(ok: bool)
    | Incoming
    | Stop

  /** `active` and `waiting` hold connection numbers; `started` records the order of starts. */
  datatype State = State(
    accepted: nat, nextNumber: nat, waiting: seq<nat>, handshakes: nat, active: set<nat>, started: seq<nat>)

  const INITIAL: State := State(0, 1, [], 0, {}, [])

  /** The guards of the select arms: a join can only be picked while there is something to join. */
  predicate Enabled(s: State, e: Event) {
    match e
    case TransferDone(number, _) => number in s.active
    case HandshakeDone(_) => s.handshakes > 0
    case Incoming => true
    case Stop => true
  }

  predicate HasCapacity(s: State, limits: Limits) {
    |s.active| + |s.waiting| + s.handshakes < limits.active + limits.queued
  }

  function Start(s: State, number: nat): State {
    s.(active := s.active + {number}, started := s.started + [number])
  }

  /** Start queued connections while there is room. */
  function Refill(s: State, limits: Limits): State
    decreases |s.waiting|
  {
    if |s.active| < limits.active && s.waiting != []
    then Refill(Start(s, s.waiting[0]).(waiting := s.waiting[1..]), limits)
    else s
  }

  function Handle(s: State, e: Event, limits: Limits): State {
    match e
    case TransferDone(number, sent) =>
      s.(active := s.active - {number}, accepted := if sent then s.accepted + 1 else s.accepted)
    case HandshakeDone(ok) =>
      var joined := s.(handshakes := if s.handshakes > 0 then s.handshakes - 1 else 0);
      if !ok then joined
      else
        var numbered := joined.(nextNumber := s.nextNumber + 1);
        if |s.active| < limits.active then Start(numbered, s.nextNumber)
        else numbered.(waiting := s.waiting + [s.nextNumber])
    case Incoming => if HasCapacity(s, limits) then s.(handshakes := s.handshakes + 1) else s
    case Stop => s
  }

  /** From one select to the next. */
  function Turn(s: State, e: Event, limits: Limits): State {
    if Enabled(s, e) then Refill(Handle(s, e, limits), limits) else s
  }

  /** The state at the select reached after `events`, none of which stops the loop. */
  function Run(s: State, events: seq<Event>, limits: Limits): State
    decreases |events|
  {
    if events == [] then s else Run(Turn(s, events[0], limits), events[1..], limits)
  }

  function Completions(s: State, events: seq<Event>, limits: Limits): nat
    decreases |events|
  {
    if events == [] then 0
    else (if events[0].TransferDone? && events[0].number in s.active then 1 else 0)
         + Completions(Turn(s, events[0], limits), events[1..], limits)
  }

  function UpToStop(events: seq<Event>): seq<Event> {
    if events == [] || events[0].Stop? then [] else [events[0]] + UpToStop(events[1..])
  }

  /** The longest beginning without a stop. */
  lemma {:induction false} UpToStopIsLongest(events: seq<Event>)
    ensures var r := UpToStop(events);
            r <= events && (forall i :: 0 <= i < |r| ==> r[i] != Stop) && (|r| < |events| ==> events[|r|] == Stop)
  {
    if events != [] && !events[0].Stop? { UpToStopIsLongest(events[1..]); }
  }

  lemma OneMoreEvent(s: State, events: seq<Event>, i: nat, limits: Limits)
    requires i < |events| && !events[i].Stop?
    ensures Run(s, UpToStop(events[i..]), limits) == Run(Turn(s, events[i], limits), UpToStop(events[i + 1..]), limits)
  {
    assert events[i..][0] == events[i] && events[i..][1..] == events[i + 1..];
    assert UpToStop(events[i..])[1..] == UpToStop(events[i + 1..]);
  }

  // ---------- the invariant ----------

  predicate Consecutive(s: seq<nat>, first: nat) {
    forall i :: 0 <= i < |s| ==> s[i] == first + i
  }

  /** Holds throughout a turn. */
  predicate Sound(s: State, limits: Limits) {
    && Consecutive(s.started, 1)
    && Consecutive(s.waiting, |s.started| + 1)
    && s.nextNumber == |s.started| + |s.waiting| + 1
    && (forall n :: n in s.active ==> 1 <= n <= |s.started|)
    && |s.active| <= limits.active
    && |s.active| + |s.waiting| + s.handshakes <= limits.active + limits.queued
  }

  /** Holds at every select: besides, connections only wait while every transfer slot is taken. */
  predicate Settled(s: State, limits: Limits) {
    Sound(s, limits) && (s.waiting != [] ==> |s.active| == limits.active)
  }

  lemma StartIsSound(s: State, limits: Limits)
    requires Sound(s, limits) && |s.active| < limits.active && s.waiting != []
    ensures Sound(Start(s, s.waiting[0]).(waiting := s.waiting[1..]), limits)
  {
    assert s.waiting[0] == |s.started| + 1 && s.waiting[0] !in s.active;
  }

  lemma {:induction false} RefillSettles(s: State, limits: Limits)
    requires Sound(s, limits)
    ensures Settled(Refill(s, limits), limits)
    decreases |s.waiting|
  {
    if |s.active| < limits.active && s.waiting != [] {
      StartIsSound(s, limits);
      RefillSettles(Start(s, s.waiting[0]).(waiting := s.waiting[1..]), limits);
    }
  }

  lemma HandleIsSound(s: State, e: Event, limits: Limits)
    requires Settled(s, limits) && Enabled(s, e)
    ensures Sound(Handle(s, e, limits), limits)
  {
    match e
    case HandshakeDone(ok) =>
      if ok && |s.active| < limits.active {
        assert s.waiting == [] && s.nextNumber !in s.active;
      }
    case _ =>
  }

  /** In every run, at every select: starts are numbered 1..k in order, the queue is k+1..next-1,
      the limits hold, and the queue is non-empty only while the slots are full. */
  lemma {:induction false} RunSettles(s: State, events: seq<Event>, limits: Limits)
    requires Settled(s, limits)
    ensures Settled(Run(s, events, limits), limits)
    decreases |events|
  {
    if events != [] {
      if Enabled(s, events[0]) {
        HandleIsSound(s, events[0], limits);
        RefillSettles(Handle(s, events[0], limits), limits);
      }
      RunSettles(Turn(s, events[0], limits), events[1..], limits);
    }
  }

  /** So the queue never grows beyond its own limit. */
  lemma QueueIsBounded(events: seq<Event>, limits: Limits)
    ensures |Run(INITIAL, events, limits).waiting| <= limits.queued
  {
    RunSettles(INITIAL, events, limits);
  }

  // ---------- first come, first served ----------

  lemma TakeOne(started: seq<nat>, waiting: seq<nat>, taken: nat)
    requires 1 <= taken <= |waiting|
    ensures started + waiting[..taken] == started + [waiting[0]] + waiting[1..][..taken - 1]
    ensures waiting[taken..] == waiting[1..][taken - 1..]
  {}

  /** A refill starts as many of the queued connections as there are free slots, from the front. */
  lemma {:induction false} RefillTakesFront(s: State, limits: Limits)
    requires Sound(s, limits)
    ensures var free, r := limits.active - |s.active|, Refill(s, limits);
            var taken := if free <= |s.waiting| then free else |s.waiting|;
            r.started == s.started + s.waiting[..taken] && r.waiting == s.waiting[taken..]
    decreases |s.waiting|
  {
    if |s.active| < limits.active && s.waiting != [] {
      var next := Start(s, s.waiting[0]).(waiting := s.waiting[1..]);
      assert s.waiting[0] !in s.active;
      StartIsSound(s, limits);
      RefillTakesFront(next, limits);
      var free := limits.active - |s.active|;
      var taken := if free <= |s.waiting| then free else |s.waiting|;
      TakeOne(s.started, s.waiting, taken);
    }
  }

  /** While the queue is not empty, a turn starts its first connection if a transfer completed and
      none otherwise. */
  lemma TurnAdvancesQueue(s: State, e: Event, limits: Limits)
    requires Settled(s, limits) && s.waiting != []
    ensures var done := if e.TransferDone? && e.number in s.active then 1 else 0;
            var next := Turn(s, e, limits);
            |next.started| == |s.started| + done && |next.waiting| >= |s.waiting| - done
  {
    if Enabled(s, e) {
      HandleIsSound(s, e, limits);
      RefillTakesFront(Handle(s, e, limits), limits);
    }
  }

  lemma {:induction false} StartsNeverShrink(s: State, events: seq<Event>, limits: Limits)
    requires Settled(s, limits)
    ensures |Run(s, events, limits).started| >= |s.started|
    decreases |events|
  {
    if events != [] {
      if Enabled(s, events[0]) {
        HandleIsSound(s, events[0], limits);
        RefillTakesFront(Handle(s, events[0], limits), limits);
        RefillSettles(Handle(s, events[0], limits), limits);
      }
      StartsNeverShrink(Turn(s, events[0], limits), events[1..], limits);
    }
  }

  lemma {:induction false} StartsCountCompletions(s: State, events: seq<Event>, limits: Limits)
    requires Settled(s, limits)
    ensures var c, k := Completions(s, events, limits), |Run(s, events, limits).started| - |s.started|;
            if c <= |s.waiting| then c <= k && (c < |s.waiting| ==> k == c) else k >= |s.waiting|
    decreases |events|
  {
    if s.waiting == [] {
      StartsNeverShrink(s, events, limits);
    } else if events != [] {
      var next := Turn(s, events[0], limits);
      TurnAdvancesQueue(s, events[0], limits);
      RunSettles(s, [events[0]], limits);
      assert Run(s, [events[0]], limits) == next;
      StartsCountCompletions(next, events[1..], limits);
    }
  }

  /** The connection at queue position `p` has been started after a stretch of the loop if and only
      if at least `p + 1` transfers completed in it. */
  lemma WaitIsExact(s: State, p: nat, events: seq<Event>, limits: Limits)
    requires Settled(s, limits) && p < |s.waiting|
    ensures s.waiting[p] in Run(s, events, limits).started <==> Completions(s, events, limits) >= p + 1
  {
    StartsCountCompletions(s, events, limits);
    RunSettles(s, events, limits);
    var started := Run(s, events, limits).started;
    assert s.waiting[p] == |s.started| + 1 + p;
    if s.waiting[p] <= |started| {
      assert started[s.waiting[p] - 1] == s.waiting[p];
    }
  }

  /** How many of the completions reported a file as sent. */
  function Sent(s: State, events: seq<Event>, limits: Limits): nat
    decreases |events|
  {
    if events == [] then 0
    else (if events[0].TransferDone? && events[0].sent && events[0].number in s.active then 1 else 0)
         + Sent(Turn(s, events[0], limits), events[1..], limits)
  }

  lemma {:induction false} RefillConserves(s: State, limits: Limits)
    requires Sound(s, limits)
    ensures var r := Refill(s, limits);
            |r.started| - |r.active| == |s.started| - |s.active| && r.accepted == s.accepted
                && r.handshakes == s.handshakes
    decreases |s.waiting|
  {
    if |s.active| < limits.active && s.waiting != [] {
      StartIsSound(s, limits);
      assert s.waiting[0] !in s.active;
      RefillConserves(Start(s, s.waiting[0]).(waiting := s.waiting[1..]), limits);
    }
  }

  /** Every connection started is running or has completed, and the result counts those sent. */
  lemma {:induction false} RunConserves(s: State, events: seq<Event>, limits: Limits)
    requires Settled(s, limits)
    ensures var r := Run(s, events, limits);
            && |r.started| - |r.active| == |s.started| - |s.active| + Completions(s, events, limits)
            && r.accepted == s.accepted + Sent(s, events, limits)
    decreases |events|
  {
    if events != [] {
      TurnConserves(s, events[0], limits);
      RunConserves(Turn(s, events[0], limits), events[1..], limits);
    }
  }

  lemma TurnConserves(s: State, e: Event, limits: Limits)
    requires Settled(s, limits)
    ensures var r := Turn(s, e, limits);
            && Settled(r, limits)
            && |r.started| - |r.active| == |s.started| - |s.active| + Completions(s, [e], limits)
            && r.accepted == s.accepted + Sent(s, [e], limits)
  {
    if Enabled(s, e) {
      HandleIsSound(s, e, limits);
      assert e == HandshakeDone(true) ==> s.nextNumber !in s.active;
      RefillConserves(Handle(s, e, limits), limits);
      RefillSettles(Handle(s, e, limits), limits);
    }
  }

  // ---------- everyone is taken ----------

  /** Whether `e` admits an incoming connection: the two limits together leave room for one more. */
  predicate Admits(s: State, e: Event, limits: Limits) {
    e.Incoming? && |s.active| + |s.waiting| + s.handshakes < limits.active + limits.queued
  }

  /** Whether `e` finishes a handshake, well or not. */
  predicate Finishes(s: State, e: Event) { e.HandshakeDone? && s.handshakes > 0 }

  function Admitted(s: State, events: seq<Event>, limits: Limits): nat
    decreases |events|
  {
    if events == [] then 0
    else (if Admits(s, events[0], limits) then 1 else 0) + Admitted(Turn(s, events[0], limits), events[1..], limits)
  }

  function Finished(s: State, events: seq<Event>, limits: Limits): nat
    decreases |events|
  {
    if events == [] then 0
    else (if Finishes(s, events[0]) then 1 else 0) + Finished(Turn(s, events[0], limits), events[1..], limits)
  }

  /** Handshakes that ended well: connections there now are. */
  function Joined(s: State, events: seq<Event>, limits: Limits): nat
    decreases |events|
  {
    if events == [] then 0
    else (if Finishes(s, events[0]) && events[0].ok then 1 else 0)
         + Joined(Turn(s, events[0], limits), events[1..], limits)
  }

  lemma {:induction false} RefillMoves(s: State, limits: Limits)
    ensures var r := Refill(s, limits);
            |r.started| + |r.waiting| == |s.started| + |s.waiting| && r.handshakes == s.handshakes
    decreases |s.waiting|
  {
    if |s.active| < limits.active && s.waiting != [] {
      RefillMoves(Start(s, s.waiting[0]).(waiting := s.waiting[1..]), limits);
    }
  }

  lemma TurnTakes(s: State, e: Event, limits: Limits)
    ensures var r := Turn(s, e, limits);
            && |r.started| + |r.waiting| == |s.started| + |s.waiting| + (if Finishes(s, e) && e.ok then 1 else 0)
            && r.handshakes
               == s.handshakes + (if Admits(s, e, limits) then 1 else 0) - (if Finishes(s, e) then 1 else 0)
  {
    if Enabled(s, e) { RefillMoves(Handle(s, e, limits), limits); }
  }

  /** Over every run: each handshake that ended well has become a connection that has been started or
      waits, none is lost and none made up; and a handshake is under way for each connection admitted
      whose handshake has not finished. */
  lemma {:induction false} RunTakesEveryone(s: State, events: seq<Event>, limits: Limits)
    ensures var r := Run(s, events, limits);
            && |r.started| + |r.waiting| == |s.started| + |s.waiting| + Joined(s, events, limits)
            && r.handshakes == s.handshakes + Admitted(s, events, limits) - Finished(s, events, limits)
    decreases |events|
  {
    if events != [] {
      TurnTakes(s, events[0], limits);
      RunTakesEveryone(Turn(s, events[0], limits), events[1..], limits);
    }
  }

  /** A connection taken while a slot is free starts at once. */
  lemma FreeSlotIsUsed(s: State, limits: Limits)
    requires Settled(s, limits) && s.handshakes > 0 && |s.active| < limits.active
    ensures var r := Turn(s, HandshakeDone(true), limits);
            r.started == s.started + [|s.started| + 1] && r.active == s.active + {|s.started| + 1}
  {
    assert s.waiting == [];
    assert s.nextNumber !in s.active;
  }

  /** Some event completes the transfer `n` after it was started. */
  predicate Ended(s: State, events: seq<Event>, limits: Limits, n: nat)
    decreases |events|
  {
    events != []
    && ((events[0].TransferDone? && events[0].number == n && n in s.started)
        || Ended(Turn(s, events[0], limits), events[1..], limits, n))
  }

  lemma {:induction false} RefillStarts(s: State, limits: Limits, n: nat)
    requires Sound(s, limits)
    ensures var r := Refill(s, limits);
            && (n in r.active <==> n in s.active || (n in r.started && n !in s.started))
            && (n in s.started ==> n in r.started)
    decreases |s.waiting|
  {
    if |s.active| < limits.active && s.waiting != [] {
      StartIsSound(s, limits);
      RefillStarts(Start(s, s.waiting[0]).(waiting := s.waiting[1..]), limits, n);
    }
  }

  lemma TurnStarts(s: State, e: Event, limits: Limits, n: nat)
    requires Settled(s, limits)
    ensures var r := Turn(s, e, limits);
            && Settled(r, limits) && (n in s.started ==> n in r.started)
            && (n in r.active <==>
                  n in r.started && (n in s.started ==> n in s.active && !(e.TransferDone? && e.number == n)))
  {
    if Enabled(s, e) {
      HandleIsSound(s, e, limits);
      RefillStarts(Handle(s, e, limits), limits, n);
      RefillSettles(Handle(s, e, limits), limits);
    }
    assert n in s.active ==> s.started[n - 1] == n;
  }

  /** The running transfers are exactly those that have been started and not completed since. */
  lemma {:induction false} RunningExactly(s: State, events: seq<Event>, limits: Limits, n: nat)
    requires Settled(s, limits) && (n in s.started ==> n in s.active)
    ensures n in Run(s, events, limits).active <==>
              n in Run(s, events, limits).started && !Ended(s, events, limits, n)
    decreases |events|
  {
    if events != [] {
      TurnStarts(s, events[0], limits, n);
      var next := Turn(s, events[0], limits);
      if n in next.started && n !in next.active {
        StaysEnded(next, events[1..], limits, n);
      } else {
        RunningExactly(next, events[1..], limits, n);
      }
    } else {
      assert n in s.active ==> s.started[n - 1] == n;
    }
  }

  lemma {:induction false} StaysEnded(s: State, events: seq<Event>, limits: Limits, n: nat)
    requires Settled(s, limits) && n in s.started && n !in s.active
    ensures n !in Run(s, events, limits).active
    decreases |events|
  {
    if events != [] {
      TurnStarts(s, events[0], limits, n);
      StaysEnded(Turn(s, events[0], limits), events[1..], limits, n);
    }
  }

  // ---------- the loop ----------

  class Sender {
    const limits: Limits
    var accepted: nat
    var nextNumber: nat
    var waiting: seq<nat>
    var handshakes: nat
    var active: set<nat>
    ghost var started: seq<nat>

    constructor (limits: Limits)
      ensures this.limits == limits && Now() == INITIAL
    {
      this.limits := limits;
      accepted, nextNumber, waiting, handshakes, active, started := 0, 1, [], 0, {}, [];
    }

    ghost function Now(): State
      reads this
    {
      State(accepted, nextNumber, waiting, handshakes, active, started)
    }

    method StartTransfer(number: nat)
      modifies this`active, this`started
      ensures Now() == Start(old(Now()), number)
    {
      active := active + {number};
      started := started + [number];
    }

    method StartQueuedTransfers()
      modifies this`active, this`started, this`waiting
      ensures Now() == Refill(old(Now()), limits)
    {
      while |active| < limits.active
        invariant Refill(Now(), limits) == Refill(old(Now()), limits)
        decreases |waiting|
      {
        if waiting == [] { break; }
        var number := waiting[0];
        waiting := waiting[1..];
        StartTransfer(number);
      }
    }

    /** One pick of the select statement; `Stop` and disabled arms do nothing here. */
    method Select(e: Event)
      modifies this
      ensures Now() == if Enabled(old(Now()), e) then Handle(old(Now()), e, limits) else old(Now())
    {
      match e
      case TransferDone(number, sent) =>
        if number in active {
          active := active - {number};
          if sent { accepted := accepted + 1; }
        }
      case HandshakeDone(ok) =>
        if handshakes > 0 {
          handshakes := handshakes - 1;
          if ok {
            var number := nextNumber;
            nextNumber := nextNumber + 1;
            if |active| < limits.active {
              StartTransfer(number);
            } else {
              waiting := waiting + [number];
            }
          }
        }
      case Incoming =>
        if |active| + |waiting| + handshakes < limits.active + limits.queued {
          handshakes := handshakes + 1;
        }
      case Stop =>
    }

    /** The whole loop over the events the runtime delivers, until one stops it. */
    method Serve(events: seq<Event>) returns (total: nat)
      requires Now() == INITIAL
      modifies this
      ensures total == Run(INITIAL, UpToStop(events), limits).accepted
      ensures started == Run(INITIAL, UpToStop(events), limits).started
      ensures waiting == [] && handshakes == 0 && active == {}
    {
      var i := 0;
      ghost var final := Run(INITIAL, UpToStop(events), limits);
      while true
        invariant i <= |events|
        invariant Settled(Refill(Now(), limits), limits) && Sound(Now(), limits)
        invariant Run(Refill(Now(), limits), UpToStop(events[i..]), limits) == final
        decreases |events| - i
      {
        StartQueuedTransfers();
        if i == |events| || events[i].Stop? { break; }
        ghost var before := Now();
        OneMoreEvent(before, events, i, limits);
        if Enabled(before, events[i]) { HandleIsSound(before, events[i], limits); }
        Select(events[i]);
        RefillSettles(Now(), limits);
        RefillOfSettled(before, limits);
        i := i + 1;
      }
      total := accepted;
      waiting, handshakes, active := [], 0, {};
    }
  }

  lemma RefillOfSettled(s: State, limits: Limits)
    requires Settled(s, limits)
    ensures Refill(s, limits) == s
  {}
}
