/** The rate limiter that concurrent streams share, in exact time (seconds as reals). */
module RateLimiting {
  import opened Bytes

  /** One call of `reserve`: which stream, its clock reading, how many bytes, and how long they take. */
  datatype Reservation = Reservation(stream: nat, now: real, bytes: nat, length: real)

  function Max(a: real, b: real): real { if a < b then b else a }

  /** The limiter's `next` after a history of reservations: when the last one may be used. */
  function Next(created: real, history: seq<Reservation>): real {
    if history == [] then created
    else
      var last := history[|history| - 1];
      Max(Next(created, history[..|history| - 1]), last.now) + last.length
  }

  /** The instant until which reservation `i` sleeps before its bytes go out. */
  function Release(created: real, history: seq<Reservation>, i: nat): real
    requires i < |history|
  {
    Next(created, history[..i + 1])
  }

  /** Bytes whose sleep is over at time `t`. */
  function Released(created: real, history: seq<Reservation>, t: real): nat {
    if history == [] then 0
    else
      Released(created, history[..|history| - 1], t)
      + if Next(created, history) <= t then history[|history| - 1].bytes else 0
  }

  /** The time those bytes take. */
  function ReleasedTime(created: real, history: seq<Reservation>, t: real): real {
    if history == [] then 0.0
    else
      ReleasedTime(created, history[..|history| - 1], t)
      + if Next(created, history) <= t then history[|history| - 1].length else 0.0
  }

  // ---------- multiplication as repeated addition ----------

  /** `d` added up `n` times. */
  function Times(n: nat, d: real): real {
    if n == 0 then 0.0 else Times(n - 1, d) + d
  }

  lemma {:induction false} TimesGrows(m: nat, n: nat, d: real)
    requires m <= n && d >= 0.0
    ensures 0.0 <= Times(m, d) <= Times(n, d)
  {
    if m < n { TimesGrows(m, n - 1, d); }
    else if m > 0 { TimesGrows(m - 1, m - 1, d); }
  }

  lemma {:induction false} TimesScales(n: nat, a: real, b: real)
    requires a <= b
    ensures Times(n, a) <= Times(n, b)
  {
    if n > 0 { TimesScales(n - 1, a, b); }
  }

  lemma {:induction false} TimesDistributes(n: nat, a: real, b: real)
    ensures Times(n, a + b) == Times(n, a) + Times(n, b)
  {
    if n > 0 { TimesDistributes(n - 1, a, b); }
  }

  lemma {:induction false} TimesZero(n: nat)
    ensures Times(n, 0.0) == 0.0
  {
    if n > 0 { TimesZero(n - 1); }
  }

  lemma {:induction false} TimesIsProduct(n: nat, d: real)
    ensures Times(n, d) == n as real * d
  {
    if n > 0 {
      TimesIsProduct(n - 1, d);
      var m := (n - 1) as real;
      assert n as real == m + 1.0 && (m + 1.0) * d == m * d + d;
    }
  }

  // ---------- the rate holds ----------

  lemma {:induction false} ReleasesTakeTurns(created: real, history: seq<Reservation>, t: real)
    requires forall i :: 0 <= i < |history| ==> history[i].length >= 0.0
    ensures ReleasedTime(created, history, t) <= Next(created, history) - created
    ensures created <= t ==> ReleasedTime(created, history, t) <= t - created
  {
    if history != [] { ReleasesTakeTurns(created, history[..|history| - 1], t); }
  }

  /** Each reservation takes the time its bytes need at the given rate. */
  predicate Paced(history: seq<Reservation>, rate: nat) {
    forall i :: 0 <= i < |history| ==>
      history[i].length >= 0.0 && Times(rate, history[i].length) == history[i].bytes as real
  }

  lemma {:induction false} ReleasedBytesTakeTime(created: real, history: seq<Reservation>, rate: nat, t: real)
    requires Paced(history, rate)
    ensures Times(rate, ReleasedTime(created, history, t)) == Released(created, history, t) as real
  {
    TimesZero(rate);
    if history != [] {
      var before := history[..|history| - 1];
      ReleasedBytesTakeTime(created, before, rate, t);
      TimesDistributes(rate, ReleasedTime(created, before, t), history[|history| - 1].length);
    }
  }

  lemma ReleasedWithin(created: real, history: seq<Reservation>, rate: nat, t: real)
    requires Paced(history, rate) && created <= t
    ensures Released(created, history, t) as real <= Times(rate, t - created)
  {
    ReleasesTakeTurns(created, history, t);
    ReleasedBytesTakeTime(created, history, rate, t);
    TimesScales(rate, ReleasedTime(created, history, t), t - created);
  }

  /** However the streams interleave, and whatever clock readings they bring: by time `t` no more
      than rate * (t - creation) bytes have been let go. */
  lemma RateIsKept(created: real, history: seq<Reservation>, rate: nat, t: real)
    requires Paced(history, rate) && created <= t
    ensures Released(created, history, t) as real <= rate as real * (t - created)
  {
    var released, elapsed := Released(created, history, t) as real, t - created;
    assert released <= rate as real * elapsed by {
      ReleasedWithin(created, history, rate, t);
      BoundIsProduct(released, rate, elapsed);
    }
  }

  lemma BoundIsProduct(x: real, n: nat, d: real)
    requires x <= Times(n, d)
    ensures x <= n as real * d
  {
    TimesIsProduct(n, d);
    assert Times(n, d) == n as real * d;
  }

  // ---------- nobody waits long ----------

  predicate Within(history: seq<Reservation>, d: real) {
    forall i :: 0 <= i < |history| ==> history[i].length <= d
  }

  /** `k` streams, clock readings in the order of the reservations, and every stream sleeps out one
      reservation before it makes the next. */
  ghost predicate Orderly(created: real, history: seq<Reservation>, k: nat) {
    && (forall i :: 0 <= i < |history| ==> history[i].stream < k)
    && (forall i, j :: 0 <= i < j < |history| ==> history[i].now <= history[j].now)
    && (forall i, j :: 0 <= i < j < |history| && history[i].stream == history[j].stream ==>
          Release(created, history, i) <= history[j].now)
  }

  /** Streams that still sleep at time `t`. */
  ghost function Busy(created: real, history: seq<Reservation>, t: real): set<nat> {
    set i | 0 <= i < |history| && Release(created, history, i) > t :: history[i].stream
  }

  lemma ReleaseOfPrefix(created: real, history: seq<Reservation>)
    requires history != []
    ensures forall i :: 0 <= i < |history| - 1 ==>
              Release(created, history[..|history| - 1], i) == Release(created, history, i)
    ensures Release(created, history, |history| - 1) == Next(created, history)
  {
    var before := history[..|history| - 1];
    forall i | 0 <= i < |before| ensures Release(created, before, i) == Release(created, history, i) {
      assert before[..i + 1] == history[..i + 1];
    }
    assert history[..|history|] == history;
  }

  /** The newest reservation adds its stream to those that slept before it. */
  lemma BusyGrows(created: real, history: seq<Reservation>, k: nat, t: real)
    requires history != [] && Orderly(created, history, k)
    requires history[|history| - 1].now <= t < Next(created, history)
    ensures |Busy(created, history, t)| >= |Busy(created, history[..|history| - 1], t)| + 1
  {
    var n := |history| - 1;
    var before, last := history[..n], history[n];
    ReleaseOfPrefix(created, history);
    var earlier, now := Busy(created, before, t), Busy(created, history, t);
    forall x | x in earlier ensures x in now && x != last.stream {
      var i :| 0 <= i < n && Release(created, before, i) > t && before[i].stream == x;
      assert Release(created, history, i) > t && history[i].stream == x;
    }
    assert Release(created, history, n) > t;
    assert earlier + {last.stream} <= now;
    SubsetSize(earlier + {last.stream}, now);
  }

  lemma SubsetSize(a: set<nat>, b: set<nat>)
    requires a <= b
    ensures |a| <= |b|
  {
    assert b == a + (b - a);
  }

  lemma {:induction false} BoundedSetSize(s: set<nat>, k: nat)
    requires forall x :: x in s ==> x < k
    ensures |s| <= k
  {
    if k == 0 {
      assert s == {};
    } else {
      BoundedSetSize(s - {k - 1}, k - 1);
    }
  }

  lemma OrderlyBefore(created: real, history: seq<Reservation>, k: nat)
    requires history != [] && Orderly(created, history, k)
    ensures Orderly(created, history[..|history| - 1], k)
  {
    ReleaseOfPrefix(created, history);
  }

  /** One more reservation, with `m` streams asleep before it and `n` after. */
  lemma OneMoreStretch(before: real, now: real, length: real, d: real, t: real, m: nat, n: nat)
    requires now <= t && length <= d && d >= 0.0 && m + 1 <= n
    requires before - t <= Times(m, d)
    ensures Max(before, now) + length - t <= Times(n, d)
  {
    TimesGrows(0, m, d);
    TimesGrows(m + 1, n, d);
  }

  /** What is still to be slept at `t` is at most one stretch for each stream that sleeps. */
  lemma {:induction false} Backlog(created: real, history: seq<Reservation>, k: nat, d: real, t: real)
    requires Orderly(created, history, k) && Within(history, d) && created <= t && d >= 0.0
    requires forall i :: 0 <= i < |history| ==> history[i].now <= t
    ensures Next(created, history) - t <= Times(|Busy(created, history, t)|, d)
  {
    TimesGrows(0, |Busy(created, history, t)|, d);
    if history != [] && Next(created, history) > t {
      var n := |history| - 1;
      OrderlyBefore(created, history, k);
      Backlog(created, history[..n], k, d, t);
      BusyGrows(created, history, k, t);
      OneMoreStretch(Next(created, history[..n]), history[n].now, history[n].length, d, t,
                     |Busy(created, history[..n], t)|, |Busy(created, history, t)|);
    }
  }

  /** With `k` such streams no single wait exceeds `k` stretches. */
  lemma WaitIsBounded(created: real, history: seq<Reservation>, k: nat, d: real)
    requires history != [] && Orderly(created, history, k) && Within(history, d) && d >= 0.0
    requires created <= history[|history| - 1].now
    ensures Next(created, history) - history[|history| - 1].now <= Times(k, d)
  {
    var t := history[|history| - 1].now;
    Backlog(created, history, k, d, t);
    var busy := Busy(created, history, t);
    BoundedSetSize(busy, k);
    TimesGrows(|busy|, k, d);
  }

  // ---------- the limiter ----------

  /** How much a stream reads, and so reserves, at a time. */
  function ChunkSize(rate: nat): (n: nat)
    ensures 1 <= n <= 64 * 1024
    ensures rate >= 4 ==> 4 * n <= rate
  {
    var quarter := rate / 4;
    if quarter < 1 then 1 else if quarter > 64 * 1024 then 64 * 1024 else quarter
  }

  /** A quarter of a second's bytes, but at least one and at most 65536. */
  lemma ChunkIsQuarter(rate: nat)
    ensures var n := ChunkSize(rate);
            || (4 * n <= rate < 4 * n + 4 && n <= 65536)
            || (n == 1 && rate < 4)
            || (n == 65536 && rate > 4 * 65536)
  {}

  lemma {:induction false} TimesAbove(n: nat, a: real, b: real)
    requires n > 0 && a < b
    ensures Times(n, a) < Times(n, b)
  {
    assert Times(n, a) == Times(n - 1, a) + a && Times(n, b) == Times(n - 1, b) + b;
    if n == 1 {
      assert Times(0, a) == 0.0 && Times(0, b) == 0.0;
    } else {
      TimesAbove(n - 1, a, b);
    }
  }

  lemma ShorterThanChunk(history: seq<Reservation>, rate: nat, chunk: nat, d: real)
    requires rate > 0 && Paced(history, rate) && Times(rate, d) >= chunk as real
    requires forall i :: 0 <= i < |history| ==> history[i].bytes <= chunk
    ensures Within(history, d)
  {
    forall i | 0 <= i < |history| ensures history[i].length <= d {
      if history[i].length > d { TimesAbove(rate, d, history[i].length); }
    }
  }

  /** A chunk takes `d` at this rate. */
  predicate TakesChunk(rate: nat, d: real) { Times(rate, d) == ChunkSize(rate) as real && d >= 0.0 }

  lemma ChunkOverRate(rate: nat, d: real)
    requires d >= 0.0
    ensures TakesChunk(rate, d) <==> rate as real * d == ChunkSize(rate) as real
  {
    TimesIsProduct(rate, d);
  }

  /** When `k` streams reserve at most the limiter's chunk size at a time and a chunk takes `d`, nobody
      waits longer than `k` times `d`. */
  lemma ChunkWaits(created: real, history: seq<Reservation>, rate: nat, k: nat, d: real)
    requires rate > 0 && Paced(history, rate) && Orderly(created, history, k)
    requires forall i :: 0 <= i < |history| ==> history[i].bytes <= ChunkSize(rate)
    requires TakesChunk(rate, d) && history != [] && created <= history[|history| - 1].now
    ensures Next(created, history) - history[|history| - 1].now <= k as real * d
  {
    ChunkWaitsFor(created, history, rate, k, d);
    BoundIsProduct(Next(created, history) - history[|history| - 1].now, k, d);
  }

  lemma ChunkWaitsFor(created: real, history: seq<Reservation>, rate: nat, k: nat, d: real)
    requires rate > 0 && Paced(history, rate) && Orderly(created, history, k)
    requires forall i :: 0 <= i < |history| ==> history[i].bytes <= ChunkSize(rate)
    requires TakesChunk(rate, d)
    requires history != [] && created <= history[|history| - 1].now
    ensures Next(created, history) - history[|history| - 1].now <= Times(k, d)
  {
    ShorterThanChunk(history, rate, ChunkSize(rate), d);
    WaitIsBounded(created, history, k, d);
  }

  /** From four bytes a second on, that is at most a quarter second per stream. */
  lemma QuarterSecondPerStream(created: real, history: seq<Reservation>, rate: nat, k: nat)
    requires rate >= 4 && Paced(history, rate) && Orderly(created, history, k)
    requires forall i :: 0 <= i < |history| ==> history[i].bytes <= ChunkSize(rate)
    requires history != [] && created <= history[|history| - 1].now
    ensures 4.0 * (Next(created, history) - history[|history| - 1].now) <= k as real
  {
    FourQuarters(rate);
    ShorterThanChunk(history, rate, ChunkSize(rate), 0.25);
    WaitIsBounded(created, history, k, 0.25);
    FourQuarters(k);
  }

  lemma {:induction false} FourQuarters(k: nat)
    ensures 4.0 * Times(k, 0.25) == k as real
  {
    if k > 0 { FourQuarters(k - 1); }
  }

  lemma PacedGrows(history: seq<Reservation>, rate: nat, last: Reservation)
    requires rate > 0 && Paced(history, rate) && last.length == last.bytes as real / rate as real
    ensures Paced(history + [last], rate) && last.length >= 0.0
  {
    TimesIsProduct(rate, last.length);
    QuotientTimes(last.bytes as real, rate as real);
  }

  lemma QuotientTimes(a: real, b: real)
    requires a >= 0.0 && b > 0.0
    ensures b * (a / b) == a && a / b >= 0.0
  {}

  class RateLimiter {
    const rate: nat
    var next: real
    ghost const created: real
    ghost var history: seq<Reservation>

    constructor (rate: nat, now: real)
      requires rate > 0
      ensures Valid() && this.rate == rate && created == now && history == []
    {
      this.rate, next, created, history := rate, now, now, [];
    }

    ghost predicate Valid()
      reads this
    {
      rate > 0 && next == Next(created, history) && Paced(history, rate)
    }

    /** Claim the next free stretch of time; the result is how long to sleep from `now`. */
    method Reserve(now: real, bytes: nat, ghost stream: nat) returns (wait: real)
      requires Valid()
      modifies this
      ensures Valid() && history == old(history) + [Reservation(stream, now, bytes, bytes as real / rate as real)]
      ensures wait == Release(created, history, |history| - 1) - now && wait >= 0.0
    {
      var start := if next < now then now else next;
      var length := bytes as real / rate as real;
      var finish := start + length;
      next := finish;
      wait := finish - now;
      history := history + [Reservation(stream, now, bytes, length)];
      assert history[..|history| - 1] == old(history);
      PacedGrows(old(history), rate, history[|history| - 1]);
      ReleaseOfPrefix(created, history);
    }
  }

  // ---------- the streams ----------

  /** Where a stream's copy loop stands: about to read, sleeping with a piece in hand, or at its end. */
  datatype Phase = Reading | Sleeping(piece: seq<Byte>, until: real) | Finished

  datatype Stream = Stream(unread: seq<Byte>, written: seq<Byte>, phase: Phase)

  function InHand(s: Stream): seq<Byte> { if s.phase.Sleeping? then s.phase.piece else [] }

  /** Bytes one stream has reserved. */
  function ReservedBy(history: seq<Reservation>, stream: nat): nat {
    if history == [] then 0
    else
      var last := history[|history| - 1];
      ReservedBy(history[..|history| - 1], stream) + if last.stream == stream then last.bytes else 0
  }

  /** A stream has slept out all it reserved by `t`. */
  ghost predicate SleptOut(created: real, history: seq<Reservation>, stream: nat, t: real) {
    forall i :: 0 <= i < |history| && history[i].stream == stream ==> Release(created, history, i) <= t
  }

  lemma EarlierReleases(created: real, history: seq<Reservation>, last: Reservation)
    ensures forall i :: 0 <= i < |history| ==>
              Release(created, history + [last], i) == Release(created, history, i)
    ensures Release(created, history + [last], |history|) == Max(Next(created, history), last.now) + last.length
  {
    assert (history + [last])[..|history|] == history;
    ReleaseOfPrefix(created, history + [last]);
  }

  /** One more reservation, by a stream that has slept out the others. */
  lemma StaysOrderly(created: real, history: seq<Reservation>, last: Reservation, k: nat)
    requires Orderly(created, history, k) && last.stream < k && SleptOut(created, history, last.stream, last.now)
    requires forall i :: 0 <= i < |history| ==> history[i].now <= last.now
    ensures Orderly(created, history + [last], k)
  {
    EarlierReleases(created, history, last);
  }

  /** Every wait in a history is bounded, not only the last. */
  lemma EveryWaitIsBounded(created: real, history: seq<Reservation>, rate: nat, k: nat, d: real, i: nat)
    requires rate > 0 && Paced(history, rate) && Orderly(created, history, k) && i < |history|
    requires TakesChunk(rate, d)
    requires forall j :: 0 <= j < |history| ==> history[j].bytes <= ChunkSize(rate) && created <= history[j].now
    ensures Waited(created, history, i) <= Times(k, d)
  {
    var sofar := history[..i + 1];
    forall j | 0 <= j <= i ensures Release(created, sofar, j) == Release(created, history, j) {
      assert sofar[..j + 1] == history[..j + 1];
    }
    ChunkWaitsFor(created, sofar, rate, k, d);
  }

  /** Nothing of the source is lost, the stream has reserved just what it has written or holds, and it
      sleeps until its last reservation is over. */
  ghost predicate Sound(source: seq<Byte>, s: Stream, i: nat, created: real, history: seq<Reservation>, clock: real) {
    && source == s.written + InHand(s) + s.unread
    && ReservedBy(history, i) == |s.written| + |InHand(s)|
    && SleptOut(created, history, i, if s.phase.Sleeping? then s.phase.until else clock)
    && (s.phase.Finished? ==> s.unread == [])
  }

  lemma SoundLater(source: seq<Byte>, s: Stream, i: nat, created: real, history: seq<Reservation>, clock: real,
                   now: real)
    requires Sound(source, s, i, created, history, clock) && clock <= now
    ensures Sound(source, s, i, created, history, now)
    ensures s.phase.Reading? ==> SleptOut(created, history, i, now)
    ensures s.phase.Reading? && s.unread == [] ==> Sound(source, s.(phase := Finished), i, created, history, now)
  {}

  lemma SoundAwake(source: seq<Byte>, s: Stream, i: nat, created: real, history: seq<Reservation>, now: real)
    requires Sound(source, s, i, created, history, now) && s.phase.Sleeping? && s.phase.until <= now
    ensures Sound(source, Stream(s.unread, s.written + s.phase.piece, Reading), i, created, history, now)
  {
    assert s.written + s.phase.piece + [] + s.unread == s.written + s.phase.piece + s.unread;
  }

  lemma SoundAsleep(source: seq<Byte>, s: Stream, i: nat, created: real, history: seq<Reservation>, now: real,
                    last: Reservation)
    requires Sound(source, s, i, created, history, now) && s.phase.Reading?
    requires last.stream == i && last.now == now && last.bytes <= |s.unread| && last.length >= 0.0
    ensures var n, longer := last.bytes, history + [last];
            var asleep := Sleeping(s.unread[..n], Release(created, longer, |history|));
            Sound(source, Stream(s.unread[n..], s.written, asleep), i, created, longer, now)
  {
    var n := last.bytes;
    EarlierReleases(created, history, last);
    OneMoreReserved(history, last, i);
    assert s.written + s.unread[..n] + s.unread[n..] == s.written + [] + s.unread;
  }

  lemma SoundOther(source: seq<Byte>, s: Stream, j: nat, created: real, history: seq<Reservation>, now: real,
                   last: Reservation)
    requires Sound(source, s, j, created, history, now) && last.stream != j
    ensures Sound(source, s, j, created, history + [last], now)
  {
    EarlierReleases(created, history, last);
    OneMoreReserved(history, last, j);
  }

  lemma OneMoreReserved(history: seq<Reservation>, last: Reservation, i: nat)
    ensures ReservedBy(history + [last], i) == ReservedBy(history, i) + if last.stream == i then last.bytes else 0
  {
    assert (history + [last])[..|history|] == history;
  }

  ghost predicate AllSound(sources: seq<seq<Byte>>, streams: seq<Stream>, created: real, history: seq<Reservation>,
                           clock: real) {
    |streams| == |sources| && forall i :: 0 <= i < |streams| ==>
        Sound(sources[i], streams[i], i, created, history, clock)
  }

  /** One stream reads a piece and reserves its time. */
  lemma AllSoundAfter(sources: seq<seq<Byte>>, streams: seq<Stream>, i: nat, created: real, history: seq<Reservation>,
                      now: real, last: Reservation)
    requires AllSound(sources, streams, created, history, now) && i < |streams| && streams[i].phase.Reading?
    requires last.stream == i && last.now == now && last.bytes <= |streams[i].unread| && last.length >= 0.0
    requires Orderly(created, history, |streams|) && forall j :: 0 <= j < |history| ==> history[j].now <= now
    ensures var s, n, longer := streams[i], last.bytes, history + [last];
            var asleep := Stream(s.unread[n..], s.written,
                Sleeping(s.unread[..n], Release(created, longer, |history|)));
            && Orderly(created, longer, |streams|)
            && AllSound(sources, streams[i := asleep], created, longer, now)
  {
    StaysOrderly(created, history, last, |streams|);
    forall j | 0 <= j < |streams| && j != i ensures Sound(sources[j], streams[j], j, created, history + [last], now) {
      SoundOther(sources[j], streams[j], j, created, history, now, last);
    }
    SoundAsleep(sources[i], streams[i], i, created, history, now, last);
  }

  // ---------- all streams together ----------

  /** The limiter's history and the streams that copy through it. */
  datatype World = World(created: real, rate: nat, history: seq<Reservation>, streams: seq<Stream>)

  /** How much a read brings: what the outside offers, but something, and no more than a chunk. */
  function PieceSize(unread: nat, rate: nat, offered: nat): (n: nat)
    requires unread > 0
    ensures 1 <= n <= unread && n <= ChunkSize(rate)
  {
    var most := if unread < ChunkSize(rate) then unread else ChunkSize(rate);
    if offered < 1 then 1 else if offered > most then most else offered
  }

  /** A read brings just what is offered when that fits, and all that fits when more is. */
  lemma PieceIsOffered(unread: nat, rate: nat, offered: nat)
    requires unread > 0
    ensures var n := PieceSize(unread, rate, offered);
            && (1 <= offered <= unread && offered <= ChunkSize(rate) ==> n == offered)
            && (offered >= unread || offered >= ChunkSize(rate) ==> n == unread || n == ChunkSize(rate))
  {}

  /** The next step of stream `i`: read a piece and reserve its time, or wake and write it. */
  function Turned(w: World, i: nat, now: real, offered: nat): World
    requires i < |w.streams| && w.rate > 0
  {
    var s := w.streams[i];
    match s.phase
    case Finished => w
    case Sleeping(piece, until) =>
      if until <= now then w.(streams := w.streams[i := Stream(s.unread, s.written + piece, Reading)]) else w
    case Reading =>
      if s.unread == [] then w.(streams := w.streams[i := s.(phase := Finished)])
      else
        var n := PieceSize(|s.unread|, w.rate, offered);
        var longer := w.history + [Reservation(i, now, n, n as real / w.rate as real)];
        var asleep := Stream(s.unread[n..], s.written,
            Sleeping(s.unread[..n], Release(w.created, longer, |w.history|)));
        w.(history := longer, streams := w.streams[i := asleep])
  }

  /** What a stream still has to do, in turns at most. */
  function Remaining(s: Stream): nat {
    match s.phase
    case Reading => 2 * |s.unread| + 1
    case Sleeping(_, _) => 2 * |s.unread| + 2
    case Finished => 0
  }

  /** Whoever gets a turn when his sleep is over gets on with it: no stream is held up by itself, and none
      by a turn of another. */
  lemma TurnProgresses(w: World, i: nat, now: real, offered: nat, j: nat)
    requires i < |w.streams| && w.rate > 0 && j < |w.streams|
    requires w.streams[i].phase.Sleeping? ==> w.streams[i].phase.until <= now
    ensures var r := Turned(w, i, now, offered).streams;
            |r| == |w.streams|
            && if j != i then r[j] == w.streams[j]
               else Remaining(r[j]) < Remaining(w.streams[j]) || w.streams[j].phase.Finished?
  {}

  /** Which stream goes on, when, and how much its read is offered. */
  datatype Tick = Tick(stream: nat, now: real, offered: nat)

  function AllTurned(w: World, ticks: seq<Tick>): World
    requires w.rate > 0 && forall t :: t in ticks ==> t.stream < |w.streams|
    decreases |ticks|
  {
    if ticks == [] then w
    else AllTurned(Turned(w, ticks[0].stream, ticks[0].now, ticks[0].offered), ticks[1..])
  }

  /** Stream `j` is never given a turn while it has to sleep. */
  predicate TurnsAwake(w: World, ticks: seq<Tick>, j: nat)
    requires w.rate > 0 && j < |w.streams| && forall t :: t in ticks ==> t.stream < |w.streams|
    decreases |ticks|
  {
    ticks == []
    || var next := Turned(w, ticks[0].stream, ticks[0].now, ticks[0].offered);
       && (ticks[0].stream == j && w.streams[j].phase.Sleeping? ==> w.streams[j].phase.until <= ticks[0].now)
       && TurnsAwake(next, ticks[1..], j)
  }

  function TurnsOf(ticks: seq<Tick>, j: nat): nat {
    if ticks == [] then 0 else (if ticks[0].stream == j then 1 else 0) + TurnsOf(ticks[1..], j)
  }

  /** Whatever the others do, so many turns finish a stream. */
  lemma {:induction false} TurnsFinish(w: World, ticks: seq<Tick>, j: nat)
    requires w.rate > 0 && j < |w.streams| && forall t :: t in ticks ==> t.stream < |w.streams|
    requires TurnsAwake(w, ticks, j) && TurnsOf(ticks, j) >= Remaining(w.streams[j])
    ensures var r := AllTurned(w, ticks).streams; |r| == |w.streams| && r[j].phase.Finished?
    decreases |ticks|
  {
    if ticks != [] {
      var next := Turned(w, ticks[0].stream, ticks[0].now, ticks[0].offered);
      if ticks[0].stream == j { OwnTurn(w, j, ticks[0].now, ticks[0].offered); }
      TurnsFinish(next, ticks[1..], j);
    }
  }

  lemma OwnTurn(w: World, j: nat, now: real, offered: nat)
    requires w.rate > 0 && j < |w.streams|
    requires w.streams[j].phase.Sleeping? ==> w.streams[j].phase.until <= now
    ensures var left := Remaining(w.streams[j]);
            Remaining(Turned(w, j, now, offered).streams[j]) <= if left > 0 then left - 1 else 0
  {
    TurnProgresses(w, j, now, offered, j);
  }

  /** Clock readings do not go back. */
  predicate InOrder(clock: real, ticks: seq<Tick>)
    decreases |ticks|
  {
    ticks == [] || (clock <= ticks[0].now && InOrder(ticks[0].now, ticks[1..]))
  }

  /** What the copy loops keep: every stream sound, reservations chunk-sized, and none made by a stream
      that still sleeps. */
  ghost predicate Kept(sources: seq<seq<Byte>>, w: World, clock: real) {
    && w.rate > 0 && Paced(w.history, w.rate)
    && Orderly(w.created, w.history, |w.streams|)
    && ChunkSized(w.created, w.history, w.rate, clock)
    && AllSound(sources, w.streams, w.created, w.history, clock)
  }

  lemma TurnKeeps(sources: seq<seq<Byte>>, w: World, clock: real, i: nat, now: real, offered: nat)
    requires Kept(sources, w, clock) && i < |w.streams| && clock <= now
    ensures Kept(sources, Turned(w, i, now, offered), now) && |Turned(w, i, now, offered).streams| == |w.streams|
  {
    AllSoundLater(sources, w.streams, w.created, w.history, clock, now);
    var s := w.streams[i];
    SoundLater(sources[i], s, i, w.created, w.history, clock, now);
    match s.phase
    case Finished =>
    case Sleeping(piece, until) => if until <= now { SoundAwake(sources[i], s, i, w.created, w.history, now); }
    case Reading =>
      if s.unread != [] {
        var n := PieceSize(|s.unread|, w.rate, offered);
        var last := Reservation(i, now, n, n as real / w.rate as real);
        PacedGrows(w.history, w.rate, last);
        AllSoundAfter(sources, w.streams, i, w.created, w.history, now, last);
      }
  }

  lemma AllSoundLater(sources: seq<seq<Byte>>, streams: seq<Stream>, created: real, history: seq<Reservation>,
                      clock: real, now: real)
    requires AllSound(sources, streams, created, history, clock) && clock <= now
    ensures AllSound(sources, streams, created, history, now)
  {
    forall j | 0 <= j < |streams| ensures Sound(sources[j], streams[j], j, created, history, now) {
      SoundLater(sources[j], streams[j], j, created, history, clock, now);
    }
  }

  lemma {:induction false} RunKeeps(sources: seq<seq<Byte>>, w: World, clock: real, ticks: seq<Tick>)
    returns (end: real)
    requires Kept(sources, w, clock) && InOrder(clock, ticks)
    requires forall t :: t in ticks ==> t.stream < |w.streams|
    ensures Kept(sources, AllTurned(w, ticks), end) && |AllTurned(w, ticks).streams| == |w.streams|
    decreases |ticks|
  {
    if ticks == [] { return clock; }
    TurnKeeps(sources, w, clock, ticks[0].stream, ticks[0].now, ticks[0].offered);
    var next := Turned(w, ticks[0].stream, ticks[0].now, ticks[0].offered);
    end := RunKeeps(sources, next, ticks[0].now, ticks[1..]);
  }

  function Started(created: real, rate: nat, sources: seq<seq<Byte>>): World {
    World(created, rate, [], seq(|sources|, i requires 0 <= i < |sources| => Stream(sources[i], [], Reading)))
  }

  lemma StartedIsKept(created: real, rate: nat, sources: seq<seq<Byte>>)
    requires rate > 0
    ensures Kept(sources, Started(created, rate, sources), created)
  {
    forall i | 0 <= i < |sources|
      ensures Sound(sources[i], Started(created, rate, sources).streams[i], i, created, [], created)
    {
      assert [] + [] + sources[i] == sources[i];
    }
  }

  /** How long reservation `i` made its stream wait. */
  function Waited(created: real, history: seq<Reservation>, i: nat): real
    requires i < |history|
  {
    Release(created, history, i) - history[i].now
  }

  /** Any number of copy loops through one limiter, under any schedule: no reservation makes its stream
      wait longer than the number of streams times what a chunk takes. */
  lemma CopiesWaitInTurn(created: real, rate: nat, sources: seq<seq<Byte>>, ticks: seq<Tick>, d: real, j: nat)
    requires TakesChunk(rate, d) && rate > 0 && InOrder(created, ticks)
    requires forall t :: t in ticks ==> t.stream < |sources|
    requires j < |AllTurned(Started(created, rate, sources), ticks).history|
    ensures var w := AllTurned(Started(created, rate, sources), ticks);
            Waited(created, w.history, j) <= |sources| as real * d
  {
    CopiesWaitTimes(created, rate, sources, ticks, d, j);
    BoundIsProduct(Waited(created, AllTurned(Started(created, rate, sources), ticks).history, j), |sources|, d);
  }

  lemma CopiesWaitTimes(created: real, rate: nat, sources: seq<seq<Byte>>, ticks: seq<Tick>, d: real, j: nat)
    requires rate > 0 && TakesChunk(rate, d) && InOrder(created, ticks)
    requires forall t :: t in ticks ==> t.stream < |sources|
    requires j < |AllTurned(Started(created, rate, sources), ticks).history|
    ensures var w := AllTurned(Started(created, rate, sources), ticks);
            Waited(created, w.history, j) <= Times(|sources|, d)
  {
    var start := Started(created, rate, sources);
    StartedIsKept(created, rate, sources);
    SameStart(start, ticks);
    var end := RunKeeps(sources, start, created, ticks);
    KeptWaits(sources, AllTurned(start, ticks), end, d, j);
  }

  lemma KeptWaits(sources: seq<seq<Byte>>, w: World, clock: real, d: real, j: nat)
    requires Kept(sources, w, clock) && TakesChunk(w.rate, d) && j < |w.history|
    ensures Waited(w.created, w.history, j) <= Times(|w.streams|, d)
  {
    EveryWaitIsBounded(w.created, w.history, w.rate, |w.streams|, d, j);
  }

  /** And a stream that has ended has written its source and reserved just as many bytes. */
  lemma CopiesAreWhole(created: real, rate: nat, sources: seq<seq<Byte>>, ticks: seq<Tick>, i: nat)
    requires rate > 0 && InOrder(created, ticks) && i < |sources|
    requires forall t :: t in ticks ==> t.stream < |sources|
    ensures var w := AllTurned(Started(created, rate, sources), ticks);
            && |w.streams| == |sources|
            && (w.streams[i].phase.Finished? ==>
                  w.streams[i].written == sources[i] && ReservedBy(w.history, i) == |sources[i]|)
  {
    var start := Started(created, rate, sources);
    StartedIsKept(created, rate, sources);
    var end := RunKeeps(sources, start, created, ticks);
    KeptIsWhole(sources, AllTurned(start, ticks), end, i);
  }

  lemma KeptIsWhole(sources: seq<seq<Byte>>, w: World, clock: real, i: nat)
    requires Kept(sources, w, clock) && i < |w.streams|
    ensures w.streams[i].phase.Finished? ==>
              w.streams[i].written == sources[i] && ReservedBy(w.history, i) == |sources[i]|
  {
    if w.streams[i].phase.Finished? { FinishedIsWhole(sources[i], w.streams[i], i, w.created, w.history, clock); }
  }

  lemma {:induction false} SameStart(w: World, ticks: seq<Tick>)
    requires w.rate > 0 && forall t :: t in ticks ==> t.stream < |w.streams|
    ensures AllTurned(w, ticks).created == w.created && AllTurned(w, ticks).rate == w.rate
    decreases |ticks|
  {
    if ticks != [] { SameStart(Turned(w, ticks[0].stream, ticks[0].now, ticks[0].offered), ticks[1..]); }
  }

  lemma FinishedIsWhole(source: seq<Byte>, s: Stream, i: nat, created: real, history: seq<Reservation>, clock: real)
    requires Sound(source, s, i, created, history, clock) && s.phase.Finished?
    ensures s.written == source && ReservedBy(history, i) == |source|
  {
    assert s.written + [] + [] == s.written;
  }

  ghost predicate ChunkSized(created: real, history: seq<Reservation>, rate: nat, clock: real) {
    && created <= clock
    && forall j :: 0 <= j < |history| ==> history[j].bytes <= ChunkSize(rate) && created <= history[j].now <= clock
  }

  /** Copy loops on one limiter, taking turns as the outside has it. */
  class Copies {
    const limiter: RateLimiter
    var streams: seq<Stream>

    constructor (limiter: RateLimiter, sources: seq<seq<Byte>>)
      requires limiter.Valid() && limiter.history == []
      ensures this.limiter == limiter && Now() == Started(limiter.created, limiter.rate, sources)
    {
      this.limiter := limiter;
      streams := seq(|sources|, i requires 0 <= i < |sources| => Stream(sources[i], [], Reading));
    }

    ghost function Now(): World
      reads this, limiter
    {
      World(limiter.created, limiter.rate, limiter.history, streams)
    }

    /** One step of one loop: read, then wait, then write what was read. */
    method Turn(i: nat, now: real, offered: nat)
      requires limiter.Valid() && i < |streams|
      modifies this, limiter
      ensures limiter.Valid() && Now() == Turned(old(Now()), i, now, offered)
    {
      var s := streams[i];
      match s.phase {
        case Finished =>
        case Sleeping(piece, until) =>
          if until <= now { streams := streams[i := Stream(s.unread, s.written + piece, Reading)]; }
        case Reading =>
          if s.unread == [] {
            streams := streams[i := s.(phase := Finished)];
          } else {
            var n := PieceSize(|s.unread|, limiter.rate, offered);
            var wait := limiter.Reserve(now, n, i);
            streams := streams[i := Stream(s.unread[n..], s.written, Sleeping(s.unread[..n], now + wait))];
          }
      }
    }

    method Run(ticks: seq<Tick>)
      requires limiter.Valid() && forall t :: t in ticks ==> t.stream < |streams|
      modifies this, limiter
      ensures limiter.Valid() && Now() == AllTurned(old(Now()), ticks)
    {
      ghost var end := AllTurned(Now(), ticks);
      var left := ticks;
      while left != []
        invariant limiter.Valid() && (forall t :: t in left ==> t.stream < |streams|)
        invariant AllTurned(Now(), left) == end
        decreases |left|
      {
        Turn(left[0].stream, left[0].now, left[0].offered);
        left := left[1..];
      }
    }
  }
}
