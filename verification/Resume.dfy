/** Resumable receiving of one file: plan, open, append, with a cut possible at any byte. */
module Resume {
  import opened Wrappers
  import opened Bytes
  import opened Readers

  type Digest = seq<Byte>

  /** What stands at the destination path. */
  datatype Place = Absent | Directory | File(content: seq<Byte>)

  datatype Kind = RegularFile | Stdin | Archive

  datatype Ticket = Ticket(kind: Kind, size: Option<nat>, md5: Option<Digest>)

  datatype Args = Args(overwrite: bool, resume: bool)

  datatype Plan = Download(from: nat) | Skip

  /** `None` when the path holds something that is not a file. */
  function ExistingSize(place: Place): Option<nat> {
    match place
    case Absent => Some(0)
    case Directory => None
    case File(content) => Some(|content|)
  }

  /** What a receive sets out to do; `None` when it refuses. */
  function PlanFileReceive(args: Args, ticket: Ticket, place: Place, md5: seq<Byte> -> Digest): Option<Plan> {
    if args.overwrite then Some(Download(0))
    else if args.resume then
      if ticket.kind == Archive then None
      else match ExistingSize(place)
        case None => None
        case Some(size) => Some(Download(size))
    else match place
      case Absent => Some(Download(0))
      case Directory => None
      case File(content) =>
        if ticket.md5.Some? && ticket.size == Some(|content|) && md5(content) == ticket.md5.value then Some(Skip)
        else if ticket.size.Some? && |content| < ticket.size.value then Some(Download(|content|))
        else Some(Download(0))
  }

  // ---------- what the other side sends ----------

  /** The source from an offset on; a seek past its end leaves nothing to read. */
  function Tail(source: seq<Byte>, from: nat): seq<Byte> {
    if from <= |source| then source[from..] else []
  }

  /** A status and the body as it arrives before its end. The client reads a body of known length
      that the connection cuts short, or one that ends with the connection, as if it ended there. */
  datatype Response = Response(status: nat, body: seq<Byte>)

  /** Any answer an object server may give to a GET from an offset: it may ignore Range and send the
      whole object with 200, honour it with 206, or fail; an offset at or past the end fails. */
  predicate Answers(stored: seq<Byte>, from: nat, r: Response) {
    200 <= r.status < 300 ==>
      || (r.status == 200 && r.body <= stored)
      || (r.status == 206 && 0 < from < |stored| && r.body <= stored[from..])
  }

  predicate IsSuccess(status: nat) { 200 <= status < 300 }

  predicate RangeIgnored(from: nat, r: Response) { from > 0 && r.status == 200 }

  class ObjectServer {
    const stored: seq<Byte>
    ghost var answers: seq<Response>

    constructor (stored: seq<Byte>)
      ensures this.stored == stored && answers == []
    {
      this.stored, answers := stored, [];
    }

    method Get(from: nat) returns (r: Response)
      modifies this
      ensures Answers(stored, from, r) && answers == old(answers) + [r]
    {
      if {
        case true =>
          var n: nat :| n <= |stored|;
          r := Response(200, stored[..n]);
        case 0 < from < |stored| =>
          var n: nat :| n <= |stored[from..]|;
          assert stored[from..][..n] <= stored[from..];
          r := Response(206, stored[from..][..n]);
        case true =>
          var status: nat :| status < 200 || status >= 300;
          r := Response(status, []);
      }
      answers := answers + [r];
    }
  }

  // ---------- one receive as a relation ----------

  datatype Outcome = Failed | Skipped | Completed

  datatype Route = FromPeer | FromStore

  /** One receive: route and flags, what stood at the destination before and after, how it ended,
      whether the file was opened for writing and begun afresh, and the bytes that were written. */
  datatype Step = Step(route: Route, args: Args, before: Place, after: Place, outcome: Outcome, wasOpened: bool,
                       restarted: bool, delivered: seq<Byte>)

  /** What the file holds once it is open. */
  function Opened(before: Place, append: bool): seq<Byte> {
    if append && before.File? then before.content else []
  }

  /** What the other side has to deliver. */
  function Payload(source: seq<Byte>, from: nat, restarted: bool): seq<Byte> {
    if restarted then source else Tail(source, from)
  }

  /** Either nothing was opened, or part of the payload is behind what the file held. A peer's stream
      ends cleanly only where its payload does; a store's body may end anywhere. */
  predicate Downloaded(source: seq<Byte>, from: nat, s: Step) {
    var payload := Payload(source, from, s.restarted);
    && s.outcome != Skipped
    && (from == 0 ==> s.restarted)
    && (s.restarted && s.route.FromPeer? ==> from == 0)
    && s.delivered <= payload
    && (s.route.FromPeer? && s.outcome == Completed ==> s.delivered == payload)
    && (s.wasOpened ==> !s.before.Directory?)
    && if s.wasOpened then s.after == File(Opened(s.before, !s.restarted) + s.delivered)
       else s.outcome == Failed && s.after == s.before && s.delivered == []
  }

  predicate Receives(source: seq<Byte>, ticket: Ticket, md5: seq<Byte> -> Digest, s: Step) {
    match PlanFileReceive(s.args, ticket, s.before, md5)
    case None => s.outcome == Failed && !s.wasOpened && s.after == s.before
    case Some(Skip) => s.outcome == Skipped && !s.wasOpened && s.after == s.before
    case Some(Download(from)) => Downloaded(source, from, s)
  }

  // ---------- the receiver ----------

  /** Byte counts stop at the largest 64-bit number. */
  function Saturated(n: nat): nat { if n < U64_LIMIT then n else U64_LIMIT - 1 }

  const READ_SIZE: nat := 64 * 1024

  class Destination {
    var place: Place
    /** How many opens, writes and reads of a body have failed. */
    ghost var faults: nat

    constructor (place: Place)
      ensures this.place == place
    {
      this.place, faults := place, 0;
    }

    /** Open for appending or for writing from scratch. */
    method Open(append: bool) returns (ok: bool)
      modifies this
      ensures place == if ok then File(Opened(old(place), append)) else old(place)
      ensures ok ==> !old(place).Directory?
      ensures faults == old(faults) + if ok then 0 else 1
    {
      var fails: bool := *;
      if place.Directory? || fails {
        faults := faults + 1;
        return false;
      }
      if !append || place.Absent? { place := File([]); }
      ok := true;
    }

    /** A failed write may leave any part of the data behind. */
    method WriteAll(data: seq<Byte>) returns (ok: bool, ghost written: nat)
      requires place.File?
      modifies this
      ensures written <= |data| && place == File(old(place.content) + data[..written])
      ensures ok ==> written == |data|
      ensures faults == old(faults) + if ok then 0 else 1
    {
      if * {
        faults := faults + 1;
        var n: nat :| n <= |data|;
        place := File(place.content + data[..n]);
        return false, n;
      }
      assert data[..|data|] == data;
      place := File(place.content + data);
      return true, |data|;
    }

    /** Copy until the body ends or something fails. */
    method Copy(body: Reader, readSize: nat) returns (ok: bool, written: nat, ghost delivered: seq<Byte>)
      requires place.File? && 0 < readSize
      modifies this, body
      ensures delivered <= old(body.unread) && place == File(old(place.content) + delivered)
      ensures ok ==> delivered == old(body.unread)
      ensures ok <==> faults == old(faults)
      ensures faults >= old(faults)
      ensures ok ==> written == if |delivered| < 0x1_0000_0000_0000_0000 then |delivered| else 0xFFFF_FFFF_FFFF_FFFF
    {
      ghost var base, payload := place.content, body.unread;
      written, delivered := 0, [];
      while true
        invariant payload == delivered + body.unread && place == File(base + delivered)
        invariant written == Saturated(|delivered|) && faults == old(faults)
        decreases |body.unread|
      {
        ghost var before := body.unread;
        var piece := body.Read(readSize);
        if piece.None? {
          faults := faults + 1;
          return false, written, delivered;
        }
        if piece.value == [] { return true, written, delivered; }
        var wrote, n := WriteAll(piece.value);
        MoreDelivered(base, delivered, before, piece.value, body.unread, n);
        if !wrote { return false, written, delivered + piece.value[..n]; }
        delivered := delivered + piece.value;
        written := Saturated(written + |piece.value|);
      }
    }

    /** Write what a peer streams: at the end of the file when resuming, else into an emptied file. */
    method WriteToFile(body: Reader, from: nat) returns (ok: bool, ghost wasOpened: bool, ghost delivered: seq<Byte>)
      modifies this, body
      ensures wasOpened ==> place == File(Opened(old(place), from > 0) + delivered) && delivered <= old(body.unread)
      ensures wasOpened ==> !old(place).Directory?
      ensures !wasOpened ==> !ok && place == old(place) && delivered == []
      ensures faults >= old(faults) && (ok <==> faults == old(faults))
      ensures ok ==> delivered == old(body.unread)
    {
      delivered := [];
      ok := Open(from > 0);
      wasOpened := ok;
      if ok {
        var written;
        ok, written, delivered := Copy(body, READ_SIZE);
      }
    }

    /** Fetch from an object server: 200 to a ranged request means Range was ignored, and the whole
        object is fetched again into an emptied file. Success means that the body ended, wherever. */
    method DownloadS3ToFile(server: ObjectServer, from: nat)
      returns (ok: bool, ghost first: Response, ghost last: Response, ghost wasOpened: bool, ghost delivered: seq<Byte>)
      modifies this, server
      ensures Answers(server.stored, from, first)
      ensures server.answers
              == old(server.answers) + if from > 0 && first.status == 200 then [first] + [last] else [first]
      ensures if from > 0 && first.status == 200 then Answers(server.stored, 0, last) else last == first
      ensures faults >= old(faults)
      ensures ok <==> 200 <= last.status < 300 && faults == old(faults)
      ensures wasOpened ==> 200 <= last.status < 300
      ensures wasOpened ==> place == File(Opened(old(place), from > 0 && first.status == 206) + delivered)
      ensures delivered <= last.body
      ensures wasOpened ==> !old(place).Directory?
      ensures !wasOpened ==> !ok && place == old(place) && delivered == []
      ensures ok ==> delivered == last.body
    {
      delivered := [];
      var append := from > 0;
      var response := server.Get(from);
      first := response;
      if RangeIgnored(from, response) {
        append := false;
        response := server.Get(0);
      }
      last := response;
      if !IsSuccess(response.status) { return false, first, last, false, []; }
      ok := Open(append);
      wasOpened := ok;
      if ok {
        var body := new Reader(response.body);
        var written;
        ok, written, delivered := Copy(body, READ_SIZE);
      }
    }

    method ReceiveFromPeer(args: Args, ticket: Ticket, md5: seq<Byte> -> Digest, source: seq<Byte>, kind: Kind)
      returns (outcome: Outcome, ghost s: Step)
      modifies this
      ensures Receives(source, ticket, md5, s)
      ensures s == Step(FromPeer, args, old(place), place, outcome, s.wasOpened, s.restarted, s.delivered)
      ensures outcome == Failed && faults == old(faults) ==>
                match PlanFileReceive(args, ticket, old(place), md5)
                case None => true
                case Some(Skip) => false
                case Some(Download(from)) => kind == Archive && from > 0
    {
      var plan := PlanFileReceive(args, ticket, place, md5);
      ghost var before := place;
      if plan.None? { return Failed, Step(FromPeer, args, before, before, Failed, false, true, []); }
      if plan.value.Skip? { return Skipped, Step(FromPeer, args, before, before, Skipped, false, true, []); }
      ghost var restarted := plan.value.from == 0;
      var body := Stream(source, kind, plan.value.from);
      if body == null { return Failed, Step(FromPeer, args, before, before, Failed, false, restarted, []); }
      var ok, wasOpened, delivered := WriteToFile(body, plan.value.from);
      outcome := if ok then Completed else Failed;
      s := Step(FromPeer, args, before, place, outcome, wasOpened, restarted, delivered);
    }

    method ReceiveFromStore(args: Args, ticket: Ticket, md5: seq<Byte> -> Digest, server: ObjectServer)
      returns (outcome: Outcome, ghost s: Step)
      modifies this, server
      ensures Receives(server.stored, ticket, md5, s)
      ensures s == Step(FromStore, args, old(place), place, outcome, s.wasOpened, s.restarted, s.delivered)
      ensures outcome == Failed && faults == old(faults) ==>
                || PlanFileReceive(args, ticket, old(place), md5).None?
                || (|server.answers| > |old(server.answers)|
                    && !IsSuccess(server.answers[|server.answers| - 1].status))
    {
      var plan := PlanFileReceive(args, ticket, place, md5);
      ghost var before := place;
      if plan.None? { return Failed, Step(FromStore, args, before, before, Failed, false, true, []); }
      if plan.value.Skip? { return Skipped, Step(FromStore, args, before, before, Skipped, false, true, []); }
      var from := plan.value.from;
      var ok, first, last, wasOpened, delivered := DownloadS3ToFile(server, from);
      outcome := if ok then Completed else Failed;
      s := Step(FromStore, args, before, place, outcome, wasOpened, from == 0 || first.status == 200, delivered);
    }
  }

  /** The sender: archives cannot be resumed, files are sent from the offset on. */
  method Stream(source: seq<Byte>, kind: Kind, from: nat) returns (body: Reader?)
    ensures body == null <==> from > 0 && kind == Archive
    ensures body != null ==> fresh(body) && body.unread == Tail(source, from)
  {
    if from > 0 && kind == Archive { return null; }
    body := new Reader(Tail(source, from));
  }

  lemma MoreDelivered(base: seq<Byte>, delivered: seq<Byte>, before: seq<Byte>, piece: seq<Byte>, after: seq<Byte>,
                      n: nat)
    requires before == piece + after && n <= |piece|
    ensures delivered + before == delivered + piece + after && delivered + piece[..n] <= delivered + before
    ensures base + delivered + piece[..n] == base + (delivered + piece[..n])
    ensures n == |piece| ==> piece[..n] == piece
  {
    assert delivered + before == delivered + piece[..n] + (piece[n..] + after);
  }

  // ---------- no file at first ----------

  /** The ticket does not lie about the size. */
  predicate SizeIsRight(ticket: Ticket, source: seq<Byte>) {
    ticket.size.Some? ==> ticket.size.value == |source|
  }

  predicate HoldsPrefix(place: Place, source: seq<Byte>) {
    place.Absent? || (place.File? && place.content <= source)
  }

  /** A prefix stays a prefix, whatever the route and wherever the body ends. A receive that reports
      success leaves the source exactly when the file has the source's length; a peer's receive and a
      skip always do. */
  lemma PrefixIsKept(source: seq<Byte>, ticket: Ticket, md5: seq<Byte> -> Digest, s: Step)
    requires SizeIsRight(ticket, source) && HoldsPrefix(s.before, source) && Receives(source, ticket, md5, s)
    ensures HoldsPrefix(s.after, source)
    ensures s.outcome != Failed ==> s.after.File? && (s.after == File(source) <==> |s.after.content| == |source|)
    ensures (s.outcome == Completed && s.route.FromPeer?) || s.outcome == Skipped ==> s.after == File(source)
  {
    match PlanFileReceive(s.args, ticket, s.before, md5)
    case Some(Download(from)) =>
      if !s.restarted { TailCompletes(s.before.content, source, s.delivered); }
    case _ =>
  }

  /** Receives one after another, each finding what the last one left. */
  predicate Linked(steps: seq<Step>) {
    && (steps != [] ==> steps[0].before == Absent)
    && (forall i :: 0 < i < |steps| ==> steps[i].before == steps[i - 1].after)
  }

  /** From no file and one source, through any receives by either route, with any flags, cut at any
      byte, the destination holds a prefix of the source. A receive that reports success has the
      source iff the length is right; from a peer it always has. */
  lemma {:induction false} AnyReceivesHoldAPrefix(source: seq<Byte>, ticket: Ticket, md5: seq<Byte> -> Digest,
                                                  steps: seq<Step>, i: nat)
    requires SizeIsRight(ticket, source) && Linked(steps) && i < |steps|
    requires forall j :: 0 <= j < |steps| ==> Receives(source, ticket, md5, steps[j])
    ensures HoldsPrefix(steps[i].after, source)
    ensures steps[i].outcome != Failed ==>
              && steps[i].after.File?
              && (steps[i].after == File(source) <==> |steps[i].after.content| == |source|)
    ensures (steps[i].outcome == Completed && steps[i].route.FromPeer?) || steps[i].outcome == Skipped ==>
              steps[i].after == File(source)
  {
    if i > 0 { AnyReceivesHoldAPrefix(source, ticket, md5, steps, i - 1); }
    PrefixIsKept(source, ticket, md5, steps[i]);
  }

  /** The family of cut bodies: with `held` bytes there, or no file at all, a receive from a store
      without flags may report success with any longer proper prefix of the source. */
  lemma CutBodyIsReportedComplete(source: seq<Byte>, ticket: Ticket, md5: seq<Byte> -> Digest, held: nat, k: nat)
    requires held <= k < |source| && ticket.size == Some(|source|)
    ensures var before := if held == 0 then Absent else File(source[..held]);
            var s := Step(FromStore, Args(false, false), before, File(source[..k]), Completed, true,
                          held == 0, source[held..k]);
            Receives(source, ticket, md5, s) && s.after != File(source)
  {
    assert source[held..k] <= source[held..] by { assert source[held..][..k - held] == source[held..k]; }
    assert source[..held] + source[held..k] == source[..k];
  }

  // ---------- any file at first ----------

  /** What a receive that completes leaves is the source exactly when everything to be delivered was
      delivered and the file was begun afresh or held a prefix of the source. */
  lemma CompletedIsSource(source: seq<Byte>, ticket: Ticket, md5: seq<Byte> -> Digest, s: Step)
    requires Receives(source, ticket, md5, s) && s.outcome == Completed
    ensures var from := PlanFileReceive(s.args, ticket, s.before, md5).value.from;
            s.after == File(source) <==>
              && s.delivered == Payload(source, from, s.restarted)
              && (s.restarted || (s.before.File? && s.before.content <= source))
  {
    if !s.restarted { TailCompletes(s.before.content, source, s.delivered); }
  }

  lemma TailCompletes(held: seq<Byte>, source: seq<Byte>, delivered: seq<Byte>)
    requires delivered <= Tail(source, |held|)
    ensures held + delivered == source <==> held <= source && delivered == Tail(source, |held|)
    ensures held <= source ==> held + delivered <= source
  {
    assert held <= held + delivered;
    if held <= source {
      assert held + source[|held|..] == source;
      assert delivered == source[|held|..][..|delivered|] == source[|held|..|held| + |delivered|];
    }
    if held + delivered == source { assert delivered == source[|held|..]; }
  }

  /** A skip says no more than the digest does. */
  lemma SkippedIsSource(source: seq<Byte>, ticket: Ticket, md5: seq<Byte> -> Digest, s: Step)
    requires ticket.md5 == Some(md5(source)) && Receives(source, ticket, md5, s) && s.outcome == Skipped
    ensures s.after == s.before && s.before.File? && md5(s.before.content) == md5(source)
    ensures ticket.size == Some(|s.before.content|)
    ensures s.after == File(source) <==> s.before.content == source
  {}

  /** An unrelated shorter file is taken for the start of the source: with no flags at all, a peer's
      complete transfer yields a file of the right size and the wrong content, whatever digest the
      ticket carries. */
  lemma UnrelatedFileIsContinued(source: seq<Byte>, ticket: Ticket, md5: seq<Byte> -> Digest, held: seq<Byte>)
    requires 0 < |held| < |source| && !(held <= source) && ticket.size == Some(|source|)
    ensures var tail := source[|held|..];
            var s := Step(FromPeer, Args(false, false), File(held), File(held + tail), Completed, true, false,
                          tail);
            Receives(source, ticket, md5, s) && |s.after.content| == |source| && s.after.content != source
  {
    TailCompletes(held, source, source[|held|..]);
  }

  // ---------- what the flags ask for ----------

  /** The receive, if it opens the file, begins it afresh with bytes from the source's start; all of
      them when a peer's receive completes. */
  predicate Afresh(source: seq<Byte>, s: Step) {
    && s.outcome != Skipped
    && (s.wasOpened ==> s.after == File(s.delivered) && s.delivered <= source)
    && (!s.wasOpened ==> s.outcome == Failed && s.after == s.before)
    && (s.outcome == Completed && s.route.FromPeer? ==> s.after == File(source))
  }

  /** The receive, if it opens the file, goes on behind the bytes that are there with the source's from
      the same offset on; all of them when a peer's receive completes. A store may make it begin afresh. */
  predicate Onwards(source: seq<Byte>, s: Step)
    requires s.before.File?
  {
    var held := s.before.content;
    var missing := if |held| <= |source| then source[|held|..] else [];
    && s.outcome != Skipped
    && (s.wasOpened && s.restarted ==> s.route.FromStore? || held == [])
    && (s.wasOpened && !s.restarted ==> s.after == File(held + s.delivered) && s.delivered <= missing)
    && (s.wasOpened && s.restarted ==> s.after == File(s.delivered) && s.delivered <= source)
    && (!s.wasOpened ==> s.outcome == Failed && s.after == s.before)
    && (s.outcome == Completed && s.route.FromPeer? ==> s.after == File(held + missing))
  }

  predicate Refused(s: Step) { s.outcome == Failed && !s.wasOpened && s.after == s.before }

  /** Under --overwrite every receive begins afresh, whatever was there. */
  lemma OverwriteBeginsAfresh(source: seq<Byte>, ticket: Ticket, md5: seq<Byte> -> Digest, s: Step)
    requires s.args.overwrite && Receives(source, ticket, md5, s)
    ensures Afresh(source, s)
  {}

  /** Under --resume alone a directory in the way and an archive are refused, and every file is continued. */
  lemma ResumeGoesOn(source: seq<Byte>, ticket: Ticket, md5: seq<Byte> -> Digest, s: Step)
    requires !s.args.overwrite && s.args.resume && Receives(source, ticket, md5, s)
    ensures s.before.Directory? || ticket.kind == Archive ==> Refused(s)
    ensures s.before.Absent? ==> Afresh(source, s)
    ensures s.before.File? && ticket.kind != Archive ==> Onwards(source, s)
  {}

  /** Without either flag a directory is refused, a file of the ticket's size and digest is skipped, a
      shorter one than the ticket says is continued, and any other is begun afresh, as if there were none. */
  lemma PlainReceive(source: seq<Byte>, ticket: Ticket, md5: seq<Byte> -> Digest, s: Step)
    requires !s.args.overwrite && !s.args.resume && Receives(source, ticket, md5, s)
    ensures s.before.Directory? ==> Refused(s)
    ensures s.before.Absent? ==> Afresh(source, s)
    ensures s.before.File? ==>
              var held := s.before.content;
              var same := ticket.size == Some(|held|) && ticket.md5 == Some(md5(held));
              var shorter := ticket.size.Some? && |held| < ticket.size.value;
              && (s.outcome == Skipped <==> same)
              && (same ==> !s.wasOpened && s.after == s.before)
              && (shorter ==> Onwards(source, s))
              && (!same && !shorter ==> Afresh(source, s))
  {}

  /** None of these is refused without need: from a peer each may complete, with the source or with what
      the file held and the source has from there on. */
  lemma ReceivesMayComplete(source: seq<Byte>, ticket: Ticket, md5: seq<Byte> -> Digest, args: Args, held: seq<Byte>)
    ensures args.overwrite || (!args.resume && ticket.size == None) ==>
              Receives(source, ticket, md5,
                       Step(FromPeer, args, File(held), File(source), Completed, true, true, source))
    ensures args.overwrite ==>
              Receives(source, ticket, md5,
                       Step(FromPeer, args, Directory, Directory, Failed, false, true, []))
    ensures args.overwrite || !args.resume || ticket.kind != Archive ==>
              Receives(source, ticket, md5, Step(FromPeer, args, Absent, File(source), Completed, true, true, source))
    ensures !args.overwrite && args.resume && ticket.kind != Archive && 0 < |held| <= |source| ==>
              var missing := source[|held|..];
              Receives(source, ticket, md5,
                       Step(FromPeer, args, File(held), File(held + missing), Completed, true, false, missing))
  {}

  // ---------- ground gained and lost ----------

  /** A receive keeps the bytes of a prefix exactly when it does not open the file, appends to it, or
      begins afresh and gets as far again. */
  lemma GroundIsKeptExactly(source: seq<Byte>, ticket: Ticket, md5: seq<Byte> -> Digest, s: Step)
    requires s.before.File? && s.before.content <= source && Receives(source, ticket, md5, s)
    ensures s.after.File?
    ensures s.before.content <= s.after.content <==>
              !s.wasOpened || !s.restarted || |s.before.content| <= |s.delivered|
  {}

  /** Without --overwrite and without a server that ignores Range no ground is lost, as long as the
      ticket carries the source's size and digest. */
  lemma GroundIsKept(source: seq<Byte>, ticket: Ticket, md5: seq<Byte> -> Digest, s: Step)
    requires ticket.size == Some(|source|) && ticket.md5 == Some(md5(source))
    requires HoldsPrefix(s.before, source) && s.before.File? && Receives(source, ticket, md5, s)
    requires !s.args.overwrite
    requires s.wasOpened && s.restarted ==> PlanFileReceive(s.args, ticket, s.before, md5) == Some(Download(0))
    ensures s.after.File? && s.before.content <= s.after.content
  {
    if |s.before.content| == |source| { assert s.before.content == source; }
  }

  /** A server that ignores Range loses ground whenever the second body is cut before the first was. */
  lemma IgnoredRangeLosesGround(source: seq<Byte>, ticket: Ticket, md5: seq<Byte> -> Digest, held: nat, k: nat,
                                outcome: Outcome)
    requires k < held < |source| && ticket.size == Some(|source|) && outcome != Skipped
    ensures var s := Step(FromStore, Args(false, false), File(source[..held]), File(source[..k]), outcome, true,
                          true, source[..k]);
            Receives(source, ticket, md5, s) && HoldsPrefix(s.before, source) && !(s.before.content <= s.after.content)
  {}
}
