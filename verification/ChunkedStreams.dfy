/** The hand-written chunked-coding readers: they mix a growable buffer with direct reads
    of arbitrary size, and each is proved against the pure decoder of ChunkedCoding.dfy. */
module ChunkedStreams {
  import opened Wrappers
  import opened Bytes
  import opened ChunkedCoding
  import opened Sequences

  /** A file or the writing half of a connection. */
  class Sink {
    var contents: seq<Byte>

    constructor ()
      ensures contents == []
    {
      contents := [];
    }

    method Write(data: seq<Byte>)
      modifies this
      ensures contents == old(contents) + data
    {
      contents := contents + data;
    }
  }

  predicate AllUtf8(lines: seq<seq<Byte>>) { forall l :: l in lines ==> ValidUtf8(l) }

  // ---------- steps of the decoder, seen from a reader's position ----------

  /** A CRLF found in the buffer is the first one of the whole input. */
  lemma BufferedLine(buffered: seq<Byte>, unread: seq<Byte>)
    ensures match FindCrlf(buffered)
            case Some(k) => SplitLine(buffered + unread) == Some(Line(buffered[..k], buffered[k + 2..] + unread))
            case None => SplitLine(buffered + unread).Some? ==>
                |SplitLine(buffered + unread).value.text| + 1 >= |buffered|
  {
    match FindCrlf(buffered)
    case Some(k) => SplitLineExtends(buffered, unread);
    case None =>
      var s := buffered + unread;
      if SplitLine(s).Some? {
        var k := |SplitLine(s).value.text|;
        assert CrlfAt(s, k);
        assert CrlfAt(buffered, k) || k + 2 > |buffered|;
      }
  }

  lemma DecodeFromHeader(s: seq<Byte>, header: seq<Byte>, rest: seq<Byte>)
    requires SplitLine(s) == Some(Line(header, rest))
    ensures ParseSize(header).None? ==> Decode(s) == Rejected
    ensures ParseSize(header) == Some(0) ==> Decode(s) == After([], |header|, DecodeTrailers(rest))
    ensures ParseSize(header).Some? && ParseSize(header).value > 0 ==>
              var n := ParseSize(header).value;
              Decode(s) == if ChunkEndsAt(rest, n) then After(rest[..n], |header|, Decode(rest[n + 2..])) else Rejected
  {}

  function AfterTrailers(seen: seq<seq<Byte>>, longest: nat, d: Decoded): Decoded {
    match d
    case Rejected => Rejected
    case Accepted(body, trailers, l, rest) => Accepted(body, seen + trailers, Max(longest, l), rest)
  }

  lemma AfterNoTrailers(d: Decoded)
    ensures AfterTrailers([], 0, d) == d
  {
    if d.Accepted? { assert [] + d.trailers == d.trailers; }
  }

  /** One more trailer line moves from what is left to decode to what has been seen. */
  lemma TrailerStep(s0: seq<Byte>, seen: seq<seq<Byte>>, longest: nat, s: seq<Byte>, line: seq<Byte>, rest: seq<Byte>)
    requires DecodeTrailers(s0) == AfterTrailers(seen, longest, DecodeTrailers(s))
    requires SplitLine(s) == Some(Line(line, rest))
    ensures line != [] ==>
            DecodeTrailers(s0) == AfterTrailers(seen + [line], Max(longest, |line|), DecodeTrailers(rest))
    ensures line == [] ==> DecodeTrailers(s0) == Accepted([], seen, longest, rest)
  {
    if line != [] && DecodeTrailers(rest).Accepted? {
      Regroup(seen, [line], DecodeTrailers(rest).trailers);
    }
  }

  /** What a trailer line that was not delivered says about the whole trailer section. */
  lemma TrailerMissed(s0: seq<Byte>, seen: seq<seq<Byte>>, longest: nat, s: seq<Byte>, limit: nat)
    requires DecodeTrailers(s0) == AfterTrailers(seen, longest, DecodeTrailers(s)) && limit > 0
    ensures SplitLine(s).None? ==> DecodeTrailers(s0) == Rejected
    ensures SplitLine(s).Some? && |SplitLine(s).value.text| >= limit && DecodeTrailers(s0).Accepted? ==>
              DecodeTrailers(s0).longest >= limit
    ensures SplitLine(s).Some? && !ValidUtf8(SplitLine(s).value.text) && DecodeTrailers(s0).Accepted? ==>
              !AllUtf8(DecodeTrailers(s0).trailers)
  {
    if DecodeTrailers(s).Accepted? && SplitLine(s).value.text != [] {
      assert SplitLine(s).value.text == DecodeTrailers(s).trailers[0] == DecodeTrailers(s0).trailers[|seen|];
    }
  }

  /** The same for a header line. */
  lemma HeaderMissed(s0: seq<Byte>, written: seq<Byte>, longest: nat, s: seq<Byte>, limit: nat)
    requires Decode(s0) == After(written, longest, Decode(s))
    requires SplitLine(s).None? || |SplitLine(s).value.text| >= limit || !ValidUtf8(SplitLine(s).value.text)
    ensures Decode(s0).Accepted? ==> Decode(s0).longest >= limit
  {
    if SplitLine(s).Some? { DecodeFromHeader(s, SplitLine(s).value.text, SplitLine(s).value.rest); }
  }

  /** The reader's position after a complete chunk, or the verdict on an incomplete one. */
  lemma ChunkStep(s0: seq<Byte>, written: seq<Byte>, longest: nat, s: seq<Byte>, header: seq<Byte>, rest: seq<Byte>,
                  n: nat)
    requires Decode(s0) == After(written, longest, Decode(s))
    requires SplitLine(s) == Some(Line(header, rest)) && ParseSize(header) == Some(n) && n > 0
    ensures ChunkEndsAt(rest, n) ==>
              Decode(s0) == After(written + rest[..n], Max(longest, |header|), Decode(rest[n + 2..]))
    ensures !ChunkEndsAt(rest, n) ==> Decode(s0) == Rejected
  {
    DecodeFromHeader(s, header, rest);
    if ChunkEndsAt(rest, n) {
      AfterAfter(written, longest, rest[..n], |header|, Decode(rest[n + 2..]));
    }
  }

  /** The last chunk: all that is left is the trailer section. */
  lemma LastStep(s0: seq<Byte>, written: seq<Byte>, longest: nat, s: seq<Byte>, header: seq<Byte>, rest: seq<Byte>)
    requires Decode(s0) == After(written, longest, Decode(s))
    requires SplitLine(s) == Some(Line(header, rest)) && ParseSize(header) == Some(0)
    ensures match DecodeTrailers(rest)
            case Rejected => Decode(s0) == Rejected
            case Accepted(_, trailers, l, after) =>
              Decode(s0) == Accepted(written, trailers, Max(longest, Max(|header|, l)), after)
  {
    DecodeFromHeader(s, header, rest);
    AfterAfter(written, longest, [], |header|, DecodeTrailers(rest));
    assert written + [] + [] == written;
  }

  lemma BadHeader(s0: seq<Byte>, written: seq<Byte>, longest: nat, s: seq<Byte>, header: seq<Byte>, rest: seq<Byte>)
    requires Decode(s0) == After(written, longest, Decode(s))
    requires SplitLine(s) == Some(Line(header, rest)) && ParseSize(header).None?
    ensures Decode(s0) == Rejected
  {
    DecodeFromHeader(s, header, rest);
  }

  /** The connection together with the reader's own buffer of bytes taken from it. */
  class Wire {
    var buffered: seq<Byte>
    /** What the peer still delivers before end of stream. */
    var unread: seq<Byte>

    constructor (buffered: seq<Byte>, unread: seq<Byte>)
      ensures this.buffered == buffered && this.unread == unread
    {
      this.buffered, this.unread := buffered, unread;
    }

    /** Everything the reader has not used yet. */
    function Unconsumed(): seq<Byte>
      reads this
    {
      buffered + unread
    }

    /** One read of the connection: any non-empty amount up to `limit`, nothing only at the end. */
    method Read(limit: nat) returns (data: seq<Byte>)
      requires limit > 0
      modifies this`unread
      ensures old(unread) == data + unread && |data| <= limit
      ensures data == [] <==> old(unread) == []
    {
      if unread == [] { return []; }
      var n: nat :| 1 <= n <= limit && n <= |unread|;
      data := unread[..n];
      unread := unread[n..];
    }

    /** Extend the buffer by one read; false at end of stream. */
    method FillPending(limit: nat) returns (ok: bool)
      requires limit > 0
      modifies this
      ensures Unconsumed() == old(Unconsumed())
      ensures ok ==> old(buffered) < buffered && |unread| < old(|unread|)
      ensures !ok ==> buffered == old(buffered) && unread == old(unread) == []
    {
      var data := Read(limit);
      if data == [] { return false; }
      buffered := buffered + data;
      ok := true;
    }

    /** Take the next CRLF line, giving up once more than `limit` bytes hold none. */
    method PullLine(limit: nat, block: nat) returns (line: Option<seq<Byte>>)
      requires block > 0
      modifies this
      ensures line.Some? ==> SplitLine(old(Unconsumed())) == Some(Line(line.value, Unconsumed()))
      ensures line.None? ==> Unconsumed() == old(Unconsumed())
      ensures line.None? ==> var found := SplitLine(old(Unconsumed())); found.None? || |found.value.text| >= limit
    {
      while true
        invariant Unconsumed() == old(Unconsumed())
        decreases |unread|
      {
        BufferedLine(buffered, unread);
        match FindCrlf(buffered)
        case Some(k) =>
          line := Some(buffered[..k]);
          buffered := buffered[k + 2..];
          return;
        case None =>
          if |buffered| > limit { return None; }
          var ok := FillPending(block);
          if !ok {
            assert buffered + [] == buffered;
            return None;
          }
      }
    }

    // ---------- WebDAV PUT ----------

    /** A line of the PUT reader: at most 8 KiB, and valid UTF-8. */
    method TakeLine() returns (line: Option<seq<Byte>>)
      modifies this
      ensures line.Some? ==>
              SplitLine(old(Unconsumed())) == Some(Line(line.value, Unconsumed())) && ValidUtf8(line.value)
      ensures line.None? ==>
                var found := SplitLine(old(Unconsumed()));
                found.None? || |found.value.text| >= 8192 || !ValidUtf8(found.value.text)
    {
      line := PullLine(8192, 4096);
      if line.Some? && !ValidUtf8(line.value) { line := None; }
    }

    method Fill(length: nat) returns (ok: bool)
      modifies this
      ensures Unconsumed() == old(Unconsumed())
      ensures ok ==> |buffered| >= length
      ensures !ok ==> |Unconsumed()| < length
    {
      while |buffered| < length
        invariant Unconsumed() == old(Unconsumed())
        decreases |unread|
      {
        var more := FillPending(64 * 1024);
        if !more { return false; }
      }
      ok := true;
    }

    method TakeTrailers() returns (ok: bool)
      modifies this
      ensures ok ==> var d := DecodeTrailers(old(Unconsumed()));
              d.Accepted? && AllUtf8(d.trailers) && Unconsumed() == d.rest
      ensures !ok ==> var d := DecodeTrailers(old(Unconsumed()));
              d.Accepted? ==> d.longest >= 8192 || !AllUtf8(d.trailers)
    {
      ghost var s0 := Unconsumed();
      ghost var seen: seq<seq<Byte>> := [];
      ghost var longest := 0;
      while true
        invariant DecodeTrailers(s0) == AfterTrailers(seen, longest, DecodeTrailers(Unconsumed()))
        invariant AllUtf8(seen)
        decreases |Unconsumed()|
      {
        ghost var s := Unconsumed();
        var line := TakeLine();
        if line.None? {
          TrailerMissed(s0, seen, longest, s, 8192);
          return false;
        }
        TrailerStep(s0, seen, longest, s, line.value, Unconsumed());
        if line.value == [] { return true; }
        seen := seen + [line.value];
        longest := Max(longest, |line.value|);
      }
    }

    /** `length` bytes of chunk data: first from the buffer, then straight from the connection. */
    method CopyChunk(length: nat, file: Sink) returns (ok: bool)
      modifies this, file
      ensures ok ==> length <= |old(Unconsumed())|
                     && file.contents == old(file.contents) + old(Unconsumed())[..length]
                     && Unconsumed() == old(Unconsumed())[length..]
      ensures !ok ==> |old(Unconsumed())| < length
    {
      ghost var s := Unconsumed();
      ghost var before := file.contents;
      ghost var copied: seq<Byte> := [];
      var remaining: nat := length;
      if buffered != [] {
        var take := if remaining < |buffered| then remaining else |buffered|;
        copied := buffered[..take];
        file.Write(buffered[..take]);
        buffered := buffered[take..];
        remaining := remaining - take;
      }
      while remaining > 0
        invariant |copied| + remaining == length && copied + Unconsumed() == s
        invariant file.contents == before + copied
        invariant remaining > 0 ==> buffered == []
      {
        var want := if remaining < 64 * 1024 then remaining else 64 * 1024;
        var data := Read(want);
        if data == [] {
          assert copied + Unconsumed() == s && Unconsumed() == [];
          return false;
        }
        file.Write(data);
        Regroup(before, copied, data);
        Regroup(copied, data, Unconsumed());
        copied := copied + data;
        remaining := remaining - |data|;
      }
      assert copied == s[..length];
      ok := true;
    }

    /** Chunk data and the CRLF behind it. */
    method TakeChunk(length: nat, file: Sink) returns (ok: bool)
      modifies this, file
      ensures ok <==> ChunkEndsAt(old(Unconsumed()), length)
      ensures ok ==> file.contents == old(file.contents) + old(Unconsumed())[..length]
                     && Unconsumed() == old(Unconsumed())[length + 2..]
    {
      ok := CopyChunk(length, file);
      if !ok { return; }
      ghost var ending := Unconsumed();
      ok := Fill(2);
      if !ok { return; }
      assert buffered[..2] == ending[..2] == old(Unconsumed())[length..length + 2];
      if buffered[..2] != CRLF { return false; }
      buffered := buffered[2..];
      assert Unconsumed() == ending[2..];
    }

    /** Success means the pure decoder accepts and the file received exactly its body; with
        lines below the 8 KiB cut-off every acceptable input succeeds, however it is cut into reads. */
    method WriteChunkedBody(file: Sink) returns (ok: bool)
      modifies this, file
      ensures ok ==> var d := Decode(old(Unconsumed()));
                     d.Accepted? && AllUtf8(d.trailers)
                     && file.contents == old(file.contents) + d.body && Unconsumed() == d.rest
      ensures !ok ==> var d := Decode(old(Unconsumed()));
                      d.Accepted? ==> d.longest >= 8192 || !AllUtf8(d.trailers)
    {
      ghost var s0 := Unconsumed();
      ghost var written: seq<Byte> := [];
      ghost var longest := 0;
      AfterNothing(Decode(s0));
      while true
        invariant Decode(s0) == After(written, longest, Decode(Unconsumed()))
        invariant file.contents == old(file.contents) + written
        decreases |Unconsumed()|
      {
        ghost var s := Unconsumed();
        var line := TakeLine();
        if line.None? {
          HeaderMissed(s0, written, longest, s, 8192);
          return false;
        }
        ghost var rest := Unconsumed();
        var size := ParseSize(line.value);
        if size.None? {
          BadHeader(s0, written, longest, s, line.value, rest);
          return false;
        }
        if size.value == 0 {
          LastStep(s0, written, longest, s, line.value, rest);
          ok := TakeTrailers();
          return;
        }
        ChunkStep(s0, written, longest, s, line.value, rest, size.value);
        ok := TakeChunk(size.value, file);
        if !ok { return; }
        Regroup(old(file.contents), written, rest[..size.value]);
        written := written + rest[..size.value];
        longest := Max(longest, |line.value|);
      }
    }

    // ---------- speed-test counters and the HTTP relay ----------

    method ReadLine() returns (line: Option<seq<Byte>>)
      modifies this
      ensures line.Some? ==> SplitLine(old(Unconsumed())) == Some(Line(line.value, Unconsumed()))
      ensures line.None? ==> Unconsumed() == old(Unconsumed())
      ensures line.None? ==> var found := SplitLine(old(Unconsumed())); found.None? || |found.value.text| >= 16 * 1024
    {
      line := PullLine(16 * 1024, 8192);
    }

    method ReadExactBuffered(length: nat) returns (data: Option<seq<Byte>>)
      modifies this
      ensures data.Some? ==> old(Unconsumed()) == data.value + Unconsumed() && |data.value| == length
      ensures data.None? ==> |old(Unconsumed())| < length
    {
      while |buffered| < length
        invariant Unconsumed() == old(Unconsumed())
        decreases |unread|
      {
        var ok := FillPending(8192);
        if !ok { return None; }
      }
      data := Some(buffered[..length]);
      buffered := buffered[length..];
    }

    /** Send `length` bytes of chunk data on, always through the buffer. */
    method RelayBuffered(length: nat, output: Sink) returns (ok: bool)
      modifies this, output
      ensures ok ==> length <= |old(Unconsumed())|
                     && output.contents == old(output.contents) + old(Unconsumed())[..length]
                     && Unconsumed() == old(Unconsumed())[length..]
      ensures !ok ==> |old(Unconsumed())| < length && output.contents == old(output.contents) + old(Unconsumed())
    {
      ghost var s := Unconsumed();
      ghost var before := output.contents;
      ghost var sent: seq<Byte> := [];
      var remaining: nat := length;
      while remaining > 0
        invariant |sent| + remaining == length && sent + Unconsumed() == s
        invariant output.contents == before + sent
      {
        if buffered == [] {
          var more := FillPending(8192);
          if !more {
            assert sent == s;
            return false;
          }
        }
        var take := if remaining < |buffered| then remaining else |buffered|;
        var data := buffered[..take];
        output.Write(data);
        assert Unconsumed() == data + (buffered[take..] + unread);
        buffered := buffered[take..];
        Regroup(before, sent, data);
        Regroup(sent, data, Unconsumed());
        sent := sent + data;
        remaining := remaining - take;
      }
      assert sent == s[..length];
      ok := true;
    }

    method Discard(length: nat) returns (ok: bool)
      modifies this
      ensures ok ==> length <= |old(Unconsumed())| && Unconsumed() == old(Unconsumed())[length..]
      ensures !ok ==> |old(Unconsumed())| < length
    {
      ghost var s := Unconsumed();
      var remaining: nat := length;
      while remaining > 0
        invariant remaining <= length && |s| >= length - remaining && Unconsumed() == s[length - remaining..]
      {
        if buffered == [] {
          var more := FillPending(8192);
          if !more { return false; }
        }
        var take := if remaining < |buffered| then remaining else |buffered|;
        assert buffered[take..] + unread == s[length - remaining..][take..];
        buffered := buffered[take..];
        remaining := remaining - take;
      }
      ok := true;
    }

    method SkipTrailers() returns (ok: bool)
      modifies this
      ensures ok ==> var d := DecodeTrailers(old(Unconsumed())); d.Accepted? && Unconsumed() == d.rest
      ensures !ok ==> var d := DecodeTrailers(old(Unconsumed())); d.Accepted? ==> d.longest >= 16 * 1024
    {
      ghost var s0 := Unconsumed();
      ghost var seen: seq<seq<Byte>> := [];
      ghost var longest := 0;
      AfterNoTrailers(DecodeTrailers(s0));
      while true
        invariant DecodeTrailers(s0) == AfterTrailers(seen, longest, DecodeTrailers(Unconsumed()))
        decreases |Unconsumed()|
      {
        ghost var s := Unconsumed();
        var line := ReadLine();
        if line.None? {
          TrailerMissed(s0, seen, longest, s, 16 * 1024);
          return false;
        }
        TrailerStep(s0, seen, longest, s, line.value, Unconsumed());
        if line.value == [] { return true; }
        seen := seen + [line.value];
        longest := Max(longest, |line.value|);
      }
    }

    /** The counters of the speed test: success returns the length of the decoded body, and
        every acceptable input with lines below 16 KiB and a body whose length fits a u64 succeeds. */
    method ReadChunkedCount() returns (total: Option<nat>)
      modifies this
      ensures total.Some? ==> var d := Decode(old(Unconsumed()));
                              d.Accepted? && total.value == |d.body| && Unconsumed() == d.rest
      ensures total.None? ==> var d := Decode(old(Unconsumed()));
                              d.Accepted? ==> d.longest >= 16 * 1024 || |d.body| >= U64_LIMIT
    {
      ghost var s0 := Unconsumed();
      ghost var counted: seq<Byte> := [];
      ghost var longest := 0;
      AfterNothing(Decode(s0));
      var sum := 0;
      while true
        invariant Decode(s0) == After(counted, longest, Decode(Unconsumed()))
        invariant sum == |counted|
        decreases |Unconsumed()|
      {
        ghost var s := Unconsumed();
        var line := ReadLine();
        if line.None? {
          HeaderMissed(s0, counted, longest, s, 16 * 1024);
          return None;
        }
        ghost var rest := Unconsumed();
        var size := ParseSize(line.value);
        if size.None? {
          BadHeader(s0, counted, longest, s, line.value, rest);
          return None;
        }
        if size.value == 0 {
          LastStep(s0, counted, longest, s, line.value, rest);
          var ended := SkipTrailers();
          return if ended then Some(sum) else None;
        }
        ChunkStep(s0, counted, longest, s, line.value, rest, size.value);
        var skipped := DiscardChunk(size.value);
        if !skipped { return None; }
        counted := counted + rest[..size.value];
        longest := Max(longest, |line.value|);
        sum := sum + size.value;
        if sum >= U64_LIMIT { return None; }
      }
    }

    method DiscardChunk(length: nat) returns (ok: bool)
      modifies this
      ensures ok <==> ChunkEndsAt(old(Unconsumed()), length)
      ensures ok ==> Unconsumed() == old(Unconsumed())[length + 2..]
    {
      ok := Discard(length);
      if !ok { return; }
      ghost var behind := Unconsumed();
      var ending := ReadExactBuffered(2);
      ok := ending == Some(CRLF);
      assert ending.Some? ==> ending.value == behind[..2] == old(Unconsumed())[length..length + 2];
      assert ending.Some? ==> Unconsumed() == behind[2..];
    }

    method RelayTrailers(output: Sink) returns (ok: bool)
      modifies this, output
      ensures ok ==> var d := DecodeTrailers(old(Unconsumed())); d.Accepted? && Unconsumed() == d.rest
      ensures !ok ==> var d := DecodeTrailers(old(Unconsumed())); d.Accepted? ==> d.longest >= 16 * 1024
      ensures output.contents + Unconsumed() == old(output.contents) + old(Unconsumed())
    {
      ghost var s0 := Unconsumed();
      ghost var all := output.contents + s0;
      ghost var seen: seq<seq<Byte>> := [];
      ghost var longest := 0;
      AfterNoTrailers(DecodeTrailers(s0));
      while true
        invariant DecodeTrailers(s0) == AfterTrailers(seen, longest, DecodeTrailers(Unconsumed()))
        invariant output.contents + Unconsumed() == all
        decreases |Unconsumed()|
      {
        ghost var s := Unconsumed();
        var line := ReadLine();
        if line.None? {
          TrailerMissed(s0, seen, longest, s, 16 * 1024);
          return false;
        }
        TrailerStep(s0, seen, longest, s, line.value, Unconsumed());
        RelayLine(line.value, output);
        if line.value == [] { return true; }
        seen := seen + [line.value];
        longest := Max(longest, |line.value|);
      }
    }

    method RelayLine(line: seq<Byte>, output: Sink)
      modifies output
      ensures output.contents + Unconsumed() == old(output.contents) + (line + CRLF + old(Unconsumed()))
    {
      ghost var before := output.contents;
      output.Write(line);
      output.Write(CRLF);
      Regroup(before, line, CRLF);
      Regroup(before, line + CRLF, Unconsumed());
    }

    /** Chunk data and the CRLF behind it, forwarded as they came. */
    method RelayChunk(length: nat, output: Sink) returns (ok: bool)
      modifies this, output
      ensures ok <==> ChunkEndsAt(old(Unconsumed()), length)
      ensures ok ==> Unconsumed() == old(Unconsumed())[length + 2..]
                     && output.contents + Unconsumed() == old(output.contents) + old(Unconsumed())
      ensures output.contents <= old(output.contents) + old(Unconsumed())
    {
      ghost var s := Unconsumed();
      ghost var before := output.contents;
      ok := RelayBuffered(length, output);
      if !ok { return; }
      var ending := ReadExactBuffered(2);
      if ending != Some(CRLF) {
        assert ending.Some? ==> ending.value == s[length..length + 2];
        assert s == s[..length] + s[length..];
        Regroup(before, s[..length], s[length..]);
        return false;
      }
      output.Write(CRLF);
      assert s == s[..length] + CRLF + Unconsumed();
      Regroup(before, s[..length], CRLF);
      Regroup(before, s[..length] + CRLF, Unconsumed());
    }

    /** A successful relay forwards the coded body byte for byte; whatever happens, what has been
        forwarded is a prefix of what came in. */
    method RelayChunked(output: Sink) returns (ok: bool)
      modifies this, output
      ensures ok ==> var s := old(Unconsumed());
                     Decode(s).Accepted? && Unconsumed() == Decode(s).rest
                     && output.contents == old(output.contents) + Coded(s)
      ensures !ok ==> var d := Decode(old(Unconsumed())); d.Accepted? ==> d.longest >= 16 * 1024
      ensures output.contents <= old(output.contents) + old(Unconsumed())
    {
      ghost var s0 := Unconsumed();
      ghost var all := output.contents + s0;
      ghost var sent: seq<Byte> := [];
      ghost var longest := 0;
      AfterNothing(Decode(s0));
      while true
        invariant Decode(s0) == After(sent, longest, Decode(Unconsumed()))
        invariant output.contents + Unconsumed() == all
        decreases |Unconsumed()|
      {
        ghost var s := Unconsumed();
        var line := ReadLine();
        if line.None? {
          HeaderMissed(s0, sent, longest, s, 16 * 1024);
          return false;
        }
        ghost var rest := Unconsumed();
        var size := ParseSize(line.value);
        if size.None? {
          BadHeader(s0, sent, longest, s, line.value, rest);
          return false;
        }
        RelayLine(line.value, output);
        if size.value == 0 {
          LastStep(s0, sent, longest, s, line.value, rest);
          ok := RelayTrailers(output);
          if ok { CodedIs(old(output.contents), s0, output.contents); }
          return;
        }
        ChunkStep(s0, sent, longest, s, line.value, rest, size.value);
        ok := RelayChunk(size.value, output);
        if !ok { return; }
        sent := sent + rest[..size.value];
        longest := Max(longest, |line.value|);
      }
    }
  }

  lemma CodedIs(before: seq<Byte>, s: seq<Byte>, output: seq<Byte>)
    requires Decode(s).Accepted? && output + Decode(s).rest == before + s
    ensures output == before + Coded(s)
  {
    var rest := Decode(s).rest;
    SplitSuffix(s, rest);
    Regroup(before, Coded(s), rest);
    CancelSuffix(output, before + Coded(s), rest);
  }

  // ---------- the speed-test writer ----------

  /** What one round of the writer adds in front of the closing chunk. */
  function Rounds(data: seq<Byte>, times: nat): seq<Byte> {
    if times == 0 then [] else Rounds(data, times - 1) + EncodeChunk(data)
  }

  lemma {:induction false} RoundsAreEncoded(data: seq<Byte>, times: nat, tail: seq<seq<Byte>>)
    ensures Rounds(data, times) + EncodeChunks(tail) == EncodeChunks(Repeat(data, times) + tail)
  {
    if times == 0 {
      assert Repeat(data, 0) + tail == tail;
      assert [] + EncodeChunks(tail) == EncodeChunks(tail);
    } else {
      RoundsAreEncoded(data, times - 1, [data] + tail);
      assert ([data] + tail)[1..] == tail;
      Regroup(Rounds(data, times - 1), EncodeChunk(data), EncodeChunks(tail));
      assert Repeat(data, times - 1) + ([data] + tail) == Repeat(data, times) + tail;
    }
  }

  /** The body of a speed transfer; `rounds` is how often the loop runs before its deadline. */
  method WriteSpeedBody(output: Sink, data: seq<Byte>, rounds: nat)
    modifies output
    ensures output.contents == old(output.contents) + EncodeChunks(Repeat(data, rounds))
  {
    ghost var before := output.contents;
    var done := 0;
    assert before + Rounds(data, 0) == before;
    while done < rounds
      invariant done <= rounds
      invariant output.contents == before + Rounds(data, done)
    {
      output.Write(UpperHex(|data|) + CRLF);
      output.Write(data);
      output.Write(CRLF);
      done := done + 1;
      ghost var header := UpperHex(|data|) + CRLF;
      Regroup(before + Rounds(data, done - 1), header, data);
      Regroup(before + Rounds(data, done - 1), header + data, CRLF);
      Regroup(before, Rounds(data, done - 1), EncodeChunk(data));
    }
    output.Write(LAST_CHUNK);
    RoundsAreEncoded(data, rounds, []);
    assert Repeat(data, rounds) + [] == Repeat(data, rounds);
    Regroup(before, Rounds(data, rounds), LAST_CHUNK);
  }

  /** End to end: what the writer sends, relayed through any reads and counted through any
      reads, is counted as exactly the bytes that were put in. */
  method SpeedTransfer(data: seq<Byte>, rounds: nat, more: seq<Byte>) returns (total: Option<nat>)
    requires 0 < |data| < U64_LIMIT && rounds * |data| < U64_LIMIT
    ensures total == Some(rounds * |data|)
  {
    var sent := new Sink();
    WriteSpeedBody(sent, data, rounds);
    ghost var coded := EncodeChunks(Repeat(data, rounds));
    assert sent.contents == coded;
    DecodeOfEncode(Repeat(data, rounds), more);
    var link := new Wire([], sent.contents + more);
    assert link.Unconsumed() == coded + more;
    var forwarded := new Sink();
    var ok := link.RelayChunked(forwarded);
    assert ok && forwarded.contents == Coded(coded + more);
    DecodeIsLocal(coded + more, []);
    assert Coded(coded + more) + [] == Coded(coded + more);
    RepeatSnoc(data, rounds);
    var receiver := new Wire([], forwarded.contents);
    assert receiver.Unconsumed() == forwarded.contents;
    total := receiver.ReadChunkedCount();
  }
}
