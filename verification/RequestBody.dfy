/** A request body read off the connection into a file: chunked, or as long as the header says
    (sections 6.1, 6.2 and 7.1 of RFC 9112, as the code implements them). */
module RequestBody {
  import opened Wrappers
  import opened Bytes
  import opened ChunkedCoding
  import opened ChunkedMessages
  import opened ChunkedStreams
  import opened Pieces
  import opened Sequences

  datatype Framing = Chunked | Sized(length: nat) | Unframed

  /** The connection delivers this body. Chunk data has to be followed by text trailers; a sized
      body has to arrive in full and must not be shorter than what came along with the head. */
  predicate Delivers(framing: Framing, buffered: seq<Byte>, unread: seq<Byte>, body: seq<Byte>) {
    var input := buffered + unread;
    match framing
    case Chunked => var d := Decode(input); d.Accepted? && AllUtf8(d.trailers) && body == d.body
    case Sized(length) => |buffered| <= length <= |input| && body == input[..length]
    case Unframed => false
  }

  /** Input on which the reader may give up: nothing is delivered, or a chunk line is as long as the cut-off. */
  predicate MayFail(framing: Framing, buffered: seq<Byte>, unread: seq<Byte>) {
    var input := buffered + unread;
    match framing
    case Chunked => var d := Decode(input); d.Accepted? ==> d.longest >= 8192 || !AllUtf8(d.trailers)
    case Sized(length) => !(|buffered| <= length <= |input|)
    case Unframed => true
  }

  /** The file receives exactly what is delivered, in whatever pieces it arrives. */
  method WriteRequestBody(wire: Wire, framing: Framing, file: Sink) returns (ok: bool)
    modifies wire, file
    ensures ok ==> old(file.contents) <= file.contents
                   && Delivers(framing, old(wire.buffered), old(wire.unread), file.contents[|old(file.contents)|..])
    ensures !ok ==> MayFail(framing, old(wire.buffered), old(wire.unread))
  {
    match framing
    case Unframed => ok := false;
    case Chunked => ok := wire.WriteChunkedBody(file);
    case Sized(length) =>
      if |wire.buffered| > length { return false; }
      ok := WriteSizedBody(wire, length, file);
  }

  /** The temporary file's contents once the body has been read; `None` when that failed. */
  method ReceiveBody(wire: Wire, framing: Framing) returns (body: Option<seq<Byte>>)
    modifies wire
    ensures body.Some? ==> Delivers(framing, old(wire.buffered), old(wire.unread), body.value)
    ensures body.None? ==> MayFail(framing, old(wire.buffered), old(wire.unread))
  {
    var file := new Sink();
    var ok := WriteRequestBody(wire, framing, file);
    body := if ok then Some(file.contents) else None;
  }

  /** First what came along with the head, then reads of at most what is still missing. */
  method WriteSizedBody(wire: Wire, length: nat, file: Sink) returns (ok: bool)
    requires |wire.buffered| <= length
    modifies wire, file
    ensures ok <==> length <= |old(wire.Unconsumed())|
    ensures ok ==> file.contents == old(file.contents) + old(wire.Unconsumed())[..length]
  {
    ghost var input, before := wire.Unconsumed(), file.contents;
    var remaining: nat := length - |wire.buffered|;
    file.Write(wire.buffered);
    while remaining > 0
      invariant length - |input| <= remaining <= length
      invariant file.contents == before + input[..length - remaining]
      invariant wire.unread == input[length - remaining..]
    {
      ghost var done := length - remaining;
      var piece := wire.Read(if remaining < 8192 then remaining else 8192);
      if piece == [] { return false; }
      PieceFollows(input, done, piece, wire.unread);
      Regroup(before, input[..done], piece);
      file.Write(piece);
      remaining := remaining - |piece|;
    }
    ok := true;
  }

  lemma PieceFollows(input: seq<Byte>, done: nat, piece: seq<Byte>, rest: seq<Byte>)
    requires done <= |input| && input[done..] == piece + rest
    ensures done + |piece| <= |input|
    ensures input[..done] + piece == input[..done + |piece|] && rest == input[done + |piece|..]
  {
    assert input == input[..done] + piece + rest;
  }

  /** Non-empty chunks of 64-bit sizes, coded and followed by anything: reading cannot fail, and what is
      delivered is the chunks joined, wherever the head's last read ended. */
  lemma EncodedIsDelivered(chunks: seq<seq<Byte>>, more: seq<Byte>, buffered: seq<Byte>, unread: seq<Byte>,
                         body: seq<Byte>)
    requires forall i :: 0 <= i < |chunks| ==> 0 < |chunks[i]| < U64_LIMIT
    requires buffered + unread == EncodeChunks(chunks) + more
    ensures !MayFail(Chunked, buffered, unread)
    ensures Delivers(Chunked, buffered, unread, body) <==> body == Joined(chunks)
  {
    DecodeOfEncode(chunks, more);
  }

  /** The same of every message whose lines stay below 8 KiB and whose trailers are text. */
  lemma MessageIsDelivered(m: Message, more: seq<Byte>, buffered: seq<Byte>, unread: seq<Byte>, body: seq<Byte>)
    requires IsMessage(m) && Longest(m) < 8192 && AllUtf8(m.trailers)
    requires buffered + unread == MessageBytes(m) + more
    ensures !MayFail(Chunked, buffered, unread)
    ensures Delivers(Chunked, buffered, unread, body) <==> body == Body(m)
  {
    MessageIsDecoded(m, more);
  }

  /** A sized body read to its end is the one body delivered; input delivers one exactly when it cannot fail. */
  lemma SizedIsDelivered(length: nat, buffered: seq<Byte>, unread: seq<Byte>)
    ensures !MayFail(Sized(length), buffered, unread) <==>
            exists body :: Delivers(Sized(length), buffered, unread, body) && |body| == length
  {
    if !MayFail(Sized(length), buffered, unread) {
      assert Delivers(Sized(length), buffered, unread, (buffered + unread)[..length]);
    }
  }
}
