/** Uploading a stream to an object store, in one piece or in parts. */
module Multipart {
  import opened Wrappers
  import opened Bytes
  import opened Pieces
  import opened Readers
  import opened Decimal
  import opened XmlText
  import opened Sequences

  const CHUNK_SIZE: nat := 8 * 1024 * 1024

  // ---------- cutting a source into parts ----------

  function Chunks(s: seq<Byte>): (parts: seq<seq<Byte>>)
    decreases |s|
  {
    if s == [] then []
    else if |s| <= CHUNK_SIZE then [s]
    else [s[..CHUNK_SIZE]] + Chunks(s[CHUNK_SIZE..])
  }

  lemma OneMoreChunk(n: nat)
    requires n > CHUNK_SIZE
    ensures (n + CHUNK_SIZE - 1) / CHUNK_SIZE == (n - CHUNK_SIZE + CHUNK_SIZE - 1) / CHUNK_SIZE + 1
  {}

  predicate Tiled(parts: seq<seq<Byte>>) {
    && (forall i :: 0 <= i < |parts| ==> 0 < |parts[i]| <= CHUNK_SIZE)
    && (forall i :: 0 <= i < |parts| - 1 ==> |parts[i]| == CHUNK_SIZE)
  }

  /** The parts make up the source, none is empty, all but the last are exactly CHUNK_SIZE long, and
      there are ceil(length / CHUNK_SIZE) of them. */
  lemma {:induction false} ChunksTile(s: seq<Byte>)
    ensures Joined(Chunks(s)) == s && Tiled(Chunks(s))
    ensures |Chunks(s)| == (|s| + CHUNK_SIZE - 1) / CHUNK_SIZE
    decreases |s|
  {
    if s != [] {
      if |s| > CHUNK_SIZE {
        var head, tail := s[..CHUNK_SIZE], s[CHUNK_SIZE..];
        ChunksTile(tail);
        OneMoreChunk(|s|);
        assert head + tail == s;
        Prepend(head, Chunks(tail));
      } else {
        Prepend(s, []);
      }
    }
  }

  lemma Prepend(head: seq<Byte>, parts: seq<seq<Byte>>)
    ensures Joined([head] + parts) == head + Joined(parts)
    ensures Tiled(parts) && 0 < |head| <= CHUNK_SIZE && (parts != [] ==> |head| == CHUNK_SIZE) ==> Tiled([head] + parts)
  {
    assert ([head] + parts)[1..] == parts;
  }

  // ---------- the list of parts that completes an upload ----------

  datatype PartTag = PartTag(number: nat, etag: string)

  const PART_OPEN := "<Part><PartNumber>"
  const PART_MIDDLE := "</PartNumber><ETag>"
  const PART_CLOSE := "</ETag></Part>"
  const LIST_OPEN := "<CompleteMultipartUpload>"
  const LIST_CLOSE := "</CompleteMultipartUpload>"

  function PartText(part: PartTag): string {
    Framed(PART_OPEN, Numeral(part.number), PART_MIDDLE, XmlEscape(part.etag), PART_CLOSE)
  }

  function PartsText(parts: seq<PartTag>): string {
    if parts == [] then [] else PartText(parts[0]) + PartsText(parts[1..])
  }

  function CompletionText(parts: seq<PartTag>): string { LIST_OPEN + PartsText(parts) + LIST_CLOSE }

  /** The document itself: its tags, and between them the numbers in decimal and the escaped tags of parts. */
  lemma CompletionIsXml(part: PartTag, more: seq<PartTag>)
    ensures CompletionText(more) == "<CompleteMultipartUpload>" + PartsText(more) + "</CompleteMultipartUpload>"
    ensures PartsText([]) == ""
    ensures PartsText([part] + more) ==
              "<Part><PartNumber>" + Numeral(part.number) + "</PartNumber><ETag>" + XmlEscape(part.etag)
              + "</ETag></Part>" + PartsText(more)
  {
    assert ([part] + more)[1..] == more;
  }

  /** What a server reads in such a list; `None` for any other text. */
  function ReadCompletion(text: string): Option<seq<PartTag>> {
    match Strip(text, LIST_OPEN)
    case None => None
    case Some(rest) => ReadParts(rest, LIST_CLOSE)
  }

  function Strip(s: string, start: string): Option<string> {
    if start <= s then Some(s[|start|..]) else None
  }

  function ReadParts(text: string, close: string): Option<seq<PartTag>>
    decreases |text|
  {
    if text == close then Some([])
    else match ReadFramed(text, PART_OPEN, PART_MIDDLE, PART_CLOSE)
      case None => None
      case Some(f) =>
        if f.first == [] || !AllDigits(f.first) then None
        else match ReadParts(f.rest, close)
          case None => None
          case Some(more) => Some([PartTag(Value(f.first), XmlUnescape(f.second))] + more)
  }

  // Two texts without markup, framed by three tags.

  function Framed(a: string, x: string, b: string, y: string, c: string): string { a + (x + (b + (y + c))) }

  datatype Frame = Frame(first: string, second: string, rest: string)

  function Plain(s: string): (n: nat)
    ensures n <= |s| && '<' !in s[..n] && (n < |s| ==> s[n] == '<')
  {
    if s == [] || s[0] == '<' then 0
    else
      assert forall n :: 0 < n <= |s| ==> s[..n] == [s[0]] + s[1..][..n - 1];
      Plain(s[1..]) + 1
  }

  function ReadFramed(s: string, a: string, b: string, c: string): (r: Option<Frame>)
    ensures r.Some? && a != [] ==> |r.value.rest| < |s|
  {
    if !(a <= s) then None
    else
      var s1 := s[|a|..];
      var first, s2 := s1[..Plain(s1)], s1[Plain(s1)..];
      if !(b <= s2) then None
      else
        var s3 := s2[|b|..];
        var second, s4 := s3[..Plain(s3)], s3[Plain(s3)..];
        if !(c <= s4) then None else Some(Frame(first, second, s4[|c|..]))
  }

  lemma {:induction false} PlainEnds(x: string, more: string)
    requires '<' !in x && more != [] && more[0] == '<'
    ensures (x + more)[..Plain(x + more)] == x && (x + more)[Plain(x + more)..] == more
  {
    if x == [] {
      assert x + more == more;
    } else {
      assert (x + more)[1..] == x[1..] + more;
      PlainEnds(x[1..], more);
    }
  }

  lemma FramedReadsBack(a: string, x: string, b: string, y: string, c: string, rest: string)
    requires '<' !in x && '<' !in y && b != [] && b[0] == '<' && c != [] && c[0] == '<'
    ensures ReadFramed(Framed(a, x, b, y, c) + rest, a, b, c) == Some(Frame(x, y, rest))
  {
    var s4 := c + rest;
    var s3 := y + s4;
    var s2 := b + s3;
    var s1 := x + s2;
    var s := a + s1;
    FramedThen(a, x, b, y, c, rest);
    assert s[|a|..] == s1 && s2[|b|..] == s3 && s4[|c|..] == rest;
    PlainEnds(x, s2);
    PlainEnds(y, s4);
  }

  lemma FramedThen(a: string, x: string, b: string, y: string, c: string, rest: string)
    ensures Framed(a, x, b, y, c) + rest == a + (x + (b + (y + (c + rest))))
  {}

  lemma PartReadsBack(part: PartTag, rest: string)
    ensures ReadFramed(PartText(part) + rest, PART_OPEN, PART_MIDDLE, PART_CLOSE)
            == Some(Frame(Numeral(part.number), XmlEscape(part.etag), rest))
  {
    EscapeHasNoMarkup(part.etag);
    FramedReadsBack(PART_OPEN, Numeral(part.number), PART_MIDDLE, XmlEscape(part.etag), PART_CLOSE, rest);
  }

  lemma PartIsNotTheEnd(part: PartTag, rest: string, close: string)
    requires |close| > 1 && close[1] == '/'
    ensures PartText(part) + rest != close
  {
    assert (PartText(part) + rest)[1] == PART_OPEN[1] == 'P';
  }

  lemma PartThenParts(part: PartTag, more: string, tail: seq<PartTag>, close: string)
    requires |close| > 1 && close[1] == '/' && ReadParts(more, close) == Some(tail)
    ensures ReadParts(PartText(part) + more, close) == Some([part] + tail)
  {
    PartReadsBack(part, more);
    PartIsNotTheEnd(part, more, close);
    ValueOfNumeral(part.number);
    UnescapeOfEscape(part.etag);
  }


  lemma {:induction false} PartsReadBack(parts: seq<PartTag>, close: string)
    requires |close| > 1 && close[1] == '/'
    ensures ReadParts(PartsText(parts) + close, close) == Some(parts)
  {
    if parts == [] {
      NoParts(close);
    } else {
      PartsReadBack(parts[1..], close);
      OneMorePart(parts[0], parts[1..], parts, close);
    }
  }

  lemma NoParts(close: string)
    ensures ReadParts(PartsText([]) + close, close) == Some([])
  {
    assert PartsText([]) + close == close;
  }

  lemma OneMorePart(part: PartTag, more: seq<PartTag>, parts: seq<PartTag>, close: string)
    requires |close| > 1 && close[1] == '/' && parts == [part] + more
    requires ReadParts(PartsText(more) + close, close) == Some(more)
    ensures ReadParts(PartsText(parts) + close, close) == Some(parts)
  {
    assert parts[1..] == more;
    PartThenParts(part, PartsText(more) + close, more, close);
    Regroup(PartText(part), PartsText(more), close);
  }

  lemma StripsBack(start: string, rest: string)
    ensures Strip(start + rest, start) == Some(rest)
  {}

  /** A server reads back exactly the part numbers and tags the client collected, whatever
      characters the tags hold. */
  lemma CompletionReadsBack(parts: seq<PartTag>)
    ensures ReadCompletion(CompletionText(parts)) == Some(parts)
  {
    PartsReadBack(parts, LIST_CLOSE);
    Regroup(LIST_OPEN, PartsText(parts), LIST_CLOSE);
    StripsBack(LIST_OPEN, PartsText(parts) + LIST_CLOSE);
  }

  lemma {:induction false} PartsTextSnoc(parts: seq<PartTag>, last: PartTag)
    ensures PartsText(parts + [last]) == PartsText(parts) + PartText(last)
  {
    if parts == [] {
      OnlyPart(last);
    } else {
      PartsTextSnoc(parts[1..], last);
      PartsTextSplits(parts[0], parts[1..] + [last], parts + [last]);
      Regroup(PartText(parts[0]), PartsText(parts[1..]), PartText(last));
    }
  }

  lemma OnlyPart(part: PartTag)
    ensures PartsText([] + [part]) == PartsText([]) + PartText(part)
  {
    assert ([] + [part])[1..] == [];
  }

  lemma PartsTextSplits(part: PartTag, more: seq<PartTag>, parts: seq<PartTag>)
    requires parts == [part] + more
    ensures PartsText(parts) == PartText(part) + PartsText(more)
  {
    assert parts[1..] == more;
  }

  /** The request body, part by part. */
  method CompletionBody(parts: seq<PartTag>) returns (text: string)
    ensures text == CompletionText(parts)
  {
    text := LIST_OPEN;
    for i := 0 to |parts|
      invariant text == LIST_OPEN + PartsText(parts[..i])
    {
      PartsTextSnoc(parts[..i], parts[i]);
      assert parts[..i] + [parts[i]] == parts[..i + 1];
      Regroup(LIST_OPEN, PartsText(parts[..i]), PartText(parts[i]));
      text := text + PartText(parts[i]);
    }
    assert parts[..|parts|] == parts;
    text := text + LIST_CLOSE;
  }

  // ---------- the server ----------

  datatype Stored = Stored(etag: string, data: seq<Byte>)

  datatype Call = PutCall(data: seq<Byte>) | PartCall(number: nat, data: seq<Byte>) | AbortCall(id: string)

  /** The part of a number, if it is there under the listed tag. */
  function Find(stored: map<int, Stored>): PartTag -> Option<seq<Byte>> {
    (part: PartTag) =>
      if part.number in stored && stored[part.number].etag == part.etag
      then Some(stored[part.number].data) else None
  }

  /** What a completion request makes of an upload: the parts have to be listed in ascending order. */
  function Completed(uploads: map<string, map<int, Stored>>, id: string, text: string): Option<seq<Byte>> {
    if id !in uploads then None
    else match ReadCompletion(text)
      case None => None
      case Some(parts) =>
        if parts != [] && forall i, j :: 0 <= i < j < |parts| ==> parts[i].number < parts[j].number
        then Assemble(Find(uploads[id]), parts)
        else None
  }

  const UPLOAD_ID := "UploadId"

  /** A status, and whether the body reports an error whatever the status says. */
  datatype Reply = Reply(status: nat, isError: bool)

  /** All the client looks at. */
  predicate CountsAsSuccess(r: Reply) { 200 <= r.status < 300 }

  /** What a completion request may do and answer: the object is made, and the answer may say so or be
      lost; or nothing changes, and the answer is an error, which may come with any status. */
  ghost predicate CompletionAnswer(content: Option<seq<Byte>>, uploads: map<string, map<int, Stored>>,
                                   content': Option<seq<Byte>>, uploads': map<string, map<int, Stored>>,
                                   id: string, text: string, reply: Reply)
  {
    var done := Completed(uploads, id, text);
    if reply.isError then content' == content && uploads' == uploads
    else done.Some? && content' == done && uploads' == uploads - {id}
  }

  /** An error that comes with status 200 counts as success, and the object has not been made. */
  lemma ErrorUnder200CountsAsSuccess(content: Option<seq<Byte>>, uploads: map<string, map<int, Stored>>, id: string,
                                     text: string)
    ensures var reply := Reply(200, true);
            CountsAsSuccess(reply) && CompletionAnswer(content, uploads, content, uploads, id, text, reply)
  {}

  /** Any request may fail, and a request that fails for the client may still have taken effect. */
  class Store {
    var content: Option<seq<Byte>>
    var uploads: map<string, map<int, Stored>>
    var calls: seq<Call>
    /** What uploads and completions have been answered. */
    ghost var replies: seq<Reply>
    /** How many requests got no answer the client could go on with. */
    ghost var faults: nat

    /** `None` when no answer came. A status of the 200s is only given once the object is there. */
    method Put(data: seq<Byte>) returns (reply: Option<Reply>)
      modifies this
      ensures uploads == old(uploads) && calls == old(calls) + [PutCall(data)]
      ensures content == Some(data) || content == old(content)
      ensures reply.Some? && 200 <= reply.value.status < 300 ==> content == Some(data)
      ensures faults == old(faults) + if reply.None? then 1 else 0
      ensures replies == old(replies) + if reply.None? then [] else [reply.value]
    {
      calls := calls + [PutCall(data)];
      var status: nat, arrives: bool, answers: bool := *, *, *;
      if arrives || (answers && 200 <= status < 300) { content := Some(data); }
      if !answers {
        faults := faults + 1;
        return None;
      }
      reply := Some(Reply(status, content != Some(data)));
      replies := replies + [reply.value];
    }

    /** The body of a successful answer holds the new upload's id in a tag. */
    method Initiate() returns (body: Option<string>, ghost id: string)
      modifies this
      ensures content == old(content) && calls == old(calls) && replies == old(replies)
      ensures (id !in old(uploads) && uploads == old(uploads)[id := map[]]) || (body.None? && uploads == old(uploads))
      ensures body.Some? ==> XmlTag(body.value, "UploadId") == Some(id)
      ensures faults == old(faults) + if body.None? then 1 else 0
    {
      var name: string, arrives: bool, answers: bool := *, *, *;
      id := name;
      if name in uploads || !arrives {
        faults := faults + 1;
        return None, id;
      }
      uploads := uploads[name := map[]];
      if !answers {
        faults := faults + 1;
        return None, id;
      }
      var before: string :| FirstTag(before, UPLOAD_ID, name, []);
      XmlTagReadsEscaped(before, UPLOAD_ID, name, []);
      body := Some(Tagged(before, UPLOAD_ID, name, []));
    }

    /** `None` also when the answer lacks the part's tag. */
    method UploadPart(id: string, number: nat, data: seq<Byte>) returns (etag: Option<string>)
      modifies this
      ensures content == old(content) && calls == old(calls) + [PartCall(number, data)] && replies == old(replies)
      ensures uploads.Keys == old(uploads).Keys && forall u :: u in uploads && u != id ==> uploads[u] == old(uploads)[u]
      ensures etag.Some? ==> id in uploads && uploads[id] == old(uploads)[id][number := Stored(etag.value, data)]
      ensures faults == old(faults) + if id in old(uploads) && etag.None? then 1 else 0
    {
      calls := calls + [PartCall(number, data)];
      if id !in uploads { return None; }
      var tag: string, arrives: bool, answers: bool := *, *, *;
      if arrives { uploads := uploads[id := uploads[id][number := Stored(tag, data)]]; }
      if !(arrives && answers) {
        faults := faults + 1;
        return None;
      }
      etag := Some(tag);
    }

    method Refuse(status: nat) returns (reply: Reply)
      modifies this`replies
      ensures reply == Reply(status, true) && replies == old(replies) + [reply]
    {
      reply := Reply(status, true);
      replies := replies + [reply];
    }

    method Complete(id: string, text: string) returns (reply: Reply)
      modifies this
      ensures calls == old(calls) && faults == old(faults) && replies == old(replies) + [reply]
      ensures CompletionAnswer(old(content), old(uploads), content, uploads, id, text, reply)
    {
      var done := Completed(uploads, id, text);
      var status: nat := *;
      var refused: bool := *;
      if done.None? || refused {
        reply := Refuse(status);
        return;
      }
      content, uploads := done, uploads - {id};
      reply := Reply(status, false);
      replies := replies + [reply];
    }

    method Abort(id: string)
      modifies this
      ensures content == old(content) && calls == old(calls) + [AbortCall(id)] && faults == old(faults)
      ensures replies == old(replies)
      ensures uploads == old(uploads) || uploads == old(uploads) - {id}
    {
      calls := calls + [AbortCall(id)];
      if * { uploads := uploads - {id}; }
    }
  }

  // ---------- the client ----------

  /** Fill a buffer of CHUNK_SIZE, short only at the end of the stream. */
  method ReadChunk(reader: Reader) returns (chunk: Option<seq<Byte>>)
    modifies reader
    ensures chunk.Some? ==> old(reader.unread) == chunk.value + reader.unread && |chunk.value| <= CHUNK_SIZE
    ensures chunk.Some? && |chunk.value| < CHUNK_SIZE ==> reader.unread == []
    ensures chunk.Some? <==> reader.faults == old(reader.faults)
  {
    var buffer := new Byte[CHUNK_SIZE];
    var used := 0;
    ghost var source := reader.unread;
    while used < buffer.Length
      invariant used <= buffer.Length && used <= |source|
      invariant buffer[..used] == source[..used] && reader.unread == source[used..]
      invariant reader.faults == old(reader.faults)
      decreases buffer.Length - used
    {
      var count := reader.ReadInto(buffer, used);
      if count.None? { return None; }
      if count.value == 0 { break; }
      assert source[..used + count.value] == source[..used] + source[used..][..count.value];
      used := used + count.value;
    }
    chunk := Some(buffer[..used]);
  }

  function PartCalls(parts: seq<seq<Byte>>): seq<Call> {
    seq(|parts|, i requires 0 <= i < |parts| => PartCall(i + 1, parts[i]))
  }

  // ---------- what an upload achieves ----------

  lemma ChunkOff(chunk: seq<Byte>, more: seq<Byte>)
    requires 0 < |chunk| <= CHUNK_SIZE && (|chunk| < CHUNK_SIZE ==> more == [])
    ensures Chunks(chunk + more) == [chunk] + Chunks(more)
  {
    if more == [] {
      assert chunk + more == chunk && [chunk] + [] == [chunk];
    } else {
      assert (chunk + more)[..CHUNK_SIZE] == chunk && (chunk + more)[CHUNK_SIZE..] == more;
    }
  }

  /** Parts 1, 2, ... of the upload hold the pieces. */
  predicate HoldsParts(stored: map<int, Stored>, parts: seq<PartTag>, pieces: seq<seq<Byte>>) {
    Holds(Find(stored), parts, pieces) && forall i :: 0 <= i < |parts| ==> parts[i].number == i + 1
  }

  /** The server makes the whole source out of the completion request. */
  lemma CompletionMakesSource(uploads: map<string, map<int, Stored>>, id: string, parts: seq<PartTag>,
                              source: seq<Byte>)
    requires id in uploads && source != [] && HoldsParts(uploads[id], parts, Chunks(source))
    ensures Completed(uploads, id, CompletionText(parts)) == Some(source)
  {
    CompletionReadsBack(parts);
    AssembleAll(Find(uploads[id]), parts, Chunks(source));
    ChunksTile(source);
  }

  lemma OneMoreCall(calls: seq<Call>, pieces: seq<seq<Byte>>, piece: seq<Byte>)
    ensures calls + PartCalls(pieces + [piece]) == calls + PartCalls(pieces) + [PartCall(|pieces| + 1, piece)]
  {}

  lemma OneMorePiece(source: seq<Byte>, pieces: seq<seq<Byte>>, chunk: seq<Byte>, more: seq<Byte>)
    requires Chunks(source) == pieces + Chunks(chunk + more)
    requires 0 < |chunk| <= CHUNK_SIZE && (|chunk| < CHUNK_SIZE ==> more == [])
    ensures Chunks(source) == pieces + [chunk] + Chunks(more)
  {
    ChunkOff(chunk, more);
  }

  lemma OneMoreHeld(stored: map<int, Stored>, parts: seq<PartTag>, pieces: seq<seq<Byte>>, etag: string,
                    piece: seq<Byte>)
    requires HoldsParts(stored, parts, pieces)
    ensures HoldsParts(stored[|parts| + 1 := Stored(etag, piece)], parts + [PartTag(|parts| + 1, etag)],
                       pieces + [piece])
  {
    var n := |parts|;
    var more, longer, all := stored[n + 1 := Stored(etag, piece)], parts + [PartTag(n + 1, etag)], pieces + [piece];
    forall i | 0 <= i < |longer| ensures longer[i].number == i + 1 && Find(more)(longer[i]) == Some(all[i]) {
      if i < n { assert longer[i] == parts[i] && all[i] == pieces[i] && Find(stored)(parts[i]) == Some(pieces[i]); }
    }
    assert HoldsParts(more, longer, all);
  }

  lemma OthersUntouched(before: map<string, map<int, Stored>>, after: map<string, map<int, Stored>>, id: string)
    requires before.Keys == after.Keys && forall u :: u in after && u != id ==> after[u] == before[u]
    ensures after - {id} == before - {id}
  {}

  lemma NothingLeft(source: seq<Byte>, pieces: seq<seq<Byte>>, left: seq<Byte>)
    requires Chunks(source) == pieces + Chunks(left) && left == []
    ensures Chunks(source) == pieces
  {
    assert pieces + [] == pieces;
  }

  /** Upload piece after piece until the stream ends. */
  method UploadParts(reader: Reader, store: Store, first: seq<Byte>, id: string) returns (parts: Option<seq<PartTag>>)
    requires |first| == CHUNK_SIZE && id in store.uploads && store.uploads[id] == map[]
    modifies reader, store
    ensures store.content == old(store.content) && store.replies == old(store.replies) && id in store.uploads
            && store.uploads - {id} == old(store.uploads) - {id}
    ensures parts.Some? <==> reader.faults == old(reader.faults) && store.faults == old(store.faults)
    ensures parts.Some? ==>
              var pieces := Chunks(first + old(reader.unread));
              && reader.unread == []
              && store.calls == old(store.calls) + PartCalls(pieces)
              && HoldsParts(store.uploads[id], parts.value, pieces)
  {
    ghost var source, calls := first + reader.unread, store.calls;
    ghost var pieces: seq<seq<Byte>> := [];
    var tags: seq<PartTag> := [];
    var chunk, number := first, 1;
    while true
      invariant number == |tags| + 1 && 0 < |chunk| <= CHUNK_SIZE && (|chunk| < CHUNK_SIZE ==> reader.unread == [])
      invariant Chunks(source) == pieces + Chunks(chunk + reader.unread)
      invariant id in store.uploads && HoldsParts(store.uploads[id], tags, pieces)
      invariant store.content == old(store.content) && store.uploads - {id} == old(store.uploads) - {id}
      invariant store.calls == calls + PartCalls(pieces)
      invariant reader.faults == old(reader.faults) && store.faults == old(store.faults)
      invariant store.replies == old(store.replies)
      decreases |reader.unread|
    {
      ghost var uploads := store.uploads;
      var etag := store.UploadPart(id, number, chunk);
      OthersUntouched(uploads, store.uploads, id);
      if etag.None? { return None; }
      OneMoreHeld(uploads[id], tags, pieces, etag.value, chunk);
      OneMoreCall(calls, pieces, chunk);
      OneMorePiece(source, pieces, chunk, reader.unread);
      tags := tags + [PartTag(number, etag.value)];
      pieces := pieces + [chunk];
      ghost var left := reader.unread;
      var next := ReadChunk(reader);
      if next.None? { return None; }
      chunk := next.value;
      if chunk == [] {
        NothingLeft(source, pieces, left);
        return Some(tags);
      }
      number := number + 1;
    }
  }

  /** What the completion's answer says: success is a status of the 200s and nothing else, and a failure
      hidden under such a status is an error body. The object has been made exactly without an error. */
  predicate Judged(ok: bool, hidden: bool, reply: Option<Reply>, before: Option<seq<Byte>>, after: Option<seq<Byte>>,
                   source: seq<Byte>)
  {
    && (ok <==> reply.Some? && 200 <= reply.value.status < 300)
    && (hidden <==> ok && reply.value.isError)
    && after == if reply.Some? && !reply.value.isError then Some(source) else before
  }

  /** Upload the parts in order, then complete the upload with all of them. There is a reply when the
      completion is reached; `hidden` tells that it was refused under a status that counts as success. */
  method PutMultipart(reader: Reader, store: Store, first: seq<Byte>, id: string)
    returns (ok: bool, ghost hidden: bool, ghost reply: Option<Reply>)
    requires |first| == CHUNK_SIZE && id in store.uploads && store.uploads[id] == map[]
    modifies reader, store
    ensures Judged(ok, hidden, reply, old(store.content), store.content, first + old(reader.unread))
    ensures reply.Some? <==> reader.faults == old(reader.faults) && store.faults == old(store.faults)
    ensures store.replies == old(store.replies) + if reply.Some? then [reply.value] else []
    ensures reply.Some? ==>
              && reader.unread == []
              && store.calls == old(store.calls) + PartCalls(Chunks(first + old(reader.unread)))
              && (reply.value.isError <==> id in store.uploads)
    ensures store.uploads - {id} == old(store.uploads) - {id}
  {
    ghost var source := first + reader.unread;
    var parts := UploadParts(reader, store, first, id);
    if parts.None? { return false, false, None; }
    CompletionMakesSource(store.uploads, id, parts.value, source);
    var body := CompletionBody(parts.value);
    var answer := store.Complete(id, body);
    ok := CountsAsSuccess(answer);
    hidden, reply := ok && answer.isError, Some(answer);
  }

  /** Old uploads stay as they were. One that is left open was the last to be aborted, or nothing but its
      initiation was called: the answer with its id was lost, so that nobody can abort it. */
  twostate predicate NothingDangles(store: Store)
    reads store
  {
    && (forall u :: u in old(store.uploads) ==> u in store.uploads && store.uploads[u] == old(store.uploads[u]))
    && (forall u :: u in store.uploads && u !in old(store.uploads) ==>
          store.calls == old(store.calls) || (store.calls != [] && store.calls[|store.calls| - 1] == AbortCall(u)))
  }

  /** Start an upload and read its id from the answer. */
  method InitiateMultipart(store: Store) returns (id: Option<string>)
    modifies store
    ensures store.content == old(store.content) && store.calls == old(store.calls)
    ensures store.replies == old(store.replies)
    ensures forall u :: u in old(store.uploads) ==> u in store.uploads && store.uploads[u] == old(store.uploads)[u]
    ensures id.Some? <==> store.faults == old(store.faults)
    ensures id.Some? ==> id.value !in old(store.uploads) && store.uploads == old(store.uploads)[id.value := map[]]
  {
    var answer, started := store.Initiate();
    if answer.None? { return None; }
    id := XmlTag(answer.value, UPLOAD_ID);
  }

  /** Streams of at least one chunk: an upload that does not succeed is aborted once its id is known. */
  method PutInParts(reader: Reader, store: Store, first: seq<Byte>)
    returns (ok: bool, ghost hidden: bool, ghost reply: Option<Reply>, ghost known: Option<string>)
    requires |first| == CHUNK_SIZE
    modifies reader, store
    ensures var source := first + old(reader.unread);
            && Judged(ok, hidden, reply, old(store.content), store.content, source)
            && (ok ==> reader.unread == [] && store.calls == old(store.calls) + PartCalls(Chunks(source)))
    ensures reply.Some? <==> reader.faults == old(reader.faults) && store.faults == old(store.faults)
    ensures store.replies == old(store.replies) + if reply.Some? then [reply.value] else []
    ensures ok && !hidden ==> store.uploads == old(store.uploads)
    ensures hidden ==> LeftOpen(store)
    ensures known.None? ==> !ok && store.calls == old(store.calls)
    ensures known.Some? && !ok ==> store.calls != [] && store.calls[|store.calls| - 1] == AbortCall(known.value)
    ensures !hidden ==> NothingDangles(store)
  {
    reply := None;
    var id := InitiateMultipart(store);
    known := id;
    if id.None? { return false, false, reply, known; }
    assert store.uploads - {id.value} == old(store.uploads);
    ok, hidden, reply := PutMultipart(reader, store, first, id.value);
    if !ok { store.Abort(id.value); }
  }

  /** One upload more is open than before, and old ones are as they were. */
  twostate predicate LeftOpen(store: Store)
    reads store
  {
    exists u :: u !in old(store.uploads) && u in store.uploads && store.uploads - {u} == old(store.uploads)
  }

  /** Small streams go as one request, larger ones in parts. Success means that the object is the source
      and no upload is left open, unless the completion was refused under a status that counts as
      success: then the object is as it was and the upload stays open. */
  method PutObjectStream(reader: Reader, store: Store)
    returns (ok: bool, ghost hidden: bool, ghost reply: Option<Reply>, ghost known: Option<string>)
    modifies reader, store
    ensures ok ==> reader.unread == []
    ensures reply.Some? <==> reader.faults == old(reader.faults) && store.faults == old(store.faults)
    ensures store.replies == old(store.replies) + if reply.Some? then [reply.value] else []
    ensures var source := old(reader.unread);
            if |source| < 8 * 1024 * 1024 then
              && (ok <==> reply.Some? && 200 <= reply.value.status < 300)
              && !hidden && known.None? && store.uploads == old(store.uploads)
              && (ok ==> store.calls == old(store.calls) + [PutCall(source)] && store.content == Some(source))
              && (store.content == old(store.content) || store.content == Some(source))
            else
              && Judged(ok, hidden, reply, old(store.content), store.content, source)
              && (ok ==> store.calls == old(store.calls) + PartCalls(Chunks(source)))
    ensures ok && !hidden ==> store.content == Some(old(reader.unread)) && store.uploads == old(store.uploads)
    ensures hidden ==> ok && store.content == old(store.content) && LeftOpen(store)
    ensures known.Some? && !ok ==> store.calls != [] && store.calls[|store.calls| - 1] == AbortCall(known.value)
    ensures !hidden ==> NothingDangles(store)
  {
    hidden, reply, known := false, None, None;
    var first := ReadChunk(reader);
    if first.None? { return false, hidden, reply, known; }
    if |first.value| < CHUNK_SIZE {
      assert first.value + [] == first.value;
      var answer := store.Put(first.value);
      ok, reply := answer.Some? && CountsAsSuccess(answer.value), answer;
    } else {
      ok, hidden, reply, known := PutInParts(reader, store, first.value);
    }
  }
}
