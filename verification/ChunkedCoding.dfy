/** The chunked transfer coding of section 7.1 of RFC 9112 as one pure decoder,
    the yardstick for the stream readers in ChunkedStreams.dfy. */
module ChunkedCoding {
  import opened Wrappers
  import opened Bytes
  import opened Pieces
  import opened Sequences

  /** `longest` is the length of the longest header or trailer line met on the way;
      `rest` is what follows the coded body. */
  datatype Decoded =
    | Rejected
    | Accepted(body: seq<Byte>, trailers: seq<seq<Byte>>, longest: nat, rest: seq<Byte>)

  lemma CancelSuffix(a: seq<Byte>, b: seq<Byte>, c: seq<Byte>)
    requires a + c == b + c
    ensures a == b
  {
    assert |a| == |a + c| - |c| == |b|;
    assert a == (a + c)[..|a|] && b == (b + c)[..|b|];
  }

  predicate EndsWith(s: seq<Byte>, rest: seq<Byte>) {
    |rest| <= |s| && rest == s[|s| - |rest|..]
  }

  lemma EndsWithin(front: seq<Byte>, s: seq<Byte>, rest: seq<Byte>)
    requires EndsWith(s, rest)
    ensures EndsWith(front + s, rest)
  {
    assert (front + s)[|front| + |s| - |rest|..] == s[|s| - |rest|..];
  }

  lemma SplitSuffix(s: seq<Byte>, rest: seq<Byte>)
    requires EndsWith(s, rest)
    ensures s == s[..|s| - |rest|] + rest
  {}

  function Max(a: nat, b: nat): nat { if a < b then b else a }

  /** The part of a header line before its extensions. */
  function SizeField(line: seq<Byte>): seq<Byte> {
    if line == [] || line[0] == SEMICOLON then [] else [line[0]] + SizeField(line[1..])
  }

  function ParseSize(line: seq<Byte>): Option<nat> {
    if ValidUtf8(line) then FromStrRadix16(SizeField(line)) else None
  }

  /** Trailer lines up to and without the empty one that ends them. */
  function DecodeTrailers(s: seq<Byte>): (d: Decoded)
    ensures d.Accepted? ==> d.body == [] && |d.rest| < |s| && EndsWith(s, d.rest)
    decreases |s|
  {
    match SplitLine(s)
    case None => Rejected
    case Some(line) =>
      if line.text == [] then Accepted([], [], 0, line.rest)
      else match DecodeTrailers(line.rest)
        case Rejected => Rejected
        case Accepted(_, trailers, longest, rest) =>
          EndsWithin(line.text + CRLF, line.rest, rest);
          Accepted([], [line.text] + trailers, Max(|line.text|, longest), rest)
  }

  /** Put `body`, decoded under lines no longer than `longest`, in front of a decoding. */
  function After(body: seq<Byte>, longest: nat, d: Decoded): Decoded {
    match d
    case Rejected => Rejected
    case Accepted(tail, trailers, l, rest) => Accepted(body + tail, trailers, Max(longest, l), rest)
  }

  lemma AfterNothing(d: Decoded)
    ensures After([], 0, d) == d
  {
    if d.Accepted? { assert [] + d.body == d.body; }
  }

  lemma AfterAfter(b1: seq<Byte>, l1: nat, b2: seq<Byte>, l2: nat, d: Decoded)
    ensures After(b1, l1, After(b2, l2, d)) == After(b1 + b2, Max(l1, l2), d)
  {
    if d.Accepted? { assert b1 + (b2 + d.body) == b1 + b2 + d.body; }
  }

  /** One header line and, unless it announces the last chunk, the data behind it. */
  datatype Step =
    | Broken
    | Last(header: seq<Byte>, after: seq<Byte>)
    | Chunk(header: seq<Byte>, data: seq<Byte>, after: seq<Byte>)

  /** The bytes a step uses up; `Written` adds those behind it. */
  function Used(r: Step): seq<Byte> {
    match r
    case Broken => []
    case Last(header, _) => header + CRLF
    case Chunk(header, data, _) => header + CRLF + (data + CRLF)
  }

  function Written(r: Step): seq<Byte>
    requires !r.Broken?
  {
    Used(r) + r.after
  }

  predicate ChunkEndsAt(s: seq<Byte>, n: nat) {
    n + 2 <= |s| && s[n..n + 2] == CRLF
  }

  function NextStep(s: seq<Byte>): (r: Step)
    ensures !r.Broken? ==> s == Written(r)
  {
    match SplitLine(s)
    case None => Broken
    case Some(line) =>
      match ParseSize(line.text)
      case None => Broken
      case Some(n) =>
        if n == 0 then Last(line.text, line.rest)
        else if ChunkEndsAt(line.rest, n) then
          assert line.rest == line.rest[..n] + CRLF + line.rest[n + 2..];
          Regroup(line.text + CRLF, line.rest[..n] + CRLF, line.rest[n + 2..]);
          Chunk(line.text, line.rest[..n], line.rest[n + 2..])
        else Broken
  }

  function Decode(s: seq<Byte>): (d: Decoded)
    ensures d.Accepted? ==> |d.rest| < |s| && EndsWith(s, d.rest)
    decreases |s|
  {
    var r := NextStep(s);
    match r
    case Broken => Rejected
    case Last(header, after) =>
      var d := DecodeTrailers(after);
      assert d.Accepted? ==> EndsWith(s, d.rest) by { if d.Accepted? { EndsWithin(Used(r), after, d.rest); } }
      After([], |header|, d)
    case Chunk(header, data, after) =>
      var d := Decode(after);
      assert d.Accepted? ==> EndsWith(s, d.rest) by { if d.Accepted? { EndsWithin(Used(r), after, d.rest); } }
      After(data, |header|, d)
  }

  /** What the coded body occupies of `s`. */
  function Coded(s: seq<Byte>): seq<Byte>
    requires Decode(s).Accepted?
  {
    s[..|s| - |Decode(s).rest|]
  }

  // ---------- locality: bytes after the coded body do not matter ----------

  function WithRest(d: Decoded, more: seq<Byte>): Decoded {
    match d
    case Rejected => Rejected
    case Accepted(b, t, l, rest) => Accepted(b, t, l, rest + more)
  }

  lemma {:induction false} TrailersExtend(s: seq<Byte>, more: seq<Byte>)
    requires DecodeTrailers(s).Accepted?
    ensures DecodeTrailers(s + more) == WithRest(DecodeTrailers(s), more)
    decreases |s|
  {
    SplitLineExtends(s, more);
    var line := SplitLine(s).value;
    if line.text != [] { TrailersExtend(line.rest, more); }
  }

  lemma LineHead(s: seq<Byte>)
    requires SplitLine(s).Some?
    ensures NoCrlfBefore(SplitLine(s).value.text)
  {
    var text := SplitLine(s).value.text;
    forall j: nat | j < |text| ensures !CrlfAt(text + CRLF, j) {
      assert !CrlfAt(s, j);
      assert s[j] == (text + CRLF)[j] && s[j + 1] == (text + CRLF)[j + 1];
    }
  }

  predicate NoCrlfBefore(text: seq<Byte>) {
    forall j: nat :: j < |text| ==> !CrlfAt(text + CRLF, j)
  }

  /** A header line and a framed chunk are read the same way before any bytes at all. */
  lemma NextStepOfChunk(header: seq<Byte>, data: seq<Byte>, after: seq<Byte>)
    requires NoCrlfBefore(header) && data != [] && ParseSize(header) == Some(|data|)
    ensures NextStep(Written(Chunk(header, data, after))) == Chunk(header, data, after)
  {
    var rest := data + CRLF + after;
    SplitLineIsLocal(header, rest);
    Regroup(header + CRLF, data + CRLF, after);
    CutChunk(data, after);
    StepFromLine(header + CRLF + rest, header, rest, |data|);
  }

  lemma CutChunk(data: seq<Byte>, after: seq<Byte>)
    ensures var rest := data + CRLF + after;
            ChunkEndsAt(rest, |data|) && rest[..|data|] == data && rest[|data| + 2..] == after
  {
    var rest := data + CRLF + after;
    assert rest[|data|..|data| + 2] == CRLF;
  }

  lemma StepFromLine(s: seq<Byte>, header: seq<Byte>, rest: seq<Byte>, n: nat)
    requires SplitLine(s) == Some(Line(header, rest)) && ParseSize(header) == Some(n) && n > 0 && ChunkEndsAt(rest, n)
    ensures NextStep(s) == Chunk(header, rest[..n], rest[n + 2..])
  {}

  lemma NextStepOfLast(header: seq<Byte>, after: seq<Byte>)
    requires NoCrlfBefore(header) && ParseSize(header) == Some(0)
    ensures NextStep(header + CRLF + after) == Last(header, after)
  {
    SplitLineIsLocal(header, after);
  }

  function Refollowed(r: Step, after: seq<Byte>): Step {
    match r
    case Broken => Broken
    case Last(header, _) => Last(header, after)
    case Chunk(header, data, _) => Chunk(header, data, after)
  }

  /** The step read from `s` is read from any input that differs only in the bytes behind it. */
  lemma NextStepIsLocal(s: seq<Byte>, after: seq<Byte>)
    requires !NextStep(s).Broken?
    ensures NextStep(Written(Refollowed(NextStep(s), after))) == Refollowed(NextStep(s), after)
  {
    LineHead(s);
    match NextStep(s)
    case Last(header, _) => NextStepOfLast(header, after);
    case Chunk(header, data, _) => NextStepOfChunk(header, data, after);
  }

  /** Bytes behind an accepted message end up in what is left over. */
  lemma {:induction false} DecodeExtends(s: seq<Byte>, more: seq<Byte>)
    ensures Decode(s).Accepted? ==> Decode(s + more) == WithRest(Decode(s), more)
    decreases |s|
  {
    if Decode(s).Accepted? {
      var r := NextStep(s);
      NextStepIsLocal(s, r.after + more);
      Regroup(Used(r), r.after, more);
      if r.Last? {
        TrailersExtend(r.after, more);
      } else {
        DecodeExtends(r.after, more);
      }
    }
  }

  lemma {:induction false} TrailersShrink(used: seq<Byte>, rest: seq<Byte>)
    requires DecodeTrailers(used + rest).Accepted? && DecodeTrailers(used + rest).rest == rest
    ensures DecodeTrailers(used) == DecodeTrailers(used + rest).(rest := [])
    decreases |used|
  {
    var s := used + rest;
    var line := SplitLine(s).value;
    var inner := line.rest[..|line.rest| - |rest|];
    SplitSuffix(line.rest, rest);
    Regroup(line.text + CRLF, inner, rest);
    CancelSuffix(used, line.text + CRLF + inner, rest);
    LineHead(s);
    SplitLineIsLocal(line.text, inner);
    if line.text != [] { TrailersShrink(inner, rest); }
  }

  /** Cutting an input behind its coded body leaves the first step in place. */
  lemma CutStep(used: seq<Byte>, rest: seq<Byte>, inner: seq<Byte>)
    requires !NextStep(used + rest).Broken? && NextStep(used + rest).after == inner + rest
    ensures NextStep(used) == Refollowed(NextStep(used + rest), inner)
    ensures |inner| < |used|
  {
    var r := NextStep(used + rest);
    NextStepIsLocal(used + rest, inner);
    Regroup(Used(r), inner, rest);
    CancelSuffix(used, Used(r) + inner, rest);
  }

  lemma {:induction false} DecodeShrinks(used: seq<Byte>, rest: seq<Byte>)
    requires Decode(used + rest).Accepted? && Decode(used + rest).rest == rest
    ensures Decode(used) == Decode(used + rest).(rest := [])
    decreases |used|
  {
    var after := NextStep(used + rest).after;
    var inner := after[..|after| - |rest|];
    SplitSuffix(after, rest);
    CutStep(used, rest, inner);
    if NextStep(used + rest).Last? {
      TrailersShrink(inner, rest);
    } else {
      DecodeShrinks(inner, rest);
    }
  }

  /** The coded body decodes alike wherever it is cut out and whatever follows it:
      a relay that forwards exactly these bytes forwards the message. */
  lemma DecodeIsLocal(s: seq<Byte>, more: seq<Byte>)
    ensures Decode(s).Accepted? ==> Decode(Coded(s) + more) == Decode(s).(rest := more)
  {
    if Decode(s).Accepted? {
      var rest := Decode(s).rest;
      SplitSuffix(s, rest);
      DecodeShrinks(Coded(s), rest);
      DecodeExtends(Coded(s), more);
      assert [] + more == more;
    }
  }

  // ---------- the encoder ----------

  function EncodeChunk(data: seq<Byte>): seq<Byte> {
    UpperHex(|data|) + CRLF + data + CRLF
  }

  const LAST_CHUNK: seq<Byte> := [48] + CRLF + CRLF

  function EncodeChunks(chunks: seq<seq<Byte>>): seq<Byte> {
    if chunks == [] then LAST_CHUNK else EncodeChunk(chunks[0]) + EncodeChunks(chunks[1..])
  }

  function Repeat(data: seq<Byte>, times: nat): (r: seq<seq<Byte>>)
    ensures |r| == times && forall i :: 0 <= i < times ==> r[i] == data
  {
    seq(times, _ => data)
  }

  lemma {:induction false} RepeatSnoc(data: seq<Byte>, times: nat)
    ensures |Joined(Repeat(data, times))| == times * |data|
    ensures Repeat(data, times + 1) == [data] + Repeat(data, times)
  {
    if times > 0 {
      RepeatSnoc(data, times - 1);
      assert Repeat(data, times)[1..] == Repeat(data, times - 1);
    }
  }

  lemma {:induction false} SizeFieldWithoutExtension(line: seq<Byte>)
    requires SEMICOLON !in line
    ensures SizeField(line) == line
  {
    if line != [] { SizeFieldWithoutExtension(line[1..]); }
  }

  lemma HeaderReadsBack(n: nat)
    requires n < U64_LIMIT
    ensures NoCrlfBefore(UpperHex(n)) && ParseSize(UpperHex(n)) == Some(n)
  {
    var text := UpperHex(n);
    SizeFieldWithoutExtension(text);
    AsciiIsUtf8(text);
    FromStrRadixOfUpperHex(n);
  }

  /** No trailer lines: the empty line comes at once. */
  lemma NoTrailers(more: seq<Byte>)
    ensures DecodeTrailers(CRLF + more) == Accepted([], [], 0, more)
  {
    SplitLineIsLocal([], more);
    assert [] + CRLF + more == CRLF + more;
  }

  lemma DecodeOfLast(s: seq<Byte>, header: seq<Byte>, after: seq<Byte>)
    requires NextStep(s) == Last(header, after)
    ensures Decode(s) == After([], |header|, DecodeTrailers(after))
  {}

  lemma EmptyAfterHeader(length: nat, more: seq<Byte>)
    ensures After([], length, Accepted([], [], 0, more)) == Accepted([], [], length, more)
  {
    var nothing: seq<Byte> := [];
    assert nothing + nothing == nothing;
  }

  lemma LastChunkReadsBack(more: seq<Byte>)
    ensures Decode(LAST_CHUNK + more) == Accepted([], [], 1, more)
  {
    var header, after := UpperHex(0), CRLF + more;
    HeaderReadsBack(0);
    NextStepOfLast(header, after);
    NoTrailers(more);
    DecodeOfLast(header + CRLF + after, header, after);
    EmptyAfterHeader(1, more);
    Regroup(header + CRLF, CRLF, more);
  }

  lemma EncodedChunkFollowed(data: seq<Byte>, tail: seq<Byte>, more: seq<Byte>)
    ensures EncodeChunk(data) + tail + more == Written(Chunk(UpperHex(|data|), data, tail + more))
  {
    var line := UpperHex(|data|) + CRLF;
    Regroup(line, data, CRLF);
    Regroup(line + (data + CRLF), tail, more);
  }

  /** Decoding inverts encoding, for any non-empty chunks whose sizes fit a u64. */
  lemma {:induction false} DecodeOfEncode(chunks: seq<seq<Byte>>, more: seq<Byte>)
    requires forall i :: 0 <= i < |chunks| ==> 0 < |chunks[i]| < U64_LIMIT
    ensures var d := Decode(EncodeChunks(chunks) + more);
            d.Accepted? && d.body == Joined(chunks) && d.trailers == [] && d.longest <= 16 && d.rest == more
  {
    if chunks == [] {
      LastChunkReadsBack(more);
    } else {
      var data := chunks[0];
      var tail := EncodeChunks(chunks[1..]) + more;
      DecodeOfEncode(chunks[1..], more);
      HeaderReadsBack(|data|);
      SizeLineIsShort(|data|);
      NextStepOfChunk(UpperHex(|data|), data, tail);
      EncodedChunkFollowed(data, EncodeChunks(chunks[1..]), more);
    }
  }
}
