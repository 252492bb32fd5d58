/** Which bytes are a chunked message, written down without a decoder (section 7.1 of RFC 9112, with the
    liberties the code takes), and that the decoder accepts exactly those. */
module ChunkedMessages {
  import opened Wrappers
  import opened Bytes
  import opened ChunkedCoding
  import opened Sequences

  /** A chunk's header line, and its data. */
  datatype Part = Part(header: seq<Byte>, data: seq<Byte>)

  datatype Message = Message(parts: seq<Part>, last: seq<Byte>, trailers: seq<seq<Byte>>)

  predicate LineEndAt(text: seq<Byte>, k: nat) {
    k + 2 <= |text| && text[k] as char == '\r' && text[k + 1] as char == '\n'
  }

  /** Text without a line end in it. */
  predicate IsLine(text: seq<Byte>) { forall k: nat :: k < |text| ==> !LineEndAt(text, k) }

  predicate IsTrailer(text: seq<Byte>) { text != [] && IsLine(text) }

  /** A size, and perhaps a semicolon and anything after it; all of it UTF-8. */
  ghost predicate Announces(header: seq<Byte>, n: nat) {
    && IsLine(header) && ValidUtf8(header)
    && exists k: nat :: k <= |header| && WritesSize(header[..k], n) && (k == |header| || header[k] as char == ';')
  }

  ghost predicate IsMessage(m: Message) {
    && (forall p :: p in m.parts ==> p.data != [] && Announces(p.header, |p.data|))
    && Announces(m.last, 0)
    && (forall i :: 0 <= i < |m.trailers| ==> IsTrailer(m.trailers[i]))
  }

  function TrailerBytes(trailers: seq<seq<Byte>>): seq<Byte> {
    if trailers == [] then CRLF else trailers[0] + CRLF + TrailerBytes(trailers[1..])
  }

  function MessageBytes(m: Message): seq<Byte>
    decreases |m.parts|
  {
    if m.parts == [] then m.last + CRLF + TrailerBytes(m.trailers)
    else m.parts[0].header + CRLF + (m.parts[0].data + CRLF) + MessageBytes(m.(parts := m.parts[1..]))
  }

  function Body(m: Message): seq<Byte>
    decreases |m.parts|
  {
    if m.parts == [] then [] else m.parts[0].data + Body(m.(parts := m.parts[1..]))
  }

  function LongestOf(lines: seq<seq<Byte>>): nat {
    if lines == [] then 0 else Max(|lines[0]|, LongestOf(lines[1..]))
  }

  function Longest(m: Message): nat
    decreases |m.parts|
  {
    if m.parts == [] then Max(|m.last|, LongestOf(m.trailers))
    else Max(|m.parts[0].header|, Longest(m.(parts := m.parts[1..])))
  }

  // ---------- header lines ----------

  lemma {:induction false} SizeFieldEnds(line: seq<Byte>, k: nat)
    requires k <= |line| && (forall i :: 0 <= i < k ==> line[i] != SEMICOLON) && (k < |line| ==> line[k] == SEMICOLON)
    ensures SizeField(line) == line[..k]
  {
    if k > 0 {
      SizeFieldEnds(line[1..], k - 1);
      assert line[..k] == [line[0]] + line[1..][..k - 1];
    }
  }

  lemma {:induction false} SizeFieldIsPrefix(line: seq<Byte>) returns (k: nat)
    ensures k <= |line| && SizeField(line) == line[..k] && (k < |line| ==> line[k] == SEMICOLON)
  {
    if line == [] || line[0] == SEMICOLON { return 0; }
    k := SizeFieldIsPrefix(line[1..]);
    k := k + 1;
    assert line[..k] == [line[0]] + line[1..][..k - 1];
  }

  lemma {:induction false} DigitsHaveNoSemicolon(text: seq<Byte>, n: nat)
    requires WritesHex(text, n)
    ensures SEMICOLON !in text
  {
    if text != [] {
      DigitsHaveNoSemicolon(text[..|text| - 1], n / 16);
      HexDigitExactly(text[|text| - 1], n % 16);
      assert text == text[..|text| - 1] + [text[|text| - 1]];
    }
  }

  lemma SizesHaveNoSemicolon(text: seq<Byte>, n: nat)
    requires WritesSize(text, n)
    ensures SEMICOLON !in text
  {
    if text[0] == PLUS {
      DigitsHaveNoSemicolon(text[1..], n);
      assert text == [text[0]] + text[1..];
    } else {
      DigitsHaveNoSemicolon(text, n);
    }
  }

  lemma HeaderExactly(header: seq<Byte>, n: nat)
    requires IsLine(header)
    ensures ParseSize(header) == Some(n) <==> Announces(header, n)
  {
    FromStrRadixExactly(SizeField(header), n);
    if ParseSize(header) == Some(n) {
      var k := SizeFieldIsPrefix(header);
    }
    if Announces(header, n) {
      var k: nat :| k <= |header| && WritesSize(header[..k], n) && (k == |header| || header[k] as char == ';');
      SizesHaveNoSemicolon(header[..k], n);
      forall i | 0 <= i < k ensures header[i] != SEMICOLON { assert header[i] == header[..k][i]; }
      SizeFieldEnds(header, k);
    }
  }

  lemma LineExactly(text: seq<Byte>)
    ensures IsLine(text) <==> NoCrlfBefore(text)
  {
    if NoCrlfBefore(text) {
      forall k: nat | k < |text| ensures !LineEndAt(text, k) {
        if k + 2 <= |text| { assert !CrlfAt(text + CRLF, k); }
      }
    }
    if IsLine(text) {
      forall j: nat | j < |text| ensures !CrlfAt(text + CRLF, j) { assert !LineEndAt(text, j); }
    }
  }

  // ---------- messages are accepted ----------

  lemma TrailerDecoded(line: seq<Byte>, tail: seq<Byte>, trailers: seq<seq<Byte>>, longest: nat, rest: seq<Byte>)
    requires IsTrailer(line) && DecodeTrailers(tail) == Accepted([], trailers, longest, rest)
    ensures DecodeTrailers(line + CRLF + tail) == Accepted([], [line] + trailers, Max(|line|, longest), rest)
  {
    LineExactly(line);
    SplitLineIsLocal(line, tail);
  }

  lemma {:induction false} TrailersAreDecoded(trailers: seq<seq<Byte>>, rest: seq<Byte>)
    requires forall i :: 0 <= i < |trailers| ==> IsTrailer(trailers[i])
    ensures DecodeTrailers(TrailerBytes(trailers) + rest) == Accepted([], trailers, LongestOf(trailers), rest)
  {
    if trailers == [] {
      NoTrailers(rest);
    } else {
      var line, more := trailers[0], TrailerBytes(trailers[1..]);
      Regroup(line + CRLF, more, rest);
      TrailersAreDecoded(trailers[1..], rest);
      TrailerDecoded(line, more + rest, trailers[1..], LongestOf(trailers[1..]), rest);
      assert [line] + trailers[1..] == trailers;
    }
  }

  lemma ChunkDecoded(part: Part, tail: seq<Byte>)
    requires part.data != [] && Announces(part.header, |part.data|)
    ensures Decode(part.header + CRLF + (part.data + CRLF) + tail) == After(part.data, |part.header|, Decode(tail))
  {
    LineExactly(part.header);
    HeaderExactly(part.header, |part.data|);
    NextStepOfChunk(part.header, part.data, tail);
  }

  lemma LastDecoded(last: seq<Byte>, tail: seq<Byte>)
    requires Announces(last, 0)
    ensures Decode(last + CRLF + tail) == After([], |last|, DecodeTrailers(tail))
  {
    LineExactly(last);
    HeaderExactly(last, 0);
    NextStepOfLast(last, tail);
    DecodeOfLast(last + CRLF + tail, last, tail);
  }

  lemma NoBody(length: nat, trailers: seq<seq<Byte>>, longest: nat, rest: seq<Byte>)
    ensures After([], length, Accepted([], trailers, longest, rest))
            == Accepted([], trailers, Max(length, longest), rest)
  {
    var nothing: seq<Byte> := [];
    assert nothing + nothing == nothing;
  }

  /** Every message is decoded to its data and its trailers, whatever follows it. */
  lemma {:induction false} MessageIsDecoded(m: Message, rest: seq<Byte>)
    requires IsMessage(m)
    ensures Decode(MessageBytes(m) + rest) == Accepted(Body(m), m.trailers, Longest(m), rest)
    decreases |m.parts|
  {
    if m.parts == [] {
      TrailersAreDecoded(m.trailers, rest);
      LastDecoded(m.last, TrailerBytes(m.trailers) + rest);
      NoBody(|m.last|, m.trailers, LongestOf(m.trailers), rest);
      Regroup(m.last + CRLF, TrailerBytes(m.trailers), rest);
    } else {
      var part, next := m.parts[0], m.(parts := m.parts[1..]);
      assert forall p :: p in next.parts ==> p in m.parts;
      MessageIsDecoded(next, rest);
      ChunkDecoded(part, MessageBytes(next) + rest);
      Regroup(part.header + CRLF + (part.data + CRLF), MessageBytes(next), rest);
    }
  }

  // ---------- only messages are accepted ----------

  lemma FirstTrailer(s: seq<Byte>)
    requires DecodeTrailers(s).Accepted?
    ensures SplitLine(s).Some?
    ensures var line, d := SplitLine(s).value, DecodeTrailers(s);
            && s == line.text + CRLF + line.rest && IsLine(line.text)
            && (line.text == [] ==> d.rest == line.rest)
            && (line.text != [] ==> DecodeTrailers(line.rest).Accepted? && d.rest == DecodeTrailers(line.rest).rest)
  {
    LineHead(s);
    LineExactly(SplitLine(s).value.text);
  }

  lemma TrailerInFront(line: seq<Byte>, more: seq<seq<Byte>>, rest: seq<Byte>)
    requires IsTrailer(line) && forall i :: 0 <= i < |more| ==> IsTrailer(more[i])
    ensures var all := [line] + more;
            && (forall i :: 0 <= i < |all| ==> IsTrailer(all[i]))
            && TrailerBytes(all) + rest == line + CRLF + (TrailerBytes(more) + rest)
  {
    assert ([line] + more)[1..] == more;
    Regroup(line + CRLF, TrailerBytes(more), rest);
  }

  lemma {:induction false} DecodedTrailers(s: seq<Byte>, rest: seq<Byte>) returns (trailers: seq<seq<Byte>>)
    requires DecodeTrailers(s).Accepted? && DecodeTrailers(s).rest == rest
    ensures forall i :: 0 <= i < |trailers| ==> IsTrailer(trailers[i])
    ensures s == TrailerBytes(trailers) + rest
    decreases |s|
  {
    FirstTrailer(s);
    var line := SplitLine(s).value;
    if line.text == [] {
      trailers := [];
      assert TrailerBytes([]) == CRLF;
      assert [] + CRLF + rest == CRLF + rest;
    } else {
      var more := DecodedTrailers(line.rest, rest);
      TrailerInFront(line.text, more, rest);
      trailers := [line.text] + more;
    }
  }

  /** Whatever is accepted begins with a message. */
  lemma {:induction false} DecodedIsMessage(s: seq<Byte>) returns (m: Message)
    requires Decode(s).Accepted?
    ensures IsMessage(m) && s == MessageBytes(m) + Decode(s).rest
    decreases |s|
  {
    var r := NextStep(s);
    LineHead(s);
    LineExactly(r.header);
    if r.Last? {
      HeaderExactly(r.header, 0);
      var trailers := DecodedTrailers(r.after, Decode(s).rest);
      m := Message([], r.header, trailers);
      Regroup(r.header + CRLF, TrailerBytes(trailers), Decode(s).rest);
    } else {
      HeaderExactly(r.header, |r.data|);
      var next := DecodedIsMessage(r.after);
      m := next.(parts := [Part(r.header, r.data)] + next.parts);
      assert m.(parts := m.parts[1..]) == next;
      Regroup(r.header + CRLF + (r.data + CRLF), MessageBytes(next), Decode(s).rest);
    }
  }

  /** The decoder accepts exactly the messages, with anything behind them. */
  lemma AcceptedExactly(s: seq<Byte>)
    ensures Decode(s).Accepted? <==> exists m, rest :: IsMessage(m) && s == MessageBytes(m) + rest
  {
    if Decode(s).Accepted? { var m := DecodedIsMessage(s); }
    forall m, rest | IsMessage(m) && s == MessageBytes(m) + rest ensures Decode(s).Accepted? {
      MessageIsDecoded(m, rest);
    }
  }
}
