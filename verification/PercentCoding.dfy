/** Percent-encoding for S3 URLs: which bytes are kept, and why decoding gives the text back. */
module PercentCoding {
  import opened Wrappers
  import opened Bytes
  import opened Sequences

  const SLASH: Byte := 47
  const PERCENT: Byte := 37

  /** Letters, digits, '-', '.', '_' and '~'. */
  predicate Unreserved(b: Byte) {
    48 <= b <= 57 || 65 <= b <= 90 || 97 <= b <= 122 || b == 45 || b == 46 || b == 95 || b == 126
  }

  predicate Kept(b: Byte, encodeSlash: bool) { Unreserved(b) || (b == SLASH && !encodeSlash) }

  function EncodeByte(b: Byte, encodeSlash: bool): (e: seq<Byte>)
    ensures e != []
  {
    if Kept(b, encodeSlash) then [b] else [PERCENT, UpperHexDigit(b / 16), UpperHexDigit(b % 16)]
  }

  function UriEncode(value: seq<Byte>, encodeSlash: bool): seq<Byte> {
    if value == [] then [] else EncodeByte(value[0], encodeSlash) + UriEncode(value[1..], encodeSlash)
  }

  predicate EscapeAt(s: seq<Byte>) {
    |s| >= 3 && s[0] == PERCENT && HexDigit(s[1]).Some? && HexDigit(s[2]).Some?
  }

  /** Escapes become bytes; a percent sign without two digits stays as it is. */
  function PercentDecode(s: seq<Byte>): seq<Byte>
    decreases |s|
  {
    if s == [] then []
    else if EscapeAt(s) then [16 * HexDigit(s[1]).value + HexDigit(s[2]).value] + PercentDecode(s[3..])
    else [s[0]] + PercentDecode(s[1..])
  }

  lemma DecodeOne(b: Byte, encodeSlash: bool, rest: seq<Byte>)
    ensures PercentDecode(EncodeByte(b, encodeSlash) + rest) == [b] + PercentDecode(rest)
  {
    var e := EncodeByte(b, encodeSlash);
    assert (e + rest)[|e|..] == rest;
    if !Kept(b, encodeSlash) {
      assert HexDigit(UpperHexDigit(b / 16)) == Some(b / 16) && HexDigit(UpperHexDigit(b % 16)) == Some(b % 16);
    }
  }

  /** Decoding undoes encoding, whatever follows. */
  lemma {:induction false} DecodeOfEncode(value: seq<Byte>, encodeSlash: bool, rest: seq<Byte>)
    ensures PercentDecode(UriEncode(value, encodeSlash) + rest) == value + PercentDecode(rest)
  {
    if value == [] {
      assert [] + rest == rest && [] + PercentDecode(rest) == PercentDecode(rest);
    } else {
      DecodeOfEncode(value[1..], encodeSlash, rest);
      DecodeMore(value[0], value[1..], value, encodeSlash, rest);
    }
  }

  lemma DecodeMore(b: Byte, tail: seq<Byte>, value: seq<Byte>, encodeSlash: bool, rest: seq<Byte>)
    requires value == [b] + tail && PercentDecode(UriEncode(tail, encodeSlash) + rest) == tail + PercentDecode(rest)
    ensures PercentDecode(UriEncode(value, encodeSlash) + rest) == value + PercentDecode(rest)
  {
    assert value[1..] == tail;
    DecodeOne(b, encodeSlash, UriEncode(tail, encodeSlash) + rest);
    Regroup(EncodeByte(b, encodeSlash), UriEncode(tail, encodeSlash), rest);
    Regroup([b], tail, PercentDecode(rest));
  }

  lemma DecodeInverts(value: seq<Byte>, encodeSlash: bool)
    ensures PercentDecode(UriEncode(value, encodeSlash)) == value
  {
    DecodeOfEncode(value, encodeSlash, []);
    assert UriEncode(value, encodeSlash) + [] == UriEncode(value, encodeSlash) && value + PercentDecode([]) == value;
  }

  lemma EncodeIsInjective(a: seq<Byte>, b: seq<Byte>, encodeSlash: bool)
    requires UriEncode(a, encodeSlash) == UriEncode(b, encodeSlash)
    ensures a == b
  {
    DecodeInverts(a, encodeSlash);
    DecodeInverts(b, encodeSlash);
  }

  lemma {:induction false} EncodeConcat(a: seq<Byte>, b: seq<Byte>, encodeSlash: bool)
    ensures UriEncode(a + b, encodeSlash) == UriEncode(a, encodeSlash) + UriEncode(b, encodeSlash)
  {
    if a == [] {
      assert a + b == b;
    } else {
      assert (a + b)[1..] == a[1..] + b;
      EncodeConcat(a[1..], b, encodeSlash);
      var e := EncodeByte(a[0], encodeSlash);
      assert e + (UriEncode(a[1..], encodeSlash) + UriEncode(b, encodeSlash))
             == UriEncode(a, encodeSlash) + UriEncode(b, encodeSlash);
    }
  }

  lemma EncodeSlash()
    ensures UriEncode([SLASH], false) == [SLASH]
  {
    assert [SLASH][1..] == [];
  }

  /** A slash cannot belong to an escape that begins before it. */
  lemma {:induction false} DecodeSplitsAtSlash(a: seq<Byte>, b: seq<Byte>)
    ensures PercentDecode(a + [SLASH] + b) == PercentDecode(a) + [SLASH] + PercentDecode(b)
    decreases |a|
  {
    var s := a + [SLASH] + b;
    if a == [] {
      assert s[1..] == b && !EscapeAt(s);
    } else {
      assert |a| < 3 ==> s[|a|] == SLASH && HexDigit(SLASH).None?;
      assert EscapeAt(s) <==> EscapeAt(a);
      var n := if EscapeAt(a) then 3 else 1;
      assert s[n..] == a[n..] + [SLASH] + b;
      DecodeSplitsAtSlash(a[n..], b);
      Prepend(PercentDecode(a)[..1], PercentDecode(a[n..]), [SLASH], PercentDecode(b));
    }
  }

  lemma Prepend(a: seq<Byte>, b: seq<Byte>, c: seq<Byte>, d: seq<Byte>)
    ensures a + (b + c + d) == a + b + c + d
  {}

  const DIGITS := "0123456789"
  const UPPER_CASE := "ABCDEFGHIJKLMNOPQRSTUVWXYZ"
  const LOWER_CASE := "abcdefghijklmnopqrstuvwxyz"
  const MARKS := "-._~"

  predicate Listed(c: char) { c in DIGITS || c in UPPER_CASE || c in LOWER_CASE || c in MARKS }

  lemma InRun(run: string, first: nat, c: char)
    requires forall i :: 0 <= i < |run| ==> run[i] as int == first + i
    ensures c in run <==> first <= c as int < first + |run|
  {
    if first <= c as int < first + |run| { assert run[c as int - first] == c; }
  }

  lemma UnreservedExactly(b: Byte)
    ensures Unreserved(b) <==> Listed(b as char)
  {
    InRun(DIGITS, 48, b as char);
    InRun(UPPER_CASE, 65, b as char);
    InRun(LOWER_CASE, 97, b as char);
    assert b as char in MARKS <==> b == 45 || b == 46 || b == 95 || b == 126 by {
      assert MARKS == [45 as char, 46 as char, 95 as char, 126 as char];
    }
  }

  /** The sixty-six listed characters, and a slash unless it is to be encoded, stand for themselves; every
      other byte becomes a percent sign and its two digits in upper case. */
  lemma EncodeByteExactly(b: Byte, encodeSlash: bool)
    ensures UriEncode([b], encodeSlash) ==
              if Listed(b as char) || (b as char == '/' && !encodeSlash) then [b]
              else ['%' as int, UPPER_DIGITS[b / 16] as int, UPPER_DIGITS[b % 16] as int]
    ensures |DIGITS| + |UPPER_CASE| + |LOWER_CASE| + |MARKS| == 66
  {
    UnreservedExactly(b);
    assert [b][1..] == [];
    forall d: nat | d < 16 ensures UPPER_DIGITS[d] as int == UpperHexDigit(d) {
      HexDigitExactly(UpperHexDigit(d), d);
    }
  }

  /** Text of these characters is its own encoding. */
  lemma {:induction false} ListedTextIsKept(value: seq<Byte>, encodeSlash: bool)
    requires forall i :: 0 <= i < |value| ==> Listed(value[i] as char)
    ensures UriEncode(value, encodeSlash) == value
  {
    if value != [] {
      ListedTextIsKept(value[1..], encodeSlash);
      UnreservedExactly(value[0]);
      assert Unreserved(value[0]);
      assert value == [value[0]] + value[1..];
    }
  }

  /** Encoded text holds only kept bytes and escapes. */
  lemma {:induction false} EncodedAlphabet(value: seq<Byte>, encodeSlash: bool)
    ensures forall b :: b in UriEncode(value, encodeSlash) ==> Kept(b, encodeSlash) || b == PERCENT
  {
    if value != [] { EncodedAlphabet(value[1..], encodeSlash); }
  }

  /** The two encodings agree exactly on text without slashes, and the one that encodes them is
      never shorter. */
  lemma {:induction false} EncodingsAgree(value: seq<Byte>)
    ensures |UriEncode(value, false)| <= |UriEncode(value, true)|
    ensures SLASH !in value ==> UriEncode(value, false) == UriEncode(value, true)
    ensures SLASH in value ==> SLASH in UriEncode(value, false)
  {
    if value != [] {
      EncodingsAgree(value[1..]);
      assert SLASH in value ==> value[0] == SLASH || SLASH in value[1..];
    }
  }
}
