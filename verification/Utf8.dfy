/** UTF-8 as section 3 of RFC 3629 defines it, and the byte-wise test for it. */
module Utf8 {
  import opened Bytes

  /** Code points other than surrogates. */
  predicate Scalar(c: nat) { c < 0xD800 || 0xE000 <= c < 0x11_0000 }

  function Coded(c: nat): seq<Byte>
    requires Scalar(c)
  {
    if c < 0x80 then [c]
    else if c < 0x800 then [0xC0 + c / 64, 0x80 + c % 64]
    else if c < 0x1_0000 then [0xE0 + c / 64 / 64, 0x80 + c / 64 % 64, 0x80 + c % 64]
    else [0xF0 + c / 64 / 64 / 64, 0x80 + c / 64 / 64 % 64, 0x80 + c / 64 % 64, 0x80 + c % 64]
  }

  function CodedText(cs: seq<nat>): seq<Byte>
    requires forall i :: 0 <= i < |cs| ==> Scalar(cs[i])
  {
    if cs == [] then [] else Coded(cs[0]) + CodedText(cs[1..])
  }

  lemma CodedHasWidth(c: nat, rest: seq<Byte>)
    requires Scalar(c)
    ensures Utf8Width(Coded(c) + rest) == |Coded(c)|
  {}

  /** Six more bits, as a continuation byte holds them. */
  function Pushed(high: nat, low: Byte): (c: nat)
    requires Continuation(low)
    ensures c / 64 == high && c % 64 == low - 0x80
  {
    var bits: int := low;
    64 * high + (bits - 0x80)
  }

  /** A width is found only where a code point is coded. */
  lemma WidthIsCoded(s: seq<Byte>) returns (c: nat)
    requires s != [] && Utf8Width(s) > 0
    ensures Scalar(c) && s[..Utf8Width(s)] == Coded(c)
  {
    var lead: int, n := s[0], Utf8Width(s);
    if n == 1 { c := lead; }
    else if n == 2 { c := Pushed(lead - 0xC0, s[1]); }
    else if n == 3 { c := Pushed(Pushed(lead - 0xE0, s[1]), s[2]); }
    else { c := Pushed(Pushed(Pushed(lead - 0xF0, s[1]), s[2]), s[3]); }
  }

  lemma {:induction false} CodedTextIsValid(cs: seq<nat>)
    requires forall i :: 0 <= i < |cs| ==> Scalar(cs[i])
    ensures ValidUtf8(CodedText(cs))
  {
    if cs != [] {
      var rest := CodedText(cs[1..]);
      CodedHasWidth(cs[0], rest);
      CodedTextIsValid(cs[1..]);
      assert (Coded(cs[0]) + rest)[|Coded(cs[0])|..] == rest;
    }
  }

  lemma {:induction false} ValidIsCodedText(s: seq<Byte>) returns (cs: seq<nat>)
    requires ValidUtf8(s)
    ensures (forall i :: 0 <= i < |cs| ==> Scalar(cs[i])) && s == CodedText(cs)
    decreases |s|
  {
    if s == [] { return []; }
    var n := Utf8Width(s);
    var c := WidthIsCoded(s);
    var more := ValidIsCodedText(s[n..]);
    cs := [c] + more;
    assert cs[1..] == more && s == s[..n] + s[n..];
  }

  /** Bytes pass the test exactly when they are the coding of some text. */
  lemma ValidExactly(s: seq<Byte>)
    ensures ValidUtf8(s) <==> exists cs: seq<nat> :: (forall i :: 0 <= i < |cs| ==> Scalar(cs[i])) && s == CodedText(cs)
  {
    if ValidUtf8(s) { var cs := ValidIsCodedText(s); }
    forall cs: seq<nat> | (forall i :: 0 <= i < |cs| ==> Scalar(cs[i])) && s == CodedText(cs) ensures ValidUtf8(s) {
      CodedTextIsValid(cs);
    }
  }
}
