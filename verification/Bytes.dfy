/** Bytes as the wire sees them: CRLF search, UTF-8 validity and hexadecimal numbers. */
module Bytes {
  import opened Wrappers

  type Byte = b: int | 0 <= b < 256

  const CRLF: seq<Byte> := [13, 10]
  const SEMICOLON: Byte := 59
  const PLUS: Byte := 43
  const MINUS: Byte := 45
  const U64_LIMIT: nat := 0x1_0000_0000_0000_0000

  predicate CrlfAt(s: seq<Byte>, k: nat) {
    k + 2 <= |s| && s[k] == 13 && s[k + 1] == 10
  }

  /** Position of the first CRLF, as `windows(2).position(..)` finds it. */
  function FindCrlf(s: seq<Byte>): (r: Option<nat>)
    ensures r.Some? ==> CrlfAt(s, r.value) && forall j: nat :: j < r.value ==> !CrlfAt(s, j)
    ensures r.None? ==> forall j: nat :: !CrlfAt(s, j)
  {
    FindCrlfFrom(s, 0)
  }

  function FindCrlfFrom(s: seq<Byte>, start: nat): (r: Option<nat>)
    requires start <= |s|
    ensures r.Some? ==>
              start <= r.value && CrlfAt(s, r.value) && forall j: nat :: start <= j < r.value ==> !CrlfAt(s, j)
    ensures r.None? ==> forall j: nat :: start <= j ==> !CrlfAt(s, j)
    decreases |s| - start
  {
    if |s| < start + 2 then None
    else if CrlfAt(s, start) then Some(start)
    else FindCrlfFrom(s, start + 1)
  }

  datatype Line = Line(text: seq<Byte>, rest: seq<Byte>)

  /** The text before the first CRLF and what follows it. */
  function SplitLine(s: seq<Byte>): (r: Option<Line>)
    ensures r.Some? ==> s == r.value.text + CRLF + r.value.rest
    ensures r.None? <==> forall j: nat :: !CrlfAt(s, j)
  {
    match FindCrlf(s)
    case None => None
    case Some(k) => Some(Line(s[..k], s[k + 2..]))
  }

  /** A line is fixed by the first CRLF alone, whatever bytes come later. */
  lemma SplitLineIsLocal(text: seq<Byte>, rest: seq<Byte>)
    requires forall j: nat :: j < |text| ==> !CrlfAt(text + CRLF, j)
    ensures SplitLine(text + CRLF + rest) == Some(Line(text, rest))
  {
    var s := text + CRLF + rest;
    assert CrlfAt(s, |text|);
    forall j: nat | j < |text| ensures !CrlfAt(s, j) {
      assert !CrlfAt(text + CRLF, j);
      assert s[j] == (text + CRLF)[j] && s[j + 1] == (text + CRLF)[j + 1];
    }
    assert FindCrlf(s) == Some(|text|);
    assert s[..|text|] == text && s[|text| + 2..] == rest;
  }

  lemma SplitLineExtends(s: seq<Byte>, more: seq<Byte>)
    requires SplitLine(s).Some?
    ensures SplitLine(s + more) == Some(Line(SplitLine(s).value.text, SplitLine(s).value.rest + more))
  {
    var line := SplitLine(s).value;
    forall j: nat | j < |line.text| ensures !CrlfAt(line.text + CRLF, j) {
      assert !CrlfAt(s, j);
      assert s[j] == (line.text + CRLF)[j] && s[j + 1] == (line.text + CRLF)[j + 1];
    }
    SplitLineIsLocal(line.text, line.rest + more);
    assert s + more == line.text + CRLF + (line.rest + more);
  }

  // ---------- UTF-8 ----------

  predicate Continuation(b: Byte) { 0x80 <= b <= 0xBF }

  /** Width of the well-formed UTF-8 sequence at the head of `s`, 0 when there is none. */
  function Utf8Width(s: seq<Byte>): (n: nat)
    requires s != []
    ensures n <= |s| && n <= 4
  {
    if s[0] < 0x80 then 1
    else if |s| >= 2 && 0xC2 <= s[0] <= 0xDF && Continuation(s[1]) then 2
    else if |s| >= 3 && Continuation(s[1]) && Continuation(s[2]) && 0xE0 <= s[0] <= 0xEF
         && (s[0] == 0xE0 ==> s[1] >= 0xA0) && (s[0] == 0xED ==> s[1] <= 0x9F) then 3
    else if |s| >= 4 && Continuation(s[1]) && Continuation(s[2]) && Continuation(s[3]) && 0xF0 <= s[0] <= 0xF4
         && (s[0] == 0xF0 ==> s[1] >= 0x90) && (s[0] == 0xF4 ==> s[1] <= 0x8F) then 4
    else 0
  }

  predicate ValidUtf8(s: seq<Byte>) {
    s == [] || (var n := Utf8Width(s); n > 0 && ValidUtf8(s[n..]))
  }

  lemma {:induction false} AsciiIsUtf8(s: seq<Byte>)
    requires forall i :: 0 <= i < |s| ==> s[i] < 0x80
    ensures ValidUtf8(s)
  {
    if s != [] { AsciiIsUtf8(s[1..]); }
  }

  // ---------- hexadecimal ----------

  function HexDigit(b: Byte): Option<nat> {
    if 48 <= b <= 57 then Some(b - 48)
    else if 65 <= b <= 70 then Some(b - 55)
    else if 97 <= b <= 102 then Some(b - 87)
    else None
  }

  function HexValue(s: seq<Byte>): Option<nat> {
    if s == [] then Some(0)
    else match (HexValue(s[..|s| - 1]), HexDigit(s[|s| - 1]))
      case (Some(high), Some(low)) => Some(16 * high + low)
      case _ => None
  }

  /** Rust's `u64::from_str_radix(text, 16)`: one leading '+' is allowed, overflow is an error. */
  function FromStrRadix16(text: seq<Byte>): Option<nat> {
    if text == [] || text == [PLUS] || text == [MINUS] then None
    else match HexValue(if text[0] == PLUS then text[1..] else text)
      case Some(n) => if n < U64_LIMIT then Some(n) else None
      case None => None
  }

  const LOWER_DIGITS := "0123456789abcdef"
  const UPPER_DIGITS := "0123456789ABCDEF"

  /** The text writes `n` in digits of either case, leading zeros included. */
  predicate WritesHex(text: seq<Byte>, n: nat) {
    if text == [] then n == 0
    else
      var last := text[|text| - 1] as char;
      (last == LOWER_DIGITS[n % 16] || last == UPPER_DIGITS[n % 16]) && WritesHex(text[..|text| - 1], n / 16)
  }

  /** Digits that write a 64-bit number, after one '+' or none. */
  predicate WritesSize(text: seq<Byte>, n: nat) {
    var digits := if text != [] && text[0] as char == '+' then text[1..] else text;
    digits != [] && WritesHex(digits, n) && n < 0x1_0000_0000_0000_0000
  }

  lemma HexDigitExactly(b: Byte, d: nat)
    requires d < 16
    ensures HexDigit(b) == Some(d) <==> b as char == LOWER_DIGITS[d] || b as char == UPPER_DIGITS[d]
  {
    if d < 10 { assert LOWER_DIGITS[d] == UPPER_DIGITS[d] == (48 + d) as char; }
    else { assert LOWER_DIGITS[d] == (87 + d) as char && UPPER_DIGITS[d] == (55 + d) as char; }
  }

  lemma LastDigit(high: nat, low: nat, n: nat)
    requires low < 16
    ensures 16 * high + low == n <==> high == n / 16 && low == n % 16
  {}

  lemma {:induction false} HexValueExactly(text: seq<Byte>, n: nat)
    ensures HexValue(text) == Some(n) <==> WritesHex(text, n)
  {
    if text != [] {
      var start, last := HexValue(text[..|text| - 1]), HexDigit(text[|text| - 1]);
      HexValueExactly(text[..|text| - 1], n / 16);
      HexDigitExactly(text[|text| - 1], n % 16);
      if start.Some? && last.Some? {
        LastDigit(start.value, last.value, n);
        assert HexValue(text) == Some(16 * start.value + last.value);
      } else {
        assert HexValue(text) == None;
      }
    }
  }

  /** A size is read exactly from what writes it; any other text is refused. */
  lemma FromStrRadixExactly(text: seq<Byte>, n: nat)
    ensures FromStrRadix16(text) == Some(n) <==> WritesSize(text, n)
  {
    if text != [] {
      var digits := if text[0] == PLUS then text[1..] else text;
      HexValueExactly(digits, n);
      if text == [MINUS] { HexValueExactly(text, n); }
    }
  }

  function UpperHexDigit(d: nat): Byte
    requires d < 16
  {
    if d < 10 then 48 + d else 55 + d
  }

  /** Rust's `format!("{:X}", n)`. */
  function UpperHex(n: nat): (s: seq<Byte>)
    ensures |s| > 0 && forall i :: 0 <= i < |s| ==> 48 <= s[i] <= 70 && s[i] != SEMICOLON
  {
    if n < 16 then [UpperHexDigit(n)] else UpperHex(n / 16) + [UpperHexDigit(n % 16)]
  }

  lemma {:induction false} UpperHexValue(n: nat)
    ensures HexValue(UpperHex(n)) == Some(n)
  {
    if n < 16 {
      assert [UpperHexDigit(n)][..0] == [];
    } else {
      UpperHexValue(n / 16);
      var s := UpperHex(n);
      assert s[..|s| - 1] == UpperHex(n / 16);
      assert s[|s| - 1] == UpperHexDigit(n % 16);
    }
  }

  function Pow16(k: nat): nat { if k == 0 then 1 else 16 * Pow16(k - 1) }

  lemma {:induction false} UpperHexLength(n: nat, k: nat)
    requires k >= 1 && n < Pow16(k)
    ensures |UpperHex(n)| <= k
  {
    if n >= 16 { UpperHexLength(n / 16, k - 1); }
  }

  lemma SizeLineIsShort(n: nat)
    requires n < U64_LIMIT
    ensures |UpperHex(n)| <= 16
  {
    assert Pow16(4) == 0x1_0000;
    assert Pow16(8) == 0x1_0000_0000;
    assert Pow16(12) == 0x1_0000_0000_0000;
    assert Pow16(16) == U64_LIMIT;
    UpperHexLength(n, 16);
  }

  /** Printing a size and reading it back gives the size. */
  lemma FromStrRadixOfUpperHex(n: nat)
    requires n < U64_LIMIT
    ensures FromStrRadix16(UpperHex(n)) == Some(n)
  {
    UpperHexValue(n);
    assert UpperHex(n)[0] != PLUS && UpperHex(n)[0] != MINUS;
  }
}
