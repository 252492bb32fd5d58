/** Standard Base64 with padding, section 4 of RFC 4648, and big-endian numbers. */
module Base64 {
  import opened Wrappers
  import opened Bytes

  function Letter(v: nat): char
    requires v < 64
  {
    if v < 26 then 'A' + v as char
    else if v < 52 then 'a' + (v - 26) as char
    else if v < 62 then '0' + (v - 52) as char
    else if v == 62 then '+' else '/'
  }

  function LetterValue(c: char): Option<nat> {
    if 'A' <= c <= 'Z' then Some((c - 'A') as nat)
    else if 'a' <= c <= 'z' then Some((c - 'a') as nat + 26)
    else if '0' <= c <= '9' then Some((c - '0') as nat + 52)
    else if c == '+' then Some(62)
    else if c == '/' then Some(63)
    else None
  }

  lemma LetterReadsBack(v: nat)
    requires v < 64
    ensures LetterValue(Letter(v)) == Some(v) && Letter(v) != '='
  {}

  const CAPITALS := "ABCDEFGHIJKLMNOPQRSTUVWXYZ"
  const SMALLS := "abcdefghijklmnopqrstuvwxyz"
  const DIGITS := "0123456789"

  lemma LetterIsListed(v: nat)
    requires v < 64
    ensures Letter(v) == (CAPITALS + SMALLS + DIGITS + "+/")[v]
  {
    assert forall i :: 0 <= i < |CAPITALS| ==> CAPITALS[i] as int == 65 + i;
    assert forall i :: 0 <= i < |SMALLS| ==> SMALLS[i] as int == 97 + i;
    assert forall i :: 0 <= i < |DIGITS| ==> DIGITS[i] as int == 48 + i;
  }

  /** The letters of one, two or three bytes. */
  function EncodeGroup(s: seq<Byte>): (t: string)
    requires 1 <= |s| <= 3
    ensures |t| == 4
  {
    if |s| == 1 then [Letter(s[0] / 4), Letter(s[0] % 4 * 16), '=', '=']
    else if |s| == 2 then [Letter(s[0] / 4), Letter(s[0] % 4 * 16 + s[1] / 16), Letter(s[1] % 16 * 4), '=']
    else [Letter(s[0] / 4), Letter(s[0] % 4 * 16 + s[1] / 16), Letter(s[1] % 16 * 4 + s[2] / 64), Letter(s[2] % 64)]
  }

  function Encode(s: seq<Byte>): string {
    if s == [] then []
    else if |s| <= 3 then EncodeGroup(s)
    else EncodeGroup(s[..3]) + Encode(s[3..])
  }

  // The bytes that two, three or four letter values hold.

  function First(a: nat, b: nat): Byte { (a * 4 + b / 16) % 256 }

  function Second(b: nat, c: nat): Byte { (b % 16 * 16 + c / 4) % 256 }

  function Third(c: nat, d: nat): Byte { (c % 4 * 64 + d) % 256 }

  /** The bytes of one group of four letters; `=` may stand for the last one or two. */
  function DecodeGroup(t: string): Option<seq<Byte>>
    requires |t| == 4
  {
    match (LetterValue(t[0]), LetterValue(t[1]), LetterValue(t[2]), LetterValue(t[3]))
    case (Some(a), Some(b), Some(c), Some(d)) => Some([First(a, b), Second(b, c), Third(c, d)])
    case (Some(a), Some(b), Some(c), None) => if t[3] == '=' then Some([First(a, b), Second(b, c)]) else None
    case (Some(a), Some(b), None, None) => if t[2] == '=' && t[3] == '=' then Some([First(a, b)]) else None
    case _ => None
  }

  function Decode(t: string): Option<seq<Byte>>
    decreases |t|
  {
    if t == [] then Some([])
    else if |t| < 4 then None
    else match (DecodeGroup(t[..4]), Decode(t[4..]))
      case (Some(group), Some(more)) => Some(group + more)
      case _ => None
  }

  lemma FirstHolds(x: Byte, y: Byte)
    ensures First(x / 4, x % 4 * 16 + y / 16) == x
  {
    assert (x % 4 * 16 + y / 16) / 16 == x % 4;
  }

  lemma SecondHolds(x: Byte, y: Byte, z: Byte)
    ensures Second(x % 4 * 16 + y / 16, y % 16 * 4 + z / 64) == y
  {
    assert (x % 4 * 16 + y / 16) % 16 == y / 16;
    assert (y % 16 * 4 + z / 64) / 4 == y % 16;
  }

  lemma ThirdHolds(y: Byte, z: Byte)
    ensures Third(y % 16 * 4 + z / 64, z % 64) == z
  {
    assert (y % 16 * 4 + z / 64) % 4 == z / 64;
  }

  lemma FourLetters(a: nat, b: nat, c: nat, d: nat)
    requires a < 64 && b < 64 && c < 64 && d < 64
    ensures DecodeGroup([Letter(a), Letter(b), Letter(c), Letter(d)]) == Some([First(a, b), Second(b, c), Third(c, d)])
    ensures DecodeGroup([Letter(a), Letter(b), Letter(c), '=']) == Some([First(a, b), Second(b, c)])
    ensures DecodeGroup([Letter(a), Letter(b), '=', '=']) == Some([First(a, b)])
  {
    LetterReadsBack(a);
    LetterReadsBack(b);
    LetterReadsBack(c);
    LetterReadsBack(d);
  }

  lemma ThreeBytes(x: Byte, y: Byte, z: Byte)
    ensures DecodeGroup(EncodeGroup([x, y, z])) == Some([x, y, z])
  {
    FirstHolds(x, y);
    SecondHolds(x, y, z);
    ThirdHolds(y, z);
    FourLetters(x / 4, x % 4 * 16 + y / 16, y % 16 * 4 + z / 64, z % 64);
  }

  lemma TwoBytes(x: Byte, y: Byte)
    ensures DecodeGroup(EncodeGroup([x, y])) == Some([x, y])
  {
    FirstHolds(x, y);
    SecondHolds(x, y, 0);
    assert y % 16 * 4 + 0 / 64 == y % 16 * 4;
    FourLetters(x / 4, x % 4 * 16 + y / 16, y % 16 * 4, 0);
  }

  lemma OneByte(x: Byte)
    ensures DecodeGroup(EncodeGroup([x])) == Some([x])
  {
    FirstHolds(x, 0);
    FourLetters(x / 4, x % 4 * 16, 0, 0);
  }

  lemma GroupReadsBack(s: seq<Byte>)
    requires 1 <= |s| <= 3
    ensures DecodeGroup(EncodeGroup(s)) == Some(s)
  {
    if |s| == 1 {
      OneByte(s[0]);
      assert s == [s[0]];
    } else if |s| == 2 {
      TwoBytes(s[0], s[1]);
      assert s == [s[0], s[1]];
    } else {
      ThreeBytes(s[0], s[1], s[2]);
      assert s == [s[0], s[1], s[2]];
    }
  }

  lemma DecodeStep(group: string, more: string, head: seq<Byte>, tail: seq<Byte>)
    requires |group| == 4 && DecodeGroup(group) == Some(head) && Decode(more) == Some(tail)
    ensures Decode(group + more) == Some(head + tail)
  {
    assert (group + more)[..4] == group && (group + more)[4..] == more;
  }

  lemma OnlyGroup(group: string, s: seq<Byte>)
    requires |group| == 4 && DecodeGroup(group) == Some(s)
    ensures Decode(group) == Some(s)
  {
    DecodeStep(group, [], s, []);
    assert group + [] == group && s + [] == s;
  }

  /** Decoding gives back the bytes. */
  lemma {:induction false} DecodeOfEncode(s: seq<Byte>)
    ensures Decode(Encode(s)) == Some(s)
    decreases |s|
  {
    if 0 < |s| <= 3 {
      GroupReadsBack(s);
      OnlyGroup(EncodeGroup(s), s);
    } else if |s| > 3 {
      GroupReadsBack(s[..3]);
      DecodeOfEncode(s[3..]);
      DecodeStep(EncodeGroup(s[..3]), Encode(s[3..]), s[..3], s[3..]);
      assert s[..3] + s[3..] == s;
    }
  }

  lemma OneMoreGroup(n: nat)
    requires n > 3
    ensures (n + 2) / 3 * 4 == 4 + (n - 3 + 2) / 3 * 4
  {}

  /** The length depends on the number of bytes only. */
  lemma {:induction false} EncodedLength(s: seq<Byte>)
    ensures |Encode(s)| == (|s| + 2) / 3 * 4
    decreases |s|
  {
    if |s| > 3 {
      var tail := s[3..];
      EncodedLength(tail);
      OneMoreGroup(|s|);
      assert |Encode(s)| == 4 + |Encode(tail)|;
    }
  }

  // ---------- big-endian numbers ----------

  function ToBeBytes(n: nat, width: nat): (s: seq<Byte>)
    ensures |s| == width
  {
    if width == 0 then [] else ToBeBytes(n / 256, width - 1) + [n % 256]
  }

  function FromBeBytes(s: seq<Byte>): nat {
    if s == [] then 0 else FromBeBytes(s[..|s| - 1]) * 256 + s[|s| - 1]
  }

  function Pow256(k: nat): nat { if k == 0 then 1 else 256 * Pow256(k - 1) }

  lemma {:induction false} FromOfToBeBytes(n: nat, width: nat)
    requires n < Pow256(width)
    ensures FromBeBytes(ToBeBytes(n, width)) == n
  {
    if width > 0 {
      FromOfToBeBytes(n / 256, width - 1);
      var s := ToBeBytes(n, width);
      assert s[..|s| - 1] == ToBeBytes(n / 256, width - 1);
    }
  }

  lemma EightBytes()
    ensures Pow256(8) == U64_LIMIT
  {
    assert Pow256(2) == 0x1_0000;
    assert Pow256(4) == 0x1_0000_0000;
    assert Pow256(6) == 0x1_0000_0000_0000;
  }
}
