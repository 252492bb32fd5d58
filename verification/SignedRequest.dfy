/** What an S3 request signs and what it sends: the canonical path and the canonical query. */
module SignedRequest {
  import opened Wrappers
  import opened Bytes
  import opened PercentCoding
  import opened Sequences

  // ---------- the path ----------

  function TrimStart(key: seq<Byte>): seq<Byte> {
    if key != [] && key[0] == SLASH then TrimStart(key[1..]) else key
  }

  /** The part of an object's path after the endpoint's own path and a slash. */
  function Tail(bucket: seq<Byte>, key: seq<Byte>, pathStyle: bool, encodeSlash: bool): seq<Byte> {
    if pathStyle then UriEncode(bucket, encodeSlash) + [SLASH] + UriEncode(TrimStart(key), false)
    else UriEncode(TrimStart(key), false)
  }

  /** The path that is sent; `base` is the endpoint's path without its trailing slashes. */
  function ObjectPath(base: seq<Byte>, bucket: seq<Byte>, key: seq<Byte>, pathStyle: bool): seq<Byte> {
    base + [SLASH] + Tail(bucket, key, pathStyle, true)
  }

  /** Invalid UTF-8 is repaired, anything else is left alone. */
  function DecodeUtf8Lossy(s: seq<Byte>, repair: seq<Byte> -> seq<Byte>): seq<Byte> {
    if ValidUtf8(s) then s else repair(s)
  }

  ghost predicate Repairs(repair: seq<Byte> -> seq<Byte>) { forall s: seq<Byte> :: ValidUtf8(repair(s)) }

  /** The path that is signed. */
  function CanonicalPath(path: seq<Byte>, repair: seq<Byte> -> seq<Byte>): seq<Byte> {
    UriEncode(DecodeUtf8Lossy(PercentDecode(path), repair), false)
  }

  /** Text that decodes to valid UTF-8 and is exactly how that would be encoded. */
  predicate Canonical(text: seq<Byte>) {
    ValidUtf8(PercentDecode(text)) && UriEncode(PercentDecode(text), false) == text
  }

  lemma SignedIsCanonical(path: seq<Byte>, repair: seq<Byte> -> seq<Byte>)
    requires Repairs(repair)
    ensures CanonicalPath(path, repair) == path <==> Canonical(path)
  {
    DecodeInverts(DecodeUtf8Lossy(PercentDecode(path), repair), false);
  }

  // UTF-8 can be cut at any ASCII byte.

  lemma WidthIsLocal(a: seq<Byte>, x: Byte, b: seq<Byte>)
    requires a != [] && x < 0x80
    ensures Utf8Width(a + [x] + b) == Utf8Width(a)
  {
    var s := a + [x] + b;
    assert s[0] == a[0] && s[|a|] == x;
    assert |a| > 1 ==> s[1] == a[1];
    assert |a| > 2 ==> s[2] == a[2];
    assert |a| > 3 ==> s[3] == a[3];
  }

  lemma {:induction false} Utf8Splits(a: seq<Byte>, x: Byte, b: seq<Byte>)
    requires x < 0x80
    ensures ValidUtf8(a + [x] + b) <==> ValidUtf8(a) && ValidUtf8(b)
    decreases |a|
  {
    var s := a + [x] + b;
    if a == [] {
      assert s[1..] == b;
    } else {
      WidthIsLocal(a, x, b);
      var n := Utf8Width(a);
      if n > 0 {
        assert s[n..] == a[n..] + [x] + b;
        Utf8Splits(a[n..], x, b);
      }
    }
  }

  lemma {:induction false} TrimmedIsUtf8(key: seq<Byte>)
    requires ValidUtf8(key)
    ensures ValidUtf8(TrimStart(key))
  {
    if key != [] && key[0] == SLASH { TrimmedIsUtf8(key[1..]); }
  }

  // The path splits at the slash after the base.

  lemma SameTail(a: seq<Byte>, b: seq<Byte>, tail: seq<Byte>)
    ensures a + tail == b + tail <==> a == b
  {
    if a + tail == b + tail { assert a == (a + tail)[..|a|] && b == (b + tail)[..|b|]; }
  }

  lemma EncodeJoin(a: seq<Byte>, b: seq<Byte>)
    ensures UriEncode(a + [SLASH] + b, false) == UriEncode(a, false) + [SLASH] + UriEncode(b, false)
  {
    EncodeConcat(a + [SLASH], b, false);
    EncodeConcat(a, [SLASH], false);
    EncodeSlash();
  }

  /** What the tail decodes to: the bucket and the key as they are. */
  function Plain(bucket: seq<Byte>, key: seq<Byte>, pathStyle: bool): seq<Byte> {
    if pathStyle then bucket + [SLASH] + TrimStart(key) else TrimStart(key)
  }

  lemma TailDecodes(bucket: seq<Byte>, key: seq<Byte>, pathStyle: bool)
    requires ValidUtf8(bucket) && ValidUtf8(key)
    ensures PercentDecode(Tail(bucket, key, pathStyle, true)) == Plain(bucket, key, pathStyle)
    ensures UriEncode(Plain(bucket, key, pathStyle), false) == Tail(bucket, key, pathStyle, false)
    ensures ValidUtf8(Plain(bucket, key, pathStyle))
  {
    TrimmedIsUtf8(key);
    DecodeInverts(TrimStart(key), false);
    if pathStyle {
      DecodeSplitsAtSlash(UriEncode(bucket, true), UriEncode(TrimStart(key), false));
      DecodeInverts(bucket, true);
      EncodeJoin(bucket, TrimStart(key));
      Utf8Splits(bucket, SLASH, TrimStart(key));
    }
  }

  /** A server that decodes the path finds, behind the endpoint's own path, a slash, in path style the
      bucket and another slash, and the key without the slashes it starts with. */
  lemma ServerReadsKey(base: seq<Byte>, bucket: seq<Byte>, key: seq<Byte>, pathStyle: bool) returns (k: nat)
    requires ValidUtf8(bucket) && ValidUtf8(key)
    ensures k <= |key| && (forall i :: 0 <= i < k ==> key[i] as char == '/')
    ensures k < |key| ==> key[k] as char != '/'
    ensures PercentDecode(ObjectPath(base, bucket, key, pathStyle))
            == PercentDecode(base) + ['/' as int] + (if pathStyle then bucket + ['/' as int] + key[k..] else key[k..])
  {
    k := TrimmedLength(key);
    TailDecodes(bucket, key, pathStyle);
    DecodeSplitsAtSlash(base, Tail(bucket, key, pathStyle, true));
  }

  lemma {:induction false} TrimmedLength(key: seq<Byte>) returns (k: nat)
    ensures k <= |key| && TrimStart(key) == key[k..] && forall i :: 0 <= i < k ==> key[i] == SLASH
    ensures k < |key| ==> key[k] != SLASH
  {
    if key == [] || key[0] != SLASH { return 0; }
    k := TrimmedLength(key[1..]);
    k := k + 1;
  }

  /** Without slashes in it the bucket may stand in either encoding; with one the difference shows
      at the end of the path, whatever stands before. */
  lemma TailsDiffer(a: seq<Byte>, b: seq<Byte>, bucket: seq<Byte>, key: seq<Byte>, pathStyle: bool)
    ensures !(pathStyle && SLASH in bucket) ==>
            Tail(bucket, key, pathStyle, false) == Tail(bucket, key, pathStyle, true)
    ensures pathStyle && SLASH in bucket ==>
              a + [SLASH] + Tail(bucket, key, pathStyle, false) != b + [SLASH] + Tail(bucket, key, pathStyle, true)
  {
    EncodingsAgree(bucket);
    if pathStyle && SLASH in bucket {
      var plain, escaped := UriEncode(bucket, false), UriEncode(bucket, true);
      var end := [SLASH] + UriEncode(TrimStart(key), false);
      EncodedAlphabet(bucket, true);
      Regroup(a + [SLASH], plain, end);
      Regroup(b + [SLASH], escaped, end);
      Regroup(plain, [SLASH], UriEncode(TrimStart(key), false));
      Regroup(escaped, [SLASH], UriEncode(TrimStart(key), false));
      SameTail(a + [SLASH] + plain, b + [SLASH] + escaped, end);
      EndsDiffer(a + [SLASH], plain, b + [SLASH], escaped);
    }
  }

  lemma EndsDiffer(a: seq<Byte>, plain: seq<Byte>, b: seq<Byte>, escaped: seq<Byte>)
    requires |plain| <= |escaped| && SLASH in plain && SLASH !in escaped
    ensures a + plain != b + escaped
  {
    var i :| 0 <= i < |plain| && plain[i] == SLASH;
    assert (a + plain)[|a| + i] == SLASH;
    assert |a| + |plain| == |b| + |escaped| ==> (b + escaped)[|a| + i] == escaped[|a| + i - |b|];
  }

  /** The path that is signed is the path that is sent exactly when the endpoint's own path is in
      canonical form and, in path style, the bucket's name holds no slash; the key may be anything. */
  lemma SignedPathIsSent(base: seq<Byte>, bucket: seq<Byte>, key: seq<Byte>, pathStyle: bool,
                         repair: seq<Byte> -> seq<Byte>)
    requires Repairs(repair) && ValidUtf8(bucket) && ValidUtf8(key)
    ensures var path := ObjectPath(base, bucket, key, pathStyle);
            CanonicalPath(path, repair) == path <==> Canonical(base) && !(pathStyle && SLASH in bucket)
  {
    var tail, plain := Tail(bucket, key, pathStyle, true), Plain(bucket, key, pathStyle);
    TailDecodes(bucket, key, pathStyle);
    SignedIsCanonical(base + [SLASH] + tail, repair);
    DecodeSplitsAtSlash(base, tail);
    Utf8Splits(PercentDecode(base), SLASH, plain);
    EncodeJoin(PercentDecode(base), plain);
    TailsDiffer(UriEncode(PercentDecode(base), false), base, bucket, key, pathStyle);
    if !(pathStyle && SLASH in bucket) { SameBase(UriEncode(PercentDecode(base), false), base, tail); }
  }

  /** A bucket with a slash in its name, in path style: sent escaped, signed with its slash, whatever
      the endpoint's path and the key. */
  lemma SlashInBucketIsSignedDifferently(base: seq<Byte>, bucket: seq<Byte>, key: seq<Byte>,
                                         repair: seq<Byte> -> seq<Byte>)
    requires Repairs(repair) && ValidUtf8(bucket) && ValidUtf8(key) && SLASH in bucket
    ensures var path := ObjectPath(base, bucket, key, true); CanonicalPath(path, repair) != path
  {
    SignedPathIsSent(base, bucket, key, true, repair);
  }

  lemma SameBase(a: seq<Byte>, b: seq<Byte>, tail: seq<Byte>)
    ensures a + [SLASH] + tail == b + [SLASH] + tail <==> a == b
  {
    SameTail(a + [SLASH], b + [SLASH], tail);
    SameTail(a, b, [SLASH]);
  }

  // ---------- the query ----------

  type Text = seq<Byte>
  type Pair = (Text, Text)

  /** Bytewise lexicographic order, as strings are compared. */
  predicate Leq(a: Text, b: Text) {
    a == [] || (b != [] && (a[0] < b[0] || (a[0] == b[0] && Leq(a[1..], b[1..]))))
  }

  lemma {:induction false} LeqIsTotal(a: Text, b: Text)
    ensures Leq(a, b) || Leq(b, a)
    ensures Leq(a, b) && Leq(b, a) ==> a == b
    ensures a == b ==> Leq(a, b)
  {
    if a != [] && b != [] { LeqIsTotal(a[1..], b[1..]); }
  }

  lemma {:induction false} LeqIsTransitive(a: Text, b: Text, c: Text)
    requires Leq(a, b) && Leq(b, c)
    ensures Leq(a, c)
  {
    if a != [] && a[0] == b[0] == c[0] { LeqIsTransitive(a[1..], b[1..], c[1..]); }
  }

  predicate PairLeq(p: Pair, q: Pair) { Leq(p.0, q.0) && (p.0 == q.0 ==> Leq(p.1, q.1)) }

  lemma PairLeqIsTotal(p: Pair, q: Pair)
    ensures PairLeq(p, q) || PairLeq(q, p)
    ensures PairLeq(p, q) && PairLeq(q, p) ==> p == q
  {
    LeqIsTotal(p.0, q.0);
    LeqIsTotal(p.1, q.1);
  }

  lemma PairLeqIsTransitive(p: Pair, q: Pair, r: Pair)
    requires PairLeq(p, q) && PairLeq(q, r)
    ensures PairLeq(p, r)
  {
    LeqIsTransitive(p.0, q.0, r.0);
    LeqIsTotal(p.0, q.0);
    LeqIsTotal(q.0, r.0);
    if p.0 == r.0 { LeqIsTransitive(p.1, q.1, r.1); }
  }

  predicate IsSorted(s: seq<Pair>) { forall i, j :: 0 <= i < j < |s| ==> PairLeq(s[i], s[j]) }

  function Insert(p: Pair, s: seq<Pair>): seq<Pair> {
    if s == [] || PairLeq(p, s[0]) then [p] + s else [s[0]] + Insert(p, s[1..])
  }

  function Sort(s: seq<Pair>): seq<Pair> {
    if s == [] then [] else Insert(s[0], Sort(s[1..]))
  }

  lemma {:induction false} InsertSorts(p: Pair, s: seq<Pair>)
    requires IsSorted(s)
    ensures IsSorted(Insert(p, s)) && multiset(Insert(p, s)) == multiset{p} + multiset(s)
  {
    if s != [] {
      assert s == [s[0]] + s[1..];
      PairLeqIsTotal(p, s[0]);
      if PairLeq(p, s[0]) {
        forall i | 0 <= i < |s| ensures PairLeq(p, s[i]) {
          if i > 0 { PairLeqIsTransitive(p, s[0], s[i]); }
        }
      } else {
        InsertSorts(p, s[1..]);
        SmallestFirst(s[0], Insert(p, s[1..]), p, s[1..]);
      }
    }
  }

  lemma SmallestFirst(first: Pair, more: seq<Pair>, p: Pair, rest: seq<Pair>)
    requires IsSorted(more) && multiset(more) == multiset{p} + multiset(rest) && PairLeq(first, p)
    requires forall i :: 0 <= i < |rest| ==> PairLeq(first, rest[i])
    ensures IsSorted([first] + more)
  {
    forall i | 0 <= i < |more| ensures PairLeq(first, more[i]) {
      assert more[i] in multiset(more);
      assert more[i] == p || more[i] in rest;
    }
  }

  lemma {:induction false} SortSorts(s: seq<Pair>)
    ensures IsSorted(Sort(s)) && multiset(Sort(s)) == multiset(s)
  {
    if s != [] {
      SortSorts(s[1..]);
      InsertSorts(s[0], Sort(s[1..]));
      assert s == [s[0]] + s[1..];
    }
  }

  /** There is only one way to list pairs in order, so any sort gives this one. */
  lemma {:induction false} SortedIsUnique(a: seq<Pair>, b: seq<Pair>)
    requires IsSorted(a) && IsSorted(b) && multiset(a) == multiset(b)
    ensures a == b
  {
    if a == [] {
      assert |b| == |multiset(b)| == 0;
    } else {
      FirstIsSame(a, b);
      WithoutFirst(a);
      WithoutFirst(b);
      SortedIsUnique(a[1..], b[1..]);
      assert a == [a[0]] + a[1..] && b == [b[0]] + b[1..];
    }
  }

  lemma FirstIsSame(a: seq<Pair>, b: seq<Pair>)
    requires IsSorted(a) && IsSorted(b) && multiset(a) == multiset(b) && a != []
    ensures b != [] && a[0] == b[0]
  {
    assert a[0] in multiset(b) && a[0] in b;
    assert b[0] in multiset(a) && b[0] in a;
    PairLeqIsTotal(a[0], b[0]);
  }

  lemma WithoutFirst(s: seq<Pair>)
    requires s != []
    ensures multiset(s[1..]) == multiset(s) - multiset{s[0]}
  {
    assert s == [s[0]] + s[1..];
  }

  const AMPERSAND: Byte := 38
  const EQUALS: Byte := 61

  function PairText(p: Pair): Text {
    UriEncode(p.0, true) + [EQUALS] + UriEncode(p.1, true)
  }

  function Join(pairs: seq<Pair>): Text {
    if pairs == [] then []
    else if |pairs| == 1 then PairText(pairs[0])
    else PairText(pairs[0]) + [AMPERSAND] + Join(pairs[1..])
  }

  function CanonicalQuery(query: seq<Pair>): Text { Join(Sort(query)) }

  /** The text itself: pairs with an equals sign in each and an ampersand between them. */
  lemma QueryIsText(p: Pair, more: seq<Pair>)
    ensures Join([]) == [] && Join([p]) == PairText(p)
    ensures PairText(p) == UriEncode(p.0, true) + ['=' as int] + UriEncode(p.1, true)
    ensures more != [] ==> Join([p] + more) == PairText(p) + ['&' as int] + Join(more)
  {
    if more != [] { assert ([p] + more)[1..] == more; }
  }

  // Reading it back.

  datatype Cut = Cut(before: Text, after: Text)

  function CutAt(s: Text, separator: Byte): Option<Cut> {
    if s == [] then None
    else if s[0] == separator then Some(Cut([], s[1..]))
    else match CutAt(s[1..], separator)
      case None => None
      case Some(cut) => Some(Cut([s[0]] + cut.before, cut.after))
  }

  lemma {:induction false} CutsBack(before: Text, separator: Byte, after: Text)
    requires separator !in before
    ensures CutAt(before + [separator] + after, separator) == Some(Cut(before, after))
    ensures CutAt(before, separator) == None
  {
    var s := before + [separator] + after;
    if before == [] {
      assert s[1..] == after;
    } else {
      assert s[1..] == before[1..] + [separator] + after;
      CutsBack(before[1..], separator, after);
      assert [before[0]] + before[1..] == before;
    }
  }

  function ReadPair(text: Text): Option<Pair> {
    match CutAt(text, EQUALS)
    case None => None
    case Some(cut) => Some((PercentDecode(cut.before), PercentDecode(cut.after)))
  }

  /** The pairs of a query string, as a server reads them. */
  function ReadQuery(text: Text): Option<seq<Pair>> {
    if text == [] then Some([]) else ReadPairs(text)
  }

  function ReadPairs(text: Text): Option<seq<Pair>>
    decreases |text|
  {
    match CutAt(text, AMPERSAND)
    case None => (match ReadPair(text) case None => None case Some(p) => Some([p]))
    case Some(cut) =>
      CutIsShorter(text, AMPERSAND);
      match (ReadPair(cut.before), ReadPairs(cut.after))
      case (Some(p), Some(more)) => Some([p] + more)
      case _ => None
  }

  lemma {:induction false} CutIsShorter(s: Text, separator: Byte)
    ensures CutAt(s, separator).Some? ==> |CutAt(s, separator).value.after| < |s|
  {
    if s != [] { CutIsShorter(s[1..], separator); }
  }

  lemma NoSeparators(text: Text)
    ensures EQUALS !in UriEncode(text, true) && AMPERSAND !in UriEncode(text, true)
  {
    EncodedAlphabet(text, true);
  }

  lemma PairReadsBack(p: Pair)
    ensures ReadPair(PairText(p)) == Some(p) && AMPERSAND !in PairText(p) && PairText(p) != []
  {
    NoSeparators(p.0);
    NoSeparators(p.1);
    CutsBack(UriEncode(p.0, true), EQUALS, UriEncode(p.1, true));
    DecodeInverts(p.0, true);
    DecodeInverts(p.1, true);
  }

  lemma {:induction false} PairsReadBack(pairs: seq<Pair>)
    requires pairs != []
    ensures ReadPairs(Join(pairs)) == Some(pairs) && Join(pairs) != []
  {
    PairReadsBack(pairs[0]);
    if |pairs| == 1 {
      CutsBack(PairText(pairs[0]), AMPERSAND, []);
      assert [pairs[0]] == pairs;
    } else {
      PairsReadBack(pairs[1..]);
      CutsBack(PairText(pairs[0]), AMPERSAND, Join(pairs[1..]));
      assert [pairs[0]] + pairs[1..] == pairs;
    }
  }

  /** A server that reads the query that was sent finds the pairs, in order. */
  lemma QueryReadsBack(query: seq<Pair>)
    ensures ReadQuery(CanonicalQuery(query)) == Some(Sort(query))
  {
    if Sort(query) != [] { PairsReadBack(Sort(query)); }
  }

  /** Two queries sign alike exactly when they hold the same pairs, in whatever order. */
  lemma CanonicalQueryIsExact(a: seq<Pair>, b: seq<Pair>)
    ensures CanonicalQuery(a) == CanonicalQuery(b) <==> multiset(a) == multiset(b)
  {
    SortSorts(a);
    SortSorts(b);
    QueryReadsBack(a);
    QueryReadsBack(b);
    if multiset(a) == multiset(b) { SortedIsUnique(Sort(a), Sort(b)); }
  }

  // ---------- what a server signs ----------

  // Signature version 4 orders the parameters by their encoded names; the code orders them before
  // encoding.

  function EncodedPair(p: Pair): Pair { (UriEncode(p.0, true), UriEncode(p.1, true)) }

  function EncodedPairs(pairs: seq<Pair>): seq<Pair> {
    if pairs == [] then [] else [EncodedPair(pairs[0])] + EncodedPairs(pairs[1..])
  }

  function JoinPlain(pairs: seq<Pair>): Text {
    if pairs == [] then []
    else if |pairs| == 1 then pairs[0].0 + [EQUALS] + pairs[0].1
    else pairs[0].0 + [EQUALS] + pairs[0].1 + [AMPERSAND] + JoinPlain(pairs[1..])
  }

  /** The canonical query as a server makes it: encode, then sort, then join. */
  function ServerQuery(query: seq<Pair>): Text { JoinPlain(Sort(EncodedPairs(query))) }

  /** At the first difference the smaller byte stays as it is and the larger one is escaped, so that
      encoding turns the order around. */
  predicate Crosses(a: Text, b: Text) {
    a != [] && b != [] &&
    if a[0] == b[0] then Crosses(a[1..], b[1..])
    else if a[0] < b[0] then Unreserved(a[0]) && !Unreserved(b[0])
    else Unreserved(b[0]) && !Unreserved(a[0])
  }

  predicate PairsCross(p: Pair, q: Pair) { if p.0 == q.0 then Crosses(p.1, q.1) else Crosses(p.0, q.0) }

  /** They differ, the first one being smaller there. */
  predicate Before(u: Text, v: Text) {
    u != [] && v != [] && (u[0] < v[0] || (u[0] == v[0] && Before(u[1..], v[1..])))
  }

  lemma {:induction false} BeforeDecides(u: Text, v: Text, s: Text, t: Text)
    requires Before(u, v)
    ensures Leq(u + s, v + t) && !Leq(v + t, u + s)
  {
    assert (u + s)[1..] == u[1..] + s && (v + t)[1..] == v[1..] + t;
    if u[0] == v[0] { BeforeDecides(u[1..], v[1..], s, t); }
  }

  lemma {:induction false} SameStartCancels(e: Text, s: Text, t: Text)
    ensures Leq(e + s, e + t) <==> Leq(s, t)
  {
    if e == [] {
      assert e + s == s && e + t == t;
    } else {
      assert (e + s)[1..] == e[1..] + s && (e + t)[1..] == e[1..] + t;
      SameStartCancels(e[1..], s, t);
    }
  }

  lemma BytesEncoded(x: Byte, y: Byte)
    requires x < y
    ensures if Unreserved(x) && !Unreserved(y) then Before(EncodeByte(y, true), EncodeByte(x, true))
            else Before(EncodeByte(x, true), EncodeByte(y, true))
  {
    var u, v := EncodeByte(x, true), EncodeByte(y, true);
    if !Unreserved(x) && !Unreserved(y) {
      assert u[1..] == [UpperHexDigit(x / 16), UpperHexDigit(x % 16)] && u[1..][1..] == [UpperHexDigit(x % 16)];
      assert v[1..] == [UpperHexDigit(y / 16), UpperHexDigit(y % 16)] && v[1..][1..] == [UpperHexDigit(y % 16)];
      assert x / 16 < y / 16 || (x / 16 == y / 16 && x % 16 < y % 16);
    }
  }

  /** Encoding keeps the order of two texts, or turns it around if they cross. */
  lemma {:induction false} EncodedOrder(a: Text, b: Text)
    ensures Leq(UriEncode(a, true), UriEncode(b, true)) <==> if Crosses(a, b) then Leq(b, a) else Leq(a, b)
  {
    if a != [] && b != [] {
      var u, v := EncodeByte(a[0], true), EncodeByte(b[0], true);
      var s, t := UriEncode(a[1..], true), UriEncode(b[1..], true);
      if a[0] == b[0] {
        EncodedOrder(a[1..], b[1..]);
        SameStartCancels(u, s, t);
      } else if a[0] < b[0] {
        BytesEncoded(a[0], b[0]);
        if Before(u, v) { BeforeDecides(u, v, s, t); } else { BeforeDecides(v, u, t, s); }
      } else {
        BytesEncoded(b[0], a[0]);
        if Before(v, u) { BeforeDecides(v, u, t, s); } else { BeforeDecides(u, v, s, t); }
      }
    }
  }

  lemma EncodedPairOrder(p: Pair, q: Pair)
    ensures PairLeq(EncodedPair(p), EncodedPair(q)) <==> if PairsCross(p, q) then PairLeq(q, p) else PairLeq(p, q)
  {
    EncodedOrder(p.0, q.0);
    EncodedOrder(p.1, q.1);
    LeqIsTotal(p.0, q.0);
    if UriEncode(p.0, true) == UriEncode(q.0, true) { EncodeIsInjective(p.0, q.0, true); }
  }

  lemma {:induction false} EncodedAt(pairs: seq<Pair>)
    ensures |EncodedPairs(pairs)| == |pairs|
    ensures forall i :: 0 <= i < |pairs| ==> EncodedPairs(pairs)[i] == EncodedPair(pairs[i])
  {
    if pairs != [] { EncodedAt(pairs[1..]); }
  }

  lemma {:induction false} InsertEncoded(p: Pair, s: seq<Pair>)
    ensures multiset(EncodedPairs(Insert(p, s))) == multiset{EncodedPair(p)} + multiset(EncodedPairs(s))
  {
    if s == [] || PairLeq(p, s[0]) {
      assert ([p] + s)[1..] == s;
    } else {
      InsertEncoded(p, s[1..]);
      assert Insert(p, s)[1..] == Insert(p, s[1..]);
    }
  }

  lemma {:induction false} SortEncoded(s: seq<Pair>)
    ensures multiset(EncodedPairs(Sort(s))) == multiset(EncodedPairs(s))
  {
    if s != [] {
      SortEncoded(s[1..]);
      InsertEncoded(s[0], Sort(s[1..]));
    }
  }

  lemma {:induction false} JoinIsPlain(pairs: seq<Pair>)
    ensures Join(pairs) == JoinPlain(EncodedPairs(pairs))
  {
    EncodedAt(pairs);
    if |pairs| > 1 {
      JoinIsPlain(pairs[1..]);
      assert EncodedPairs(pairs)[1..] == EncodedPairs(pairs[1..]);
    }
  }

  function DecodedPairs(pairs: seq<Pair>): seq<Pair> {
    if pairs == [] then []
    else [(PercentDecode(pairs[0].0), PercentDecode(pairs[0].1))] + DecodedPairs(pairs[1..])
  }

  lemma {:induction false} EncodedOfDecoded(pairs: seq<Pair>, from: seq<Pair>)
    requires forall p :: p in pairs ==> p in EncodedPairs(from)
    ensures EncodedPairs(DecodedPairs(pairs)) == pairs
  {
    if pairs != [] {
      assert pairs[0] in EncodedPairs(from);
      EncodedAt(from);
      var i :| 0 <= i < |from| && EncodedPairs(from)[i] == pairs[0];
      DecodeInverts(from[i].0, true);
      DecodeInverts(from[i].1, true);
      EncodedOfDecoded(pairs[1..], from);
      assert DecodedPairs(pairs)[1..] == DecodedPairs(pairs[1..]);
    }
  }

  lemma JoinIsInjective(a: seq<Pair>, b: seq<Pair>)
    requires Join(a) == Join(b)
    ensures a == b
  {
    if a != [] { PairsReadBack(a); }
    if b != [] { PairsReadBack(b); }
  }

  /** The two queries are alike exactly when the sorted pairs are still in order once encoded. */
  lemma AlikeIfStillSorted(query: seq<Pair>)
    ensures ServerQuery(query) == CanonicalQuery(query) <==> IsSorted(EncodedPairs(Sort(query)))
  {
    var ours, theirs := EncodedPairs(Sort(query)), Sort(EncodedPairs(query));
    SortSorts(EncodedPairs(query));
    SortEncoded(query);
    JoinIsPlain(Sort(query));
    if IsSorted(ours) { SortedIsUnique(ours, theirs); }
    if JoinPlain(theirs) == JoinPlain(ours) {
      forall p | p in theirs ensures p in EncodedPairs(query) { assert p in multiset(theirs); }
      EncodedOfDecoded(theirs, query);
      JoinIsPlain(DecodedPairs(theirs));
      JoinIsInjective(DecodedPairs(theirs), Sort(query));
    }
  }

  predicate NoneCross(query: seq<Pair>) {
    forall i, j :: 0 <= i < |query| && 0 <= j < |query| ==> !PairsCross(query[i], query[j])
  }

  lemma StillSortedIfNoneCross(sorted: seq<Pair>)
    requires IsSorted(sorted)
    ensures IsSorted(EncodedPairs(sorted)) <==> NoneCross(sorted)
  {
    EncodedAt(sorted);
    if NoneCross(sorted) {
      forall i, j | 0 <= i < j < |sorted| ensures PairLeq(EncodedPairs(sorted)[i], EncodedPairs(sorted)[j]) {
        EncodedPairOrder(sorted[i], sorted[j]);
      }
    }
    if IsSorted(EncodedPairs(sorted)) {
      forall i, j | 0 <= i < |sorted| && 0 <= j < |sorted| ensures !PairsCross(sorted[i], sorted[j]) {
        CrossIsSymmetric(sorted[i], sorted[j]);
        if i < j { NoCrossInOrder(sorted[i], sorted[j]); }
        else if j < i { NoCrossInOrder(sorted[j], sorted[i]); }
      }
    }
  }

  lemma NoCrossInOrder(p: Pair, q: Pair)
    requires PairLeq(p, q) && PairLeq(EncodedPair(p), EncodedPair(q))
    ensures !PairsCross(p, q)
  {
    EncodedPairOrder(p, q);
    PairLeqIsTotal(p, q);
    CrossIsSymmetric(p, q);
  }

  lemma {:induction false} TextsCross(a: Text, b: Text)
    ensures Crosses(a, b) == Crosses(b, a) && !Crosses(a, a)
  {
    if a != [] {
      TextsCross(a[1..], if b == [] then [] else b[1..]);
    }
  }

  lemma CrossIsSymmetric(p: Pair, q: Pair)
    ensures PairsCross(p, q) == PairsCross(q, p) && (p == q ==> !PairsCross(p, q))
  {
    TextsCross(p.0, q.0);
    TextsCross(p.1, q.1);
  }

  lemma SamePairsCross(a: seq<Pair>, b: seq<Pair>)
    requires multiset(a) == multiset(b) && NoneCross(a)
    ensures NoneCross(b)
  {
    forall i, j | 0 <= i < |b| && 0 <= j < |b| ensures !PairsCross(b[i], b[j]) {
      assert b[i] in multiset(a) && b[j] in multiset(a);
      assert b[i] in a && b[j] in a;
    }
  }

  /** A server signs the same query exactly when no two pairs cross. */
  lemma ServerSignsTheSame(query: seq<Pair>)
    ensures ServerQuery(query) == CanonicalQuery(query) <==> NoneCross(query)
  {
    SortSorts(query);
    AlikeIfStillSorted(query);
    StillSortedIfNoneCross(Sort(query));
    if NoneCross(query) { SamePairsCross(query, Sort(query)); }
    if NoneCross(Sort(query)) { SamePairsCross(Sort(query), query); }
  }

  /** What a server reads from the sent query it signs as it would the pairs themselves. */
  lemma ServerSignsWhatItReads(query: seq<Pair>)
    ensures var read := ReadQuery(CanonicalQuery(query));
            read.Some? && ServerQuery(read.value) == ServerQuery(query)
  {
    QueryReadsBack(query);
    SortEncoded(query);
    SortSorts(EncodedPairs(Sort(query)));
    SortSorts(EncodedPairs(query));
    SortedIsUnique(Sort(EncodedPairs(Sort(query))), Sort(EncodedPairs(query)));
  }

  predicate Plainly(text: Text) { forall i :: 0 <= i < |text| ==> Unreserved(text[i]) }

  lemma {:induction false} PlainlyNeverCross(a: Text, b: Text)
    requires Plainly(a) && Plainly(b)
    ensures !Crosses(a, b)
  {
    if a != [] && b != [] { PlainlyNeverCross(a[1..], b[1..]); }
  }

  /** Different names of unreserved characters, as all requests here have, are always signed alike,
      whatever their values. */
  lemma PlainNamesAgree(query: seq<Pair>)
    requires forall i :: 0 <= i < |query| ==> Plainly(query[i].0)
    requires forall i, j :: 0 <= i < j < |query| ==> query[i].0 != query[j].0
    ensures ServerQuery(query) == CanonicalQuery(query)
  {
    forall i, j | 0 <= i < |query| && 0 <= j < |query| ensures !PairsCross(query[i], query[j]) {
      PlainlyNeverCross(query[i].0, query[j].0);
      CrossIsSymmetric(query[i], query[j]);
    }
    ServerSignsTheSame(query);
  }

  /** The names `a0` and `a:` are sorted one way by the code and the other way by a server. */
  lemma RawOrderDiffers(value: Text)
    ensures var query := [([97, 48], value), ([97, 58], value)]; ServerQuery(query) != CanonicalQuery(query)
  {
    var a: Text, b: Text := [97, 48], [97, 58];
    assert a[1..] == [48] && b[1..] == [58];
    assert Crosses(a[1..], b[1..]) && Crosses(a, b);
    var query := [(a, value), (b, value)];
    assert PairsCross(query[0], query[1]);
    ServerSignsTheSame(query);
  }
}
