/** XML text escaping by five replacements in a row, and tags read back by splitting. */
module XmlText {
  import opened Wrappers

  // ---------- replacement as the string library does it ----------

  /** Every leftmost, non-overlapping occurrence of `from`. */
  function Replace(s: string, from: string, to: string): string
    requires from != []
    decreases |s|
  {
    if s == [] then []
    else if from <= s then to + Replace(s[|from|..], from, to)
    else [s[0]] + Replace(s[1..], from, to)
  }

  function XmlEscape(value: string): string {
    var amp := Replace(value, "&", "&amp;");
    var lt := Replace(amp, "<", "&lt;");
    var gt := Replace(lt, ">", "&gt;");
    var quot := Replace(gt, "\"", "&quot;");
    Replace(quot, "'", "&apos;")
  }

  function XmlUnescape(value: string): string {
    var lt := Replace(value, "&lt;", "<");
    var gt := Replace(lt, "&gt;", ">");
    var quot := Replace(gt, "&quot;", "\"");
    var apos := Replace(quot, "&apos;", "'");
    Replace(apos, "&amp;", "&")
  }

  // ---------- escaping all characters of a set at once ----------

  type Special = c: char | c == '&' || c == '<' || c == '>' || c == '"' || c == '\'' witness '&'

  function Entity(c: Special): (e: string)
    ensures |e| >= 4 && e[0] == '&' && e[|e| - 1] == ';'
    ensures forall i :: 0 < i < |e| ==> e[i] != '&'
    ensures '<' !in e && '>' !in e && '"' !in e && '\'' !in e
  {
    match c
    case '&' => "&amp;"
    case '<' => "&lt;"
    case '>' => "&gt;"
    case '"' => "&quot;"
    case _ => "&apos;"
  }

  lemma EntitiesAreXml()
    ensures Entity('&') == "&amp;" && Entity('<') == "&lt;" && Entity('>') == "&gt;"
    ensures Entity('"') == "&quot;" && Entity('\'') == "&apos;"
  {}

  function Piece(c: char, done: set<Special>): string {
    if c in done then Entity(c) else [c]
  }

  /** The text with exactly the characters of `done` written as entities. */
  function Escaped(s: string, done: set<Special>): string {
    if s == [] then [] else Piece(s[0], done) + Escaped(s[1..], done)
  }

  /** No entity begins another one, whatever follows. */
  lemma EntitiesDiffer(c: Special, d: Special, rest: string)
    requires c != d
    ensures !(Entity(c) <= Entity(d) + rest)
  {
    assert Entity(c)[1] != Entity(d)[1] || Entity(c)[2] != Entity(d)[2];
    assert (Entity(d) + rest)[1] == Entity(d)[1] && (Entity(d) + rest)[2] == Entity(d)[2];
  }

  lemma {:induction false} NothingToReplace(u: string, t: string, from: string, to: string)
    requires from != [] && from[0] !in u
    ensures Replace(u + t, from, to) == u + Replace(t, from, to)
  {
    if u == [] {
      assert u + t == t;
    } else {
      assert (u + t)[0] == u[0] && (u + t)[1..] == u[1..] + t;
      NothingToReplace(u[1..], t, from, to);
      assert [u[0]] + (u[1..] + Replace(t, from, to)) == u + Replace(t, from, to);
    }
  }

  lemma NoMatchHere(u: string, t: string, from: string, to: string)
    requires from != [] && u != [] && !(from <= u + t) && from[0] !in u[1..]
    ensures Replace(u + t, from, to) == u + Replace(t, from, to)
  {
    assert (u + t)[1..] == u[1..] + t;
    NothingToReplace(u[1..], t, from, to);
    assert [u[0]] + (u[1..] + Replace(t, from, to)) == u + Replace(t, from, to);
  }

  lemma ReplaceFirst(from: string, t: string, to: string)
    requires from != []
    ensures Replace(from + t, from, to) == to + Replace(t, from, to)
  {
    assert (from + t)[|from|..] == t;
  }

  /** One replacement of the escape extends the set of escaped characters by one. */
  lemma {:induction false} EscapeOneMore(s: string, done: set<Special>, c: Special)
    requires c !in done && (c == '&' ==> done == {})
    ensures Replace(Escaped(s, done), [c], Entity(c)) == Escaped(s, done + {c})
  {
    if s != [] {
      var rest := Escaped(s[1..], done);
      EscapeOneMore(s[1..], done, c);
      if s[0] == c { ReplaceFirst([c], rest, Entity(c)); }
      else { NothingToReplace(Piece(s[0], done), rest, [c], Entity(c)); }
    }
  }

  /** One replacement of the unescape takes one character out of it, provided `&` goes last. */
  lemma {:induction false} UnescapeOne(s: string, done: set<Special>, c: Special)
    requires '&' in done && c in done && (c == '&' ==> done == {'&'})
    ensures Replace(Escaped(s, done), Entity(c), [c]) == Escaped(s, done - {c})
  {
    if s != [] {
      var rest := Escaped(s[1..], done);
      UnescapeOne(s[1..], done, c);
      if s[0] == c { ReplaceFirst(Entity(c), rest, [c]); }
      else if s[0] in done {
        EntitiesDiffer(c, s[0], rest);
        NoMatchHere(Entity(s[0]), rest, Entity(c), [c]);
      }
      else { NothingToReplace([s[0]], rest, Entity(c), [c]); }
    }
  }

  lemma {:induction false} NothingEscaped(s: string)
    ensures Escaped(s, {}) == s
  {
    if s != [] { NothingEscaped(s[1..]); }
  }

  lemma EscapeStage(text: string, value: string, done: set<Special>, c: Special, after: set<Special>)
    requires text == Escaped(value, done) && after == done + {c}
    requires c !in done && (c == '&' ==> done == {})
    ensures Replace(text, [c], Entity(c)) == Escaped(value, after)
  {
    EscapeOneMore(value, done, c);
  }

  lemma UnescapeStage(text: string, value: string, done: set<Special>, c: Special, after: set<Special>)
    requires text == Escaped(value, done) && after == done - {c}
    requires '&' in done && c in done && (c == '&' ==> done == {'&'})
    ensures Replace(text, Entity(c), [c]) == Escaped(value, after)
  {
    UnescapeOne(value, done, c);
  }

  const AMP: set<Special> := {'&'}
  const AMP_LT: set<Special> := {'&', '<'}
  const AMP_LT_GT: set<Special> := {'&', '<', '>'}
  const ALL_BUT_APOS: set<Special> := {'&', '<', '>', '"'}
  const ALL: set<Special> := {'&', '<', '>', '"', '\''}
  const ALL_BUT_LT: set<Special> := {'&', '>', '"', '\''}
  const AMP_QUOT_APOS: set<Special> := {'&', '"', '\''}
  const AMP_APOS: set<Special> := {'&', '\''}

  lemma StageSets()
    ensures AMP == {} + {'&'} && AMP_LT == AMP + {'<'} && AMP_LT_GT == AMP_LT + {'>'}
    ensures ALL_BUT_APOS == AMP_LT_GT + {'"'} && ALL == ALL_BUT_APOS + {'\''}
    ensures ALL_BUT_LT == ALL - {'<'} && AMP_QUOT_APOS == ALL_BUT_LT - {'>'}
    ensures AMP_APOS == AMP_QUOT_APOS - {'"'} && AMP == AMP_APOS - {'\''} && {} == AMP - {'&'}
  {}

  /** The five replacements in a row are one pass over the characters. */
  lemma EscapeIsOnePass(value: string)
    ensures XmlEscape(value) == Escaped(value, ALL)
  {
    StageSets();
    NothingEscaped(value);
    EscapeStage(value, value, {}, '&', AMP);
    var amp := Replace(value, "&", "&amp;");
    EscapeStage(amp, value, AMP, '<', AMP_LT);
    var lt := Replace(amp, "<", "&lt;");
    EscapeStage(lt, value, AMP_LT, '>', AMP_LT_GT);
    var gt := Replace(lt, ">", "&gt;");
    EscapeStage(gt, value, AMP_LT_GT, '"', ALL_BUT_APOS);
    var quot := Replace(gt, "\"", "&quot;");
    EscapeStage(quot, value, ALL_BUT_APOS, '\'', ALL);
  }

  /** Unescaping gives back every string. */
  lemma UnescapeOfEscape(value: string)
    ensures XmlUnescape(XmlEscape(value)) == value
  {
    StageSets();
    EscapeIsOnePass(value);
    var text := XmlEscape(value);
    UnescapeStage(text, value, ALL, '<', ALL_BUT_LT);
    var lt := Replace(text, "&lt;", "<");
    UnescapeStage(lt, value, ALL_BUT_LT, '>', AMP_QUOT_APOS);
    var gt := Replace(lt, "&gt;", ">");
    UnescapeStage(gt, value, AMP_QUOT_APOS, '"', AMP_APOS);
    var quot := Replace(gt, "&quot;", "\"");
    UnescapeStage(quot, value, AMP_APOS, '\'', AMP);
    var apos := Replace(quot, "&apos;", "'");
    UnescapeStage(apos, value, AMP, '&', {});
    NothingEscaped(value);
  }

  lemma {:induction false} EscapedHasNoMarkup(s: string)
    ensures '<' !in Escaped(s, ALL) && '>' !in Escaped(s, ALL) && '"' !in Escaped(s, ALL) && '\'' !in Escaped(s, ALL)
  {
    if s != [] { EscapedHasNoMarkup(s[1..]); }
  }

  /** Escaped text cannot close the tag around it. */
  lemma EscapeHasNoMarkup(value: string)
    ensures '<' !in XmlEscape(value) && '>' !in XmlEscape(value)
  {
    EscapeIsOnePass(value);
    EscapedHasNoMarkup(value);
  }

  // ---------- reading a tag ----------

  /** Position of the first occurrence, as `split_once` finds it. */
  function Find(s: string, needle: string): (r: Option<nat>)
    ensures r.Some? ==> r.value <= |s| && needle <= s[r.value..] && forall j: nat :: j < r.value ==> !(needle <= s[j..])
    ensures r.None? ==> forall j: nat :: j <= |s| ==> !(needle <= s[j..])
  {
    if needle <= s then Some(0)
    else if s == [] then None
    else
      assert forall j: nat :: 0 < j <= |s| ==> s[j..] == s[1..][j - 1..];
      match Find(s[1..], needle)
      case None => None
      case Some(k) => Some(k + 1)
  }

  datatype Halves = Halves(before: string, after: string)

  function SplitOnce(s: string, needle: string): Option<Halves> {
    match Find(s, needle)
    case None => None
    case Some(k) => Some(Halves(s[..k], s[k + |needle|..]))
  }

  function XmlTag(text: string, tag: string): Option<string> {
    match SplitOnce(text, "<" + tag + ">")
    case None => None
    case Some(start) =>
      match SplitOnce(start.after, "</" + tag + ">")
      case None => None
      case Some(end) => Some(XmlUnescape(end.before))
  }

  lemma SplitAt(before: string, needle: string, after: string)
    requires forall j: nat :: j < |before| ==> !(needle <= (before + needle + after)[j..])
    ensures SplitOnce(before + needle + after, needle) == Some(Halves(before, after))
  {
    var s := before + needle + after;
    FoundAt(s, needle, |before|);
    assert s[..|before|] == before && s[|before| + |needle|..] == after;
  }

  lemma FoundAt(s: string, needle: string, k: nat)
    requires k + |needle| <= |s| && s[k..][..|needle|] == needle
    requires forall j: nat :: j < k ==> !(needle <= s[j..])
    ensures Find(s, needle) == Some(k)
  {
    assert needle <= s[k..];
  }

  lemma NoMarkupNoTag(before: string, needle: string, after: string)
    requires needle != [] && needle[0] !in before
    ensures forall j: nat :: j < |before| ==> !(needle <= (before + needle + after)[j..])
  {
    forall j: nat | j < |before| ensures !(needle <= (before + needle + after)[j..]) {
      assert (before + needle + after)[j..][0] == before[j];
    }
  }

  /** A text with a value in a tag. */
  function Tagged(before: string, tag: string, value: string, after: string): string {
    before + ("<" + tag + ">") + (XmlEscape(value) + ("</" + tag + ">") + after)
  }

  /** The tag does not begin any earlier. */
  predicate FirstTag(before: string, tag: string, value: string, after: string) {
    forall j: nat :: j < |before| ==> !("<" + tag + ">" <= Tagged(before, tag, value, after)[j..])
  }

  /** A tag's escaped value is read back exactly, wherever the first such tag stands. */
  lemma XmlTagReadsEscaped(before: string, tag: string, value: string, after: string)
    requires FirstTag(before, tag, value, after)
    ensures XmlTag(Tagged(before, tag, value, after), tag) == Some(value)
  {
    SplitAt(before, "<" + tag + ">", XmlEscape(value) + ("</" + tag + ">") + after);
    EscapeHasNoMarkup(value);
    NoMarkupNoTag(XmlEscape(value), "</" + tag + ">", after);
    SplitAt(XmlEscape(value), "</" + tag + ">", after);
    UnescapeOfEscape(value);
  }
}
