/** Event lines: one JSON object a line, read back by a JSON parser (section 7 of RFC 8259). */
module JsonLine {
  import opened Wrappers
  import opened Decimal
  import opened Sequences

  datatype Value = String(text: string) | Number(n: nat) | Null

  type Field = (string, Value)

  // ---------- printing ----------

  /** Unicode's control characters, the general category Cc. */
  predicate IsControl(c: char) { c as int < 0x20 || 0x7F <= c as int < 0xA0 }

  function HexDigit(d: nat): char
    requires d < 16
  {
    if d < 10 then '0' + d as char else 'a' + (d - 10) as char
  }

  function Escape(c: char): string {
    if c == '"' then "\\\""
    else if c == '\\' then "\\\\"
    else if c == '\n' then "\\n"
    else if c == '\r' then "\\r"
    else if c == '\t' then "\\t"
    else if IsControl(c) then ['\\', 'u', '0', '0', HexDigit(c as int / 16), HexDigit(c as int % 16)]
    else [c]
  }

  /** Quotes, backslashes, line ends and tabs have short escapes, other control characters their four
      digits in lower case, and every other character stands for itself. */
  lemma EscapeExactly(c: char)
    ensures Escape('"') == ['\\', '"'] && Escape('\\') == ['\\', '\\']
    ensures Escape('\n') == ['\\', 'n'] && Escape('\r') == ['\\', 'r'] && Escape('\t') == ['\\', 't']
    ensures c !in {'"', '\\', '\n', '\r', '\t'} ==>
              Escape(c) == if c as int <= 0x1F || 0x7F <= c as int <= 0x9F
                           then "\\u00" + ["0123456789abcdef"[c as int / 16]] + ["0123456789abcdef"[c as int % 16]]
                           else [c]
  {}

  function Escaped(value: string): string {
    if value == [] then [] else Escape(value[0]) + Escaped(value[1..])
  }

  function Quoted(value: string): string { ['"'] + Escaped(value) + ['"'] }

  function ValueText(value: Value): string {
    match value
    case String(text) => Quoted(text)
    case Number(n) => Numeral(n)
    case Null => "null"
  }

  /** The members that follow the first, each after a comma. */
  function FieldsText(fields: seq<Field>): string {
    if fields == [] then []
    else [','] + (FieldText(fields[0]) + FieldsText(fields[1..]))
  }

  function FieldText(field: Field): string { Quoted(field.0) + [':'] + ValueText(field.1) }

  function ObjectText(members: seq<Field>): string
    requires members != []
  {
    ['{'] + (FieldText(members[0]) + (FieldsText(members[1..]) + ['}']))
  }

  /** What an event line says: the schema, the event, the fields. */
  function Members(event: string, fields: seq<Field>): seq<Field> {
    [("schema", String("ii.event/v1")), ("event", String(event))] + fields
  }

  /** How every line begins, up to the event's name. */
  const HEADER := ['{'] + "\"schema\"" + [':'] + "\"ii.event/v1\"" + [','] + "\"event\"" + [':']

  lemma {:induction false} EscapedSnoc(value: string, c: char)
    ensures Escaped(value + [c]) == Escaped(value) + Escape(c)
  {
    if value == [] {
      assert (value + [c])[1..] == [] && Escape(c) + [] == Escape(c);
    } else {
      assert (value + [c])[1..] == value[1..] + [c];
      EscapedSnoc(value[1..], c);
      Regroup(Escape(value[0]), Escaped(value[1..]), Escape(c));
    }
  }

  method PushString(output: string, value: string) returns (longer: string)
    ensures longer == output + Quoted(value)
  {
    longer := output + ['"'];
    for i := 0 to |value|
      invariant longer == output + (['"'] + Escaped(value[..i]))
    {
      EscapedSnoc(value[..i], value[i]);
      assert value[..i] + [value[i]] == value[..i + 1];
      Regroup(['"'], Escaped(value[..i]), Escape(value[i]));
      Regroup(output, ['"'] + Escaped(value[..i]), Escape(value[i]));
      longer := longer + Escape(value[i]);
    }
    assert value[..|value|] == value;
    Regroup(output, ['"'] + Escaped(value), ['"']);
    longer := longer + ['"'];
  }

  // ---------- reading ----------

  function HexValue(c: char): Option<nat> {
    if '0' <= c <= '9' then Some((c - '0') as nat)
    else if 'a' <= c <= 'f' then Some((c - 'a') as nat + 10)
    else if 'A' <= c <= 'F' then Some((c - 'A') as nat + 10)
    else None
  }

  datatype Read<T> = Read(value: T, rest: string)

  /** The character of a `\u` escape; halves of surrogate pairs are not read. */
  function UnicodeEscape(s: string): Option<char>
    requires |s| >= 4
  {
    match (HexValue(s[0]), HexValue(s[1]), HexValue(s[2]), HexValue(s[3]))
    case (Some(a), Some(b), Some(c), Some(d)) =>
      var code := ((a * 16 + b) * 16 + c) * 16 + d;
      if code < 0xD800 || 0xE000 <= code < 0x1_0000 then Some(code as char) else None
    case _ => None
  }

  /** One character of a string, written out or escaped; not the closing quote. */
  function ReadChar(s: string): (r: Option<Read<char>>)
    requires s != []
    ensures r.Some? ==> |r.value.rest| < |s|
  {
    if s[0] == '"' || s[0] as int < 0x20 then None
    else if s[0] != '\\' then Some(Read(s[0], s[1..]))
    else if |s| < 2 then None
    else match s[1]
      case '"' => Some(Read('"', s[2..]))
      case '\\' => Some(Read('\\', s[2..]))
      case '/' => Some(Read('/', s[2..]))
      case 'b' => Some(Read(8 as char, s[2..]))
      case 'f' => Some(Read(12 as char, s[2..]))
      case 'n' => Some(Read('\n', s[2..]))
      case 'r' => Some(Read('\r', s[2..]))
      case 't' => Some(Read('\t', s[2..]))
      case 'u' =>
        if |s| < 6 then None
        else (match UnicodeEscape(s[2..6]) case None => None case Some(c) => Some(Read(c, s[6..])))
      case _ => None
  }

  /** Up to and including the closing quote. */
  function ReadChars(s: string): (r: Option<Read<string>>)
    ensures r.Some? ==> |r.value.rest| < |s|
    decreases |s|
  {
    if s == [] then None
    else if s[0] == '"' then Some(Read([], s[1..]))
    else match ReadChar(s)
      case None => None
      case Some(first) =>
        match ReadChars(first.rest)
        case None => None
        case Some(more) => Some(Read([first.value] + more.value, more.rest))
  }

  function ReadString(s: string): (r: Option<Read<string>>)
    ensures r.Some? ==> |r.value.rest| < |s|
  {
    if s != [] && s[0] == '"' then ReadChars(s[1..]) else None
  }

  function DigitCount(s: string): (n: nat)
    ensures n <= |s| && AllDigits(s[..n]) && (n < |s| ==> !IsDigit(s[n]))
  {
    if s == [] || !IsDigit(s[0]) then 0
    else
      assert forall n :: 0 < n <= |s| ==> s[..n] == [s[0]] + s[1..][..n - 1];
      1 + DigitCount(s[1..])
  }

  /** Digits without a needless zero in front. */
  function ReadNumber(s: string): (r: Option<Read<nat>>)
    ensures r.Some? ==> |r.value.rest| < |s|
  {
    var n := DigitCount(s);
    if n == 0 || (n > 1 && s[0] == '0') then None else Some(Read(Decimal.Value(s[..n]), s[n..]))
  }

  function ReadValue(s: string): (r: Option<Read<Value>>)
    ensures r.Some? ==> |r.value.rest| < |s|
  {
    if s == [] then None
    else if s[0] == '"' then
      match ReadString(s) case None => None case Some(r) => Some(Read(String(r.value), r.rest))
    else if s[0] == 'n' then
      if "null" <= s then Some(Read(Null, s[4..])) else None
    else
      match ReadNumber(s) case None => None case Some(r) => Some(Read(Number(r.value), r.rest))
  }

  function ReadField(s: string): (r: Option<Read<Field>>)
    ensures r.Some? ==> |r.value.rest| < |s|
  {
    match ReadString(s)
    case None => None
    case Some(name) =>
      if name.rest == [] || name.rest[0] != ':' then None
      else match ReadValue(name.rest[1..])
        case None => None
        case Some(value) => Some(Read((name.value, value.value), value.rest))
  }

  /** The members after the first, up to the closing brace, which ends the text. */
  function ReadFields(s: string): Option<seq<Field>>
    decreases |s|
  {
    if s == ['}'] then Some([])
    else if s == [] || s[0] != ',' then None
    else match ReadField(s[1..])
      case None => None
      case Some(first) =>
        match ReadFields(first.rest)
        case None => None
        case Some(more) => Some([first.value] + more)
  }

  function ReadObject(s: string): Option<seq<Field>> {
    if s == [] || s[0] != '{' then None
    else if s == "{}" then Some([])
    else match ReadField(s[1..])
      case None => None
      case Some(first) =>
        match ReadFields(first.rest)
        case None => None
        case Some(more) => Some([first.value] + more)
  }

  // ---------- every line reads back ----------

  lemma HexDigitReadsBack(d: nat)
    requires d < 16
    ensures HexValue(HexDigit(d)) == Some(d)
  {}

  lemma CodeReadsBack(code: nat)
    requires code < 0xA0
    ensures UnicodeEscape(['0', '0', HexDigit(code / 16), HexDigit(code % 16)]) == Some(code as char)
  {
    HexDigitReadsBack(0);
    HexDigitReadsBack(code / 16);
    HexDigitReadsBack(code % 16);
    assert (0 * 16 + code / 16) * 16 + code % 16 == code;
  }

  lemma CharReadsBack(c: char, rest: string)
    ensures Escape(c) != [] && Escape(c)[0] != '"' && ReadChar(Escape(c) + rest) == Some(Read(c, rest))
  {
    var e := Escape(c);
    assert (e + rest)[|e|..] == rest;
    if |e| == 6 {
      CodeReadsBack(c as int);
      assert (e + rest)[2..6] == e[2..] == ['0', '0', HexDigit(c as int / 16), HexDigit(c as int % 16)];
    }
  }

  lemma {:induction false} CharsReadBack(value: string, rest: string)
    ensures ReadChars(Escaped(value) + (['"'] + rest)) == Some(Read(value, rest))
  {
    if value == [] {
      assert [] + (['"'] + rest) == ['"'] + rest && (['"'] + rest)[1..] == rest;
    } else {
      CharsReadBack(value[1..], rest);
      CharThenChars(value[0], Escaped(value[1..]) + (['"'] + rest), value[1..], rest);
      Regroup(Escape(value[0]), Escaped(value[1..]), ['"'] + rest);
      assert [value[0]] + value[1..] == value;
    }
  }

  lemma CharThenChars(c: char, more: string, tail: string, rest: string)
    requires ReadChars(more) == Some(Read(tail, rest))
    ensures ReadChars(Escape(c) + more) == Some(Read([c] + tail, rest))
  {
    CharReadsBack(c, more);
  }

  lemma StringReadsBack(value: string, rest: string)
    ensures ReadString(Quoted(value) + rest) == Some(Read(value, rest)) && Quoted(value)[0] == '"'
  {
    CharsReadBack(value, rest);
    QuotedSplits(Escaped(value), rest);
  }

  lemma QuotedSplits(text: string, rest: string)
    ensures (['"'] + text + ['"'] + rest)[1..] == text + (['"'] + rest)
  {}

  lemma {:induction false} NumeralStart(n: nat)
    ensures Numeral(n)[0] == '0' ==> |Numeral(n)| == 1
    ensures n > 0 ==> Numeral(n)[0] != '0'
  {
    if n >= 10 { NumeralStart(n / 10); }
  }

  lemma {:induction false} DigitsEnd(digits: string, rest: string)
    requires AllDigits(digits) && (rest == [] || !IsDigit(rest[0]))
    ensures DigitCount(digits + rest) == |digits|
  {
    if digits == [] {
      assert digits + rest == rest;
    } else {
      assert (digits + rest)[1..] == digits[1..] + rest;
      assert digits[0] in digits;
      DigitsEnd(digits[1..], rest);
    }
  }

  lemma NumberReadsBack(n: nat, rest: string)
    requires rest == [] || !IsDigit(rest[0])
    ensures ReadNumber(Numeral(n) + rest) == Some(Read(n, rest)) && IsDigit(Numeral(n)[0])
  {
    NumeralStart(n);
    DigitsEnd(Numeral(n), rest);
    ValueOfNumeral(n);
    assert Numeral(n)[0] in Numeral(n);
    assert (Numeral(n) + rest)[..|Numeral(n)|] == Numeral(n) && (Numeral(n) + rest)[|Numeral(n)|..] == rest;
  }

  lemma ValueReadsBack(value: Value, rest: string)
    requires rest != [] && !IsDigit(rest[0])
    ensures ReadValue(ValueText(value) + rest) == Some(Read(value, rest))
  {
    match value
    case String(text) => StringReadsBack(text, rest);
    case Number(n) => NumberReadsBack(n, rest);
    case Null => assert ("null" + rest)[4..] == rest;
  }

  lemma FieldSplits(name: string, value: string, rest: string)
    ensures name + [':'] + value + rest == name + ([':'] + (value + rest))
  {}

  lemma FieldReadsBack(field: Field, rest: string)
    requires rest != [] && !IsDigit(rest[0])
    ensures ReadField(FieldText(field) + rest) == Some(Read(field, rest))
  {
    var value := ValueText(field.1) + rest;
    FieldSplits(Quoted(field.0), ValueText(field.1), rest);
    StringReadsBack(field.0, [':'] + value);
    assert ([':'] + value)[1..] == value;
    ValueReadsBack(field.1, rest);
  }

  lemma FieldsStart(fields: seq<Field>)
    ensures fields == [] ==> FieldsText(fields) + ['}'] == ['}']
    ensures fields != [] ==>
              FieldsText(fields) + ['}'] == [','] + (FieldText(fields[0]) + (FieldsText(fields[1..]) + ['}']))
  {
    if fields == [] {
      assert [] + ['}'] == ['}'];
    } else {
      Comma(FieldText(fields[0]), FieldsText(fields[1..]), ['}']);
    }
  }

  lemma Comma(a: string, b: string, c: string)
    ensures [','] + (a + b) + c == [','] + (a + (b + c))
  {}

  lemma {:induction false} FieldsReadBack(fields: seq<Field>)
    ensures ReadFields(FieldsText(fields) + ['}']) == Some(fields)
  {
    if fields == [] {
      FieldsStart(fields);
    } else {
      FieldsReadBack(fields[1..]);
      MoreFields(fields[0], fields[1..], fields);
    }
  }

  lemma MoreFields(first: Field, tail: seq<Field>, fields: seq<Field>)
    requires fields == [first] + tail && ReadFields(FieldsText(tail) + ['}']) == Some(tail)
    ensures ReadFields(FieldsText(fields) + ['}']) == Some(fields)
  {
    var more := FieldsText(tail) + ['}'];
    assert fields[1..] == tail;
    FieldsStart(fields);
    FieldsStart(tail);
    FieldReadsBack(first, more);
    FieldThenFields(FieldText(first), more, first, tail);
  }

  lemma FieldThenFields(text: string, more: string, first: Field, tail: seq<Field>)
    requires ReadField(text + more) == Some(Read(first, more)) && ReadFields(more) == Some(tail)
    ensures ReadFields([','] + (text + more)) == Some([first] + tail)
  {
    assert ([','] + (text + more))[1..] == text + more;
  }

  lemma ObjectReadsBack(members: seq<Field>)
    requires members != []
    ensures ReadObject(ObjectText(members)) == Some(members)
  {
    var more := FieldsText(members[1..]) + ['}'];
    FieldsReadBack(members[1..]);
    FieldsStart(members[1..]);
    FieldReadsBack(members[0], more);
    ObjectStarts(FieldText(members[0]), more, members[0], members[1..]);
    assert [members[0]] + members[1..] == members;
  }

  lemma ObjectStarts(text: string, more: string, first: Field, tail: seq<Field>)
    requires text != [] && text[0] != '}'
    requires ReadField(text + more) == Some(Read(first, more)) && ReadFields(more) == Some(tail)
    ensures ReadObject(['{'] + (text + more)) == Some([first] + tail)
  {
    assert (['{'] + (text + more))[1..] == text + more;
  }

  // ---------- the printer ----------

  predicate Plain(s: string) {
    forall i :: 0 <= i < |s| ==> ' ' <= s[i] <= 'z' && s[i] != '"' && s[i] != '\\'
  }

  lemma {:induction false} PlainIsUnchanged(s: string)
    requires Plain(s)
    ensures Escaped(s) == s
  {
    if s != [] {
      PlainIsUnchanged(s[1..]);
    }
  }

  lemma ObjectStartsWith(name: string, value: string, next: string, event: string, fields: seq<Field>)
    ensures ObjectText([(name, String(value)), (next, String(event))] + fields)
            == ['{'] + Quoted(name) + [':'] + Quoted(value) + [','] + Quoted(next) + [':'] + Quoted(event)
                + FieldsText(fields) + ['}']
  {
    var members := [(name, String(value)), (next, String(event))] + fields;
    var tail := members[1..];
    assert tail[1..] == fields && tail[0] == (next, String(event));
    Unfold(Quoted(name), Quoted(value), Quoted(next), Quoted(event), FieldsText(fields));
  }

  lemma Unfold(a: string, b: string, c: string, d: string, e: string)
    ensures ['{'] + ((a + [':'] + b) + ([','] + ((c + [':'] + d) + e) + ['}']))
            == ['{'] + a + [':'] + b + [','] + c + [':'] + d + e + ['}']
  {}

  lemma PlainInQuotes(s: string, text: string)
    requires Plain(s) && |text| == |s| + 2 && text[0] == '"' && text[|s| + 1] == '"' && text[1..|s| + 1] == s
    ensures Quoted(s) == text
  {
    PlainIsUnchanged(s);
  }

  lemma QuotedNames(name: string, value: string, next: string)
    requires name == "schema" && value == "ii.event/v1" && next == "event"
    ensures Quoted(name) == "\"schema\"" && Quoted(value) == "\"ii.event/v1\"" && Quoted(next) == "\"event\""
  {
    PlainInQuotes(name, "\"schema\"");
    PlainInQuotes(value, "\"ii.event/v1\"");
    PlainInQuotes(next, "\"event\"");
  }

  /** The fixed start of a line is the schema member and the name of the next. */
  lemma HeaderIsSchema(name: string, value: string, next: string)
    requires name == "schema" && value == "ii.event/v1" && next == "event"
    ensures ['{'] + Quoted(name) + [':'] + Quoted(value) + [','] + Quoted(next) + [':'] == HEADER
  {
    QuotedNames(name, value, next);
  }

  method PushField(output: string, field: Field) returns (longer: string)
    ensures longer == output + ([','] + FieldText(field))
  {
    NextMember(output, Quoted(field.0), ValueText(field.1));
    longer := PushString(output + [','], field.0);
    longer := longer + [':'];
    match field.1 {
      case String(text) => longer := PushString(longer, text);
      case Number(n) => longer := longer + Numeral(n);
      case Null => longer := longer + "null";
    }
  }

  method PushFields(output: string, fields: seq<Field>) returns (longer: string)
    ensures longer == output + FieldsText(fields)
  {
    longer := output;
    assert output + [] == output;
    ghost var text: string := [];
    for i := 0 to |fields|
      invariant text == FieldsText(fields[..i]) && longer == output + text
    {
      FieldsTextGrows(fields, i, text);
      Regroup(output, text, [','] + FieldText(fields[i]));
      longer := PushField(longer, fields[i]);
      text := text + ([','] + FieldText(fields[i]));
    }
    assert fields[..|fields|] == fields;
  }

  lemma FieldsTextGrows(fields: seq<Field>, i: nat, text: string)
    requires i < |fields| && text == FieldsText(fields[..i])
    ensures FieldsText(fields[..i + 1]) == text + ([','] + FieldText(fields[i]))
  {
    FieldsTextSnoc(fields[..i], fields[i]);
    PrefixGrows(fields, i);
  }

  lemma PrefixGrows(fields: seq<Field>, i: nat)
    requires i < |fields|
    ensures fields[..i] + [fields[i]] == fields[..i + 1]
  {}

  /** Build a line member by member. */
  method Line(event: string, fields: seq<Field>) returns (output: string)
    ensures output == ObjectText(Members(event, fields))
  {
    output := PushString(HEADER, event);
    output := PushFields(output, fields);
    output := output + ['}'];
    LineIsObject(event, fields);
  }

  lemma LineIsObject(event: string, fields: seq<Field>)
    ensures ObjectText(Members(event, fields)) == HEADER + Quoted(event) + FieldsText(fields) + ['}']
  {
    HeaderIsSchema("schema", "ii.event/v1", "event");
    ObjectStartsWith("schema", "ii.event/v1", "event", event, fields);
  }

  lemma NextMember(start: string, name: string, value: string)
    ensures start + [','] + name + [':'] + value == start + ([','] + (name + [':'] + value))
  {}

  lemma {:induction false} FieldsTextSnoc(fields: seq<Field>, last: Field)
    ensures FieldsText(fields + [last]) == FieldsText(fields) + ([','] + FieldText(last))
  {
    if fields == [] {
      assert (fields + [last])[1..] == [] && FieldText(last) + [] == FieldText(last);
    } else {
      assert (fields + [last])[1..] == fields[1..] + [last];
      FieldsTextSnoc(fields[1..], last);
      OneMoreMember(FieldText(fields[0]), FieldsText(fields[1..]), [','] + FieldText(last));
    }
  }

  lemma OneMoreMember(a: string, b: string, c: string)
    ensures [','] + (a + (b + c)) == [','] + (a + b) + c
  {}

  // ---------- a stream of lines ----------

  predicate NoControls(s: string) { forall c :: c in s ==> c as int >= 0x20 && !(0x7F <= c as int <= 0x9F) }

  lemma {:induction false} EscapedHasNoControls(s: string)
    ensures NoControls(Escaped(s))
  {
    if s != [] { EscapedHasNoControls(s[1..]); }
  }

  lemma {:induction false} FieldsHaveNoControls(fields: seq<Field>)
    ensures NoControls(FieldsText(fields))
  {
    if fields != [] {
      FieldHasNoControls(fields[0]);
      FieldsHaveNoControls(fields[1..]);
    }
  }

  lemma FieldHasNoControls(field: Field)
    ensures NoControls(FieldText(field))
  {
    EscapedHasNoControls(field.0);
    if field.1.String? { EscapedHasNoControls(field.1.text); }
  }

  /** No line holds a raw line break, nor any other control character. */
  lemma ObjectHasNoControls(members: seq<Field>)
    requires members != []
    ensures NoControls(ObjectText(members))
  {
    FieldHasNoControls(members[0]);
    FieldsHaveNoControls(members[1..]);
  }

  datatype Event = Event(name: string, fields: seq<Field>)

  /** What is written for events one after another. */
  function StreamText(events: seq<Event>): string {
    if events == [] then []
    else ObjectText(Members(events[0].name, events[0].fields)) + (['\n'] + StreamText(events[1..]))
  }

  function LineEnd(s: string): (n: nat)
    ensures n <= |s| && (n < |s| ==> s[n] == '\n')
  {
    if s == [] || s[0] == '\n' then 0 else 1 + LineEnd(s[1..])
  }

  /** Every line of a stream as an object; each has to end in a line break. */
  function ReadStream(s: string): Option<seq<seq<Field>>>
    decreases |s|
  {
    if s == [] then Some([])
    else
      var n := LineEnd(s);
      if n == |s| then None
      else match (ReadObject(s[..n]), ReadStream(s[n + 1..]))
        case (Some(first), Some(more)) => Some([first] + more)
        case _ => None
  }

  function AllMembers(events: seq<Event>): seq<seq<Field>> {
    if events == [] then [] else [Members(events[0].name, events[0].fields)] + AllMembers(events[1..])
  }

  lemma {:induction false} LineEnds(line: string, rest: string)
    requires NoControls(line)
    ensures LineEnd(line + (['\n'] + rest)) == |line|
  {
    var s := line + (['\n'] + rest);
    if line != [] {
      assert s[0] == line[0] && line[0] in line;
      assert s[1..] == line[1..] + (['\n'] + rest);
      assert forall c :: c in line[1..] ==> c in line;
      LineEnds(line[1..], rest);
    }
  }

  lemma LineThenStream(line: string, rest: string, first: seq<Field>, more: seq<seq<Field>>)
    requires NoControls(line) && ReadObject(line) == Some(first) && ReadStream(rest) == Some(more)
    ensures ReadStream(line + (['\n'] + rest)) == Some([first] + more)
  {
    var s := line + (['\n'] + rest);
    LineEnds(line, rest);
    assert s[..|line|] == line && s[|line| + 1..] == rest;
  }

  /** A reader that splits the output at line breaks and parses each line gets every event back, in
      order, whatever characters names and strings hold. */
  lemma {:induction false} StreamReadsBack(events: seq<Event>)
    ensures ReadStream(StreamText(events)) == Some(AllMembers(events))
  {
    if events != [] {
      var members := Members(events[0].name, events[0].fields);
      StreamReadsBack(events[1..]);
      ObjectReadsBack(members);
      ObjectHasNoControls(members);
      LineThenStream(ObjectText(members), StreamText(events[1..]), members, AllMembers(events[1..]));
    }
  }
}
