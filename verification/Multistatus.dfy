/** Recognising a WebDAV multistatus answer from the events of an XML reader. */
module Multistatus {
  import opened Wrappers

  /** What the reader delivers before the end of the body. It matches end tags to start tags itself;
      `Reference` is a character or entity reference, which is an event of its own and not text,
      `Broken` the reader's own error, `Other` a comment, declaration, instruction or document type. */
  datatype Event =
    | Start(name: string)
    | Empty(name: string)
    | End
    | Text(blank: bool)
    | CData
    | Reference
    | Other
    | Broken

  datatype Verdict = Answer(multistatus: bool) | Malformed

  const MULTISTATUS := "multistatus"

  // ---------- documents ----------

  /** What may stand between the tags of an element, as a first piece and what follows it. */
  datatype Forest =
    | Nothing
    | Leaf(event: Event, next: Forest)
    | Element(name: string, inner: Forest, next: Forest)

  predicate IsLeaf(e: Event) { e.Empty? || e.Text? || e.CData? || e.Reference? || e.Other? }

  predicate WellFormed(f: Forest) {
    match f
    case Nothing => true
    case Leaf(event, next) => IsLeaf(event) && WellFormed(next)
    case Element(_, inner, next) => WellFormed(inner) && WellFormed(next)
  }

  function Events(f: Forest): seq<Event> {
    match f
    case Nothing => []
    case Leaf(event, next) => [event] + Events(next)
    case Element(name, inner, next) => [Start(name)] + Events(inner) + [End] + Events(next)
  }

  /** White space, and what is not content at all. */
  predicate Misc(e: Event) { e.Other? || (e.Text? && e.blank) }

  /** What the code lets pass outside the root: that, and references, which are content. */
  predicate Passed(e: Event) { Misc(e) || e.Reference? }

  predicate AllMisc(es: seq<Event>) { forall e :: e in es ==> Misc(e) }

  predicate AllPassed(es: seq<Event>) { forall e :: e in es ==> Passed(e) }

  datatype Root = Full(name: string, inner: Forest) | Bare(name: string)

  datatype Document = Document(prolog: seq<Event>, root: Root, epilog: seq<Event>)

  /** One rooted tree, with references admitted around it. */
  predicate IsDocument(d: Document) {
    AllPassed(d.prolog) && AllPassed(d.epilog) && (d.root.Full? ==> WellFormed(d.root.inner))
  }

  /** One rooted tree with nothing but white space and comments around it. */
  predicate IsStrict(d: Document) { IsDocument(d) && AllMisc(d.prolog) && AllMisc(d.epilog) }

  function RootEvents(root: Root): seq<Event> {
    match root
    case Full(name, inner) => [Start(name)] + Events(inner) + [End]
    case Bare(name) => [Empty(name)]
  }

  function DocumentEvents(d: Document): seq<Event> { d.prolog + RootEvents(d.root) + d.epilog }

  // ---------- the automaton ----------

  datatype State = State(root: Option<bool>, depth: nat, finished: bool)

  const INITIAL := State(None, 0, false)

  function Step(s: State, e: Event): Option<State> {
    match e
    case Broken => None
    case Start(name) =>
      if s.root.None? then Some(State(Some(name == MULTISTATUS), 1, s.finished))
      else if s.finished then None
      else Some(s.(depth := s.depth + 1))
    case Empty(name) =>
      if s.root.None? then Some(s.(root := Some(name == MULTISTATUS), finished := true))
      else if s.finished then None
      else Some(s)
    case End => if s.depth == 0 then None else Some(s.(depth := s.depth - 1, finished := s.depth == 1))
    case Text(blank) => if (s.root.None? || s.finished) && !blank then None else Some(s)
    case CData => if s.root.None? || s.finished then None else Some(s)
    case Reference => Some(s)
    case Other => Some(s)
  }

  function Ended(s: State): Verdict {
    if s.depth == 0 then Answer(s.root == Some(true)) else Malformed
  }

  function Run(s: State, es: seq<Event>): Verdict
    decreases |es|
  {
    if es == [] then Ended(s)
    else match Step(s, es[0])
      case None => Malformed
      case Some(next) => Run(next, es[1..])
  }

  function Judge(status: nat, es: seq<Event>): Verdict {
    if 200 <= status < 300 then Run(INITIAL, es) else Answer(false)
  }

  /** The loop itself, event by event: yes for a success whose body spells a rooted tree named
      `multistatus`, no for any other status or tree or for none, and an error otherwise. */
  method IsMultistatus(status: nat, events: seq<Event>) returns (verdict: Verdict)
    ensures verdict == Judge(status, events)
    ensures verdict == Answer(true) <==> 200 <= status < 300 && Spells(events, "multistatus")
    ensures verdict == Answer(false) <==>
              || status < 200 || status >= 300 || AllPassed(events)
              || exists name :: name != "multistatus" && Spells(events, name)
  {
    YesExactly(events);
    NoExactly(events);
    if !(200 <= status < 300) { return Answer(false); }
    var root: Option<bool>, depth: nat, finished := None, 0, false;
    var i := 0;
    while i < |events|
      invariant i <= |events|
      invariant Run(INITIAL, events) == Run(State(root, depth, finished), events[i..])
    {
      assert events[i..][1..] == events[i + 1..];
      match events[i] {
        case Broken => return Malformed;
        case Start(name) =>
          if root.None? { root, depth := Some(name == MULTISTATUS), 1; }
          else if finished { return Malformed; }
          else { depth := depth + 1; }
        case Empty(name) =>
          if root.None? { root, finished := Some(name == MULTISTATUS), true; }
          else if finished { return Malformed; }
        case End =>
          if depth == 0 { return Malformed; }
          depth := depth - 1;
          finished := depth == 0;
        case Text(blank) => if (root.None? || finished) && !blank { return Malformed; }
        case CData => if root.None? || finished { return Malformed; }
        case Reference =>
        case Other =>
      }
      i := i + 1;
    }
    verdict := if depth == 0 then Answer(root == Some(true)) else Malformed;
  }

  // ---------- a document is accepted ----------

  lemma RunStep(s: State, e: Event, es: seq<Event>)
    ensures Run(s, [e] + es) == match Step(s, e) case None => Malformed case Some(next) => Run(next, es)
  {
    assert ([e] + es)[1..] == es;
  }

  /** Inside the root the automaton passes over a forest and is where it was. */
  lemma {:induction false} ForestIsPassed(s: State, f: Forest, rest: seq<Event>)
    requires s.root.Some? && s.depth > 0 && !s.finished && WellFormed(f)
    ensures Run(s, Events(f) + rest) == Run(s, rest)
    decreases f
  {
    match f
    case Nothing => assert [] + rest == rest;
    case Leaf(event, next) =>
      LeafSplits(event, next, rest);
      RunStep(s, event, Events(next) + rest);
      ForestIsPassed(s, next, rest);
    case Element(name, inner, next) =>
      var after := [End] + (Events(next) + rest);
      ElementSplits(name, inner, next, rest);
      RunStep(s, Start(name), Events(inner) + after);
      ForestIsPassed(s.(depth := s.depth + 1), inner, after);
      RunStep(s.(depth := s.depth + 1), End, Events(next) + rest);
      ForestIsPassed(s, next, rest);
  }

  lemma LeafSplits(event: Event, next: Forest, rest: seq<Event>)
    ensures Events(Leaf(event, next)) + rest == [event] + (Events(next) + rest)
  {}

  lemma ElementSplits(name: string, inner: Forest, next: Forest, rest: seq<Event>)
    ensures Events(Element(name, inner, next)) + rest
            == [Start(name)] + (Events(inner) + ([End] + (Events(next) + rest)))
  {}

  lemma {:induction false} PassedOver(s: State, es: seq<Event>, rest: seq<Event>)
    requires AllPassed(es)
    ensures Run(s, es + rest) == Run(s, rest)
    decreases |es|
  {
    if es == [] {
      assert es + rest == rest;
    } else {
      assert es + rest == [es[0]] + (es[1..] + rest);
      assert Passed(es[0]);
      RunStep(s, es[0], es[1..] + rest);
      PassedOver(s, es[1..], rest);
    }
  }

  lemma DocumentIsAccepted(d: Document)
    requires IsDocument(d)
    ensures Run(INITIAL, DocumentEvents(d)) == Answer(d.root.name == MULTISTATUS)
  {
    var found := Some(d.root.name == MULTISTATUS);
    assert DocumentEvents(d) == d.prolog + (RootEvents(d.root) + d.epilog);
    PassedOver(INITIAL, d.prolog, RootEvents(d.root) + d.epilog);
    match d.root {
      case Bare(name) => RunStep(INITIAL, Empty(name), d.epilog);
      case Full(name, inner) =>
        assert RootEvents(d.root) + d.epilog == [Start(name)] + (Events(inner) + ([End] + d.epilog));
        RunStep(INITIAL, Start(name), Events(inner) + ([End] + d.epilog));
        ForestIsPassed(State(found, 1, false), inner, [End] + d.epilog);
        RunStep(State(found, 1, false), End, d.epilog);
    }
    assert d.epilog + [] == d.epilog;
    PassedOver(State(found, 0, true), d.epilog, []);
  }

  // ---------- only a document is accepted ----------

  lemma Regroup(a: seq<Event>, b: seq<Event>, c: seq<Event>, d: seq<Event>)
    ensures a + (b + c + d) == a + b + c + d
  {}

  lemma ElementThen(name: string, inner: Forest, next: Forest, rest: seq<Event>)
    ensures Events(Element(name, inner, next)) + [End] + rest
            == [Start(name)] + (Events(inner) + [End] + (Events(next) + [End] + rest))
  {}

  lemma SplitFirst(es: seq<Event>)
    requires es != []
    ensures es == [es[0]] + es[1..]
  {}

  lemma DocumentStarts(root: Root, epilog: seq<Event>)
    ensures DocumentEvents(Document([], root, epilog)) == RootEvents(root) + epilog
  {}

  lemma PrologGrows(e: Event, d: Document)
    ensures DocumentEvents(d.(prolog := [e] + d.prolog)) == [e] + DocumentEvents(d)
  {}

  /** From inside an element: the events up to its end tag form a forest. */
  lemma {:induction false} ForestIsFound(s: State, es: seq<Event>) returns (f: Forest, rest: seq<Event>)
    requires s.root.Some? && s.depth > 0 && !s.finished && Run(s, es).Answer?
    ensures WellFormed(f) && es == Events(f) + [End] + rest
    ensures Run(s, es) == Run(s.(depth := s.depth - 1, finished := s.depth == 1), rest)
    decreases |es|
  {
    var e, tail := es[0], es[1..];
    SplitFirst(es);
    if e.End? {
      f, rest := Nothing, tail;
    } else if e.Start? {
      var name := e.name;
      var inner, after := ForestIsFound(s.(depth := s.depth + 1), tail);
      var next;
      next, rest := ForestIsFound(s, after);
      f := Element(name, inner, next);
      ElementThen(name, inner, next, rest);
    } else {
      var next;
      next, rest := ForestIsFound(s, tail);
      f := Leaf(e, next);
      Regroup([e], Events(next), [End], rest);
    }
  }

  lemma {:induction false} AfterRootIsPassed(s: State, es: seq<Event>)
    requires s.root.Some? && s.depth == 0 && s.finished && Run(s, es).Answer?
    ensures AllPassed(es) && Run(s, es) == Answer(s.root == Some(true))
  {
    if es != [] {
      AfterRootIsPassed(s, es[1..]);
      assert es == [es[0]] + es[1..];
    }
  }

  /** An answer means the events are a document, or no element was there at all. */
  lemma {:induction false} DocumentIsFound(es: seq<Event>) returns (d: Option<Document>)
    requires Run(INITIAL, es).Answer?
    ensures d.None? ==> AllPassed(es) && Run(INITIAL, es) == Answer(false)
    ensures d.Some? ==> IsDocument(d.value) && es == DocumentEvents(d.value)
  {
    if es == [] { return None; }
    var e, tail := es[0], es[1..];
    SplitFirst(es);
    if e.Start? {
      var name := e.name;
      var inner, rest := ForestIsFound(State(Some(name == MULTISTATUS), 1, false), tail);
      AfterRootIsPassed(State(Some(name == MULTISTATUS), 0, true), rest);
      d := Some(Document([], Full(name, inner), rest));
      DocumentStarts(Full(name, inner), rest);
      Regroup([Start(name)], Events(inner), [End], rest);
    } else if e.Empty? {
      var name := e.name;
      AfterRootIsPassed(State(Some(name == MULTISTATUS), 0, true), tail);
      d := Some(Document([], Bare(name), tail));
      DocumentStarts(Bare(name), tail);
    } else {
      var later := DocumentIsFound(tail);
      if later.None? { return None; }
      d := Some(later.value.(prolog := [e] + later.value.prolog));
      PrologGrows(e, later.value);
    }
  }

  ghost predicate Spells(es: seq<Event>, name: string) {
    exists d: Document :: IsDocument(d) && d.root.name == name && DocumentEvents(d) == es
  }

  /** The answer is yes exactly for the events of one rooted tree whose root is `multistatus`, with
      white space, comments and references around it. */
  lemma YesExactly(es: seq<Event>)
    ensures Run(INITIAL, es) == Answer(true) <==> Spells(es, MULTISTATUS)
  {
    if Run(INITIAL, es) == Answer(true) {
      var d := DocumentIsFound(es);
      DocumentIsAccepted(d.value);
      assert IsDocument(d.value) && DocumentEvents(d.value) == es;
    }
    if Spells(es, MULTISTATUS) {
      var d: Document :| IsDocument(d) && d.root.name == MULTISTATUS && DocumentEvents(d) == es;
      DocumentIsAccepted(d);
    }
  }

  /** The answer is no exactly when the root is another or there is none; every other stream,
      unbalanced or with several roots or text outside them, is an error. */
  lemma NoExactly(es: seq<Event>)
    ensures Run(INITIAL, es) == Answer(false) <==>
              AllPassed(es) || exists name :: name != MULTISTATUS && Spells(es, name)
  {
    if Run(INITIAL, es) == Answer(false) {
      var d := DocumentIsFound(es);
      if d.Some? {
        DocumentIsAccepted(d.value);
        assert Spells(es, d.value.root.name);
      }
    }
    if AllPassed(es) {
      PassedOver(INITIAL, es, []);
      assert es + [] == es;
    }
    if exists name :: name != MULTISTATUS && Spells(es, name) {
      var name :| name != MULTISTATUS && Spells(es, name);
      var d: Document :| IsDocument(d) && d.root.name == name && DocumentEvents(d) == es;
      DocumentIsAccepted(d);
    }
  }

  // ---------- references outside the root ----------

  /** Somewhere before or after the root stands a reference. */
  predicate Strays(s: State, es: seq<Event>)
    decreases |es|
  {
    es != [] &&
    (((s.root.None? || s.finished) && es[0].Reference?)
     || match Step(s, es[0]) case None => false case Some(next) => Strays(next, es[1..]))
  }

  lemma StrayStep(s: State, e: Event, es: seq<Event>)
    ensures Strays(s, [e] + es) <==>
              ((s.root.None? || s.finished) && e.Reference?)
              || match Step(s, e) case None => false case Some(next) => Strays(next, es)
  {
    assert ([e] + es)[1..] == es;
  }

  lemma {:induction false} NoStrayInside(s: State, f: Forest, rest: seq<Event>)
    requires s.root.Some? && s.depth > 0 && !s.finished && WellFormed(f)
    ensures Strays(s, Events(f) + rest) <==> Strays(s, rest)
    decreases f
  {
    match f
    case Nothing => assert [] + rest == rest;
    case Leaf(event, next) =>
      LeafSplits(event, next, rest);
      StrayStep(s, event, Events(next) + rest);
      NoStrayInside(s, next, rest);
    case Element(name, inner, next) =>
      var after := [End] + (Events(next) + rest);
      ElementSplits(name, inner, next, rest);
      StrayStep(s, Start(name), Events(inner) + after);
      NoStrayInside(s.(depth := s.depth + 1), inner, after);
      StrayStep(s.(depth := s.depth + 1), End, Events(next) + rest);
      NoStrayInside(s, next, rest);
  }

  lemma {:induction false} StraysAround(s: State, es: seq<Event>, rest: seq<Event>)
    requires AllPassed(es) && (s.root.None? || s.finished)
    ensures Strays(s, es + rest) <==> !AllMisc(es) || Strays(s, rest)
    decreases |es|
  {
    if es == [] {
      assert es + rest == rest;
    } else {
      var e, tail := es[0], es[1..];
      assert es + rest == [e] + (tail + rest);
      assert Passed(e) && es == [e] + tail;
      assert AllMisc(es) <==> Misc(e) && AllMisc(tail);
      StrayStep(s, e, tail + rest);
      StraysAround(s, tail, rest);
    }
  }

  /** In a document the automaton can tell: a reference strays iff it stands around the root. */
  lemma StraysInDocument(d: Document)
    requires IsDocument(d)
    ensures Strays(INITIAL, DocumentEvents(d)) <==> !IsStrict(d)
  {
    var found := Some(d.root.name == MULTISTATUS);
    assert DocumentEvents(d) == d.prolog + (RootEvents(d.root) + d.epilog);
    StraysAround(INITIAL, d.prolog, RootEvents(d.root) + d.epilog);
    match d.root {
      case Bare(name) => StrayStep(INITIAL, Empty(name), d.epilog);
      case Full(name, inner) =>
        assert RootEvents(d.root) + d.epilog == [Start(name)] + (Events(inner) + ([End] + d.epilog));
        StrayStep(INITIAL, Start(name), Events(inner) + ([End] + d.epilog));
        NoStrayInside(State(found, 1, false), inner, [End] + d.epilog);
        StrayStep(State(found, 1, false), End, d.epilog);
    }
    assert d.epilog + [] == d.epilog;
    StraysAround(State(found, 0, true), d.epilog, []);
  }

  ghost predicate SpellsStrictly(es: seq<Event>, name: string) {
    exists d: Document :: IsStrict(d) && d.root.name == name && DocumentEvents(d) == es
  }

  /** A yes means a tree with nothing but white space and comments around it exactly when no reference
      strays. */
  lemma StrictlyYesExactly(es: seq<Event>)
    ensures Run(INITIAL, es) == Answer(true) && !Strays(INITIAL, es) <==> SpellsStrictly(es, MULTISTATUS)
  {
    if Run(INITIAL, es) == Answer(true) && !Strays(INITIAL, es) {
      var d := DocumentIsFound(es);
      DocumentIsAccepted(d.value);
      StraysInDocument(d.value);
      assert IsStrict(d.value) && DocumentEvents(d.value) == es;
    }
    if SpellsStrictly(es, MULTISTATUS) {
      var d: Document :| IsStrict(d) && d.root.name == MULTISTATUS && DocumentEvents(d) == es;
      DocumentIsAccepted(d);
      StraysInDocument(d);
    }
  }

  /** A reference in front of the root is content, and the answer is yes all the same. */
  lemma ReferenceOutsideIsAccepted()
    ensures var es := [Reference, Empty(MULTISTATUS)];
            Run(INITIAL, es) == Answer(true) && !SpellsStrictly(es, MULTISTATUS)
  {
    var d := Document([Reference], Bare(MULTISTATUS), []);
    var es := [Reference, Empty(MULTISTATUS)];
    assert DocumentEvents(d) == es && Reference in d.prolog;
    DocumentIsAccepted(d);
    StraysInDocument(d);
    StrictlyYesExactly(es);
  }
}
