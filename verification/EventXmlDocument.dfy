/** The event data of a whole printed document, wherever its sections are. */
module EventXmlDocument {
  import opened Optional
  import opened EventXml
  import opened Units
  import opened EventXmlPrinter
  import opened EventXmlRoundTrip
  import opened EventXmlData

  /** An element of a name: empty, or what is in it. */
  datatype Content = Nothing | Holds(children: Forest)

  /** The first element of the name, in document order. */
  ghost function First(f: Forest, name: Text): Option<Content> {
    match f
    case End => None
    case Leaf(_, rest) => First(rest, name)
    case Node(inner, _, children, rest) =>
      if inner == name then Some(Holds(children))
      else if First(children, name).Some? then First(children, name) else First(rest, name)
    case Empty(inner, _, rest) => if inner == name then Some(Nothing) else First(rest, name)
  }

  /** A UserData section's fields are the elements in its first element, by name and text. */
  lemma {:induction false} FieldsAmong(f: Forest, fs: seq<Field>)
    requires IsForest(f) && AreFields(fs) && HoldsFields(f, fs)
    ensures FieldItems(TopLevel(f)) == FieldsMeaning(fs)
  {
    hide Meaning, StartTag, EmptyTag, IsName, AreAttributes;
    match f
    case End =>
    case Leaf(_, rest) => FieldsAmong(rest, fs);
    case Node(name, attributes, children, rest) =>
      OneMoreField(Child(Element(name, StartTag(name, attributes), false), TextOf(children)), TopLevel(rest));
      FieldsAmong(rest, fs[1..]);
    case Empty(name, attributes, rest) =>
      OneMoreField(Child(Element(name, EmptyTag(name, attributes), true), []), TopLevel(rest));
      FieldsAmong(rest, fs[1..]);
      NoMeaning();
  }

  lemma OneMoreField(c: Child, more: seq<Child>)
    ensures FieldItems([c] + more) == [Item(c.element.name, c.value)] + FieldItems(more)
  {}

  lemma {:induction false} RootFields(f: Forest, fs: seq<Field>)
    requires IsForest(f) && AreFields(fs) && RootHoldsFields(f, fs)
    ensures FieldsOf(f) == FieldsMeaning(fs)
  {
    match f
    case End =>
    case Leaf(_, rest) => RootFields(rest, fs);
    case Node(_, _, children, _) => FieldsAmong(children, fs);
    case Empty(_, _, _) =>
  }

  /** The fields of a UserData section: the children of its first element. */
  ghost function FieldsOf(f: Forest): seq<Item>
    requires IsForest(f)
  {
    match f
    case End => []
    case Leaf(_, rest) => FieldsOf(rest)
    case Node(_, _, children, _) => FieldItems(TopLevel(children))
    case Empty(_, _, _) => []
  }

  /** A document's event data: the Data elements of its first EventData element, or without one the fields of its
      first UserData element. */
  ghost function DataOf(f: Forest): seq<Item>
    requires IsForest(f)
  {
    FirstIsForest(f, EVENT_DATA);
    FirstIsForest(f, USER_DATA);
    match First(f, EVENT_DATA)
    case Some(Nothing) => []
    case Some(Holds(children)) => DataItems(TopLevel(children))
    case None =>
      match First(f, USER_DATA)
      case Some(Holds(children)) => FieldsOf(children)
      case _ => []
  }

  lemma {:induction false} FirstIsForest(f: Forest, name: Text)
    requires IsForest(f)
    ensures First(f, name).Some? && First(f, name).value.Holds? ==> IsForest(First(f, name).value.children)
  {
    match f
    case End =>
    case Leaf(_, rest) => FirstIsForest(rest, name);
    case Node(_, _, children, rest) =>
      FirstIsForest(children, name);
      FirstIsForest(rest, name);
    case Empty(_, _, rest) => FirstIsForest(rest, name);
  }

  // ----- passing over what does not have the name

  ghost function Search(t: Text, name: Text): Option<nat> { FindElement(t, name) }

  lemma {:induction false} FindPast(s: Text, t: Text, name: Text)
    requires LT !in s
    ensures Search(s + t, name) == After(Search(t, name), |s|)
  {
    hide ReadElement, Search;
    if s == [] {
      assert s + t == t;
    } else {
      FindPast(s[1..], t, name);
      assert s[0] in s && (s + t)[0] == s[0] && ([LT] + name)[0] == LT;
      NotAtFirst(s + t, s[1..] + t, name);
    }
  }

  lemma NotAtFirst(u: Text, t: Text, name: Text)
    requires u != [] && u[1..] == t && !IsHere(u, name)
    ensures Search(u, name) == After(Search(t, name), 1)
  {
    hide ReadElement;
  }

  lemma FindPastTag(tag: Text, t: Text, name: Text)
    requires tag != [] && LT !in tag[1..] && !IsHere(tag + t, name)
    ensures Search(tag + t, name) == After(Search(t, name), |tag|)
  {
    hide IsHere, Search;
    assert (tag + t)[1..] == tag[1..] + t;
    NotAtFirst(tag + t, tag[1..] + t, name);
    FindPast(tag[1..], t, name);
  }

  lemma FindPastStart(inner: Text, attributes: Text, t: Text, name: Text)
    requires IsName(inner) && AreAttributes(attributes) && inner != name
    ensures Search(StartTag(inner, attributes) + t, name)
         == After(Search(t, name), |StartTag(inner, attributes)|)
  {
    hide ReadElement, Search;
    var tag := StartTag(inner, attributes);
    ReadStartTag(inner, attributes, t);
    assert tag[1..] == inner + attributes + [GT];
    FindPastTag(tag, t, name);
  }

  lemma FindPastEmpty(inner: Text, attributes: Text, t: Text, name: Text)
    requires IsName(inner) && AreAttributes(attributes) && inner != name
    ensures Search(EmptyTag(inner, attributes) + t, name)
         == After(Search(t, name), |EmptyTag(inner, attributes)|)
  {
    hide ReadElement, Search;
    var tag := EmptyTag(inner, attributes);
    ReadEmptyTag(inner, attributes, t);
    assert tag[1..] == inner + attributes + [SLASH, GT];
    FindPastTag(tag, t, name);
  }

  lemma FindPastEnd(inner: Text, t: Text, name: Text)
    requires IsName(inner) && IsName(name)
    ensures Search(EndTag(inner) + t, name) == After(Search(t, name), |EndTag(inner)|)
  {
    hide ReadElement, Search;
    var tag := EndTag(inner);
    assert (tag + t)[1] == SLASH;
    assert tag[1..] == [SLASH] + inner + [GT];
    assert name[0] in name && ([LT] + name)[1] == name[0] != SLASH;
    FindPastTag(tag, t, name);
  }

  // ----- the element found

  /** The text from an element of the name on. */
  ghost predicate IsElementAt(t: Text, name: Text, attributes: Text, content: Content, tail: Text) {
    AreAttributes(attributes)
    && match content
       case Nothing => t == EmptyTag(name, attributes) + tail
       case Holds(children) => t == StartTag(name, attributes) + (PrintForest(children) + (EndTag(name) + tail))
  }

  /** What a search finds: the element at a position, or none. */
  ghost predicate IsFoundAt(t: Text, name: Text, content: Content, at: nat, attributes: Text, tail: Text) {
    Search(t, name) == Some(at) && at <= |t| && IsElementAt(t[at..], name, attributes, content, tail)
  }

  lemma FoundHere(t: Text, name: Text, content: Content, attributes: Text, tail: Text)
    requires IsName(name) && IsElementAt(t, name, attributes, content, tail)
    ensures IsFoundAt(t, name, content, 0, attributes, tail)
  {
    hide ReadElement;
    match content
    case Nothing =>
      ReadEmptyTag(name, attributes, tail);
      assert t == ([LT] + name) + (attributes + [SLASH, GT] + tail);
    case Holds(children) =>
      var more := PrintForest(children) + (EndTag(name) + tail);
      ReadStartTag(name, attributes, more);
      StartsWithTag(name, attributes, more);
  }

  /** A search of t, which goes on in rest after length characters without the element looked for. */
  ghost predicate Finds(t: Text, rest: Text, length: nat, name: Text, content: Option<Content>, at: nat,
                        attributes: Text, tail: Text) {
    if content.None? then Search(t, name) == After(Search(rest, name), length)
    else IsFoundAt(t, name, content.value, at, attributes, tail)
  }

  lemma FindsLater(s: Text, t: Text, rest: Text, length: nat, name: Text, content: Option<Content>, at: nat,
                   attributes: Text, tail: Text)
    requires Finds(t, rest, length, name, content, at, attributes, tail)
    requires Search(s + t, name) == After(Search(t, name), |s|)
    ensures Finds(s + t, rest, |s| + length, name, content, |s| + at, attributes, tail)
  {
    hide Search, IsElementAt;
    if content.Some? { SliceLater(s, t, at); }
  }

  lemma SliceLater(s: Text, t: Text, at: nat)
    requires at <= |t|
    ensures (s + t)[|s| + at..] == t[at..]
  {}

  lemma FindsHere(t: Text, rest: Text, length: nat, name: Text, content: Content, attributes: Text, tail: Text)
    requires IsName(name) && IsElementAt(t, name, attributes, content, tail)
    ensures Finds(t, rest, length, name, Some(content), 0, attributes, tail)
  {
    hide Search, IsElementAt;
    FoundHere(t, name, content, attributes, tail);
  }

  lemma FindsNothingYet(rest: Text, name: Text)
    ensures Finds(rest, rest, 0, name, None, 0, [], [])
  {}

  /** The search for a name in a printed forest finds its first element of the name, and otherwise passes it over. */
  lemma {:induction false} FindInForest(f: Forest, rest: Text, name: Text)
    returns (at: nat, attributes: Text, tail: Text)
    requires IsForest(f) && IsName(name)
    ensures Finds(PrintForest(f) + rest, rest, |PrintForest(f)|, name, First(f, name), at, attributes, tail)
    decreases f, 1
  {
    hide Search, Print, StartTag, EmptyTag, EndTag, IsName, AreAttributes, Finds, IsElementAt;
    var t := PrintForest(f) + rest;
    match f
    case End =>
      assert t == rest;
      FindsNothingYet(rest, name);
      at, attributes, tail := 0, [], [];
    case Leaf(pieces, more) =>
      var s, u := Print(pieces), PrintForest(more) + rest;
      assert t == s + u;
      NoTags(pieces);
      FindPast(s, u, name);
      at, attributes, tail := FindInForest(more, rest, name);
      FindsLater(s, u, rest, |PrintForest(more)|, name, First(f, name), at, attributes, tail);
      at := |s| + at;
    case Node(_, _, _, _) => at, attributes, tail := FindInNode(f, rest, name);
    case Empty(inner, tags, more) =>
      var s, u := EmptyTag(inner, tags), PrintForest(more) + rest;
      assert t == s + u;
      if inner == name {
        at, attributes, tail := 0, tags, u;
        ElementIs(t, name, tags, Nothing, u);
        FindsHere(t, rest, |PrintForest(f)|, name, Nothing, tags, u);
      } else {
        FindPastEmpty(inner, tags, u, name);
        at, attributes, tail := FindInForest(more, rest, name);
        FindsLater(s, u, rest, |PrintForest(more)|, name, First(f, name), at, attributes, tail);
        at := |s| + at;
      }
  }

  lemma ElementIs(t: Text, name: Text, attributes: Text, content: Content, tail: Text)
    requires AreAttributes(attributes)
    requires t == match content
                  case Nothing => EmptyTag(name, attributes) + tail
                  case Holds(children) => StartTag(name, attributes) + (PrintForest(children) + (EndTag(name) + tail))
    ensures IsElementAt(t, name, attributes, content, tail)
  {}

  lemma {:induction false} FindInNode(f: Forest, rest: Text, name: Text) returns (at: nat, attributes: Text, tail: Text)
    requires f.Node? && IsForest(f) && IsName(name)
    ensures Finds(PrintForest(f) + rest, rest, |PrintForest(f)|, name, First(f, name), at, attributes, tail)
    decreases f, 0
  {
    hide Search, StartTag, EndTag, IsName, AreAttributes, Finds, IsElementAt;
    var Node(inner, tags, children, more) := f;
    var after := PrintForest(more) + rest;
    var close := EndTag(inner) + after;
    var inside := PrintForest(children) + close;
    var t, tag := PrintForest(f) + rest, StartTag(inner, tags);
    assert t == tag + inside;
    if inner == name {
      at, attributes, tail := 0, tags, after;
      ElementIs(t, name, tags, Holds(children), after);
      FindsHere(t, rest, |PrintForest(f)|, name, Holds(children), tags, after);
      return;
    }
    FindPastStart(inner, tags, inside, name);
    at, attributes, tail := FindInForest(children, close, name);
    if First(children, name).Some? {
      FindsRest(inside, close, |PrintForest(children)|, rest, |inside| - |rest|, name, First(f, name), at, attributes,
                tail);
      FindsLater(tag, inside, rest, |inside| - |rest|, name, First(f, name), at, attributes, tail);
      at := |tag| + at;
      return;
    }
    PassedOver(inside, close, |PrintForest(children)|, name, at, attributes, tail);
    FindPastEnd(inner, after, name);
    at, attributes, tail := FindInForest(more, rest, name);
    FindsLater(EndTag(inner), after, rest, |PrintForest(more)|, name, First(f, name), at, attributes, tail);
    FindsLater(PrintForest(children), close, rest, |EndTag(inner)| + |PrintForest(more)|, name, First(f, name),
               |EndTag(inner)| + at, attributes, tail);
    FindsLater(tag, inside, rest, |PrintForest(children)| + (|EndTag(inner)| + |PrintForest(more)|), name,
               First(f, name), |PrintForest(children)| + (|EndTag(inner)| + at), attributes, tail);
    at := |tag| + (|PrintForest(children)| + (|EndTag(inner)| + at));
  }

  /** Where an element is found, it does not matter what a search without it would go on to. */
  lemma FindsRest(t: Text, rest: Text, length: nat, rest': Text, length': nat, name: Text, content: Option<Content>,
                  at: nat, attributes: Text, tail: Text)
    requires content.Some? && Finds(t, rest, length, name, content, at, attributes, tail)
    ensures Finds(t, rest', length', name, content, at, attributes, tail)
  {}

  lemma PassedOver(t: Text, rest: Text, length: nat, name: Text, at: nat, attributes: Text, tail: Text)
    requires Finds(t, rest, length, name, None, at, attributes, tail)
    ensures Search(t, name) == After(Search(rest, name), length)
  {}

  // ----- the sections

  /** From an EventData element the reader takes its top-level Data elements. */
  lemma EventDataOf(t: Text, attributes: Text, content: Content, tail: Text)
    requires IsElementAt(t, EVENT_DATA, attributes, content, tail) && (content.Holds? ==> IsForest(content.children))
    ensures ReadElement(t).Some?
    ensures ParseEventData(t) == match content case Nothing => [] case Holds(children) => DataItems(TopLevel(children))
  {
    hide Children, DataItems, TopLevel, ReadElement, CloseAt, EndTag, StartTag, EmptyTag, PrintForest;
    EventDataIsName();
    match content
    case Nothing => ReadEmptyTag(EVENT_DATA, attributes, tail);
    case Holds(f) =>
      var inside := PrintForest(f) + (EndTag(EVENT_DATA) + tail);
      ReadStartTag(EVENT_DATA, attributes, inside);
      CloseOf(f, EVENT_DATA, tail);
      ChildrenOf(f, EndTag(EVENT_DATA) + tail);
      DataStep(t, StartTag(EVENT_DATA, attributes), inside, |PrintForest(f)|);
  }

  /** Siblings past their leading text. */
  function Trimmed(f: Forest): Forest { if f.Leaf? then Trimmed(f.rest) else f }

  function Leading(f: Forest): Text { if f.Leaf? then Print(f.pieces) + Leading(f.rest) else [] }

  lemma {:induction false} LeadingText(f: Forest)
    requires IsForest(f)
    ensures PrintForest(f) == Leading(f) + PrintForest(Trimmed(f)) && LT !in Leading(f)
    ensures IsForest(Trimmed(f)) && FieldsOf(f) == FieldsOf(Trimmed(f)) && !Trimmed(f).Leaf?
  {
    if f.Leaf? {
      LeadingText(f.rest);
      NoTags(f.pieces);
    } else {
      assert [] + PrintForest(f) == PrintForest(f);
    }
  }

  /** From a UserData element the reader takes the children of its first element. */
  lemma UserDataOf(t: Text, attributes: Text, f: Forest, tail: Text)
    requires IsElementAt(t, USER_DATA, attributes, Holds(f), tail) && IsForest(f)
    ensures ReadElement(t).Some? && ParseUserData(t) == FieldsOf(f)
  {
    hide ReadElement, CloseAt, ParseUserData, StartTag, PrintForest, Leading, Trimmed, FieldsOf;
    EventDataIsName();
    LeadingText(f);
    var close := EndTag(USER_DATA) + tail;
    var tag, space, g := StartTag(USER_DATA, attributes), Leading(f), Trimmed(f);
    var content := PrintForest(f) + close;
    ReadStartTag(USER_DATA, attributes, content);
    CloseOf(f, USER_DATA, tail);
    assert content == space + (PrintForest(g) + close);
    FindAfter(space, LT, PrintForest(g) + close);
    UserDataBy(t, tag, content, space, g, close);
  }

  /** From a UserData section the reader takes the fields of its first element, whatever precedes and follows it. */
  lemma ParsesUserData(before: Text, attributes: Text, f: Forest, after: Text)
    requires AreAttributes(attributes) && IsForest(f) && NoTagOf(before, USER_DATA)
    requires FindElement(before + Section(USER_DATA, attributes, f, after), EVENT_DATA).None?
    ensures ParseData(before + Section(USER_DATA, attributes, f, after)) == FieldsOf(f)
  {
    hide FindElement, PrintForest, StartTag, EndTag, ReadElement, ParseUserData, FieldsOf, AreAttributes;
    EventDataIsName();
    SectionFound(before, USER_DATA, attributes, f, after);
    UserDataOf(Section(USER_DATA, attributes, f, after), attributes, f, after);
  }

  /** Every list of fields is read back from a UserData section, as the names and text of its first element's children,
      with whatever attributes, markup in the text and text between them. */
  lemma UserDataRoundTrip(before: Text, attributes: Text, f: Forest, fs: seq<Field>, after: Text)
    requires AreAttributes(attributes) && NoTagOf(before, USER_DATA)
    requires IsForest(f) && AreFields(fs) && RootHoldsFields(f, fs)
    requires FindElement(before + Section(USER_DATA, attributes, f, after), EVENT_DATA).None?
    ensures ParseData(before + Section(USER_DATA, attributes, f, after)) == FieldsMeaning(fs)
  {
    RootFields(f, fs);
    ParsesUserData(before, attributes, f, after);
  }

  lemma UserDataBy(t: Text, tag: Text, content: Text, space: Text, g: Forest, close: Text)
    requires IsForest(g) && !g.Leaf? && close != [] && close[0] == LT
    requires t == tag + content && ReadElement(t) == Some(Element(USER_DATA, tag, false))
    requires content == space + (PrintForest(g) + close)
    requires CloseAt(content, USER_DATA, 1) == Some(|space| + |PrintForest(g)|)
    requires Find(content, LT) == |space| + Find(PrintForest(g) + close, LT)
    ensures ParseUserData(t) == FieldsOf(g)
  {
    hide ReadElement, CloseAt, Find, Children, StartTag, EmptyTag, EndTag, ParseUserData, IsName, AreAttributes;
    match g
    case End =>
      assert PrintForest(g) + close == close;
      FirstAt(close);
      NoRoot(t, tag, content, |space| + |PrintForest(g)|);
    case Empty(root, tags, more) =>
      var u := PrintForest(more) + close;
      assert PrintForest(g) + close == EmptyTag(root, tags) + u;
      ReadEmptyTag(root, tags, u);
      EmptyTagStarts(root, tags, u);
      FirstAt(EmptyTag(root, tags) + u);
      EmptyRoot(t, tag, content, |space| + |PrintForest(g)|, space, EmptyTag(root, tags), u, root);
    case Node(_, _, _, _) => NodeRoot(t, tag, content, space, g, close);
  }

  lemma NodeRoot(t: Text, tag: Text, content: Text, space: Text, g: Forest, close: Text)
    requires IsForest(g) && g.Node? && close != [] && close[0] == LT
    requires t == tag + content && ReadElement(t) == Some(Element(USER_DATA, tag, false))
    requires content == space + (PrintForest(g) + close)
    requires CloseAt(content, USER_DATA, 1) == Some(|space| + |PrintForest(g)|)
    requires Find(content, LT) == |space| + Find(PrintForest(g) + close, LT)
    ensures ParseUserData(t) == FieldsOf(g)
  {
    hide ReadElement, CloseAt, Find, Children, StartTag, EmptyTag, EndTag, ParseUserData, IsName, AreAttributes;
    hide FieldItems, TopLevel;
    var root, tags, children := g.name, g.attributes, g.children;
    var after := PrintForest(g.rest) + close;
    var inside := PrintForest(children) + (EndTag(root) + after);
    assert PrintForest(g) + close == StartTag(root, tags) + inside;
    ReadStartTag(root, tags, inside);
    TagStarts(root, tags, inside);
    FirstAt(StartTag(root, tags) + inside);
    CloseOf(children, root, after);
    ChildrenOf(children, EndTag(root) + after);
    UserDataStep(t, tag, content, |space| + |PrintForest(g)|, space, StartTag(root, tags), inside, root,
                 |PrintForest(children)|);
  }

  lemma NoRoot(t: Text, tag: Text, content: Text, end: nat)
    requires t == tag + content && ReadElement(t) == Some(Element(USER_DATA, tag, false))
    requires CloseAt(content, USER_DATA, 1) == Some(end) && Find(content, LT) == end
    ensures ParseUserData(t) == []
  {
    hide ReadElement, CloseAt, Find;
    assert t[|tag|..] == content;
  }

  lemma EmptyRoot(t: Text, tag: Text, content: Text, end: nat, space: Text, rootTag: Text, u: Text, root: Text)
    requires t == tag + content && ReadElement(t) == Some(Element(USER_DATA, tag, false))
    requires CloseAt(content, USER_DATA, 1) == Some(end) && Find(content, LT) == |space|
    requires content == space + (rootTag + u) && ReadElement(rootTag + u) == Some(Element(root, rootTag, true))
    ensures ParseUserData(t) == []
  {
    hide ReadElement, CloseAt, Find, Children;
    assert t[|tag|..] == content;
    assert content[|space|..] == rootTag + u;
  }

  // ----- documents

  /** The reader takes a printed document's event data, whatever elements its sections stand among. */
  lemma ParsesDocument(f: Forest)
    requires IsForest(f)
    ensures ParseData(PrintForest(f)) == DataOf(f)
  {
    hide FindElement, PrintForest, ReadElement, ParseEventData, ParseUserData, IsElementAt;
    EventDataIsName();
    FirstIsForest(f, EVENT_DATA);
    FirstIsForest(f, USER_DATA);
    var xml := PrintForest(f);
    assert xml + [] == xml;
    var at, attributes, tail := FindInForest(f, [], EVENT_DATA);
    if First(f, EVENT_DATA).Some? {
      EventDataOf(xml[at..], attributes, First(f, EVENT_DATA).value, tail);
    } else {
      FindsNone(EVENT_DATA);
      at, attributes, tail := FindInForest(f, [], USER_DATA);
      FindsNone(USER_DATA);
      if First(f, USER_DATA).Some? {
        match First(f, USER_DATA).value
        case Nothing => EmptyUserData(xml[at..], attributes, tail);
        case Holds(children) => UserDataOf(xml[at..], attributes, children, tail);
      }
    }
  }

  lemma EmptyUserData(t: Text, attributes: Text, tail: Text)
    requires IsElementAt(t, USER_DATA, attributes, Nothing, tail)
    ensures ReadElement(t).Some? && ParseUserData(t) == []
  {
    hide ReadElement, EmptyTag;
    EventDataIsName();
    ReadEmptyTag(USER_DATA, attributes, tail);
  }

  /** An event as it is rendered: its system section, then the section with its data. */
  ghost function Event(root: Text, rootAttributes: Text, system: Forest, section: Text, attributes: Text, data: Forest,
                       more: Forest): Forest {
    Node(root, rootAttributes, Appended(system, Node(section, attributes, data, more)), End)
  }

  ghost function Appended(f: Forest, g: Forest): Forest {
    match f
    case End => g
    case Leaf(pieces, rest) => Leaf(pieces, Appended(rest, g))
    case Node(name, attributes, children, rest) => Node(name, attributes, children, Appended(rest, g))
    case Empty(name, attributes, rest) => Empty(name, attributes, Appended(rest, g))
  }

  lemma {:induction false} AppendedIs(f: Forest, g: Forest, name: Text)
    requires IsForest(f) && IsForest(g) && First(f, name).None?
    ensures IsForest(Appended(f, g)) && First(Appended(f, g), name) == First(g, name)
  {
    match f
    case End =>
    case Leaf(_, rest) => AppendedIs(rest, g, name);
    case Node(_, _, _, rest) => AppendedIs(rest, g, name);
    case Empty(_, _, rest) => AppendedIs(rest, g, name);
  }

  /** The Data elements come back from a whole event, wherever they stand among its section's other elements. */
  lemma MixedEventRoundTrip(root: Text, rootAttributes: Text, system: Forest, attributes: Text, data: Forest,
                            ds: seq<Datum>, more: Forest)
    requires IsName(root) && root != EVENT_DATA && AreAttributes(rootAttributes) && IsForest(system) && IsForest(more)
    requires First(system, EVENT_DATA).None? && AreAttributes(attributes)
    requires IsForest(data) && (forall d :: d in ds ==> IsDatum(d)) && HoldsData(data, ds)
    ensures ParseData(PrintForest(Event(root, rootAttributes, system, EVENT_DATA, attributes, data, more)))
         == DataMeaning(ds)
  {
    hide PrintForest, ParseData, DataItems, TopLevel, IsName, AreAttributes, HoldsData;
    EventDataIsName();
    AppendedIs(system, Node(EVENT_DATA, attributes, data, more), EVENT_DATA);
    DataAmong(data, ds);
    ParsesDocument(Event(root, rootAttributes, system, EVENT_DATA, attributes, data, more));
  }

  /** Every list of names and values comes back from a whole event it is the data of. */
  lemma EventRoundTrip(root: Text, rootAttributes: Text, system: Forest, attributes: Text, items: seq<Item>,
                       more: Forest)
    requires IsName(root) && root != EVENT_DATA && AreAttributes(rootAttributes) && IsForest(system) && IsForest(more)
    requires First(system, EVENT_DATA).None? && AreAttributes(attributes)
    ensures var data := DataForest(EscapedData(items));
      ParseData(PrintForest(Event(root, rootAttributes, system, EVENT_DATA, attributes, data, more))) == items
  {
    hide PrintForest, ParseData, IsName, AreAttributes, HoldsData, First;
    EscapedDataMeans(items);
    DataForestIs(EscapedData(items));
    MixedEventRoundTrip(root, rootAttributes, system, attributes, DataForest(EscapedData(items)), EscapedData(items),
                        more);
  }

  /** Every list of fields comes back from a whole event without event data it is the user data of. */
  lemma UserEventRoundTrip(root: Text, rootAttributes: Text, system: Forest, attributes: Text, data: Forest,
                           fs: seq<Field>, more: Forest)
    requires IsName(root) && root != EVENT_DATA && root != USER_DATA && AreAttributes(rootAttributes)
    requires IsForest(system) && IsForest(more) && AreAttributes(attributes) && First(system, USER_DATA).None?
    requires First(system, EVENT_DATA).None? && First(data, EVENT_DATA).None? && First(more, EVENT_DATA).None?
    requires IsForest(data) && AreFields(fs) && RootHoldsFields(data, fs)
    ensures ParseData(PrintForest(Event(root, rootAttributes, system, USER_DATA, attributes, data, more)))
         == FieldsMeaning(fs)
  {
    hide PrintForest, ParseData, IsName, AreAttributes, RootHoldsFields, FieldsOf, First, IsForest, Event, DataOf;
    var g := Node(USER_DATA, attributes, data, more);
    var event := Event(root, rootAttributes, system, USER_DATA, attributes, data, more);
    UserSection(attributes, data, more);
    FirstOfEvent(root, rootAttributes, system, USER_DATA, attributes, data, more, EVENT_DATA);
    FirstOfEvent(root, rootAttributes, system, USER_DATA, attributes, data, more, USER_DATA);
    RootFields(data, fs);
    UserDataOnly(event, data);
    ParsesDocument(event);
  }

  lemma UserSection(attributes: Text, data: Forest, more: Forest)
    requires First(data, EVENT_DATA).None? && First(more, EVENT_DATA).None?
    requires IsForest(data) && IsForest(more) && AreAttributes(attributes)
    ensures var g := Node(USER_DATA, attributes, data, more);
      IsForest(g) && First(g, EVENT_DATA).None? && First(g, USER_DATA) == Some(Holds(data))
  {
    EventDataIsName();
    assert EVENT_DATA[0] != USER_DATA[0];
  }

  lemma FirstOfEvent(root: Text, rootAttributes: Text, system: Forest, section: Text, attributes: Text, data: Forest,
                     more: Forest, name: Text)
    requires IsName(root) && root != name && AreAttributes(rootAttributes) && IsForest(system)
    requires IsForest(Node(section, attributes, data, more)) && First(system, name).None?
    ensures var event := Event(root, rootAttributes, system, section, attributes, data, more);
      IsForest(event) && First(event, name) == First(Node(section, attributes, data, more), name)
  {
    hide IsName, AreAttributes;
    AppendedIs(system, Node(section, attributes, data, more), name);
  }

  lemma UserDataOnly(f: Forest, data: Forest)
    requires IsForest(f) && IsForest(data)
    requires First(f, EVENT_DATA).None? && First(f, USER_DATA) == Some(Holds(data))
    ensures DataOf(f) == FieldsOf(data)
  {
    hide IsForest, First, FieldsOf, DataItems, TopLevel;
  }
}
