/** Reading a printed section gives back its children, and reading printed event data gives back the data. */
module EventXmlData {
  import opened Optional
  import opened EventXml
  import opened Units
  import opened EventXmlPrinter
  import opened EventXmlRoundTrip

  // ----- children

  lemma NoChildIn(s: Text, t: Text, length: int)
    requires LT !in s
    ensures Children(s + t, |s| + length) == Children(t, length)
  {
    hide Find, ChildrenFrom;
    FindAfter(s, LT, t);
    var pos := Find(t, LT);
    if pos < |t| { assert (s + t)[|s| + pos..] == t[pos..]; }
  }

  lemma ChildHere(t: Text, length: nat)
    requires t != [] && t[0] == LT && length > 0
    ensures Children(t, length) == ChildrenFrom(t, length)
  {
    hide ChildrenFrom;
    assert t[0..] == t;
  }

  lemma EmptyChild(name: Text, attributes: Text, t: Text, length: nat)
    requires IsName(name) && AreAttributes(attributes)
    ensures Children(EmptyTag(name, attributes) + t, |EmptyTag(name, attributes)| + length)
         == [Child(Element(name, EmptyTag(name, attributes), true), [])] + Children(t, length)
  {
    hide ReadElement, CloseAt, Decode, EmptyTag, Children, ChildrenFrom;
    var tag := EmptyTag(name, attributes);
    ReadEmptyTag(name, attributes, t);
    EmptyTagStarts(name, attributes, t);
    ChildHere(tag + t, |tag| + length);
    EmptyChildStep(tag + t, tag, t, name, |tag| + length);
  }

  lemma EmptyTagStarts(name: Text, attributes: Text, t: Text)
    ensures var u := EmptyTag(name, attributes) + t; u != [] && u[0] == LT
  {}

  lemma EmptyChildStep(all: Text, tag: Text, t: Text, name: Text, length: nat)
    requires all == tag + t && all != [] && ReadElement(all) == Some(Element(name, tag, true)) && length >= |tag|
    ensures ChildrenFrom(all, length) == [Child(Element(name, tag, true), [])] + Children(t, length - |tag|)
  {
    hide ReadElement, CloseAt, Decode, Children;
    assert all[|tag|..] == t;
  }

  lemma TagStarts(name: Text, attributes: Text, t: Text)
    ensures var u := StartTag(name, attributes) + t; u != [] && u[0] == LT
  {}

  lemma NodeChild(name: Text, attributes: Text, children: Forest, t: Text, length: nat)
    requires IsName(name) && AreAttributes(attributes) && IsForest(children)
    ensures var node := StartTag(name, attributes) + (PrintForest(children) + EndTag(name));
      Children(node + t, |node| + length)
      == [Child(Element(name, StartTag(name, attributes), false), TextOf(children))] + Children(t, length)
  {
    hide StartTag, PrintForest, EndTag, Children, ChildrenFrom, CloseAt, Decode, TextOf, ReadElement;
    var tag, inside, end := StartTag(name, attributes), PrintForest(children), EndTag(name);
    var content, size := inside + (end + t), |tag| + |inside| + |end| + length;
    ReadStartTag(name, attributes, content);
    CloseOf(children, name, t);
    DecodeAll(children);
    TagStarts(name, attributes, content);
    ChildHere(tag + content, size);
    ChildStep(tag + content, tag, content, inside, end, t, name, size);
    assert (tag + (inside + end)) + t == tag + content;
  }

  lemma DecodeAll(f: Forest)
    requires IsForest(f)
    ensures Decode(PrintForest(f)) == TextOf(f)
  {
    hide PrintForest, TextOf;
    DecodeForest(f, []);
    assert PrintForest(f) + [] == PrintForest(f) && TextOf(f) + [] == TextOf(f);
  }

  /** One element with content, taken apart. */
  lemma ChildStep(all: Text, tag: Text, content: Text, inside: Text, end: Text, t: Text, name: Text, length: nat)
    requires all == tag + content && content == inside + (end + t) && end == EndTag(name)
    requires ReadElement(all) == Some(Element(name, tag, false)) && CloseAt(content, name, 1) == Some(|inside|)
    requires length >= |tag| + |inside| + |end| && all != []
    ensures ChildrenFrom(all, length)
         == [Child(Element(name, tag, false), Decode(inside))] + Children(t, length - |tag| - |inside| - |end|)
  {
    hide ReadElement, CloseAt, Decode, Children, EndTag;
    assert all[|tag|..] == content;
    assert content[..|inside|] == inside;
    assert all[|tag| + |inside| + |end|..] == t;
  }

  /** The child visitor visits exactly the top-level elements, in order, each with all the text in it. */
  lemma {:induction false} ChildrenOf(f: Forest, rest: Text)
    requires IsForest(f)
    ensures Children(PrintForest(f) + rest, |PrintForest(f)|) == TopLevel(f)
  {
    hide Children, Print, StartTag, EmptyTag, EndTag, TextOf, IsName, AreAttributes;
    match f
    case End => NoChildren(rest);
      assert PrintForest(f) + rest == rest;
    case Leaf(pieces, more) =>
      assert PrintForest(f) + rest == Print(pieces) + (PrintForest(more) + rest);
      NoTags(pieces);
      NoChildIn(Print(pieces), PrintForest(more) + rest, |PrintForest(more)|);
      ChildrenOf(more, rest);
    case Node(name, attributes, children, more) =>
      var node := StartTag(name, attributes) + (PrintForest(children) + EndTag(name));
      assert PrintForest(f) + rest == node + (PrintForest(more) + rest);
      NodeChild(name, attributes, children, PrintForest(more) + rest, |PrintForest(more)|);
      ChildrenOf(more, rest);
    case Empty(name, attributes, more) =>
      assert PrintForest(f) + rest == EmptyTag(name, attributes) + (PrintForest(more) + rest);
      EmptyChild(name, attributes, PrintForest(more) + rest, |PrintForest(more)|);
      ChildrenOf(more, rest);
  }

  lemma FirstAt(t: Text)
    requires t != [] && t[0] == LT
    ensures Find(t, LT) == 0
  {}

  lemma NoChildren(t: Text)
    ensures Children(t, 0) == []
  {}

  // ----- the Name attribute

  lemma {:induction false} NotInPrint(ps: seq<Piece>, c: wchar)
    requires ArePieces(ps) && (c == QUOT || c == APOS || c == GT)
    requires forall p :: p in ps && p.Raw? ==> p.c != c
    ensures c !in Print(ps)
  {
    if ps != [] {
      assert ps[0] in ps;
      NotInPrint(ps[1..], c);
      if !ps[0].Raw? { ReferenceOf(ps[0]); }
    }
  }

  lemma DatumAttributes(d: Datum)
    requires IsDatum(d)
    ensures AreAttributes(NameAttribute(d)) && IsName(DATA)
  {
    NoTags(d.name);
    NotInPrint(d.name, GT);
    hide Print, ArePieces;
  }

  lemma SkipsNone(t: Text)
    requires t != [] && !IsSpace(t[0])
    ensures SkipSpaces(t) == t
  {}

  /** A quoted value after the attribute's name decodes to its meaning. */
  lemma QuotedValue(tag: Text, pos: nat, size: nat, d: Datum, after: Text)
    requires IsDatum(d) && 0 < pos && pos + size <= |tag| && IsSpace(tag[pos - 1])
    requires tag[pos + size..] == [EQUALS, d.quote] + Print(d.name) + [d.quote] + after
    ensures AttributeAt(tag, size, pos) == Some(Meaning(d.name))
  {
    NotInPrint(d.name, d.quote);
    QuotedText(tag, pos, size, d.quote, Print(d.name), after);
    DecodePieces(d.name, []);
    DecodesNothing();
    hide IsPiece, Value, Print, Meaning, Decode, AttributeAt;
    assert Print(d.name) + [] == Print(d.name) && Meaning(d.name) + [] == Meaning(d.name);
  }

  lemma QuotedText(tag: Text, pos: nat, size: nat, quote: wchar, printed: Text, after: Text)
    requires 0 < pos && pos + size <= |tag| && IsSpace(tag[pos - 1]) && (quote == APOS || quote == QUOT)
    requires tag[pos + size..] == [EQUALS, quote] + printed + [quote] + after && quote !in printed
    ensures AttributeAt(tag, size, pos) == Some(Decode(printed))
  {
    hide Decode;
    var t := [EQUALS, quote] + printed + [quote] + after;
    SkipsNone(t);
    var u := t[1..];
    SkipsNone(u);
    assert u[1..] == printed + [quote] + after;
    FindIn(printed, quote, after);
    assert u[1..][..|printed|] == printed;
  }

  /** The name is read back from a Data element's tag, empty or not, in either quotes, and is empty without one. */
  lemma NameOf(d: Datum, attributes: Text)
    requires IsDatum(d) && AreDataAttributes(attributes, d)
    ensures Attribute(StartTag(DATA, attributes), NAME) == Meaning(d.name)
    ensures Attribute(EmptyTag(DATA, attributes), NAME) == Meaning(d.name)
  {
    hide Print, Meaning, Attribute;
    if attributes == NameAttribute(d) {
      NameIn(StartTag(DATA, attributes), d, [GT]);
      NameIn(EmptyTag(DATA, attributes), d, [SLASH, GT]);
    } else {
      assert [LT] + DATA + [] == [LT] + DATA;
      NoName([GT]);
      NoName([SLASH, GT]);
      NoMeaning();
    }
  }

  lemma NoMeaning()
    ensures Meaning([]) == []
  {}

  lemma NameIn(tag: Text, d: Datum, end: Text)
    requires IsDatum(d) && tag == [LT] + DATA + NameAttribute(d) + end
    ensures Attribute(tag, NAME) == Meaning(d.name)
  {
    hide AttributeAt, Print, Meaning, AttributeFrom;
    DataTag(tag, d, end);
    QuotedValue(tag, 6, 4, d, end);
    NotNameYet(tag, 0);
    NameHere(tag, Meaning(d.name));
  }

  /** A Data tag without attributes has no name. */
  lemma NoName(end: Text)
    requires end == [GT] || end == [SLASH, GT]
    ensures Attribute([LT] + DATA + end, NAME) == []
  {
    NoNameFrom([LT] + DATA + end, 0);
  }

  lemma {:induction false} NoNameFrom(tag: Text, i: nat)
    requires NAME[0] !in tag && i <= |tag|
    ensures AttributeFrom(tag, NAME, i) == []
    decreases |tag| - i
  {
    hide AttributeAt;
    if i < |tag| {
      assert !(NAME <= tag[i..]) by { assert tag[i..][0] == tag[i]; }
      NoNameFrom(tag, i + 1);
    }
  }

  lemma DataTag(tag: Text, d: Datum, end: Text)
    requires tag == [LT] + DATA + NameAttribute(d) + end
    ensures |tag| >= 10 && tag[..6] == [LT] + DATA + [SPACE] && NAME <= tag[6..]
    ensures tag[10..] == [EQUALS, d.quote] + Print(d.name) + [d.quote] + end
  {
    hide Print;
    var more := [EQUALS, d.quote] + Print(d.name) + [d.quote] + end;
    assert tag == ([LT] + DATA + [SPACE]) + (NAME + more);
    assert tag[6..] == NAME + more;
    assert tag[10..] == more;
  }

  lemma NameHere(tag: Text, value: Text)
    requires |tag| >= 10 && NAME <= tag[6..] && AttributeAt(tag, |NAME|, 6) == Some(value)
    ensures AttributeFrom(tag, NAME, 6) == value
  {
    hide AttributeAt;
  }

  /** Nothing before position 6 of a Data tag starts the attribute's name. */
  lemma {:induction false} NotNameYet(tag: Text, i: nat)
    requires |tag| >= 10 && tag[..6] == [LT] + DATA + [SPACE] && i <= 6
    ensures AttributeFrom(tag, NAME, i) == AttributeFrom(tag, NAME, 6)
    decreases 6 - i
  {
    hide AttributeAt;
    if i < 6 {
      assert tag[i] == tag[..6][i] != NAME[0];
      assert !(NAME <= tag[i..]) by { assert tag[i..][0] != NAME[0]; }
      NotNameYet(tag, i + 1);
    }
  }

  // ----- a section

  predicate EndsName(c: wchar) { IsSpace(c) || c == SLASH || c == GT }

  /** No start tag in t has the name: where one begins with it, its own name goes on. */
  ghost predicate NoTagOf(t: Text, name: Text) {
    forall i :: 0 <= i < |t| && [LT] + name <= t[i..] ==> NameGoesOn(t[i..], name)
  }

  ghost predicate NameGoesOn(t: Text, name: Text) { |t| > 1 + |name| ==> !EndsName(t[1 + |name|]) }

  ghost predicate IsHere(t: Text, name: Text) {
    [LT] + name <= t && ReadElement(t).Some? && ReadElement(t).value.name == name
  }

  /** The name at a < is the element's if the name ends there. */
  lemma NamedHere(t: Text, name: Text)
    requires IsName(name) && GT in t && [LT] + name <= t
    ensures IsHere(t, name) <==> |t| > 1 + |name| && EndsName(t[1 + |name|])
  {
    hide IsSpace;
    var end := Find(t, GT);
    NoGtInTag(t, name);
    assert t[1] == name[0] && name[0] in name;
    assert t[1..] == name + t[1 + |name|..];
    if EndsName(t[1 + |name|]) {
      NameLengthOf(name, t[1 + |name|..], end - 1);
    } else {
      NameLengthOver(name, t[1 + |name|..], end - 1);
    }
  }

  lemma NoGtInTag(t: Text, name: Text)
    requires IsName(name) && [LT] + name <= t
    ensures Find(t, GT) > |name|
  {
    hide IsSpace;
    forall i | 0 <= i <= |name| ensures t[i] != GT {
      assert t[i] == ([LT] + name)[i];
      if i > 0 { assert name[i - 1] in name; }
    }
  }

  lemma {:induction false} NameLengthOver(name: Text, rest: Text, limit: nat)
    requires AreNameChars(name) && |name| < limit <= |name + rest| && !EndsName(rest[0])
    ensures NameLength(name + rest, limit) > |name|
  {
    if name == [] {
      assert name + rest == rest;
    } else {
      assert name[0] in name && forall c :: c in name[1..] ==> c in name;
      assert (name + rest)[1..] == name[1..] + rest;
      NameLengthOver(name[1..], rest, limit - 1);
    }
  }

  /** A name cannot reach over the < of the section after it. */
  lemma NotAcross(before: Text, t: Text, name: Text)
    requires before != [] && t != [] && t[0] == LT && GT in t && IsName(name)
    ensures IsHere(before + t, name) <==> [LT] + name <= before && !NameGoesOn(before, name)
  {
    hide ReadElement;
    var u := before + t;
    if [LT] + name <= before {
      assert u[..1 + |name|] == before[..1 + |name|];
      assert u[|before|] == LT;
      NamedHere(u, name);
    } else {
      NameIsBefore(before, t, name);
    }
  }

  lemma NameIsBefore(before: Text, t: Text, name: Text)
    requires before != [] && t != [] && t[0] == LT && LT !in name && !([LT] + name <= before)
    ensures !([LT] + name <= before + t)
  {
    var u := before + t;
    if |before| <= |name| {
      assert u[|before|] == LT && name[|before| - 1] in name;
    } else {
      assert u[..1 + |name|] == before[..1 + |name|];
    }
  }

  lemma NoTagSplit(before: Text, name: Text)
    requires before != []
    ensures NoTagOf(before, name)
        <==> ([LT] + name <= before ==> NameGoesOn(before, name)) && NoTagOf(before[1..], name)
  {
    hide NameGoesOn;
    assert before[0..] == before;
    forall i | 0 <= i < |before| - 1 ensures before[1..][i..] == before[i + 1..] {}
    if NoTagOf(before[1..], name) && ([LT] + name <= before ==> NameGoesOn(before, name)) {
      forall i | 0 <= i < |before| && [LT] + name <= before[i..] ensures NameGoesOn(before[i..], name) {
        if i > 0 { assert before[1..][i - 1..] == before[i..]; }
      }
    }
  }

  /** The section is the one found if and only if no start tag before it has its name. */
  lemma {:induction false} FindsFirst(before: Text, t: Text, name: Text)
    requires IsName(name) && GT in t && IsHere(t, name)
    ensures FindElement(before + t, name) == Some(|before|) <==> NoTagOf(before, name)
  {
    hide ReadElement, NoTagOf, NameGoesOn;
    if before == [] {
      assert before + t == t;
      NoTagIn(name);
    } else {
      assert (before + t)[1..] == before[1..] + t;
      NotAcross(before, t, name);
      NoTagSplit(before, name);
      FindsFirst(before[1..], t, name);
    }
  }

  lemma NoTagIn(name: Text)
    ensures NoTagOf([], name)
  {}

  /** A section's text. */
  function Section(name: Text, attributes: Text, f: Forest, after: Text): Text {
    StartTag(name, attributes) + (PrintForest(f) + (EndTag(name) + after))
  }

  lemma SectionFound(before: Text, name: Text, attributes: Text, f: Forest, after: Text)
    requires IsName(name) && AreAttributes(attributes) && IsForest(f) && NoTagOf(before, name)
    ensures var t := Section(name, attributes, f, after);
      && FindElement(before + t, name) == Some(|before|) && (before + t)[|before|..] == t
      && ReadElement(t) == Some(Element(name, StartTag(name, attributes), false))
  {
    hide ReadElement, FindElement, NoTagOf, PrintForest, EndTag, IsName, AreAttributes, StartTag;
    var t := Section(name, attributes, f, after);
    ReadStartTag(name, attributes, PrintForest(f) + (EndTag(name) + after));
    StartsWithTag(name, attributes, PrintForest(f) + (EndTag(name) + after));
    FindsFirst(before, t, name);
  }

  lemma StartsWithTag(name: Text, attributes: Text, t: Text)
    ensures [LT] + name <= StartTag(name, attributes) + t && GT in StartTag(name, attributes) + t
  {
    assert (StartTag(name, attributes) + t)[|StartTag(name, attributes)| - 1] == GT;
  }

  lemma EventDataIsName()
    ensures IsName(EVENT_DATA) && IsName(USER_DATA)
  {}

  /** From an EventData section the reader takes exactly its top-level Data elements, whatever precedes and
      follows it, nests in it or is mixed with them. */
  lemma ParsesEventData(before: Text, attributes: Text, f: Forest, after: Text)
    requires AreAttributes(attributes) && IsForest(f) && NoTagOf(before, EVENT_DATA)
    ensures ParseData(before + Section(EVENT_DATA, attributes, f, after)) == DataItems(TopLevel(f))
  {
    EventDataIsName();
    SectionFound(before, EVENT_DATA, attributes, f, after);
    CloseOf(f, EVENT_DATA, after);
    ChildrenOf(f, EndTag(EVENT_DATA) + after);
    var content := PrintForest(f) + (EndTag(EVENT_DATA) + after);
    DataStep(Section(EVENT_DATA, attributes, f, after), StartTag(EVENT_DATA, attributes), content, |PrintForest(f)|);
    hide FindElement, ParseEventData, Section, DataItems, TopLevel, ReadElement, Children;
  }

  lemma DataStep(t: Text, tag: Text, content: Text, end: nat)
    requires t == tag + content && ReadElement(t) == Some(Element(EVENT_DATA, tag, false))
    requires CloseAt(content, EVENT_DATA, 1) == Some(end)
    ensures ParseEventData(t) == DataItems(Children(content, end))
  {
    hide ReadElement, CloseAt, Children, DataItems;
    assert t[|tag|..] == content;
  }

  /** The items of siblings are those of the Data elements among them, and of no others. */
  lemma {:induction false} DataAmong(f: Forest, ds: seq<Datum>)
    requires IsForest(f) && (forall d :: d in ds ==> IsDatum(d)) && HoldsData(f, ds)
    ensures DataItems(TopLevel(f)) == DataMeaning(ds)
  {
    hide Attribute, Meaning, StartTag, EmptyTag, IsName, AreAttributes, NameAttribute;
    match f
    case End =>
    case Leaf(_, rest) => DataAmong(rest, ds);
    case Node(name, attributes, children, rest) =>
      OneMoreItem(Child(Element(name, StartTag(name, attributes), false), TextOf(children)), TopLevel(rest));
      if name == DATA {
        DataAmong(rest, ds[1..]);
        assert ds[0] in ds;
        NameOf(ds[0], attributes);
      } else {
        DataAmong(rest, ds);
      }
    case Empty(name, attributes, rest) =>
      OneMoreItem(Child(Element(name, EmptyTag(name, attributes), true), []), TopLevel(rest));
      if name == DATA {
        DataAmong(rest, ds[1..]);
        assert ds[0] in ds;
        NameOf(ds[0], attributes);
        NoMeaning();
      } else {
        DataAmong(rest, ds);
      }
  }

  lemma OneMoreItem(c: Child, more: seq<Child>)
    ensures DataItems([c] + more)
         == (if c.element.name == DATA then [Item(Attribute(c.element.tag, NAME), c.value)] else []) + DataItems(more)
  {
    hide Attribute;
    assert ([c] + more)[1..] == more;
  }

  lemma {:induction false} DataForestIs(ds: seq<Datum>)
    requires forall d :: d in ds ==> IsDatum(d)
    ensures IsForest(DataForest(ds)) && HoldsData(DataForest(ds), ds)
  {
    hide NameAttribute;
    if ds != [] {
      var d := ds[0];
      assert d in ds;
      DataForestIs(ds[1..]);
      DatumAttributes(d);
      assert IsForest(Leaf(d.value, End)) && TextOf(Leaf(d.value, End)) == Meaning(d.value);
    }
  }

  lemma {:induction false} EscapedDataMeans(items: seq<Item>)
    ensures forall d :: d in EscapedData(items) ==> IsDatum(d)
    ensures DataMeaning(EscapedData(items)) == items
  {
    if items != [] {
      EscapeMeans(items[0].name);
      EscapeMeans(items[0].value);
      EscapedDataMeans(items[1..]);
      assert EscapedData(items)[1..] == EscapedData(items[1..]);
      assert EscapedData(items) == [EscapedData(items)[0]] + EscapedData(items[1..]);
    }
  }

  /** Wherever the Data elements of ds stand among text, empty elements and elements of other names, Data elements
      nested in those included, exactly they are read. */
  lemma MixedDataRoundTrip(before: Text, attributes: Text, f: Forest, ds: seq<Datum>, after: Text)
    requires NoTagOf(before, EVENT_DATA) && AreAttributes(attributes)
    requires IsForest(f) && (forall d :: d in ds ==> IsDatum(d)) && HoldsData(f, ds)
    ensures ParseData(before + Section(EVENT_DATA, attributes, f, after)) == DataMeaning(ds)
  {
    DataAmong(f, ds);
    ParsesEventData(before, attributes, f, after);
  }

  /** Every list of names and values, printed with the five predefined entities escaped, is read back. */
  lemma EventDataRoundTrip(before: Text, items: seq<Item>, after: Text)
    requires NoTagOf(before, EVENT_DATA)
    ensures ParseData(before + Section(EVENT_DATA, [], DataForest(EscapedData(items)), after)) == items
  {
    EscapedDataMeans(items);
    PrintedDataRoundTrip(before, [], EscapedData(items), after);
  }

  /** However each character is written - itself, an entity or a number - and whichever quotes are used. */
  lemma PrintedDataRoundTrip(before: Text, attributes: Text, ds: seq<Datum>, after: Text)
    requires NoTagOf(before, EVENT_DATA) && AreAttributes(attributes) && forall d :: d in ds ==> IsDatum(d)
    ensures ParseData(before + Section(EVENT_DATA, attributes, DataForest(ds), after)) == DataMeaning(ds)
  {
    DataForestIs(ds);
    MixedDataRoundTrip(before, attributes, DataForest(ds), ds, after);
  }

  lemma UserDataStep(t: Text, tag: Text, content: Text, end: nat, space: Text, rootTag: Text, inside: Text, root: Text,
                     rootEnd: nat)
    requires t == tag + content && ReadElement(t) == Some(Element(USER_DATA, tag, false))
    requires CloseAt(content, USER_DATA, 1) == Some(end) && content == space + (rootTag + inside)
    requires Find(content, LT) == |space| && ReadElement(rootTag + inside) == Some(Element(root, rootTag, false))
    requires CloseAt(inside, root, 1) == Some(rootEnd) && |space| + |rootTag| + rootEnd <= end
    ensures ParseUserData(t) == FieldItems(Children(inside, rootEnd))
  {
    hide CloseAt, Children, ReadElement, Find, FieldItems;
    assert t[|tag|..] == content;
    assert content[|space|..] == rootTag + inside;
    assert content[|space| + |rootTag|..] == inside;
    assert |rootTag| > 0;
  }
}
