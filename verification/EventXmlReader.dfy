/** The reader's functions as they run: positions moved through the text, results appended to. */
module EventXmlReader {
  import opened Optional
  import opened EventXml
  import opened Units

  /** xml.find(c, from): the text's length if it is not there. */
  method FindChar(xml: Text, c: wchar, from: nat) returns (r: nat)
    requires from <= |xml|
    ensures r == from + EventXml.Find(xml[from..], c) && r <= |xml|
  {
    r := from;
    while r < |xml| && xml[r] != c
      invariant from <= r <= |xml|
      invariant r + EventXml.Find(xml[r..], c) == from + EventXml.Find(xml[from..], c)
    {
      assert xml[r..][1..] == xml[r + 1..];
      r := r + 1;
    }
  }

  method DecodeText(text: Text) returns (result: Text)
    ensures result == Decode(text)
  {
    hide Decode;
    result := [];
    var i := 0;
    assert text[0..] == text;
    while i < |text|
      invariant 0 <= i <= |text| && result + Decode(text[i..]) == Decode(text)
    {
      var piece, next := DecodeAt(text, i);
      result, i := result + piece, next;
    }
    DecodesNothing();
    assert text[i..] == [];
  }

  lemma DecodeTag(t: Text)
    requires t != [] && t[0] == LT
    ensures var end := EventXml.Find(t, GT); Decode(t) == if end == |t| then [] else Decode(t[end + 1..])
  {}

  lemma DecodeChar(t: Text)
    requires t != [] && t[0] != LT && t[0] != AMP
    ensures Decode(t) == [t[0]] + Decode(t[1..])
  {}

  /** What the text at i adds, and where it goes on: past a tag, a reference or a character. */
  method DecodeAt(text: Text, i: nat) returns (piece: Text, next: nat)
    requires i < |text|
    ensures i < next <= |text| && piece + Decode(text[next..]) == Decode(text[i..])
  {
    hide Decode, EventXml.Find;
    if text[i] == AMP {
      piece, next := DecodeReference(text, i);
    } else if text[i] != LT {
      DecodeChar(text[i..]);
      assert text[i..][1..] == text[i + 1..];
      piece, next := [text[i]], i + 1;
    } else {
      piece, next := DecodeTagAt(text, i);
    }
  }

  /** A tag is dropped, or the rest of the text when it has no end. */
  method DecodeTagAt(text: Text, i: nat) returns (piece: Text, next: nat)
    requires i < |text| && text[i] == LT
    ensures i < next <= |text| && piece + Decode(text[next..]) == Decode(text[i..])
  {
    hide Decode, EventXml.Find;
    ghost var t := text[i..];
    DecodeTag(t);
    var end := FindChar(text, GT, i);
    if end == |text| {
      DecodesNothing();
      assert text[|text|..] == [];
      return [], |text|;
    }
    assert t[end - i + 1..] == text[end + 1..];
    piece, next := [], end + 1;
  }

  method DecodeReference(text: Text, i: nat) returns (piece: Text, next: nat)
    requires i < |text| && text[i] == AMP
    ensures i < next <= |text| && piece + Decode(text[next..]) == Decode(text[i..])
  {
    hide EventXml.Find, Reference;
    ghost var t := text[i..];
    assert t[1..] == text[i + 1..];
    var semi := FindChar(text, SEMI, i);
    if semi == |text| || semi - i > 10 { return [AMP], i + 1; }
    assert t[1..semi - i] == text[i + 1..semi] && t[..semi - i + 1] == text[i..semi + 1];
    assert t[semi - i + 1..] == text[semi + 1..];
    var r := Reference(text[i + 1..semi]);
    piece, next := if r.Some? then r.value else text[i..semi + 1], semi + 1;
  }

  method SkipSpacesFrom(t: Text, from: nat) returns (i: nat)
    requires from <= |t|
    ensures from <= i <= |t| && t[i..] == SkipSpaces(t[from..])
  {
    i := from;
    while i < |t| && IsSpace(t[i])
      invariant from <= i <= |t| && SkipSpaces(t[i..]) == SkipSpaces(t[from..])
    {
      assert t[i..][1..] == t[i + 1..];
      i := i + 1;
    }
  }

  /** The attribute's value in a tag, empty if it has none. */
  method FindAttribute(tag: Text, name: Text) returns (value: Text)
    ensures value == Attribute(tag, name)
  {
    var pos := 0;
    while pos < |tag|
      invariant 0 <= pos <= |tag| && AttributeFrom(tag, name, pos) == Attribute(tag, name)
    {
      if name <= tag[pos..] {
        var found := ReadAttribute(tag, |name|, pos);
        if found.Some? { return found.value; }
      }
      pos := pos + 1;
    }
    value := [];
  }

  method ReadAttribute(tag: Text, size: nat, pos: nat) returns (r: Option<Text>)
    requires pos + size <= |tag|
    ensures r == AttributeAt(tag, size, pos)
  {
    hide EventXml.Find, SkipSpaces, IsSpace, Decode;
    if pos == 0 || !IsSpace(tag[pos - 1]) { return None; }
    var i := SkipSpacesFrom(tag, pos + size);
    if i >= |tag| || tag[i] != EQUALS { return None; }
    assert tag[i..][1..] == tag[i + 1..];
    i := SkipSpacesFrom(tag, i + 1);
    if i >= |tag| || (tag[i] != APOS && tag[i] != QUOT) { return None; }
    assert tag[i..][1..] == tag[i + 1..];
    var end := FindChar(tag, tag[i], i + 1);
    if end == |tag| { return Some([]); }
    assert tag[i + 1..][..end - i - 1] == tag[i + 1..end];
    var value := DecodeText(tag[i + 1..end]);
    r := Some(value);
  }

  method NameEnd(xml: Text, start: nat, end: nat) returns (r: nat)
    requires start <= end <= |xml|
    ensures start <= r <= end && r - start == NameLength(xml[start..], end - start)
  {
    r := start;
    while r < end && !IsSpace(xml[r]) && xml[r] != SLASH && xml[r] != GT
      invariant start <= r <= end
      invariant r - start + NameLength(xml[r..], end - r) == NameLength(xml[start..], end - start)
    {
      assert xml[r..][1..] == xml[r + 1..];
      r := r + 1;
    }
  }

  /** The element's start tag at pos. */
  method ReadElementAt(xml: Text, pos: nat) returns (element: Option<Element>)
    requires pos <= |xml|
    ensures element == ReadElement(xml[pos..])
  {
    hide EventXml.Find, NameLength;
    if pos >= |xml| || xml[pos] != LT || pos + 1 >= |xml| || xml[pos + 1] == SLASH || xml[pos + 1] == QUESTION
       || xml[pos + 1] == BANG {
      return None;
    }
    var end := FindChar(xml, GT, pos);
    if end == |xml| { return None; }
    ghost var t := xml[pos..];
    var nameEnd := NameEnd(xml, pos + 1, end);
    assert t[1..] == xml[pos + 1..];
    assert t[1..nameEnd - pos] == xml[pos + 1..nameEnd] && t[..end - pos + 1] == xml[pos..end + 1];
    element := Some(Element(xml[pos + 1..nameEnd], xml[pos..end + 1], xml[end - 1] == SLASH));
  }

  /** Where the content that starts at start ends: its element's end tag, nested elements of the name counted. */
  method ContentEnd(xml: Text, name: Text, start: nat) returns (r: Option<nat>)
    requires start <= |xml|
    ensures r == After(CloseAt(xml[start..], name, 1), start)
  {
    hide ReadElement, EndTag, CloseAt, EventXml.Find;
    var close := EndTag(name);
    var depth, pos := 1, start;
    while pos < |xml|
      invariant start <= pos <= |xml| && depth >= 1
      invariant After(CloseAt(xml[pos..], name, depth), pos) == After(CloseAt(xml[start..], name, 1), start)
      decreases |xml| - pos
    {
      var next := FindChar(xml, LT, pos);
      CloseSteps(xml, name, depth, pos, next);
      if next == |xml| { return None; }
      if close <= xml[next..] {
        if depth == 1 { return Some(next); }
        depth, pos := depth - 1, next + |close|;
      } else {
        var inner := ReadElementAt(xml, next);
        if inner.Some? && inner.value.name == name && !inner.value.isEmpty { depth := depth + 1; }
        pos := next + 1;
      }
    }
    CloseSteps(xml, name, depth, pos, pos);
    r := None;
  }

  /** One turn of the loop, on positions in the whole text. */
  lemma CloseSteps(xml: Text, name: Text, depth: nat, pos: nat, next: nat)
    requires depth >= 1 && pos <= next <= |xml| && next == pos + EventXml.Find(xml[pos..], LT)
    ensures After(CloseAt(xml[pos..], name, depth), pos)
      == if next == |xml| then None
         else if EndTag(name) <= xml[next..] then
           if depth == 1 then Some(next)
           else After(CloseAt(xml[next + |EndTag(name)|..], name, depth - 1), next + |EndTag(name)|)
         else After(CloseAt(xml[next + 1..], name, if Opens(xml[next..], name) then depth + 1 else depth), next + 1)
  {
    hide Opens, EndTag, CloseFrom, EventXml.Find;
    if next < |xml| {
      assert xml[pos..][next - pos..] == xml[next..];
      FromSteps(xml, name, depth, next);
    }
  }

  lemma FromSteps(xml: Text, name: Text, depth: nat, next: nat)
    requires depth >= 1 && next < |xml|
    ensures After(CloseFrom(xml[next..], name, depth), next)
      == if EndTag(name) <= xml[next..] then
           if depth == 1 then Some(next)
           else After(CloseAt(xml[next + |EndTag(name)|..], name, depth - 1), next + |EndTag(name)|)
         else After(CloseAt(xml[next + 1..], name, if Opens(xml[next..], name) then depth + 1 else depth), next + 1)
  {
    hide Opens, EndTag, CloseAt, EventXml.Find;
    var u := xml[next..];
    assert u[1..] == xml[next + 1..];
    if EndTag(name) <= u { assert u[|EndTag(name)|..] == xml[next + |EndTag(name)|..]; }
  }

  /** The child elements in [start, end). */
  method ForEachChild(xml: Text, start: nat, end: nat) returns (children: seq<Child>)
    requires start <= end <= |xml|
    ensures children == Children(xml[start..], end - start)
  {
    hide Children, ChildrenFrom, EventXml.Find;
    children := [];
    var pos := FindChar(xml, LT, start);
    FoundHere(xml, start, pos, end);
    while pos < |xml| && pos < end
      invariant start <= pos <= |xml|
      invariant pos < |xml| ==> xml[pos] == LT
      invariant children + Children(xml[pos..], end - pos) == Children(xml[start..], end - start)
      decreases |xml| - pos
    {
      FoundFrom(xml, pos, end);
      var found, after := ReadChild(xml, pos, end);
      children := children + found;
      if after.None? { return; }
      pos := FindChar(xml, LT, after.value);
      FoundHere(xml, after.value, pos, end);
    }
    FoundNone(xml, pos, end);
  }

  lemma FoundNone(xml: Text, pos: nat, end: nat)
    requires pos <= |xml| && (pos == |xml| || pos >= end)
    ensures Children(xml[pos..], end - pos) == []
  {
    hide ChildrenFrom;
  }

  /** The child at the < at pos, and where the search goes on: nowhere if its end tag is not before end. */
  method ReadChild(xml: Text, pos: nat, end: nat) returns (found: seq<Child>, after: Option<nat>)
    requires pos < end <= |xml|
    ensures after.None? ==> ChildrenFrom(xml[pos..], end - pos) == found
    ensures after.Some? ==>
      pos < after.value <= |xml|
      && ChildrenFrom(xml[pos..], end - pos) == found + Children(xml[after.value..], end - after.value)
  {
    hide ReadElement, Decode, CloseAt, EndTag, Children;
    var child := ReadElementAt(xml, pos);
    ghost var t := xml[pos..];
    if child.None? {
      assert t[1..] == xml[pos + 1..];
      return [], Some(pos + 1);
    }
    var content := pos + |child.value.tag|;
    assert t[content - pos..] == xml[content..];
    if child.value.isEmpty { return [Child(child.value, [])], Some(content); }
    var contentEnd := ContentEnd(xml, child.value.name, content);
    if contentEnd.None? || contentEnd.value > end { return [], None; }
    var value := DecodeText(xml[content..contentEnd.value]);
    assert xml[content..][..contentEnd.value - content] == xml[content..contentEnd.value];
    var next := contentEnd.value + |EndTag(child.value.name)|;
    assert t[next - pos..] == xml[next..];
    found, after := [Child(child.value, value)], Some(next);
  }

  /** Skipping to the next < leaves the children the same. */
  lemma FoundHere(xml: Text, from: nat, pos: nat, end: nat)
    requires from <= pos <= |xml| && pos == from + EventXml.Find(xml[from..], LT)
    ensures Children(xml[from..], end - from) == Children(xml[pos..], end - pos)
  {
    hide ChildrenFrom;
    assert xml[from..][pos - from..] == xml[pos..];
    if pos < |xml| { assert EventXml.Find(xml[pos..], LT) == 0 && xml[pos..][0..] == xml[pos..]; }
  }

  lemma FoundFrom(xml: Text, pos: nat, end: nat)
    requires pos < |xml| && pos < end && xml[pos] == LT
    ensures Children(xml[pos..], end - pos) == ChildrenFrom(xml[pos..], end - pos)
  {
    hide ChildrenFrom;
    assert xml[pos..][0..] == xml[pos..];
  }

  /** The first element of the name. */
  method FindElementIn(xml: Text, name: Text) returns (r: Option<nat>)
    ensures r == FindElement(xml, name)
  {
    hide ReadElement, FindElement;
    var pos := 0;
    assert xml[0..] == xml;
    while pos < |xml|
      invariant 0 <= pos <= |xml| && After(FindElement(xml[pos..], name), pos) == FindElement(xml, name)
    {
      FindOneOn(xml, pos, name);
      if [LT] + name <= xml[pos..] {
        var element := ReadElementAt(xml, pos);
        if element.Some? && element.value.name == name { return Some(pos); }
      }
      pos := pos + 1;
    }
    FindsNone(name);
    r := None;
  }

  lemma FindOneOn(xml: Text, pos: nat, name: Text)
    requires pos < |xml|
    ensures var t := xml[pos..];
      FindElement(t, name)
        == if [LT] + name <= t && ReadElement(t).Some? && ReadElement(t).value.name == name then Some(0)
           else After(FindElement(xml[pos + 1..], name), 1)
  {
    hide ReadElement;
    assert xml[pos..][1..] == xml[pos + 1..];
  }

  method CollectData(children: seq<Child>) returns (items: seq<Item>)
    ensures items == DataItems(children)
  {
    items := [];
    for i := 0 to |children|
      invariant items + DataItems(children[i..]) == DataItems(children)
    {
      var child := children[i];
      assert children[i..][1..] == children[i + 1..];
      if child.element.name == DATA {
        var name := FindAttribute(child.element.tag, NAME);
        items := items + [Item(name, child.value)];
      }
    }
  }

  method ReadData(xml: Text) returns (items: seq<Item>)
    ensures items == ParseData(xml)
  {
    hide ReadElement, CloseAt, Children, DataItems, FindElement;
    var at := FindElementIn(xml, EVENT_DATA);
    if at.Some? {
      items := ReadEventData(xml[at.value..]);
      return;
    }
    at := FindElementIn(xml, USER_DATA);
    if at.None? { return []; }
    items := ReadUserData(xml[at.value..]);
  }

  method ReadEventData(t: Text) returns (items: seq<Item>)
    requires ReadElement(t).Some?
    ensures items == ParseEventData(t)
  {
    hide ReadElement, CloseAt, Children, DataItems;
    assert t[0..] == t;
    var section := ReadElementAt(t, 0);
    if section.value.isEmpty { return []; }
    var content := t[|section.value.tag|..];
    assert content[0..] == content;
    var end := ContentEnd(content, section.value.name, 0);
    if end.None? { return []; }
    var children := ForEachChild(content, 0, end.value);
    items := CollectData(children);
  }

  method ReadUserData(t: Text) returns (items: seq<Item>)
    requires ReadElement(t).Some?
    ensures items == ParseUserData(t)
  {
    hide ReadElement, CloseAt, Children, FieldItems, EventXml.Find;
    assert t[0..] == t;
    var section := ReadElementAt(t, 0);
    if section.value.isEmpty { return []; }
    var content := t[|section.value.tag|..];
    assert content[0..] == content;
    var end := ContentEnd(content, section.value.name, 0);
    var first := FindChar(content, LT, 0);
    if end.None? || first == |content| || first >= end.value { return []; }
    var root := ReadElementAt(content, first);
    if root.None? || root.value.isEmpty { return []; }
    var start := first + |root.value.tag|;
    var inside := content[start..];
    assert inside[0..] == inside;
    var rootEnd := ContentEnd(inside, root.value.name, 0);
    if rootEnd.None? || start + rootEnd.value > end.value { return []; }
    var children := ForEachChild(inside, 0, rootEnd.value);
    items := CollectFields(children);
  }

  method CollectFields(children: seq<Child>) returns (items: seq<Item>)
    ensures items == FieldItems(children)
  {
    items := [];
    for i := 0 to |children|
      invariant items == FieldItems(children[..i])
    {
      items := items + [Item(children[i].element.name, children[i].value)];
    }
    assert children[..|children|] == children;
  }
}
