/** Event XML as EventLog reads it: what each of its parser's functions finds, on the text from a position on. */
module EventXml {
  import opened Optional
  import opened Units

  const LT: wchar := 0x3C
  const GT: wchar := 0x3E
  const AMP: wchar := 0x26
  const SEMI: wchar := 0x3B
  const HASH: wchar := 0x23
  const SLASH: wchar := 0x2F
  const QUOT: wchar := 0x22
  const APOS: wchar := 0x27
  const EQUALS: wchar := 0x3D
  const SPACE: wchar := 0x20
  const QUESTION: wchar := 0x3F
  const BANG: wchar := 0x21

  const AMP_NAME: Text := [0x61, 0x6D, 0x70]          // amp
  const LT_NAME: Text := [0x6C, 0x74]                 // lt
  const GT_NAME: Text := [0x67, 0x74]                 // gt
  const QUOT_NAME: Text := [0x71, 0x75, 0x6F, 0x74]   // quot
  const APOS_NAME: Text := [0x61, 0x70, 0x6F, 0x73]   // apos
  const NAME: Text := [0x4E, 0x61, 0x6D, 0x65]        // Name
  const DATA: Text := [0x44, 0x61, 0x74, 0x61]        // Data
  const EVENT_DATA: Text := [0x45, 0x76, 0x65, 0x6E, 0x74, 0x44, 0x61, 0x74, 0x61]  // EventData
  const USER_DATA: Text := [0x55, 0x73, 0x65, 0x72, 0x44, 0x61, 0x74, 0x61]         // UserData

  /** ASCII text as UTF-16 units. */
  function Spelled(s: string): Text {
    seq<wchar>(|s|, i requires 0 <= i < |s| => if s[i] < 128 as char then s[i] as int else 0)
  }

  lemma NamesAreSpelled()
    ensures AMP_NAME == Spelled("amp") && LT_NAME == Spelled("lt") && GT_NAME == Spelled("gt")
    ensures QUOT_NAME == Spelled("quot") && APOS_NAME == Spelled("apos")
    ensures [AMP, LT, GT, QUOT, APOS] == Spelled("&<>\"'")
    ensures NAME == Spelled("Name") && DATA == Spelled("Data")
    ensures EVENT_DATA == Spelled("EventData") && USER_DATA == Spelled("UserData")
  {}

  predicate IsSpace(c: wchar) {
    9 <= c <= 13 || c == 0x20 || c == 0x85 || c == 0xA0 || c == 0x1680 || 0x2000 <= c <= 0x200A
    || c == 0x2028 || c == 0x2029 || c == 0x202F || c == 0x205F || c == 0x3000
  }

  /** Where c is first in t; |t| if it is not there. */
  function Find(t: Text, c: wchar): (r: nat)
    ensures r <= |t| && c !in t[..r] && (r < |t| ==> t[r] == c)
  {
    if t == [] || t[0] == c then 0 else 1 + Find(t[1..], c)
  }

  // ----- references

  function DigitOf(c: wchar): nat {
    if 0x30 <= c <= 0x39 then c - 0x30
    else if 0x41 <= c <= 0x46 then c - 0x41 + 10
    else if 0x61 <= c <= 0x66 then c - 0x61 + 10
    else 16
  }

  /** The digits at the front, on top of those read. */
  function DigitsValue(t: Text, base: nat, read: nat): nat {
    if t == [] || DigitOf(t[0]) >= base then read else DigitsValue(t[1..], base, read * base + DigitOf(t[0]))
  }

  function SkipSpaces(t: Text): Text {
    if t != [] && IsSpace(t[0]) then SkipSpaces(t[1..]) else t
  }

  const ULONG_LIMIT: nat := 0x1_0000_0000

  /** wcstoul on a 32-bit unsigned long: white space, a sign, 0x in base 16, then digits. */
  function Wcstoul(text: Text, base: nat): nat {
    var t := SkipSpaces(text);
    var negative := t != [] && t[0] == 0x2D;
    var u := if t != [] && (t[0] == 0x2D || t[0] == 0x2B) then t[1..] else t;
    var v := if base == 16 && |u| >= 2 && u[0] == 0x30 && (u[1] == 0x78 || u[1] == 0x58) then u[2..] else u;
    var value := DigitsValue(v, base, 0);
    if value >= ULONG_LIMIT then ULONG_LIMIT - 1
    else if negative then (ULONG_LIMIT - value) % ULONG_LIMIT else value
  }

  /** A code point's UTF-16 units (section 2.1 of RFC 2781). */
  function Utf16(value: nat): Text
    requires value <= 0x10FFFF
  {
    if value <= 0xFFFF then [value]
    else [0xD800 + (value - 0x10000) / 0x400, 0xDC00 + (value - 0x10000) % 0x400]
  }

  /** A code point above U+FFFF is written as a high and a low surrogate, which it is made up of: different code points
      as different units. */
  lemma Surrogates(value: nat)
    requires 0xFFFF < value <= 0x10FFFF
    ensures var t := Utf16(value);
      && |t| == 2 && 0xD800 <= t[0] <= 0xDBFF && 0xDC00 <= t[1] <= 0xDFFF
      && value == 0x10000 + (t[0] as int - 0xD800) * 0x400 + (t[1] as int - 0xDC00)
  {}

  /** What the reference between & and ; stands for; none if it is unknown, and kept as it is. */
  function Reference(entity: Text): Option<Text> {
    if entity == AMP_NAME then Some([AMP])
    else if entity == LT_NAME then Some([LT])
    else if entity == GT_NAME then Some([GT])
    else if entity == QUOT_NAME then Some([QUOT])
    else if entity == APOS_NAME then Some([APOS])
    else if |entity| > 1 && entity[0] == HASH then
      var hex := entity[1] == 0x78 || entity[1] == 0x58;
      var value := if hex then Wcstoul(entity[2..], 16) else Wcstoul(entity[1..], 10);
      Some(if 0 < value <= 0x10FFFF then Utf16(value) else [])
    else None
  }

  /** References decoded, tags dropped. */
  function Decode(t: Text): Text {
    if t == [] then []
    else if t[0] == LT then
      var end := Find(t, GT);
      if end == |t| then [] else Decode(t[end + 1..])
    else if t[0] != AMP then [t[0]] + Decode(t[1..])
    else
      var semi := Find(t, SEMI);
      if semi == |t| || semi > 10 then [t[0]] + Decode(t[1..])
      else
        var r := Reference(t[1..semi]);
        (if r.Some? then r.value else t[..semi + 1]) + Decode(t[semi + 1..])
  }

  lemma DecodesNothing()
    ensures Decode([]) == []
  {}

  // ----- elements

  datatype Element = Element(name: Text, tag: Text, isEmpty: bool)

  /** The length of the element name at the front of t, before limit. */
  function NameLength(t: Text, limit: nat): (r: nat)
    requires limit <= |t|
    ensures r <= limit
  {
    if limit == 0 || IsSpace(t[0]) || t[0] == SLASH || t[0] == GT then 0 else 1 + NameLength(t[1..], limit - 1)
  }

  /** The start tag at the front of t. */
  function ReadElement(t: Text): (r: Option<Element>)
    ensures r.Some? ==> |r.value.name| + 2 <= |r.value.tag| <= |t|
  {
    if |t| < 2 || t[0] != LT || t[1] == SLASH || t[1] == QUESTION || t[1] == BANG then None
    else
      var end := Find(t, GT);
      if end == |t| then None
      else Some(Element(t[1..1 + NameLength(t[1..], end - 1)], t[..end + 1], t[end - 1] == SLASH))
  }

  function EndTag(name: Text): (r: Text)
    ensures |r| == |name| + 3
  {
    [LT, SLASH] + name + [GT]
  }

  /** Where the end tag is that closes depth elements of the name. */
  function CloseAt(t: Text, name: Text, depth: nat): (r: Option<nat>)
    requires depth >= 1
    ensures r.Some? ==> r.value + |EndTag(name)| <= |t|
    decreases |t|, 1
  {
    var next := Find(t, LT);
    if next == |t| then None else After(CloseFrom(t[next..], name, depth), next)
  }

  /** The same from a < on. */
  function CloseFrom(t: Text, name: Text, depth: nat): (r: Option<nat>)
    requires depth >= 1 && t != []
    ensures r.Some? ==> r.value + |EndTag(name)| <= |t|
    decreases |t|, 0
  {
    if EndTag(name) <= t then
      if depth == 1 then Some(0) else After(CloseAt(t[|EndTag(name)|..], name, depth - 1), |EndTag(name)|)
    else After(CloseAt(t[1..], name, if Opens(t, name) then depth + 1 else depth), 1)
  }

  /** A start tag of the name, not an empty element's. */
  predicate Opens(t: Text, name: Text) {
    var inner := ReadElement(t);
    inner.Some? && inner.value.name == name && !inner.value.isEmpty
  }

  function After(r: Option<nat>, n: nat): Option<nat> { if r.Some? then Some(r.value + n) else None }

  datatype Child = Child(element: Element, value: Text)

  /** The child elements of the first length characters of t, with their decoded contents. */
  function Children(t: Text, length: int): seq<Child>
    decreases |t|, 1
  {
    var pos := Find(t, LT);
    if pos == |t| || pos >= length then [] else ChildrenFrom(t[pos..], length - pos)
  }

  /** The same from a < on. */
  function ChildrenFrom(t: Text, length: int): seq<Child>
    requires t != []
    decreases |t|, 0
  {
    var child := ReadElement(t);
    if child.None? then Children(t[1..], length - 1)
    else
      var tag := |child.value.tag|;
      if child.value.isEmpty then [Child(child.value, [])] + Children(t[tag..], length - tag)
      else
        var end := CloseAt(t[tag..], child.value.name, 1);
        if end.None? || tag + end.value > length then []
        else
          var next := tag + end.value + |EndTag(child.value.name)|;
          [Child(child.value, Decode(t[tag..][..end.value]))] + Children(t[next..], length - next)
  }

  /** The first element of the name. */
  function FindElement(t: Text, name: Text): (r: Option<nat>)
    ensures r.Some? ==> r.value < |t| && ReadElement(t[r.value..]).Some?
  {
    if t == [] then None
    else if [LT] + name <= t && ReadElement(t).Some? && ReadElement(t).value.name == name then Some(0)
    else After(FindElement(t[1..], name), 1)
  }

  lemma FindsNone(name: Text)
    ensures FindElement([], name).None?
  {}

  // ----- attributes

  /** The attribute's value when its name, of length size, is at pos in the tag: none if it is not one there. */
  function AttributeAt(tag: Text, size: nat, pos: nat): Option<Text>
    requires pos + size <= |tag|
  {
    if pos == 0 || !IsSpace(tag[pos - 1]) then None
    else
      var t := SkipSpaces(tag[pos + size..]);
      if t == [] || t[0] != EQUALS then None
      else
        var u := SkipSpaces(t[1..]);
        if u == [] || (u[0] != APOS && u[0] != QUOT) then None
        else
          var end := Find(u[1..], u[0]);
          Some(if end == |u[1..]| then [] else Decode(u[1..][..end]))
  }

  function AttributeFrom(tag: Text, name: Text, pos: nat): Text
    requires pos <= |tag|
    decreases |tag| - pos
  {
    if pos == |tag| then []
    else if name <= tag[pos..] && AttributeAt(tag, |name|, pos).Some? then AttributeAt(tag, |name|, pos).value
    else AttributeFrom(tag, name, pos + 1)
  }

  function Attribute(tag: Text, name: Text): Text { AttributeFrom(tag, name, 0) }

  // ----- the event's data

  datatype Item = Item(name: Text, value: Text)

  /** The named data among an EventData section's children. */
  function DataItems(children: seq<Child>): seq<Item> {
    if children == [] then []
    else
      (if children[0].element.name == DATA
       then [Item(Attribute(children[0].element.tag, NAME), children[0].value)]
       else [])
      + DataItems(children[1..])
  }

  /** A UserData section's fields. */
  function FieldItems(children: seq<Child>): seq<Item> {
    seq(|children|, i requires 0 <= i < |children| => Item(children[i].element.name, children[i].value))
  }

  function ParseData(xml: Text): seq<Item> {
    var data := FindElement(xml, EVENT_DATA);
    if data.Some? then ParseEventData(xml[data.value..])
    else
      var user := FindElement(xml, USER_DATA);
      if user.None? then [] else ParseUserData(xml[user.value..])
  }

  /** From an EventData element on. */
  function ParseEventData(t: Text): seq<Item>
    requires ReadElement(t).Some?
  {
    var section := ReadElement(t).value;
    if section.isEmpty then []
    else
      var content := t[|section.tag|..];
      var end := CloseAt(content, section.name, 1);
      if end.None? then [] else DataItems(Children(content, end.value))
  }

  /** From a UserData element on: its first element's children. */
  function ParseUserData(t: Text): seq<Item>
    requires ReadElement(t).Some?
  {
    var section := ReadElement(t).value;
    if section.isEmpty then []
    else
      var content := t[|section.tag|..];
      var end := CloseAt(content, section.name, 1);
      var first := Find(content, LT);
      if end.None? || first == |content| || first >= end.value then []
      else
        var root := ReadElement(content[first..]);
        if root.None? || root.value.isEmpty then []
        else
          var start := first + |root.value.tag|;
          var rootEnd := CloseAt(content[start..], root.value.name, 1);
          if rootEnd.None? || start + rootEnd.value > end.value then []
          else FieldItems(Children(content[start..], rootEnd.value))
  }
}
