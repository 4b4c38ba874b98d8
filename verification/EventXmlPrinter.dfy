/** Well-formed event data and how it is written, for the reader to be proved an inverse of. */
module EventXmlPrinter {
  import opened EventXml
  import opened Units

  /** A character as it is, as one of the five predefined entities, or a code point by number, in any digits
      (sections 4.1 and 4.6 of XML 1.0). */
  datatype Piece = Raw(c: wchar) | Named(c: wchar) | Decimal(digits: Text) | Hexadecimal(digits: Text)

  /** The number digits stand for, leading zeros and either case included. */
  function Value(digits: Text, base: nat): nat {
    if digits == [] then 0
    else Value(digits[..|digits| - 1], base) * base + DigitOf(digits[|digits| - 1])
  }

  ghost predicate AreDigits(digits: Text, base: nat) { digits != [] && forall c :: c in digits ==> DigitOf(c) < base }

  function BaseOf(p: Piece): nat
    requires p.Decimal? || p.Hexadecimal?
  {
    if p.Decimal? then 10 else 16
  }

  /** A reference to a code point by number. */
  ghost predicate IsReference(p: Piece) {
    (p.Decimal? || p.Hexadecimal?) && AreDigits(p.digits, BaseOf(p)) && 0 < Value(p.digits, BaseOf(p)) <= 0x10FFFF
  }

  /** A character the reader can be given; a reference of at most 9 characters. */
  ghost predicate IsPiece(p: Piece) {
    match p
    case Raw(c) => c != LT && c != AMP
    case Named(c) => c == AMP || c == LT || c == GT || c == QUOT || c == APOS
    case _ => IsReference(p) && |EntityText(p)| <= 9
  }

  function EntityName(c: wchar): Text {
    if c == AMP then AMP_NAME else if c == LT then LT_NAME else if c == GT then GT_NAME
    else if c == QUOT then QUOT_NAME else APOS_NAME
  }

  /** What stands between & and ;. */
  function EntityText(p: Piece): Text
    requires !p.Raw?
  {
    match p
    case Named(c) => EntityName(c)
    case Decimal(digits) => [HASH] + digits
    case Hexadecimal(digits) => [HASH, 0x78] + digits
  }

  function PrintPiece(p: Piece): Text {
    if p.Raw? then [p.c] else [AMP] + EntityText(p) + [SEMI]
  }

  ghost function PieceMeaning(p: Piece): Text
    requires IsPiece(p)
  {
    match p
    case Raw(c) => [c]
    case Named(c) => [c]
    case _ => Utf16(Value(p.digits, BaseOf(p)))
  }

  ghost predicate ArePieces(ps: seq<Piece>) { forall p :: p in ps ==> IsPiece(p) }

  function Print(ps: seq<Piece>): Text { if ps == [] then [] else PrintPiece(ps[0]) + Print(ps[1..]) }

  ghost function Meaning(ps: seq<Piece>): Text
    requires ArePieces(ps)
  {
    if ps == [] then [] else PieceMeaning(ps[0]) + Meaning(ps[1..])
  }

  /** Text with the five predefined entities escaped. */
  function Escape(t: Text): seq<Piece> {
    if t == [] then []
    else [if t[0] == AMP || t[0] == LT || t[0] == GT || t[0] == QUOT || t[0] == APOS then Named(t[0]) else Raw(t[0])]
         + Escape(t[1..])
  }

  // ----- elements

  /** Sibling nodes: text, elements with content, empty elements. */
  datatype Forest =
    | End
    | Leaf(pieces: seq<Piece>, rest: Forest)
    | Node(name: Text, attributes: Text, children: Forest, rest: Forest)
    | Empty(name: Text, attributes: Text, rest: Forest)

  ghost predicate IsName(name: Text) {
    && name != [] && name[0] != QUESTION && name[0] != BANG
    && forall c :: c in name ==> !IsSpace(c) && c != SLASH && c != GT && c != LT
  }

  /** What follows a start tag's name: nothing, or a space and attributes without < and >. */
  ghost predicate AreAttributes(t: Text) {
    && LT !in t && GT !in t
    && (t != [] ==> IsSpace(t[0]) && t[|t| - 1] != SLASH)
  }

  ghost predicate IsForest(f: Forest) {
    match f
    case End => true
    case Leaf(pieces, rest) => ArePieces(pieces) && IsForest(rest)
    case Node(name, attributes, children, rest) =>
      IsName(name) && AreAttributes(attributes) && IsForest(children) && IsForest(rest)
    case Empty(name, attributes, rest) => IsName(name) && AreAttributes(attributes) && IsForest(rest)
  }

  function StartTag(name: Text, attributes: Text): Text { [LT] + name + attributes + [GT] }

  function EmptyTag(name: Text, attributes: Text): Text { [LT] + name + attributes + [SLASH, GT] }

  function PrintForest(f: Forest): Text {
    match f
    case End => []
    case Leaf(pieces, rest) => Print(pieces) + PrintForest(rest)
    case Node(name, attributes, children, rest) =>
      StartTag(name, attributes) + PrintForest(children) + EndTag(name) + PrintForest(rest)
    case Empty(name, attributes, rest) => EmptyTag(name, attributes) + PrintForest(rest)
  }

  /** All the text in it. */
  ghost function TextOf(f: Forest): Text
    requires IsForest(f)
  {
    match f
    case End => []
    case Leaf(pieces, rest) => Meaning(pieces) + TextOf(rest)
    case Node(_, _, children, rest) => TextOf(children) + TextOf(rest)
    case Empty(_, _, rest) => TextOf(rest)
  }

  /** Its top-level elements, each with all the text in it. */
  ghost function TopLevel(f: Forest): seq<Child>
    requires IsForest(f)
  {
    match f
    case End => []
    case Leaf(_, rest) => TopLevel(rest)
    case Node(name, attributes, children, rest) =>
      [Child(Element(name, StartTag(name, attributes), false), TextOf(children))] + TopLevel(rest)
    case Empty(name, attributes, rest) =>
      [Child(Element(name, EmptyTag(name, attributes), true), [])] + TopLevel(rest)
  }

  // ----- event data

  /** A Data element's attribute, in either quotes. */
  datatype Datum = Datum(name: seq<Piece>, value: seq<Piece>, quote: wchar)

  /** The name does not hold its own quote, or >, as they are. */
  ghost predicate IsDatum(d: Datum) {
    && ArePieces(d.name) && ArePieces(d.value) && (d.quote == APOS || d.quote == QUOT)
    && forall p :: p in d.name && p.Raw? ==> p.c != d.quote && p.c != GT
  }

  function NameAttribute(d: Datum): Text {
    [SPACE] + NAME + [EQUALS, d.quote] + Print(d.name) + [d.quote]
  }

  /** A Data element's attributes: its name, or none if it has no name. */
  ghost predicate AreDataAttributes(attributes: Text, d: Datum) {
    attributes == NameAttribute(d) || (attributes == [] && d.name == [])
  }

  /** The Data elements among siblings are those of ds, in order; text, empty elements and elements of other names,
      whatever is in them, may stand anywhere between. */
  ghost predicate HoldsData(f: Forest, ds: seq<Datum>)
    requires IsForest(f) && forall d :: d in ds ==> IsDatum(d)
  {
    match f
    case End => ds == []
    case Leaf(_, rest) => HoldsData(rest, ds)
    case Node(name, attributes, children, rest) =>
      if name != DATA then HoldsData(rest, ds)
      else
        && ds != [] && AreDataAttributes(attributes, ds[0])
        && (assert IsDatum(ds[0]); TextOf(children) == Meaning(ds[0].value)) && HoldsData(rest, ds[1..])
    case Empty(name, attributes, rest) =>
      if name != DATA then HoldsData(rest, ds)
      else ds != [] && AreDataAttributes(attributes, ds[0]) && ds[0].value == [] && HoldsData(rest, ds[1..])
  }

  function DataForest(ds: seq<Datum>): Forest {
    if ds == [] then End else Node(DATA, NameAttribute(ds[0]), Leaf(ds[0].value, End), DataForest(ds[1..]))
  }

  ghost function DataMeaning(ds: seq<Datum>): seq<Item>
    requires forall d :: d in ds ==> IsDatum(d)
  {
    if ds == [] then []
    else
      assert IsDatum(ds[0]);
      [Item(Meaning(ds[0].name), Meaning(ds[0].value))] + DataMeaning(ds[1..])
  }

  /** A field of user data: an element's name, and the text in it. */
  datatype Field = Field(name: Text, value: seq<Piece>)

  ghost predicate AreFields(fs: seq<Field>) { forall d :: d in fs ==> ArePieces(d.value) }

  /** The elements among siblings are the fields fs, in order, with whatever attributes and text between. */
  ghost predicate HoldsFields(f: Forest, fs: seq<Field>)
    requires IsForest(f) && AreFields(fs)
  {
    match f
    case End => fs == []
    case Leaf(_, rest) => HoldsFields(rest, fs)
    case Node(name, _, children, rest) =>
      && fs != [] && name == fs[0].name
      && (assert ArePieces(fs[0].value); TextOf(children) == Meaning(fs[0].value)) && HoldsFields(rest, fs[1..])
    case Empty(name, _, rest) =>
      fs != [] && name == fs[0].name && fs[0].value == [] && HoldsFields(rest, fs[1..])
  }

  /** Past text, the first element holds the fields fs. */
  ghost predicate RootHoldsFields(f: Forest, fs: seq<Field>)
    requires IsForest(f) && AreFields(fs)
  {
    match f
    case End => fs == []
    case Leaf(_, rest) => RootHoldsFields(rest, fs)
    case Node(_, _, children, _) => HoldsFields(children, fs)
    case Empty(_, _, _) => fs == []
  }

  ghost function FieldsMeaning(fs: seq<Field>): seq<Item>
    requires AreFields(fs)
  {
    if fs == [] then []
    else
      assert ArePieces(fs[0].value);
      [Item(fs[0].name, Meaning(fs[0].value))] + FieldsMeaning(fs[1..])
  }

  /** Names and values with everything escaped. */
  function EscapedData(items: seq<Item>): seq<Datum> {
    seq(|items|, i requires 0 <= i < |items| => Datum(Escape(items[i].name), Escape(items[i].value), APOS))
  }
}
