/** The reader undoes the printer. */
module EventXmlRoundTrip {
  import opened Optional
  import opened EventXml
  import opened Units
  import opened EventXmlPrinter

  // ----- finding

  lemma {:induction false} FindIn(a: Text, c: wchar, b: Text)
    requires c !in a
    ensures Find(a + [c] + b, c) == |a|
  {
    var t := a + [c] + b;
    if a == [] {
      assert t[0] == c;
    } else {
      assert t[1..] == a[1..] + [c] + b;
      FindIn(a[1..], c, b);
    }
  }

  lemma {:induction false} FindAfter(a: Text, c: wchar, b: Text)
    requires c !in a
    ensures Find(a + b, c) == |a| + Find(b, c)
  {
    if a == [] {
      assert a + b == b;
    } else {
      assert (a + b)[1..] == a[1..] + b;
      FindAfter(a[1..], c, b);
    }
  }

  // ----- numbers

  /** Digits read from the left come to the number they stand for. */
  lemma {:induction false} DigitsValueOf(digits: Text, base: nat, rest: Text)
    requires forall c :: c in digits ==> DigitOf(c) < base
    ensures DigitsValue(digits + rest, base, 0) == DigitsValue(rest, base, Value(digits, base))
    decreases |digits|
  {
    hide DigitOf;
    if digits == [] {
      assert digits + rest == rest;
    } else {
      var k := |digits| - 1;
      assert digits + rest == digits[..k] + ([digits[k]] + rest);
      DigitsValueOf(digits[..k], base, [digits[k]] + rest);
      assert ([digits[k]] + rest)[1..] == rest;
    }
  }

  lemma WcstoulOf(digits: Text, base: nat)
    requires (base == 10 || base == 16) && AreDigits(digits, base) && Value(digits, base) <= 0x10FFFF
    ensures Wcstoul(digits, base) == Value(digits, base)
  {
    assert digits[0] in digits && (|digits| > 1 ==> digits[1] in digits);
    DigitsValueOf(digits, base, []);
    assert digits + [] == digits;
  }

  // ----- references

  ghost predicate IsPlain(e: Text) { SEMI !in e && LT !in e && GT !in e && QUOT !in e && APOS !in e && AMP !in e }

  /** A reference by number, of whatever length, stands for its code point. */
  lemma NumberOf(p: Piece)
    requires IsReference(p)
    ensures var e := EntityText(p); 0 < |e| && IsPlain(e) && Reference(e) == Some(Utf16(Value(p.digits, BaseOf(p))))
  {
    hide Wcstoul, Utf16, Value;
    var d, e := p.digits, EntityText(p);
    WcstoulOf(d, BaseOf(p));
    assert d[0] in d;
    forall c | c in d ensures c != SEMI && c != LT && c != GT && c != QUOT && c != APOS && c != AMP {}
    if p.Decimal? {
      assert e[1] == d[0] && e[1..] == d;
    } else {
      assert e[1] == 0x78 && e[2..] == d;
    }
  }

  /** A reference is at most ten characters long and stands for what it means. */
  lemma ReferenceOf(p: Piece)
    requires IsPiece(p) && !p.Raw?
    ensures var e := EntityText(p); 0 < |e| <= 9 && IsPlain(e) && Reference(e) == Some(PieceMeaning(p))
  {
    hide Wcstoul, Utf16, Value;
    if !p.Named? { NumberOf(p); }
  }

  lemma DecodePiece(p: Piece, rest: Text)
    requires IsPiece(p)
    ensures Decode(PrintPiece(p) + rest) == PieceMeaning(p) + Decode(rest)
  {
    hide Value, Reference, Utf16;
    var t := PrintPiece(p) + rest;
    if p.Raw? {
      assert t[1..] == rest;
    } else {
      var e := EntityText(p);
      ReferenceOf(p);
      assert t == [AMP] + e + [SEMI] + rest;
      FindIn([AMP] + e, SEMI, rest);
      assert t[1..|e| + 1] == e && t[|e| + 2..] == rest;
    }
  }

  lemma {:induction false} DecodePlain(s: Text, rest: Text)
    requires LT !in s && AMP !in s
    ensures Decode(s + rest) == s + Decode(rest)
  {
    if s == [] {
      assert s + rest == rest;
    } else {
      assert (s + rest)[1..] == s[1..] + rest;
      DecodePlain(s[1..], rest);
    }
  }

  /** A longer reference is left as it is. */
  lemma LongerKept(e: Text, rest: Text)
    requires |e| > 9 && IsPlain(e)
    ensures Decode([AMP] + e + [SEMI] + rest) == [AMP] + (e + [SEMI] + Decode(rest))
  {
    hide Reference;
    var t := [AMP] + e + [SEMI] + rest;
    FindIn([AMP] + e, SEMI, rest);
    assert t[1..] == (e + [SEMI]) + rest;
    DecodePlain(e + [SEMI], rest);
  }

  /** A reference by number is decoded to its code point if and only if at most 9 characters stand between & and ;. */
  lemma ReferenceDecoded(p: Piece, rest: Text)
    requires IsReference(p)
    ensures Decode(PrintPiece(p) + rest) == Utf16(Value(p.digits, BaseOf(p))) + Decode(rest) <==> |EntityText(p)| <= 9
  {
    var e, v := EntityText(p), Value(p.digits, BaseOf(p));
    hide Decode, Value, IsPlain;
    if |e| <= 9 {
      DecodePiece(p, rest);
    } else {
      NumberOf(p);
      LongerKept(e, rest);
      assert |Utf16(v)| <= 2;
      assert PrintPiece(p) + rest == [AMP] + e + [SEMI] + rest;
      assert |Decode(PrintPiece(p) + rest)| == |e| + 2 + |Decode(rest)|;
    }
  }

  const ZEROS: Text := [0x30, 0x30, 0x30, 0x30, 0x30, 0x30, 0x30]

  const LONG_A: Text := ZEROS + [0x36] + [0x35]

  /** &#000000065; is a reference to A, and is not decoded. */
  lemma LongReference()
    ensures IsReference(Decimal(LONG_A)) && Utf16(Value(LONG_A, 10)) == [0x41]
    ensures Decode(PrintPiece(Decimal(LONG_A))) != [0x41]
  {
    hide Decode;
    Zeros(ZEROS);
    OneDigitMore(ZEROS, 0x36);
    OneDigitMore(ZEROS + [0x36], 0x35);
    ReferenceDecoded(Decimal(LONG_A), []);
    assert PrintPiece(Decimal(LONG_A)) + [] == PrintPiece(Decimal(LONG_A));
    assert Decode([]) == [] by { DecodesNothing(); }
    assert [0x41] + [] == [0x41];
  }

  lemma OneDigitMore(digits: Text, c: wchar)
    ensures Value(digits + [c], 10) == Value(digits, 10) * 10 + DigitOf(c)
  {
    assert (digits + [c])[..|digits|] == digits;
  }

  lemma {:induction false} Zeros(digits: Text)
    requires forall i :: 0 <= i < |digits| ==> digits[i] == 0x30
    ensures Value(digits, 10) == 0
  {
    if digits != [] { Zeros(digits[..|digits| - 1]); }
  }

  /** The reader's decoding undoes any mixture of characters, entities and code points. */
  lemma {:induction false} DecodePieces(ps: seq<Piece>, rest: Text)
    requires ArePieces(ps)
    ensures Decode(Print(ps) + rest) == Meaning(ps) + Decode(rest)
  {
    if ps == [] {
      assert Print(ps) + rest == rest;
    } else {
      assert ps[0] in ps;
      assert Print(ps) + rest == PrintPiece(ps[0]) + (Print(ps[1..]) + rest);
      DecodePiece(ps[0], Print(ps[1..]) + rest);
      DecodePieces(ps[1..], rest);
    }
  }

  /** Escaping means the text itself. */
  lemma {:induction false} EscapeMeans(t: Text)
    ensures ArePieces(Escape(t)) && Meaning(Escape(t)) == t
    ensures forall p :: p in Escape(t) && p.Raw? ==> p.c != QUOT && p.c != APOS && p.c != GT
  {
    if t != [] {
      EscapeMeans(t[1..]);
      var p := Escape(t)[0];
      assert Escape(t)[1..] == Escape(t[1..]);
      assert Escape(t) == [p] + Escape(t[1..]);
    }
  }

  // ----- tags

  lemma {:induction false} NoTags(ps: seq<Piece>)
    requires ArePieces(ps)
    ensures LT !in Print(ps)
  {
    if ps != [] {
      assert ps[0] in ps;
      NoTags(ps[1..]);
      if !ps[0].Raw? { ReferenceOf(ps[0]); }
    }
  }

  lemma DecodeTag(body: Text, rest: Text)
    requires GT !in body
    ensures Decode([LT] + body + [GT] + rest) == Decode(rest)
  {
    var t := [LT] + body + [GT] + rest;
    FindIn([LT] + body, GT, rest);
    assert t[|body| + 2..] == rest;
  }

  lemma DecodeTags(name: Text, attributes: Text, rest: Text)
    requires IsName(name) && AreAttributes(attributes)
    ensures Decode(StartTag(name, attributes) + rest) == Decode(rest)
    ensures Decode(EmptyTag(name, attributes) + rest) == Decode(rest)
    ensures Decode(EndTag(name) + rest) == Decode(rest)
  {
    hide Decode;
    assert StartTag(name, attributes) == [LT] + (name + attributes) + [GT];
    DecodeTag(name + attributes, rest);
    assert EmptyTag(name, attributes) == [LT] + (name + attributes + [SLASH]) + [GT];
    DecodeTag(name + attributes + [SLASH], rest);
    assert EndTag(name) == [LT] + ([SLASH] + name) + [GT];
    DecodeTag([SLASH] + name, rest);
  }

  /** Decoding a forest leaves the text in it. */
  lemma {:induction false} DecodeForest(f: Forest, rest: Text)
    requires IsForest(f)
    ensures Decode(PrintForest(f) + rest) == TextOf(f) + Decode(rest)
  {
    hide Decode, Print, Meaning, StartTag, EmptyTag, EndTag, IsName, AreAttributes;
    match f
    case End => assert PrintForest(f) + rest == rest;
    case Leaf(pieces, more) =>
      assert PrintForest(f) + rest == Print(pieces) + (PrintForest(more) + rest);
      DecodePieces(pieces, PrintForest(more) + rest);
      DecodeForest(more, rest);
    case Node(name, attributes, children, more) =>
      var after := PrintForest(more) + rest;
      var inside := PrintForest(children) + (EndTag(name) + after);
      assert PrintForest(f) + rest == StartTag(name, attributes) + inside;
      DecodeTags(name, attributes, inside);
      DecodeForest(children, EndTag(name) + after);
      DecodeTags(name, attributes, after);
      DecodeForest(more, rest);
    case Empty(name, attributes, more) =>
      assert PrintForest(f) + rest == EmptyTag(name, attributes) + (PrintForest(more) + rest);
      DecodeTags(name, attributes, PrintForest(more) + rest);
      DecodeForest(more, rest);
  }

  // ----- elements

  ghost predicate AreNameChars(name: Text) { forall c :: c in name ==> !IsSpace(c) && c != SLASH && c != GT }

  lemma {:induction false} NameLengthOf(name: Text, rest: Text, limit: nat)
    requires AreNameChars(name) && |name| <= limit <= |name + rest|
    requires limit == |name| || IsSpace(rest[0]) || rest[0] == SLASH || rest[0] == GT
    ensures NameLength(name + rest, limit) == |name|
  {
    if name == [] {
      assert name + rest == rest;
    } else {
      assert name[0] in name && forall c :: c in name[1..] ==> c in name;
      assert (name + rest)[1..] == name[1..] + rest;
      NameLengthOf(name[1..], rest, limit - 1);
    }
  }

  /** The tag read at [LT] + name + more + [GT]. */
  lemma ReadTag(name: Text, more: Text, rest: Text)
    requires IsName(name) && GT !in more && (more != [] ==> IsSpace(more[0]) || more[0] == SLASH)
    ensures var tag := [LT] + name + more + [GT];
      ReadElement(tag + rest) == Some(Element(name, tag, more != [] && more[|more| - 1] == SLASH))
  {
    hide Find, NameLength, IsSpace;
    var tag, end := [LT] + name + more + [GT], 1 + |name| + |more|;
    var t := tag + rest;
    assert t == ([LT] + name + more) + [GT] + rest;
    FindIn([LT] + name + more, GT, rest);
    TagParts(name, more, rest);
    assert name[0] in name && name[|name| - 1] in name;
    NameLengthOf(name, more + [GT] + rest, end - 1);
  }

  lemma TagParts(name: Text, more: Text, rest: Text)
    requires name != []
    ensures var tag := [LT] + name + more + [GT];
      var t := tag + rest;
      && t[..|tag|] == tag && t[1..] == name + (more + [GT] + rest) && t[1..1 + |name|] == name
      && t[|name| + |more|] == (if more == [] then name[|name| - 1] else more[|more| - 1])
  {
    var t := [LT] + name + more + [GT] + rest;
    assert t[1..] == name + (more + [GT] + rest);
    assert t[1..1 + |name|] == t[1..][..|name|];
  }

  lemma ReadStartTag(name: Text, attributes: Text, rest: Text)
    requires IsName(name) && AreAttributes(attributes)
    ensures ReadElement(StartTag(name, attributes) + rest) == Some(Element(name, StartTag(name, attributes), false))
  {
    ReadTag(name, attributes, rest);
  }

  lemma ReadEmptyTag(name: Text, attributes: Text, rest: Text)
    requires IsName(name) && AreAttributes(attributes)
    ensures ReadElement(EmptyTag(name, attributes) + rest) == Some(Element(name, EmptyTag(name, attributes), true))
  {
    ReadTag(name, attributes + [SLASH], rest);
    assert EmptyTag(name, attributes) == [LT] + name + (attributes + [SLASH]) + [GT];
  }

  // ----- the matching end tag

  lemma NoCloseIn(s: Text, rest: Text, name: Text, depth: nat)
    requires LT !in s && depth >= 1
    ensures CloseAt(s + rest, name, depth) == After(CloseAt(rest, name, depth), |s|)
  {
    hide CloseFrom, Find;
    FindAfter(s, LT, rest);
    var next := Find(rest, LT);
    if next < |rest| { assert (s + rest)[|s| + next..] == rest[next..]; }
  }

  lemma CloseHere(t: Text, name: Text, depth: nat)
    requires depth >= 1 && t != [] && t[0] == LT
    ensures CloseAt(t, name, depth) == CloseFrom(t, name, depth)
  {
    hide CloseFrom;
    assert t[0..] == t;
  }

  /** End tags of different names do not begin alike. */
  lemma EndTagsDiffer(a: Text, b: Text, rest: Text)
    requires GT !in a && GT !in b && EndTag(a) <= EndTag(b) + rest
    ensures a == b
  {
    var u := EndTag(b) + rest;
    assert u == ([LT, SLASH] + b) + [GT] + rest;
    FindIn([LT, SLASH] + b, GT, rest);
    var rest' := u[|EndTag(a)|..];
    assert u == ([LT, SLASH] + a) + [GT] + rest';
    FindIn([LT, SLASH] + a, GT, rest');
    assert a == u[2..2 + |a|] && b == u[2..2 + |b|];
  }

  /** Passing over a tag that does not close the name. */
  lemma PassTag(body: Text, rest: Text, name: Text, depth: nat)
    requires LT !in body && GT !in body && depth >= 1
    requires !(EndTag(name) <= [LT] + body + [GT] + rest)
    ensures var t := [LT] + body + [GT] + rest;
      CloseAt(t, name, depth) == After(CloseAt(rest, name, if Opens(t, name) then depth + 1 else depth), |body| + 2)
  {
    hide Opens, EndTag, CloseAt, Find;
    var t := [LT] + body + [GT] + rest;
    CloseHere(t, name, depth);
    assert t[1..] == (body + [GT]) + rest;
    NoCloseIn(body + [GT], rest, name, if Opens(t, name) then depth + 1 else depth);
  }

  lemma NotEndTag(name: Text, inner: Text, more: Text)
    requires inner != [] && inner[0] != SLASH
    ensures !(EndTag(name) <= [LT] + inner + more)
  {
    var t := [LT] + inner + more;
    assert t[1] == inner[0] != EndTag(name)[1];
  }

  /** Under any depth of same-named nesting, the search passes over a whole forest. */
  lemma {:induction false} CloseAfterForest(f: Forest, rest: Text, name: Text, depth: nat)
    requires IsForest(f) && IsName(name) && depth >= 1
    ensures CloseAt(PrintForest(f) + rest, name, depth) == After(CloseAt(rest, name, depth), |PrintForest(f)|)
    decreases f, 1
  {
    hide CloseAt, Print;
    match f
    case End => assert PrintForest(f) + rest == rest;
    case Leaf(pieces, more) =>
      assert PrintForest(f) + rest == Print(pieces) + (PrintForest(more) + rest);
      NoTags(pieces);
      NoCloseIn(Print(pieces), PrintForest(more) + rest, name, depth);
      CloseAfterForest(more, rest, name, depth);
    case Node(_, _, _, _) => CloseAfterNode(f, rest, name, depth);
    case Empty(inner, attributes, more) =>
      assert PrintForest(f) + rest == EmptyTag(inner, attributes) + (PrintForest(more) + rest);
      PassEmptyTag(inner, attributes, PrintForest(more) + rest, name, depth);
      CloseAfterForest(more, rest, name, depth);
  }

  lemma PassEmptyTag(inner: Text, attributes: Text, rest: Text, name: Text, depth: nat)
    requires IsName(inner) && AreAttributes(attributes) && depth >= 1
    ensures CloseAt(EmptyTag(inner, attributes) + rest, name, depth)
         == After(CloseAt(rest, name, depth), |EmptyTag(inner, attributes)|)
  {
    hide CloseAt, ReadElement;
    var body, t := inner + attributes + [SLASH], EmptyTag(inner, attributes) + rest;
    assert t == [LT] + body + [GT] + rest;
    assert t == [LT] + inner + (attributes + [SLASH, GT] + rest);
    assert inner[0] in inner;
    NotEndTag(name, inner, attributes + [SLASH, GT] + rest);
    ReadEmptyTag(inner, attributes, rest);
    PassTag(body, rest, name, depth);
  }

  lemma PassStartTag(inner: Text, attributes: Text, rest: Text, name: Text, depth: nat)
    requires IsName(inner) && AreAttributes(attributes) && depth >= 1
    ensures CloseAt(StartTag(inner, attributes) + rest, name, depth)
         == After(CloseAt(rest, name, if inner == name then depth + 1 else depth), |StartTag(inner, attributes)|)
  {
    hide CloseAt, ReadElement;
    var body, t := inner + attributes, StartTag(inner, attributes) + rest;
    assert t == [LT] + body + [GT] + rest;
    assert t == [LT] + inner + (attributes + [GT] + rest);
    assert inner[0] in inner;
    NotEndTag(name, inner, attributes + [GT] + rest);
    ReadStartTag(inner, attributes, rest);
    PassTag(body, rest, name, depth);
  }

  /** An end tag closes one of its own name, and is passed over by a search for another. */
  lemma PassEndTag(inner: Text, rest: Text, name: Text, depth: nat)
    requires IsName(inner) && IsName(name) && depth >= 1 && (inner == name ==> depth > 1)
    ensures CloseAt(EndTag(inner) + rest, name, depth)
         == After(CloseAt(rest, name, if inner == name then depth - 1 else depth), |EndTag(inner)|)
  {
    hide CloseAt, Find;
    var t := EndTag(inner) + rest;
    if inner == name {
      CloseHere(t, name, depth);
      assert EndTag(name) <= t && t[|EndTag(name)|..] == rest;
    } else {
      if EndTag(name) <= t { EndTagsDiffer(name, inner, rest); }
      assert t == [LT] + ([SLASH] + inner) + [GT] + rest;
      PassTag([SLASH] + inner, rest, name, depth);
      assert !Opens(t, name);
    }
  }

  lemma {:induction false} CloseAfterNode(f: Forest, rest: Text, name: Text, depth: nat)
    requires f.Node? && IsForest(f) && IsName(name) && depth >= 1
    ensures CloseAt(PrintForest(f) + rest, name, depth) == After(CloseAt(rest, name, depth), |PrintForest(f)|)
    decreases f, 0
  {
    hide CloseAt, Print, StartTag, EndTag;
    var Node(inner, attributes, children, more) := f;
    var after := PrintForest(more) + rest;
    var inside := PrintForest(children) + (EndTag(inner) + after);
    var depth' := if inner == name then depth + 1 else depth;
    assert PrintForest(f) + rest == StartTag(inner, attributes) + inside;
    PassStartTag(inner, attributes, inside, name, depth);
    CloseAfterForest(children, EndTag(inner) + after, name, depth');
    PassEndTag(inner, after, name, depth');
    CloseAfterForest(more, rest, name, depth);
  }

  /** The end tag after a forest is the one found, whatever nests inside. */
  lemma CloseOf(f: Forest, name: Text, rest: Text)
    requires IsForest(f) && IsName(name)
    ensures CloseAt(PrintForest(f) + (EndTag(name) + rest), name, 1) == Some(|PrintForest(f)|)
  {
    hide CloseAt, Find;
    var t := EndTag(name) + rest;
    CloseAfterForest(f, t, name, 1);
    CloseHere(t, name, 1);
    assert EndTag(name) <= t;
  }
}
