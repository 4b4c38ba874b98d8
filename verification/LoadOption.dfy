/** Firmware's ParseLoadOption: an EFI_LOAD_OPTION's attributes, description and file path. */
module LoadOption {
  import opened Optional
  import opened Units

  const END_TYPE: byte := 0x7F
  const MEDIA: byte := 4
  const FILE_PATH: byte := 4

  datatype Entry = Entry(attributes: nat, description: Text, filePath: Text)

  // What is read, on the bytes left

  /** The characters up to a NUL or the end, and the bytes after them. */
  function TakeText(d: seq<byte>): (Text, seq<byte>) {
    if |d| < 2 then ([], d)
    else if Two(d) == 0 then ([], d[2..])
    else var more := TakeText(d[2..]); ([Two(d)] + more.0, more.1)
  }

  /** The text of a file path node's data. */
  function FileText(data: seq<byte>): Text { BeforeNul(Wide(data)) }

  /** Where the node at the front ends; none if the walk stops there. */
  function NodeLength(d: seq<byte>): (r: Option<nat>)
    ensures r.Some? ==> 4 <= r.value <= |d|
  {
    if |d| < 4 then None
    else
      var length := Number(d[2..], 2);
      if length < 4 || length > |d| || d[0] == END_TYPE then None else Some(length)
  }

  function NodeText(d: seq<byte>, length: nat): Text
    requires 4 <= length <= |d|
  {
    if d[0] == MEDIA && d[1] == FILE_PATH then FileText(d[4..length]) else []
  }

  function PathText(d: seq<byte>): Text {
    var length := NodeLength(d);
    if length.None? then [] else NodeText(d, length.value) + PathText(d[length.value..])
  }

  function Parse(d: seq<byte>): Option<Entry> {
    if |d| < 6 then None
    else
      var text := TakeText(d[6..]);
      var path := text.1[..Min(|text.1|, Number(d[4..], 2))];
      Some(Entry(Number(d, 4), text.0, PathText(path)))
  }

  // The method

  method ParseLoadOption(data: seq<byte>) returns (entry: Option<Entry>)
    ensures entry == Parse(data)
  {
    hide PathText, TakeText, NodeText, NodeLength, Number;
    if |data| < 6 { return None; }
    var pathLength := Number(data[4..], 2);
    var description, offset := ParseDescription(data);
    var end := Min(|data|, offset + pathLength);
    var filePath := ParsePath(data, offset, end);
    assert data[offset..end] == data[offset..][..end - offset];
    entry := Some(Entry(Number(data, 4), description, filePath));
  }

  method ParseDescription(data: seq<byte>) returns (description: Text, offset: nat)
    requires |data| >= 6
    ensures offset <= |data| && TakeText(data[6..]).0 == description && TakeText(data[6..]).1 == data[offset..]
  {
    hide Two;
    description, offset := [], 6;
    while offset + 1 < |data|
      invariant offset <= |data|
      invariant TakeText(data[6..]).0 == description + TakeText(data[offset..]).0
      invariant TakeText(data[6..]).1 == TakeText(data[offset..]).1
    {
      ghost var left := data[offset..];
      var c := Two(data[offset..]);
      offset := offset + 2;
      assert left[2..] == data[offset..];
      if c == 0 { return; }
      assert TakeText(left).0 == [c] + TakeText(data[offset..]).0;
      description := description + [c];
    }
  }

  /** The walk on from a node. */
  lemma NodeRest(d: seq<byte>, length: nat)
    requires |d| >= 4 && length == Number(d[2..], 2)
    ensures length < 4 || length > |d| || d[0] == END_TYPE ==> PathText(d) == []
    ensures !(length < 4 || length > |d| || d[0] == END_TYPE) ==>
      PathText(d) == (if d[0] == MEDIA && d[1] == FILE_PATH then FileText(d[4..length]) else []) + PathText(d[length..])
  {}

  lemma NoNode(d: seq<byte>)
    requires |d| < 4
    ensures PathText(d) == []
  {}

  lemma SliceOfSlice(d: seq<byte>, a: nat, b: nat, i: nat, j: nat)
    requires i <= j && a + j <= b <= |d|
    ensures d[a..b][i..j] == d[a + i..a + j]
  {
    var part, whole := d[a..b][i..j], d[a + i..a + j];
    forall k | 0 <= k < j - i ensures part[k] == whole[k] { assert part[k] == d[a..b][i + k]; }
    assert |part| == |whole|;
  }

  method ParsePath(data: seq<byte>, start: nat, end: nat) returns (filePath: Text)
    requires start <= end <= |data|
    ensures filePath == PathText(data[start..end])
  {
    hide PathText, Number, Two, Wide, BeforeNul;
    filePath := [];
    var offset := start;
    while offset + 4 <= end
      invariant start <= offset <= end
      invariant PathText(data[start..end]) == filePath + PathText(data[offset..end])
      decreases end - offset
    {
      ghost var d := data[offset..end];
      var kind, subKind := data[offset], data[offset + 1];
      var length := Number(data[offset + 2..end], 2);
      assert d[2..] == data[offset + 2..end];
      NodeRest(d, length);
      if length < 4 || offset + length > end || kind == END_TYPE { return; }
      SliceOfSlice(data, offset, end, 4, length);
      assert d[length..] == data[offset + length..end];
      if kind == MEDIA && subKind == FILE_PATH {
        var path := BeforeNul(Wide(data[offset + 4..offset + length]));
        filePath := filePath + path;
      }
      offset := offset + length;
    }
    NoNode(data[offset..end]);
  }

  // What is written (sections 3.1.3 and 10.3 of the UEFI Specification)

  /** A file path, with whatever follows its text in the node, or a node of another kind. */
  datatype Node = File(text: Text, after: seq<byte>) | Other(kind: byte, subKind: byte, data: seq<byte>)

  /** A text ends at a NUL or, but for an odd last byte, with its node; the other nodes are no file paths and no
      ends. */
  predicate IsNode(n: Node) {
    && |DataOf(n)| + 4 < 0x1_0000
    && match n
       case File(text, after) => 0 !in text && (|after| <= 1 || [0, 0] <= after)
       case Other(kind, subKind, _) => kind != 0x7F && (kind, subKind) != (0x04, 0x04)
  }

  function DataOf(n: Node): seq<byte> {
    match n
    case File(text, after) => Encoded(text) + after
    case Other(_, _, data) => data
  }

  function NodeBytes(n: Node): seq<byte> {
    (if n.File? then [0x04, 0x04] else [n.kind, n.subKind]) + Little(|DataOf(n)| + 4, 2) + DataOf(n)
  }

  function PathBytes(ns: seq<Node>): seq<byte> {
    if ns == [] then [0x7F, 0xFF] + Little(4, 2) else NodeBytes(ns[0]) + PathBytes(ns[1..])
  }

  function OptionBytes(attributes: nat, description: Text, ns: seq<Node>, optional: seq<byte>): seq<byte> {
    Little(attributes, 4) + Little(|PathBytes(ns)|, 2) + (Encoded(description) + [0, 0] + (PathBytes(ns) + optional))
  }

  /** The file paths, joined. */
  function FilePath(ns: seq<Node>): Text {
    if ns == [] then [] else (if ns[0].File? then ns[0].text else []) + FilePath(ns[1..])
  }

  // The round trip

  lemma {:induction false} TakeTextOf(t: Text, rest: seq<byte>)
    requires 0 !in t
    ensures TakeText(Encoded(t) + [0, 0] + rest).0 == t && TakeText(Encoded(t) + [0, 0] + rest).1 == rest
  {
    hide Two;
    var d := Encoded(t) + [0, 0] + rest;
    if t == [] {
      assert d == [0, 0] + rest && d[2..] == rest;
      ZeroTwo(d);
    } else {
      TakeTextOf(t[1..], rest);
      assert t[0] in t && 0 !in t[1..];
      assert d[2..] == Encoded(t[1..]) + [0, 0] + rest;
      assert Split(t[0]) <= d;
      TwoOf(t[0], d);
    }
  }

  lemma ZeroTwo(d: seq<byte>)
    requires |d| >= 2 && d[0] == 0 && d[1] == 0
    ensures Two(d) == 0
  {}

  lemma NodeRead(n: Node, rest: seq<byte>)
    requires IsNode(n)
    ensures var d, length := NodeBytes(n) + rest, |DataOf(n)| + 4;
      && NodeLength(d) == Some(length) && d[length..] == rest
      && NodeText(d, length) == if n.File? then n.text else []
  {
    hide FileText, Number, Little, DataOf;
    var d, data := NodeBytes(n) + rest, DataOf(n);
    var length := |data| + 4;
    assert d[2..] == Little(length, 2) + (data + rest);
    TwoBytes(length, data + rest);
    assert d[4..length] == data && d[length..] == rest;
    if n.File? { FileTextIs(n.text, n.after); }
  }

  lemma FileTextIs(text: Text, after: seq<byte>)
    requires IsNode(File(text, after))
    ensures FileText(DataOf(File(text, after))) == text
  {
    hide Encoded, Wide, BeforeNul, FileText;
    if |after| <= 1 {
      FileTextEnds(text, after);
    } else {
      FileTextOf(text, after[2..]);
      assert Encoded(text) + after == Encoded(text) + [0, 0] + after[2..];
    }
  }

  lemma FileTextEnds(text: Text, after: seq<byte>)
    requires 0 !in text && |after| <= 1
    ensures FileText(Encoded(text) + after) == text
  {
    WideOfEncoded(text, after);
    BeforeNulIs(text, []);
    hide Encoded, BeforeNul;
    assert Wide(after) == [];
  }

  lemma {:induction false} PathTextOf(ns: seq<Node>)
    requires forall n :: n in ns ==> IsNode(n)
    ensures PathText(PathBytes(ns)) == FilePath(ns)
  {
    hide NodeLength, NodeText, NodeBytes, FileText;
    if ns == [] {
      EndStops();
    } else {
      PathTextOf(ns[1..]);
      NodeRead(ns[0], PathBytes(ns[1..]));
    }
  }

  lemma EndStops()
    ensures NodeLength(PathBytes([])).None?
  {}

  /** Parsing undoes encoding, whatever optional data follows: the attributes, the description and the file paths. */
  lemma ParsesOption(attributes: nat, description: Text, ns: seq<Node>, optional: seq<byte>)
    requires attributes < 0x1_0000_0000 && 0 !in description && (forall n :: n in ns ==> IsNode(n))
    requires |PathBytes(ns)| < 0x1_0000
    ensures Parse(OptionBytes(attributes, description, ns, optional))
        == Some(Entry(attributes, description, FilePath(ns)))
  {
    hide PathText, TakeText, Number, Little, PathBytes, Encoded, FilePath;
    var d, path := OptionBytes(attributes, description, ns, optional), PathBytes(ns);
    var text := Encoded(description) + [0, 0] + (path + optional);
    assert d == Little(attributes, 4) + (Little(|path|, 2) + text);
    assert d[4..] == Little(|path|, 2) + text && d[6..] == text;
    FourBytes(attributes, Little(|path|, 2) + text);
    TwoBytes(|path|, text);
    TakeTextOf(description, path + optional);
    PathTextOf(ns);
    assert (path + optional)[..|path|] == path;
  }

  /** A file path node written as its text and a NUL is read as the text, whatever follows the NUL. */
  lemma FileTextOf(t: Text, rest: seq<byte>)
    requires 0 !in t
    ensures FileText(Encoded(t) + [0, 0] + rest) == t
  {
    assert Encoded(t) + [0, 0] + rest == Encoded(t) + ([0, 0] + rest);
    WideOfEncoded(t, [0, 0] + rest);
    BeforeNulIs(t, Wide([0, 0] + rest));
  }

  /** And without a NUL. */
  lemma FileTextWhole(t: Text)
    requires 0 !in t
    ensures FileText(Encoded(t)) == t
  {
    assert Encoded(t) == Encoded(t) + [];
    WideOfEncoded(t, []);
    BeforeNulIs(t, []);
  }
}
