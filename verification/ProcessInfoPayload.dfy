/** DotNetInfo::ParseProcessInfo: the .NET diagnostics server's answer to ProcessInfo, or to ProcessInfo2. */
module ProcessInfoPayload {
  import opened Optional
  import opened Units

  datatype Info = Info(processId: nat, cookie: seq<byte>, commandLine: Text, os: Text, architecture: Text,
                       entryAssembly: Text, clrVersion: Text)

  // What is read: a value and the bytes left after it, or nothing if the bytes do not hold it

  function TakeNumber(d: seq<byte>, size: nat): Option<(nat, seq<byte>)> {
    if |d| < size then None else Some((Number(d, size), d[size..]))
  }

  /** A count of characters with the NUL, then the characters. */
  function TakeString(d: seq<byte>): Option<(Text, seq<byte>)> {
    if |d| < 4 then None
    else
      var count, rest := Number(d, 4), d[4..];
      if count == 0 then Some(([], rest))
      else if |rest| < count * 2 then None
      else Some((BeforeNul(Wide(rest[..count * 2])), rest[count * 2..]))
  }

  function TakeStrings(d: seq<byte>, n: nat): (r: Option<(seq<Text>, seq<byte>)>)
    ensures r.Some? ==> |r.value.0| == n
  {
    if n == 0 then Some(([], d))
    else
      var first := TakeString(d);
      if first.None? then None
      else
        var more := TakeStrings(first.value.1, n - 1);
        if more.None? then None else Some(([first.value.0] + more.value.0, more.value.1))
  }

  function StringCount(v2: bool): nat { if v2 then 5 else 3 }

  function TakeInfo(d: seq<byte>, v2: bool): Option<(Info, seq<byte>)> {
    if |d| < 24 then None
    else
      var r := TakeStrings(d[24..], StringCount(v2));
      if r.None? then None
      else
        var t := r.value.0;
        Some((Info(Number(d, 8), d[8..24], t[0], t[1], t[2], if v2 then t[3] else [], if v2 then t[4] else []),
              r.value.1))
  }

  /** What lies after the strings is not looked at. */
  function Parse(d: seq<byte>, v2: bool): Option<Info> {
    var r := TakeInfo(d, v2);
    if r.None? then None else Some(r.value.0)
  }

  // The reader

  /** Reads a payload in order; a read past its end makes ok false, and leaves nothing to read. */
  class PayloadReader {
    const data: seq<byte>
    var pos: nat
    var ok: bool

    predicate Valid()
      reads this
    {
      pos <= |data| && (!ok ==> pos == |data|)
    }

    function Left(): seq<byte>
      requires Valid()
      reads this
    {
      data[pos..]
    }

    constructor (data: seq<byte>)
      ensures Valid() && ok && Left() == data && this.data == data
    {
      this.data := data;
      pos, ok := 0, true;
    }

    method Get(size: nat) returns (bytes: seq<byte>)
      requires Valid() && size > 0
      modifies this
      ensures Valid() && |bytes| == size
      ensures ok == (old(ok) && size <= |old(Left())|)
      ensures ok ==> bytes == old(Left())[..size] && Left() == old(Left())[size..]
    {
      if |data| - pos < size {
        ok := false;
        pos := |data|;
        return seq(size, i => 0);
      }
      bytes := data[pos..pos + size];
      pos := pos + size;
    }

    method String() returns (text: Text)
      requires Valid()
      modifies this
      ensures Valid()
      ensures ok == (old(ok) && TakeString(old(Left())).Some?)
      ensures ok ==> TakeString(old(Left())) == Some((text, Left()))
      ensures !ok ==> text == []
    {
      hide Number, Wide, BeforeNul;
      ghost var before := Left();
      var count4 := Get(4);
      var count := Number(count4, 4);
      assert ok ==> count == Number(before, 4) by { if ok { SameNumber(before, 4); } }
      if !ok || count == 0 { return []; }
      if |data| - pos < count * 2 {
        ok := false;
        pos := |data|;
        return [];
      }
      assert data[pos..pos + count * 2] == Left()[..count * 2];
      text := BeforeNul(Wide(data[pos..pos + count * 2]));
      pos := pos + count * 2;
      assert Left() == before[4..][count * 2..];
    }
  }

  /** The strings read so far, and what is left, if nothing read was past the end. */
  ghost predicate AreRead(payload: seq<byte>, ts: seq<Text>, ok: bool, left: seq<byte>) {
    if |payload| < 24 then !ok
    else
      var r := TakeStrings(payload[24..], |ts|);
      if ok then r.Some? && r.value.0 == ts && r.value.1 == left else r.None?
  }

  lemma {:induction false} TakeOneMore(d: seq<byte>, n: nat)
    ensures var r := TakeStrings(d, n);
      TakeStrings(d, n + 1).Some? <==> r.Some? && TakeString(r.value.1).Some?
    ensures var r, s := TakeStrings(d, n), TakeStrings(d, n + 1);
      s.Some? ==> s.value.0 == r.value.0 + [TakeString(r.value.1).value.0] && s.value.1 == TakeString(r.value.1).value.1
    decreases n
  {
    hide TakeString;
    if n > 0 && TakeString(d).Some? { TakeOneMore(TakeString(d).value.1, n - 1); }
  }

  method NextString(reader: PayloadReader, ghost ts: seq<Text>) returns (text: Text)
    requires reader.Valid() && AreRead(reader.data, ts, reader.ok, reader.Left())
    modifies reader
    ensures reader.Valid() && AreRead(reader.data, ts + [text], reader.ok, reader.Left())
        && (reader.ok ==> old(reader.ok))
  {
    hide TakeString, TakeStrings;
    if |reader.data| >= 24 { TakeOneMore(reader.data[24..], |ts|); }
    text := reader.String();
  }

  method ParseProcessInfo(payload: seq<byte>, v2: bool) returns (info: Option<Info>)
    ensures info == Parse(payload, v2)
  {
    hide *;
    var reader := new PayloadReader(payload);
    var id, cookie := ReadHeader(reader);
    var commandLine := NextString(reader, []);
    assert [] + [commandLine] == [commandLine];
    var os := NextString(reader, [commandLine]);
    var architecture := NextString(reader, [commandLine] + [os]);
    var entryAssembly, clrVersion := [], [];
    ghost var ts := [commandLine] + [os] + [architecture];
    if v2 {
      entryAssembly := NextString(reader, ts);
      clrVersion := NextString(reader, ts + [entryAssembly]);
      ts := ts + [entryAssembly] + [clrVersion];
    }
    AllRead(payload, ts, v2, reader.ok, reader.Left());
    if !reader.ok { return None; }
    info := Some(Info(id, cookie, commandLine, os, architecture, entryAssembly, clrVersion));
  }

  method ReadHeader(reader: PayloadReader) returns (id: nat, cookie: seq<byte>)
    requires reader.Valid() && reader.ok && reader.Left() == reader.data
    modifies reader
    ensures reader.Valid() && AreRead(reader.data, [], reader.ok, reader.Left())
    ensures reader.ok ==> |reader.data| >= 24 && id == Number(reader.data, 8) && cookie == reader.data[8..24]
  {
    hide Number;
    var bytes := reader.Get(8);
    if reader.ok { SameNumber(reader.data, 8); }
    id := Number(bytes, 8);
    cookie := reader.Get(16);
  }

  lemma AllRead(payload: seq<byte>, ts: seq<Text>, v2: bool, ok: bool, left: seq<byte>)
    requires |ts| == (if v2 then 5 else 3) && AreRead(payload, ts, ok, left)
    ensures ok ==> |payload| >= 24
    ensures Parse(payload, v2) ==
      if !ok then None
      else Some(Info(Number(payload, 8), payload[8..24], ts[0], ts[1], ts[2], if v2 then ts[3] else [],
                     if v2 then ts[4] else []))
  {
    hide TakeStrings, Number;
  }

  // What is written

  predicate IsString(t: Text) { 0 !in t && |t| + 1 < 0x1_0000_0000 }

  function StringBytes(t: Text): seq<byte> { Little(|t| + 1, 4) + (Encoded(t) + [0, 0]) }

  function StringsBytes(ts: seq<Text>): seq<byte> {
    if ts == [] then [] else StringBytes(ts[0]) + StringsBytes(ts[1..])
  }

  function Strings(info: Info, v2: bool): seq<Text> {
    [info.commandLine, info.os, info.architecture] + if v2 then [info.entryAssembly, info.clrVersion] else []
  }

  /** An answer's payload; ProcessInfo's has no entry assembly and no version. */
  function Payload(info: Info, v2: bool): seq<byte> {
    Little(info.processId, 8) + info.cookie + StringsBytes(Strings(info, v2))
  }

  predicate IsInfo(info: Info, v2: bool) {
    && info.processId < 0x1_0000_0000_0000_0000 && |info.cookie| == 16
    && (forall t :: t in Strings(info, v2) ==> IsString(t))
    && (!v2 ==> info.entryAssembly == [] && info.clrVersion == [])
  }

  // The round trip

  lemma TakesString(t: Text, rest: seq<byte>)
    requires IsString(t)
    ensures TakeString(StringBytes(t) + rest) == Some((t, rest))
  {
    hide Number, Little, Wide, BeforeNul;
    var d, text := StringBytes(t) + rest, Encoded(t) + [0, 0];
    assert d == Little(|t| + 1, 4) + (text + rest);
    FourBytes(|t| + 1, text + rest);
    assert d[4..] == text + rest;
    assert (text + rest)[..(|t| + 1) * 2] == text && (text + rest)[(|t| + 1) * 2..] == rest;
    WideOfEncoded(t, [0, 0]);
    ZeroWide();
    BeforeNulIs(t, [0]);
  }

  lemma ZeroWide()
    ensures Wide([0, 0]) == [0]
  {
    assert Wide([0, 0]) == [Two([0, 0])] + Wide([0, 0][2..]);
  }

  lemma {:induction false} TakesStrings(ts: seq<Text>, rest: seq<byte>)
    requires forall t :: t in ts ==> IsString(t)
    ensures TakeStrings(StringsBytes(ts) + rest, |ts|).Some?
    ensures TakeStrings(StringsBytes(ts) + rest, |ts|).value.0 == ts
        && TakeStrings(StringsBytes(ts) + rest, |ts|).value.1 == rest
  {
    hide TakeString, StringBytes, IsString;
    if ts == [] {
      assert StringsBytes(ts) + rest == rest;
    } else {
      TakesStrings(ts[1..], rest);
      TakesString(ts[0], StringsBytes(ts[1..]) + rest);
      assert StringsBytes(ts) + rest == StringBytes(ts[0]) + (StringsBytes(ts[1..]) + rest);
    }
  }

  /** Parsing undoes writing, whatever follows, and takes exactly what was written. */
  lemma TakesInfo(info: Info, v2: bool, rest: seq<byte>)
    requires IsInfo(info, v2)
    ensures TakeInfo(Payload(info, v2) + rest, v2) == Some((info, rest))
  {
    hide Number, Little, TakeStrings, StringsBytes, IsString;
    var ts := Strings(info, v2);
    var d := Payload(info, v2) + rest;
    assert d == Little(info.processId, 8) + (info.cookie + (StringsBytes(ts) + rest));
    EightBytes(info.processId, info.cookie + (StringsBytes(ts) + rest));
    assert d[8..24] == info.cookie && d[24..] == StringsBytes(ts) + rest;
    TakesStrings(ts, rest);
  }

  // What is cut short

  lemma TakeStringMore(d: seq<byte>, more: seq<byte>)
    requires TakeString(d).Some?
    ensures TakeString(d + more) == Some((TakeString(d).value.0, TakeString(d).value.1 + more))
  {
    hide Number, Wide, BeforeNul;
    SameNumber(d, 4);
    SameNumber(d + more, 4);
    assert (d + more)[..4] == d[..4] && (d + more)[4..] == d[4..] + more;
    var rest, count := d[4..], Number(d, 4);
    if count > 0 {
      assert (rest + more)[..count * 2] == rest[..count * 2] && (rest + more)[count * 2..] == rest[count * 2..] + more;
    }
  }

  lemma {:induction false} TakeStringsMore(d: seq<byte>, n: nat, more: seq<byte>)
    requires TakeStrings(d, n).Some?
    ensures TakeStrings(d + more, n) == Some((TakeStrings(d, n).value.0, TakeStrings(d, n).value.1 + more))
    decreases n
  {
    hide TakeString;
    if n > 0 {
      TakeStringMore(d, more);
      TakeStringsMore(TakeString(d).value.1, n - 1, more);
    }
  }

  /** What is parsed does not depend on what follows. */
  lemma TakeInfoMore(d: seq<byte>, v2: bool, more: seq<byte>)
    requires TakeInfo(d, v2).Some?
    ensures TakeInfo(d + more, v2) == Some((TakeInfo(d, v2).value.0, TakeInfo(d, v2).value.1 + more))
  {
    hide Number, TakeStrings;
    SameNumber(d, 8);
    SameNumber(d + more, 8);
    assert (d + more)[..8] == d[..8] && (d + more)[8..24] == d[8..24] && (d + more)[24..] == d[24..] + more;
    TakeStringsMore(d[24..], StringCount(v2), more);
  }

  lemma TakesNoLess(d: seq<byte>, v2: bool, more: seq<byte>)
    requires TakeInfo(d, v2).Some? && TakeInfo(d + more, v2).Some? && TakeInfo(d + more, v2).value.1 == []
    ensures more == []
  {
    TakeInfoMore(d, v2, more);
  }

  /** Both versions' answers are parsed back, and no part of one short of the whole is taken for an answer. */
  lemma ParsesWholePayloads(info: Info, v2: bool, k: nat)
    requires IsInfo(info, v2) && k <= |Payload(info, v2)|
    ensures Parse(Payload(info, v2)[..k], v2) == if k == |Payload(info, v2)| then Some(info) else None
  {
    hide TakeInfo, Payload, IsInfo;
    var d := Payload(info, v2);
    TakesInfo(info, v2, []);
    assert d + [] == d && d[..k] + d[k..] == d;
    if k == |d| {
      assert d[..k] == d;
    } else if TakeInfo(d[..k], v2).Some? {
      TakesNoLess(d[..k], v2, d[k..]);
      assert false;
    }
  }

  /** A ProcessInfo2 answer read as a ProcessInfo one gives the same but for what only it has. */
  lemma NewAnswerReadAsOld(info: Info)
    requires IsInfo(info, true)
    ensures Parse(Payload(info, true), false) == Some(info.(entryAssembly := [], clrVersion := []))
  {
    var old1 := info.(entryAssembly := [], clrVersion := []);
    var first, last := [info.commandLine, info.os, info.architecture], [info.entryAssembly, info.clrVersion];
    assert forall t :: t in first ==> t in Strings(info, true);
    StringsJoin(first, last);
    assert first + last == Strings(info, true) && Strings(old1, false) == first + [] == first;
    assert Payload(info, true) == Payload(old1, false) + StringsBytes(last);
    TakesInfo(old1, false, StringsBytes(last));
  }

  lemma {:induction false} StringsJoin(a: seq<Text>, b: seq<Text>)
    ensures StringsBytes(a + b) == StringsBytes(a) + StringsBytes(b)
  {
    if a == [] {
      assert a + b == b;
    } else {
      assert (a + b)[1..] == a[1..] + b;
      StringsJoin(a[1..], b);
    }
  }
}
