/** ProcessMemory::Find: a chunked search that equals the naive one. */
module MemoryFind {
  import opened Optional
  import opened MemoryModel
  import opened Units

  // ----- what a match is

  /** An ASCII letter in lower case; anything else as it is. */
  function Fold(unit: nat): nat { if 0x41 <= unit <= 0x5A then unit + 0x20 else unit }

  /** Units are alike ignoring case if they are the same, or the two cases of one ASCII letter. */
  lemma FoldedAlike(a: nat, b: nat)
    ensures Fold(a) == Fold(b) <==>
      a == b || (0x41 <= a <= 0x5A && b == a + 0x20) || (0x41 <= b <= 0x5A && a == b + 0x20)
  {}

  function Unit(s: seq<byte>, k: nat): nat
    requires 2 * k + 1 < |s|
  {
    s[2 * k] as int + 256 * (s[2 * k + 1] as int)
  }

  /** The bytes match the pattern: exactly, byte by byte ignoring ASCII case, or by UTF-16 units ignoring
      ASCII case (an odd last byte exactly). */
  ghost predicate Matches(data: seq<byte>, pattern: seq<byte>, ignoreCase: bool, wide: bool) {
    && |data| == |pattern|
    && if !ignoreCase then data == pattern
       else if !wide then forall j :: 0 <= j < |data| ==> Fold(data[j]) == Fold(pattern[j])
       else
         && (forall k: nat :: 2 * k + 1 < |data| ==> Fold(Unit(data, k)) == Fold(Unit(pattern, k)))
         && (|data| % 2 == 1 ==> data[|data| - 1] == pattern[|pattern| - 1])
  }

  datatype Query = Query(pattern: seq<byte>, ignoreCase: bool, wide: bool, from: nat, to: nat)

  /** A whole match at address a, in the range and in readable memory throughout. */
  ghost predicate IsMatch(m: Memory, q: Query, a: nat) {
    && q.from <= a && a + |q.pattern| <= q.to
    && AllReadable(m, a, a + |q.pattern|)
    && Matches(Bytes(m, a, |q.pattern|), q.pattern, q.ignoreCase, q.wide)
  }

  // ----- searching a buffer

  /** Folding the low byte of a unit whose high byte is zero folds the unit. */
  lemma FoldUnits(d: seq<byte>, p: seq<byte>, k: nat)
    requires |d| == |p| && 2 * k + 1 < |d|
    ensures Fold(Unit(d, k)) == Fold(Unit(p, k)) <==>
      d[2 * k + 1] == p[2 * k + 1]
      && (if p[2 * k + 1] == 0 then Fold(d[2 * k]) == Fold(p[2 * k]) else d[2 * k] == p[2 * k])
  {}

  /** Matching bytes have matching first bytes, however they match: the filter loses nothing. */
  lemma FirstBytesFold(d: seq<byte>, p: seq<byte>, wide: bool)
    requires Matches(d, p, true, wide) && p != []
    ensures Fold(d[0]) == Fold(p[0])
  {
    if wide && |d| > 1 { FoldUnits(d, p, 0); }
  }

  method MatchesFolded(data: array<byte>, at: nat, pattern: seq<byte>, wide: bool) returns (r: bool)
    requires at + |pattern| <= data.Length
    ensures r == Matches(data[at..at + |pattern|], pattern, true, wide)
  {
    ghost var d := data[at..at + |pattern|];
    if !wide {
      for j := 0 to |pattern|
        invariant forall i :: 0 <= i < j ==> Fold(d[i]) == Fold(pattern[i])
      {
        if Fold(data[at + j]) != Fold(pattern[j]) {
          assert d[j] == data[at + j];
          return false;
        }
      }
      return true;
    }
    var k := 0;
    while 2 * k + 1 < |pattern|
      invariant forall i: nat :: i < k ==> 2 * i + 1 < |d| && Fold(Unit(d, i)) == Fold(Unit(pattern, i))
    {
      FoldUnits(d, pattern, k);
      assert d[2 * k] == data[at + 2 * k] && d[2 * k + 1] == data[at + 2 * k + 1];
      if data[at + 2 * k + 1] != pattern[2 * k + 1] { return false; }
      if pattern[2 * k + 1] == 0 {
        if Fold(data[at + 2 * k]) != Fold(pattern[2 * k]) { return false; }
      } else if data[at + 2 * k] != pattern[2 * k] {
        return false;
      }
      k := k + 1;
    }
    r := |pattern| % 2 == 0 || data[at + |pattern| - 1] == pattern[|pattern| - 1];
  }

  /** memchr: the first b in data[lo..hi]. */
  method FirstByte(data: array<byte>, lo: nat, hi: nat, b: byte) returns (p: Option<nat>)
    requires lo <= hi <= data.Length
    ensures p.Some? ==> lo <= p.value < hi && data[p.value] == b && b !in data[lo..p.value]
    ensures p.None? ==> b !in data[lo..hi]
  {
    for i := lo to hi
      invariant b !in data[lo..i]
    {
      if data[i] == b { return Some(i); }
    }
    p := None;
  }

  /** A match at offset i of the buffer's first count bytes. */
  ghost predicate MatchesIn(data: seq<byte>, q: Query, i: nat) {
    i + |q.pattern| <= |data| && Matches(data[i..i + |q.pattern|], q.pattern, q.ignoreCase, q.wide)
  }

  /** r is the first match in the bytes. */
  ghost predicate IsFirst(data: seq<byte>, q: Query, r: Option<nat>) {
    && (r.Some? ==> MatchesIn(data, q, r.value) && forall i: nat :: i < r.value ==> !MatchesIn(data, q, i))
    && (r.None? ==> forall i: nat :: !MatchesIn(data, q, i))
  }

  method SearchExact(data: array<byte>, count: nat, q: Query) returns (r: Option<nat>)
    requires |q.pattern| <= count <= data.Length && q.pattern != [] && !q.ignoreCase
    ensures IsFirst(data[..count], q, r)
  {
    var size, last := |q.pattern|, count - |q.pattern|;
    var i := 0;
    while i <= last
      invariant forall k: nat :: k < i ==> !MatchesIn(data[..count], q, k)
      decreases last + 1 - i
    {
      var p := FirstByte(data, i, last + 1, q.pattern[0]);
      var until := if p.Some? then p.value else last + 1;
      forall k: nat | i <= k < until ensures !MatchesIn(data[..count], q, k) {
        assert data[i..until][k - i] == data[k];
        assert data[..count][k..k + size][0] == data[k];
      }
      if p.None? { return None; }
      assert data[..count][p.value..p.value + size] == data[p.value..p.value + size];
      if data[p.value..p.value + size] == q.pattern { return p; }
      i := p.value + 1;
    }
    r := None;
  }

  method SearchFolded(data: array<byte>, count: nat, q: Query) returns (r: Option<nat>)
    requires |q.pattern| <= count <= data.Length && q.pattern != [] && q.ignoreCase
    ensures IsFirst(data[..count], q, r)
  {
    var size, last := |q.pattern|, count - |q.pattern|;
    var first := Fold(q.pattern[0]);
    var i := 0;
    while i <= last
      invariant forall k: nat :: k < i ==> !MatchesIn(data[..count], q, k)
    {
      assert data[..count][i..i + size] == data[i..i + size];
      if Fold(data[i]) == first {
        var found := MatchesFolded(data, i, q.pattern, q.wide);
        if found { return Some(i); }
      } else if MatchesIn(data[..count], q, i) {
        FirstBytesFold(data[i..i + size], q.pattern, q.wide);
      }
      i := i + 1;
    }
    r := None;
  }

  /** The first match in the buffer's first count bytes. */
  method Search(data: array<byte>, count: nat, q: Query) returns (r: Option<nat>)
    requires count <= data.Length && q.pattern != []
    ensures IsFirst(data[..count], q, r)
  {
    if count < |q.pattern| { return None; }
    if q.ignoreCase { r := SearchFolded(data, count, q); } else { r := SearchExact(data, count, q); }
  }

  // ----- searching memory

  /** The readable regions following a readable one, up to the range's end. */
  method Coalesced(m: Memory, address: nat, to: nat) returns (end: nat)
    requires IsMemory(m) && IsReadable(m, address) && address < to
    ensures address < end && AllReadable(m, address, end)
    ensures end < to ==> !IsReadable(m, end)
  {
    end := MemoryModel.Query(m, address).value.end;
    forall a | address <= a < end ensures IsReadable(m, a) { InRegion(m, address, a); }
    SameRegion(m.regions, 0, address, address);
    while end < to && IsReadable(m, end)
      invariant address < end && AllReadable(m, address, end)
      decreases if end < to then to - end else 0
    {
      var next := MemoryModel.Query(m, end).value.end;
      forall a | end <= a < next ensures IsReadable(m, a) { InRegion(m, end, a); }
      SameRegion(m.regions, 0, end, end);
      end := next;
    }
  }

  ghost predicate NoneBefore(m: Memory, q: Query, hi: nat) { forall a: nat :: a < hi ==> !IsMatch(m, q, a) }

  lemma MatchReads(m: Memory, q: Query, a: nat, b: nat)
    requires IsMatch(m, q, a) && a <= b < a + |q.pattern|
    ensures IsReadable(m, b)
  {}

  /** A match starting in the chunk at `at` lies in the chunk and the pattern's length less one after it. */
  lemma MatchInChunk(m: Memory, q: Query, at: nat, end: nat, count: nat, a: nat)
    requires q.pattern != [] && AllReadable(m, at, end) && end <= q.to
    requires end < q.to ==> !IsReadable(m, end)
    requires at < end && count == (if CHUNK + |q.pattern| - 1 <= end - at then CHUNK + |q.pattern| - 1 else end - at)
    requires IsMatch(m, q, a) && at <= a < at + CHUNK && a < end
    ensures MatchesIn(Bytes(m, at, count), q, a - at)
  {
    assert a + |q.pattern| <= end by {
      if end < a + |q.pattern| { MatchReads(m, q, a, end); }
    }
    assert Bytes(m, at, count)[a - at..a - at + |q.pattern|] == Bytes(m, a, |q.pattern|);
  }

  /** The chunks of one readable range. */
  method FindInRange(m: Memory, q: Query, address: nat, end: nat, buffer: array<byte>) returns (r: Option<nat>)
    requires q.pattern != [] && q.from <= address < end <= q.to && AllReadable(m, address, end)
    requires end < q.to ==> !IsReadable(m, end)
    requires buffer.Length == CHUNK + |q.pattern| && NoneBefore(m, q, address)
    modifies buffer
    ensures r.Some? ==> IsMatch(m, q, r.value) && NoneBefore(m, q, r.value)
    ensures r.None? ==> NoneBefore(m, q, end)
  {
    var at, size := address, |q.pattern|;
    while at < end
      invariant address <= at && NoneBefore(m, q, if at < end then at else end)
    {
      var count := if CHUNK + size - 1 <= end - at then CHUNK + size - 1 else end - at;
      Read(m, at, buffer, count);
      var i := Search(buffer, count, q);
      var hi := if i.Some? then at + i.value else if at + CHUNK < end then at + CHUNK else end;
      forall a: nat | at <= a < hi ensures !IsMatch(m, q, a) {
        if IsMatch(m, q, a) { MatchInChunk(m, q, at, end, count, a); }
      }
      if i.Some? {
        assert Bytes(m, at, count)[i.value..i.value + size] == Bytes(m, at + i.value, size);
        return Some(at + i.value);
      }
      at := at + CHUNK;
    }
    r := None;
  }

  /** The least address in the range where a whole match lies in readable memory; none if there is none. */
  method Find(m: Memory, q: Query) returns (r: Option<nat>)
    requires IsMemory(m)
    ensures q.pattern == [] ==> r.None?
    ensures r.Some? ==> IsMatch(m, q, r.value) && forall a: nat :: a < r.value ==> !IsMatch(m, q, a)
    ensures r.None? && q.pattern != [] ==> forall a: nat :: !IsMatch(m, q, a)
  {
    if q.pattern == [] || q.from >= q.to { return None; }
    var buffer := new byte[CHUNK + |q.pattern|];
    var address := q.from;
    while address < q.to
      invariant q.from <= address && NoneBefore(m, q, if address < q.to then address else q.to)
      decreases q.to - address
    {
      var region := MemoryModel.Query(m, address);
      SameRegion(m.regions, 0, address, address);
      if region.None? {
        forall a: nat ensures !IsMatch(m, q, a) {
          if a >= address && IsMatch(m, q, a) { MatchReads(m, q, a, a); SameRegion(m.regions, 0, address, a); }
        }
        return None;
      }
      var end := region.value.end;
      if region.value.readable {
        end := Coalesced(m, address, q.to);
        var upTo := if end < q.to then end else q.to;
        r := FindInRange(m, q, address, upTo, buffer);
        if r.Some? { return; }
      } else {
        forall a: nat | address <= a < end ensures !IsMatch(m, q, a) {
          if IsMatch(m, q, a) { MatchReads(m, q, a, a); }
          InRegion(m, address, a);
        }
      }
      address := end;
    }
    r := None;
  }
}
