/** ProcessMemory::FindStrings: a chunked scan that finds exactly the maximal text runs. */
module MemoryStrings {
  import opened Optional
  import opened MemoryModel
  import opened Units

  datatype Options = Options(minLength: nat, ascii: bool, unicode: bool, maxResults: nat, maxText: nat)

  datatype MemoryString = MemoryString(address: nat, length: nat, wide: bool, text: seq<nat>)

  datatype Range = Range(start: nat, end: nat)

  // ----- what a string is

  /** Printable ASCII and tab; the Latin-1 letters too in a wide string. */
  predicate IsTextChar(ch: nat, wide: bool) {
    0x20 <= ch < 0x7F || ch == 9 || (wide && 0xA0 <= ch <= 0xFF)
  }

  predicate IsEnabled(o: Options, wide: bool) { if wide then o.unicode else o.ascii }

  function Width(wide: bool): nat { if wide then 2 else 1 }

  /** A range is cut in characters from its start: its bytes, or pairs of them. */
  function CharCount(r: Range, wide: bool): nat
    requires r.start <= r.end
  {
    (r.end - r.start) / Width(wide)
  }

  function CharAddress(start: nat, wide: bool, k: nat): nat { start + Width(wide) * k }

  function CharAt(m: Memory, start: nat, wide: bool, k: nat): nat {
    var a := CharAddress(start, wide, k);
    if wide then m.at(a) as int + 256 * (m.at(a + 1) as int) else m.at(a) as int
  }

  predicate TextAt(m: Memory, start: nat, wide: bool, k: nat) { IsTextChar(CharAt(m, start, wide, k), wide) }

  ghost predicate AllText(m: Memory, start: nat, wide: bool, i: nat, j: nat) {
    forall k: nat :: i <= k < j ==> TextAt(m, start, wide, k)
  }

  /** Characters i to j are text, and neither neighbour is. */
  ghost predicate IsRun(m: Memory, r: Range, wide: bool, i: nat, j: nat)
    requires r.start <= r.end
  {
    && i < j <= CharCount(r, wide) && AllText(m, r.start, wide, i, j)
    && (i == 0 || !TextAt(m, r.start, wide, i - 1))
    && (j == CharCount(r, wide) || !TextAt(m, r.start, wide, j))
  }

  function Chars(m: Memory, start: nat, wide: bool, i: nat, count: nat): seq<nat> {
    seq<nat>(count, k requires 0 <= k < count => CharAt(m, start, wide, i + k))
  }

  function StringOf(m: Memory, o: Options, start: nat, wide: bool, i: nat, j: nat): MemoryString
    requires i <= j
  {
    MemoryString(CharAddress(start, wide, i), j - i, wide, Chars(m, start, wide, i, Min(j - i, o.maxText)))
  }

  ghost predicate IsStringIn(m: Memory, o: Options, r: Range, x: MemoryString)
    requires r.start <= r.end
  {
    exists i: nat, j: nat ::
      IsRun(m, r, x.wide, i, j) && IsEnabled(o, x.wide) && j - i >= o.minLength
      && x == StringOf(m, o, r.start, x.wide, i, j)
  }

  ghost predicate IsRanges(rs: seq<Range>) {
    (forall i :: 0 <= i < |rs| ==> rs[i].start < rs[i].end)
    && forall i, j :: 0 <= i < j < |rs| ==> rs[i].end < rs[j].start
  }

  ghost predicate Covers(rs: seq<Range>, a: nat) { exists i :: 0 <= i < |rs| && rs[i].start <= a < rs[i].end }

  ghost predicate IsMaximal(m: Memory, from: nat, to: nat, r: Range) {
    && from <= r.start && r.end <= to && AllReadable(m, r.start, r.end)
    && (r.start == from || !IsReadable(m, r.start - 1)) && (r.end == to || !IsReadable(m, r.end))
  }

  /** rs are the maximal readable ranges of [from, to), in order. */
  ghost predicate AreReadableRanges(m: Memory, from: nat, to: nat, rs: seq<Range>) {
    && IsRanges(rs)
    && (forall i :: 0 <= i < |rs| ==> IsMaximal(m, from, to, rs[i]))
    && forall a :: from <= a < to && IsReadable(m, a) ==> Covers(rs, a)
  }

  // ----- the readable ranges

  /** A range found so far: it may still grow at the address reached. */
  ghost predicate IsRangeTo(m: Memory, from: nat, to: nat, address: nat, r: Range) {
    && from <= r.start && r.end <= Min(address, to) && AllReadable(m, r.start, r.end)
    && (r.start == from || !IsReadable(m, r.start - 1))
    && (r.end == to || r.end == address || !IsReadable(m, r.end))
  }

  ghost predicate RangesTo(m: Memory, from: nat, to: nat, address: nat, rs: seq<Range>) {
    && IsRanges(rs)
    && (forall i :: 0 <= i < |rs| ==> IsRangeTo(m, from, to, address, rs[i]))
    && forall a :: from <= a < Min(address, to) && IsReadable(m, a) ==> Covers(rs, a)
  }

  method FindRanges(m: Memory, from: nat, to: nat) returns (rs: seq<Range>)
    requires IsMemory(m) && from < to
    ensures AreReadableRanges(m, from, to, rs)
  {
    rs := [];
    var address := from;
    while address < to
      invariant from <= address && RangesTo(m, from, to, address, rs)
      decreases if address < to then to - address else 0
    {
      var region := Query(m, address);
      SameRegion(m.regions, 0, address, address);
      if region.None? {
        forall a | address <= a < to ensures !IsReadable(m, a) { SameRegion(m.regions, 0, address, a); }
        RangesEnd(m, from, to, address, rs);
        return;
      }
      var end := Min(region.value.end, to);
      forall a | address <= a < region.value.end ensures IsReadable(m, a) == region.value.readable {
        InRegion(m, address, a);
      }
      if region.value.readable {
        if rs != [] && rs[|rs| - 1].end == address {
          LastGrows(m, from, to, address, region.value.end, rs);
          rs := rs[|rs| - 1 := Range(rs[|rs| - 1].start, end)];
        } else {
          RangeStarts(m, from, to, address, region.value.end, rs);
          rs := rs + [Range(address, end)];
        }
      }
      address := region.value.end;
    }
    RangesEnd(m, from, to, address, rs);
  }

  lemma RangesEnd(m: Memory, from: nat, to: nat, address: nat, rs: seq<Range>)
    requires RangesTo(m, from, to, address, rs)
    requires forall a :: address <= a < to ==> !IsReadable(m, a)
    ensures AreReadableRanges(m, from, to, rs)
  {
    forall i | 0 <= i < |rs| ensures IsMaximal(m, from, to, rs[i]) {
      assert IsRangeTo(m, from, to, address, rs[i]);
    }
  }

  lemma LastGrows(m: Memory, from: nat, to: nat, address: nat, next: nat, rs: seq<Range>)
    requires from <= address < to && address < next && RangesTo(m, from, to, address, rs)
    requires AllReadable(m, address, next) && rs != [] && rs[|rs| - 1].end == address
    ensures RangesTo(m, from, to, next, rs[|rs| - 1 := Range(rs[|rs| - 1].start, Min(next, to))])
  {
    var last := |rs| - 1;
    var r := rs[last := Range(rs[last].start, Min(next, to))];
    forall i | 0 <= i < |r| ensures IsRangeTo(m, from, to, next, r[i]) {
      assert IsRangeTo(m, from, to, address, rs[i]);
    }
    forall a | from <= a < Min(next, to) && IsReadable(m, a) ensures Covers(r, a) {
      if a < address {
        var i :| 0 <= i < |rs| && rs[i].start <= a < rs[i].end;
        assert r[i].start <= a < r[i].end;
      } else {
        assert r[last].start <= a < r[last].end;
      }
    }
  }

  lemma RangeStarts(m: Memory, from: nat, to: nat, address: nat, next: nat, rs: seq<Range>)
    requires from <= address < to && address < next && RangesTo(m, from, to, address, rs)
    requires AllReadable(m, address, next) && (rs == [] || rs[|rs| - 1].end != address)
    ensures RangesTo(m, from, to, next, rs + [Range(address, Min(next, to))])
  {
    var r := rs + [Range(address, Min(next, to))];
    if address > from && IsReadable(m, address - 1) {
      assert Covers(rs, address - 1);
    }
    forall i | 0 <= i < |r| ensures IsRangeTo(m, from, to, next, r[i]) {
      if i < |rs| { assert IsRangeTo(m, from, to, address, rs[i]); }
    }
    forall a | from <= a < Min(next, to) && IsReadable(m, a) ensures Covers(r, a) {
      if a < address {
        var i :| 0 <= i < |rs| && rs[i].start <= a < rs[i].end;
        assert r[i].start <= a < r[i].end;
      } else {
        assert r[|rs|].start <= a < r[|rs|].end;
      }
    }
  }
}
