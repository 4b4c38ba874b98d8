/** Wide strings are cut from the start of a readable range: when those are the ones at even addresses. */
module MemoryEvenAddresses {
  import opened Optional
  import opened MemoryModel
  import opened Units
  import opened MemoryStrings
  import opened MemoryScan
  import opened MemoryFindStrings

  /** Regions are whole pages: they end at even addresses. */
  ghost predicate EndEven(rs: seq<Region>) { forall r :: r in rs ==> r.end % 2 == 0 }

  /** A readable range from its first even address on. */
  function EvenPart(r: Range): Range { Range(r.start + r.start % 2, r.end) }

  /** x is a maximal run of text in UTF-16 units at even addresses, long enough, in a maximal readable range. */
  ghost predicate IsEvenString(m: Memory, o: Options, from: nat, to: nat, x: MemoryString) {
    exists r: Range :: r.start < r.end && IsMaximal(m, from, to, r) && IsStringIn(m, o, EvenPart(r), x)
  }

  /** The memory with other contents. */
  function With(m: Memory, contents: nat -> byte): Memory { Memory(m.regions, contents) }

  /** Whatever the memory holds, the wide strings found are the ones at even addresses. */
  ghost predicate FindsEven(m: Memory, o: Options, from: nat, to: nat) {
    forall contents: nat -> byte, x: MemoryString :: x.wide && x.length > 0 ==>
      (IsString(With(m, contents), o, from, to, x) <==> IsEvenString(With(m, contents), o, from, to, x))
  }

  /** The bytes of the shortest wide string. */
  function Shortest(o: Options): nat { if o.minLength == 0 then 2 else 2 * o.minLength }

  /** The interval starts at an odd address, with readable memory enough for a string. */
  ghost predicate StartsOdd(m: Memory, o: Options, from: nat, to: nat) {
    from % 2 == 1 && from + Shortest(o) <= to && AllReadable(m, from, from + Shortest(o))
  }

  lemma SameReadable(m: Memory, contents: nat -> byte, lo: nat, hi: nat)
    ensures forall a :: IsReadable(With(m, contents), a) <==> IsReadable(m, a)
    ensures AllReadable(With(m, contents), lo, hi) <==> AllReadable(m, lo, hi)
  {}

  /** Memory turns readable at the start of a region only. */
  lemma {:induction false} TurnsAtStart(rs: seq<Region>, start: nat, a: nat)
    requires Ascending(rs, start) && EndEven(rs) && start % 2 == 0 && start <= a && RegionIn(rs, a + 1).Some?
    requires RegionIn(rs, a) != RegionIn(rs, a + 1)
    ensures (a + 1) % 2 == 0
  {
    assert rs[0] in rs;
    if a >= rs[0].end {
      assert forall r :: r in rs[1..] ==> r in rs;
      TurnsAtStart(rs[1..], rs[0].end, a);
    }
  }

  lemma StartIsEven(m: Memory, from: nat, to: nat, r: Range)
    requires IsMemory(m) && EndEven(m.regions) && r.start < r.end && IsMaximal(m, from, to, r) && r.start != from
    ensures r.start % 2 == 0
  {
    assert IsReadable(m, r.start) && !IsReadable(m, r.start - 1);
    TurnsAtStart(m.regions, 0, r.start - 1);
  }

  /** A range of memory readable from lo to hi, extended as far as it goes. */
  lemma {:induction false} Extended(m: Memory, lo: nat, hi: nat, to: nat) returns (end: nat)
    requires lo <= hi <= to && AllReadable(m, lo, hi)
    ensures hi <= end <= to && AllReadable(m, lo, end) && (end == to || !IsReadable(m, end))
    decreases if hi < to then to - hi else 0
  {
    if hi == to || !IsReadable(m, hi) { end := hi; } else { end := Extended(m, lo, hi + 1, to); }
  }

  /** A string is at least as long as asked for, and at its range's start or a whole number of units after it. */
  lemma StringFits(m: Memory, o: Options, r: Range, x: MemoryString)
    requires r.start <= r.end && IsStringIn(m, o, r, x) && x.wide && x.length > 0
    ensures r.start + Shortest(o) <= r.end && (x.address - r.start) % 2 == 0 && r.start <= x.address
  {
    var i: nat, j: nat :|
      IsRun(m, r, x.wide, i, j) && j - i >= o.minLength && x == StringOf(m, o, r.start, x.wide, i, j);
    assert j <= (r.end - r.start) / 2;
  }

  /** Without an odd start, each range's strings are those of its even part. */
  lemma SameStrings(m: Memory, o: Options, from: nat, to: nat, r: Range, x: MemoryString)
    requires IsMemory(m) && EndEven(m.regions) && !StartsOdd(m, o, from, to)
    requires r.start < r.end && IsMaximal(m, from, to, r) && x.wide && x.length > 0
    ensures IsStringIn(m, o, r, x) <==> IsStringIn(m, o, EvenPart(r), x)
  {
    hide IsStringIn;
    if r.start % 2 == 0 {
      assert EvenPart(r) == r;
    } else {
      if r.start != from { StartIsEven(m, from, to, r); }
      if IsStringIn(m, o, r, x) { StringFits(m, o, r, x); }
      if IsStringIn(m, o, EvenPart(r), x) { StringFits(m, o, EvenPart(r), x); }
    }
  }

  /** Letters from an address on. */
  function Letters(from: nat): nat -> byte { a => if a >= from && (a - from) % 2 == 0 then 0x41 else 0 }

  /** With an odd start, letters there are found at odd addresses. */
  lemma OddIsFound(m: Memory, o: Options, from: nat, to: nat) returns (x: MemoryString)
    requires StartsOdd(m, o, from, to) && o.unicode
    ensures x.wide && x.length > 0 && x.address % 2 == 1 && IsString(With(m, Letters(from)), o, from, to, x)
  {
    var l := With(m, Letters(from));
    SameReadable(m, Letters(from), from, from + Shortest(o));
    var end := Extended(l, from, from + Shortest(o), to);
    var r := Range(from, end);
    assert IsMaximal(l, from, to, r);
    hide IsStringIn, IsMaximal;
    x := OneString(l, o, r);
  }

  /** A range of letters is one string. */
  lemma OneString(l: Memory, o: Options, r: Range) returns (x: MemoryString)
    requires l.at == Letters(r.start) && r.start + Shortest(o) <= r.end && o.unicode
    ensures x.wide && x.length > 0 && x.address == r.start && IsStringIn(l, o, r, x)
  {
    var count := CharCount(r, true);
    forall k: nat | k < count ensures TextAt(l, r.start, true, k) {}
    assert IsRun(l, r, true, 0, count);
    x := StringOf(l, o, r.start, true, 0, count);
  }

  /** An even string is at an even address. */
  lemma EvenIsEven(m: Memory, o: Options, from: nat, to: nat, x: MemoryString)
    requires IsEvenString(m, o, from, to, x) && x.wide && x.length > 0
    ensures x.address % 2 == 0
  {
    hide IsStringIn, IsMaximal;
    var r: Range :| r.start < r.end && IsMaximal(m, from, to, r) && IsStringIn(m, o, EvenPart(r), x);
    StringFits(m, o, EvenPart(r), x);
    EvenStart(r, x.address);
  }

  lemma EvenStart(r: Range, a: nat)
    requires (a - EvenPart(r).start) % 2 == 0
    ensures a % 2 == 0
  {}

  /** In memory of whole pages, the wide strings found are exactly the runs at even addresses, whatever the memory
      holds, if and only if the interval does not start at an odd address with room for a string. */
  lemma EvenAddressesExactly(m: Memory, o: Options, from: nat, to: nat)
    requires IsMemory(m) && EndEven(m.regions) && o.unicode
    ensures FindsEven(m, o, from, to) <==> !StartsOdd(m, o, from, to)
  {
    if StartsOdd(m, o, from, to) {
      var x := OddIsFound(m, o, from, to);
      if IsEvenString(With(m, Letters(from)), o, from, to, x) { EvenIsEven(With(m, Letters(from)), o, from, to, x); }
    } else {
      forall contents: nat -> byte, x: MemoryString | x.wide && x.length > 0
        ensures IsString(With(m, contents), o, from, to, x) <==> IsEvenString(With(m, contents), o, from, to, x)
      {
        SameWhole(With(m, contents), m, o, from, to, x, contents);
      }
    }
  }

  lemma SameWhole(l: Memory, m: Memory, o: Options, from: nat, to: nat, x: MemoryString, contents: nat -> byte)
    requires l == With(m, contents) && IsMemory(m) && EndEven(m.regions) && !StartsOdd(m, o, from, to)
    requires x.wide && x.length > 0
    ensures IsString(l, o, from, to, x) <==> IsEvenString(l, o, from, to, x)
  {
    hide IsStringIn, IsMaximal;
    SameReadable(m, contents, from, from + Shortest(o));
    forall r: Range | r.start < r.end && IsMaximal(l, from, to, r)
      ensures IsStringIn(l, o, r, x) <==> IsStringIn(l, o, EvenPart(r), x)
    {
      SameStrings(l, o, from, to, r, x);
    }
  }

  const LettersOnly := Options(1, false, true, 10, 10)

  lemma OnePage(m: Memory, end: nat)
    requires m.regions == [Region(end, true)] && end > 0
    ensures IsMemory(m) && AllReadable(m, 0, end) && (end % 2 == 0 ==> EndEven(m.regions))
  {}

  /** A page with a letter at address 1, scanned from there: a wide string at an odd address. */
  lemma OddString()
    ensures var m := Memory([Region(8, true)], Letters(1));
      IsMemory(m) && EndEven(m.regions)
      && exists x: MemoryString :: x.wide && x.length > 0 && x.address % 2 == 1 && IsString(m, LettersOnly, 1, 8, x)
  {
    hide IsString;
    var m := Memory([Region(8, true)], Letters(1));
    OnePage(m, 8);
    var x := OddIsFound(m, LettersOnly, 1, 8);
    assert With(m, Letters(1)) == m;
  }

  const Anything := Options(0, true, false, 10, 10)

  /** With a minimum length of 0, one byte that is not text gives an empty string. */
  method EmptyIsListed() returns (xs: seq<MemoryString>)
    ensures HasEmpty(xs)
  {
    hide AreReadableRanges, SomeEndsClosed, IsString, IsSorted;
    var m := Memory([Region(1, true)], a => 0);
    OnePage(m, 1);
    var truncated;
    ghost var rs;
    xs, truncated, rs := FindStrings(m, 0, 1, Anything);
    EndsInNoText(m, rs);
    if truncated {
      assert xs[0] in xs;
      if xs[0].length > 0 { NoText(m, xs[0]); }
    }
  }

  lemma EndsInNoText(m: Memory, rs: seq<Range>)
    requires m.regions == [Region(1, true)] && m.at(0) == 0 && AreReadableRanges(m, 0, 1, rs)
    ensures SomeEndsClosed(m, Anything, rs)
  {
    assert IsReadable(m, 0);
    assert Covers(rs, 0);
    assert IsMaximal(m, 0, 1, rs[0]);
    assert EndsClosed(m, Anything, rs[0], false);
  }

  lemma NoText(m: Memory, x: MemoryString)
    requires m.regions == [Region(1, true)] && m.at(0) == 0 && x.length > 0
    ensures !IsString(m, Anything, 0, 1, x)
  {
    if IsString(m, Anything, 0, 1, x) {
      var r: Range :| r.start < r.end && IsMaximal(m, 0, 1, r) && IsStringIn(m, Anything, r, x);
      var k := TextIn(m, Anything, r, x);
    }
  }

  lemma TextIn(m: Memory, o: Options, r: Range, x: MemoryString) returns (k: nat)
    requires r.start <= r.end && IsStringIn(m, o, r, x) && x.length > 0
    ensures k < CharCount(r, x.wide) && TextAt(m, r.start, x.wide, k) && IsEnabled(o, x.wide)
  {
    var j: nat;
    k, j :| IsRun(m, r, x.wide, k, j) && IsEnabled(o, x.wide);
  }
}
