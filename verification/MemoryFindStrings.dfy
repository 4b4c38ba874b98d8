/** ProcessMemory::FindStrings over all the readable ranges, and its result in address order. */
module MemoryFindStrings {
  import opened MemoryModel
  import opened Units
  import opened MemoryStrings
  import opened MemoryScan

  /** x is a maximal run of text, long enough, in a maximal readable range of [from, to). */
  ghost predicate IsString(m: Memory, o: Options, from: nat, to: nat, x: MemoryString) {
    exists r: Range :: r.start < r.end && IsMaximal(m, from, to, r) && IsStringIn(m, o, r, x)
  }

  /** Some range leaves a kind of text closed: with a minimum length of 0 that counts as an empty string. */
  ghost predicate SomeEndsClosed(m: Memory, o: Options, rs: seq<Range>)
    requires IsRanges(rs)
  {
    exists i: nat, wide: bool :: i < |rs| && EndsClosed(m, o, rs[i], wide)
  }

  // ----- address order

  ghost predicate IsSorted(xs: seq<MemoryString>) {
    forall i, j :: 0 <= i < j < |xs| ==> xs[i].address <= xs[j].address
  }

  /** x before the first string that does not start below it. */
  function Insert(x: MemoryString, xs: seq<MemoryString>): seq<MemoryString> {
    if xs == [] || x.address <= xs[0].address then [x] + xs else [xs[0]] + Insert(x, xs[1..])
  }

  /** std::stable_sort by address. */
  function StableSort(xs: seq<MemoryString>): seq<MemoryString> {
    if xs == [] then [] else Insert(xs[0], StableSort(xs[1..]))
  }

  lemma {:induction false} InsertSorts(x: MemoryString, xs: seq<MemoryString>)
    requires IsSorted(xs)
    ensures IsSorted(Insert(x, xs))
    ensures forall y :: y in Insert(x, xs) ==> y == x || y in xs
  {
    if xs != [] && x.address > xs[0].address {
      InsertSorts(x, xs[1..]);
      forall y | y in Insert(x, xs[1..]) ensures xs[0].address <= y.address {}
    }
  }

  lemma {:induction false} InsertAdds(x: MemoryString, xs: seq<MemoryString>)
    ensures multiset(Insert(x, xs)) == multiset(xs) + multiset{x}
  {
    if xs != [] && x.address > xs[0].address {
      InsertAdds(x, xs[1..]);
      assert xs == [xs[0]] + xs[1..];
    }
  }

  lemma {:induction false} SortSorts(xs: seq<MemoryString>)
    ensures IsSorted(StableSort(xs)) && multiset(StableSort(xs)) == multiset(xs)
  {
    if xs != [] {
      SortSorts(xs[1..]);
      InsertSorts(xs[0], StableSort(xs[1..]));
      InsertAdds(xs[0], StableSort(xs[1..]));
      assert xs == [xs[0]] + xs[1..];
    }
  }

  /** The strings at an address, in order. */
  function AtAddress(xs: seq<MemoryString>, address: nat): seq<MemoryString> {
    if xs == [] then []
    else if xs[0].address == address then [xs[0]] + AtAddress(xs[1..], address)
    else AtAddress(xs[1..], address)
  }

  lemma {:induction false} InsertIsStable(x: MemoryString, xs: seq<MemoryString>, address: nat)
    requires IsSorted(xs)
    ensures AtAddress(Insert(x, xs), address) == (if x.address == address then [x] else []) + AtAddress(xs, address)
  {
    if xs == [] || x.address <= xs[0].address {
      assert ([x] + xs)[1..] == xs;
    } else {
      InsertIsStable(x, xs[1..], address);
      assert ([xs[0]] + Insert(x, xs[1..]))[1..] == Insert(x, xs[1..]);
      if x.address == address { NoneAbove(xs, address); }
    }
  }

  /** Strings below an address come before the ones at it. */
  lemma NoneAbove(xs: seq<MemoryString>, address: nat)
    requires xs != [] && xs[0].address < address
    ensures AtAddress(xs, address) == AtAddress(xs[1..], address)
  {}

  /** Strings at one address keep their order. */
  lemma {:induction false} SortIsStable(xs: seq<MemoryString>, address: nat)
    ensures AtAddress(StableSort(xs), address) == AtAddress(xs, address)
  {
    if xs != [] {
      SortIsStable(xs[1..], address);
      SortSorts(xs[1..]);
      InsertIsStable(xs[0], StableSort(xs[1..]), address);
    }
  }

  lemma {:induction false} DistinctCounts(xs: seq<MemoryString>, x: MemoryString)
    requires Distinct(xs) && x.length > 0
    ensures multiset(xs)[x] <= 1
  {
    if xs != [] {
      assert xs == [xs[0]] + xs[1..];
      DistinctCounts(xs[1..], x);
    }
  }

  // ----- the scan

  /** After the first q ranges: what is there, and that nothing is missing unless the list is full. */
  ghost predicate IsScanned(m: Memory, o: Options, rs: seq<Range>, q: nat, xs: seq<MemoryString>)
    requires q <= |rs| && IsRanges(rs)
  {
    && IsCollected(m, o, rs, xs)
    && (q < |rs| ==> forall wide: bool :: IsEnabled(o, wide) ==> Below(xs, wide, rs[q].start))
    && (|xs| < o.maxResults ==>
         (forall i: nat, wide: bool :: i < q ==> HasAll(m, o, rs[i], wide, xs))
         && (HasEmpty(xs) <==> o.minLength == 0 && SomeEndsClosed(m, o, rs[..q])))
  }

  method ScanRange(m: Memory, o: Options, ghost rs: seq<Range>, r: Range, buffer: array<byte>, xs: seq<MemoryString>)
    returns (kept: seq<MemoryString>, ascii: StringRun, wide: StringRun)
    requires buffer.Length == CHUNK && r in rs && r.start < r.end && IsCollected(m, o, rs, xs)
    requires forall w: bool :: IsEnabled(o, w) ==> Below(xs, w, r.start)
    modifies buffer
    ensures fresh(ascii) && fresh(wide) && ascii != wide
    ensures IsCollected(m, o, rs, kept) && Grows(xs, kept)
    ensures |kept| < o.maxResults ==>
      IsReady(m, o, r, false, ascii, r.end - r.start, kept) && IsReady(m, o, r, true, wide, r.end - r.start, kept)
    ensures forall w: bool :: IsEnabled(o, w) ==> Below(kept, w, r.end)
  {
    hide IsCollected, HasAll, IsReady, Below;
    ascii := new StringRun();
    wide := new StringRun();
    StartReady(m, o, r, false, ascii, xs);
    StartReady(m, o, r, true, wide, xs);
    kept := xs;
    var at := r.start;
    ghost var offset := 0;
    while at < r.end && |kept| < o.maxResults
      invariant r.start <= at && (at - r.start) % 2 == 0 && fresh(ascii) && fresh(wide) && ascii != wide
      invariant offset == if at < r.end then at - r.start else r.end - r.start
      invariant IsReady(m, o, r, false, ascii, offset, kept) && IsReady(m, o, r, true, wide, offset, kept)
      invariant IsCollected(m, o, rs, kept) && Grows(xs, kept)
      decreases if at < r.end then r.end - at else 0
    {
      var count := if CHUNK <= r.end - at then CHUNK else r.end - at;
      Read(m, at, buffer, count);
      kept := ScanChunk(m, o, rs, r, at, buffer, count, ascii, wide, kept);
      at := at + CHUNK;
      offset := offset + count;
    }
    forall w: bool | IsEnabled(o, w) ensures Below(kept, w, r.end) {
      ReadyBelow(m, o, r, w, if w then wide else ascii, offset, kept);
    }
  }

  lemma StartReady(m: Memory, o: Options, r: Range, w: bool, run: StringRun, xs: seq<MemoryString>)
    requires r.start < r.end && run.length == 0 && run.text == [] && (IsEnabled(o, w) ==> Below(xs, w, r.start))
    ensures IsReady(m, o, r, w, run, 0, xs)
  {}

  lemma ReadyBelow(m: Memory, o: Options, r: Range, w: bool, run: StringRun, offset: nat, xs: seq<MemoryString>)
    requires r.start < r.end && IsEnabled(o, w) && offset <= r.end - r.start && IsReady(m, o, r, w, run, offset, xs)
    ensures Below(xs, w, r.end)
  {}

  /** One range more. */
  method ScanNext(m: Memory, o: Options, rs: seq<Range>, q: nat, buffer: array<byte>, xs: seq<MemoryString>)
    returns (kept: seq<MemoryString>)
    requires buffer.Length == CHUNK && q < |rs| && IsRanges(rs) && IsScanned(m, o, rs, q, xs)
    modifies buffer
    ensures IsScanned(m, o, rs, q + 1, kept)
  {
    hide IsCollected, HasAll, IsReady, HasEmpty;
    var r := rs[q];
    var scanned, ascii, wide := ScanRange(m, o, rs, r, buffer, xs);
    var ended := EndRange(m, o, rs, r, false, ascii, scanned);
    if |ended| < o.maxResults { EndsKeepOther(m, o, r, wide, scanned, ended); }
    kept := EndRange(m, o, rs, r, true, wide, ended);
    NextScanned(m, o, rs, q, xs, scanned, ended, kept);
  }

  lemma EndsKeepOther(m: Memory, o: Options, r: Range, wide: StringRun, xs: seq<MemoryString>, kept: seq<MemoryString>)
    requires r.start < r.end && xs <= kept && IsReady(m, o, r, true, wide, r.end - r.start, xs)
    requires forall x :: x in kept && x !in xs ==> x.length == 0 || !x.wide
    ensures IsReady(m, o, r, true, wide, r.end - r.start, kept)
  {}

  lemma NextScanned(m: Memory, o: Options, rs: seq<Range>, q: nat, xs: seq<MemoryString>, scanned: seq<MemoryString>,
                    ended: seq<MemoryString>, kept: seq<MemoryString>)
    requires q < |rs| && IsRanges(rs) && IsScanned(m, o, rs, q, xs) && IsCollected(m, o, rs, kept)
    requires Grows(xs, scanned) && scanned <= ended <= kept
    requires forall w: bool :: IsEnabled(o, w) ==> Below(scanned, w, rs[q].end)
    requires forall x :: x in kept && x !in scanned ==> x.length == 0 || x.address < rs[q].end
    requires |ended| < o.maxResults ==> HasAll(m, o, rs[q], false, ended)
    requires |ended| < o.maxResults ==>
      (HasEmpty(ended) <==> HasEmpty(scanned) || (o.minLength == 0 && EndsClosed(m, o, rs[q], false)))
    requires |kept| < o.maxResults ==> HasAll(m, o, rs[q], true, kept)
    requires |kept| < o.maxResults ==>
      (HasEmpty(kept) <==> HasEmpty(ended) || (o.minLength == 0 && EndsClosed(m, o, rs[q], true)))
    ensures IsScanned(m, o, rs, q + 1, kept)
  {
    hide IsCollected, IsStringIn, EndsClosed;
    if |kept| < o.maxResults {
      assert HasEmpty(scanned) <==> HasEmpty(xs);
      forall i: nat, wide: bool | i < q + 1 ensures HasAll(m, o, rs[i], wide, kept) {
        assert i < q ==> HasAll(m, o, rs[i], wide, xs);
      }
      ClosedMore(m, o, rs, q);
    }
  }

  lemma ClosedMore(m: Memory, o: Options, rs: seq<Range>, q: nat)
    requires q < |rs| && IsRanges(rs)
    ensures SomeEndsClosed(m, o, rs[..q + 1]) <==>
      SomeEndsClosed(m, o, rs[..q]) || EndsClosed(m, o, rs[q], false) || EndsClosed(m, o, rs[q], true)
  {
    hide EndsClosed;
    if SomeEndsClosed(m, o, rs[..q + 1]) {
      var i: nat, wide: bool :| i < q + 1 && EndsClosed(m, o, rs[..q + 1][i], wide);
      assert i < q ==> rs[..q][i] == rs[i];
    }
    if SomeEndsClosed(m, o, rs[..q]) {
      var i: nat, wide: bool :| i < q && EndsClosed(m, o, rs[..q][i], wide);
      assert rs[..q + 1][i] == rs[..q][i];
    }
    assert rs[..q + 1][q] == rs[q];
  }

  /** A maximal range is one of the ranges found. */
  lemma MaximalIsFound(m: Memory, from: nat, to: nat, rs: seq<Range>, r: Range)
    requires AreReadableRanges(m, from, to, rs) && r.start < r.end && IsMaximal(m, from, to, r)
    ensures r in rs
  {
    assert Covers(rs, r.start);
    var i :| 0 <= i < |rs| && rs[i].start <= r.start < rs[i].end;
    assert IsMaximal(m, from, to, rs[i]);
    assert rs[i].start == r.start;
    assert rs[i].end == r.end;
  }

  /** The strings of [from, to), in address order and each once: every one of them unless the list is full
      (truncated). The list holds nothing else, except, when the minimum length is 0, an empty string for a
      range and kind whose last character is not text. */
  method FindStrings(m: Memory, from: nat, to: nat, o: Options)
    returns (xs: seq<MemoryString>, truncated: bool, ghost rs: seq<Range>)
    requires IsMemory(m)
    ensures IsSorted(xs) && |xs| <= o.maxResults
    ensures from < to && (o.ascii || o.unicode) ==> AreReadableRanges(m, from, to, rs)
    ensures forall x :: x in xs && x.length > 0 ==> IsString(m, o, from, to, x) && multiset(xs)[x] == 1
    ensures from < to && (o.ascii || o.unicode) ==> truncated == (|xs| == o.maxResults)
    ensures !truncated ==> forall x: MemoryString :: x.length > 0 && IsString(m, o, from, to, x) ==> x in xs
    ensures !truncated && from < to && (o.ascii || o.unicode) ==>
      (HasEmpty(xs) <==> o.minLength == 0 && SomeEndsClosed(m, o, rs))
    ensures HasEmpty(xs) ==> o.minLength == 0
  {
    hide IsCollected, HasAll, IsReady, HasEmpty;
    xs, truncated, rs := [], false, [];
    if from >= to || (!o.ascii && !o.unicode) {
      NothingToFind(m, o, from, to);
      return;
    }
    var ranges := FindRanges(m, from, to);
    rs := ranges;
    var buffer := new byte[CHUNK];
    NothingScanned(m, o, ranges);
    for q := 0 to |ranges|
      invariant IsScanned(m, o, ranges, q, xs)
    {
      xs := ScanNext(m, o, ranges, q, buffer, xs);
    }
    truncated := |xs| >= o.maxResults;
    ScannedAll(m, o, from, to, ranges, xs);
    xs := StableSort(xs);
  }

  lemma NothingToFind(m: Memory, o: Options, from: nat, to: nat)
    requires from >= to || (!o.ascii && !o.unicode)
    ensures forall x :: !IsString(m, o, from, to, x)
    ensures !HasEmpty([])
  {}

  lemma NothingScanned(m: Memory, o: Options, rs: seq<Range>)
    requires IsRanges(rs)
    ensures IsScanned(m, o, rs, 0, [])
  {
    assert rs[..0] == [];
  }

  /** What a scan of all the ranges collected, put in order. */
  lemma ScannedAll(m: Memory, o: Options, from: nat, to: nat, rs: seq<Range>, xs: seq<MemoryString>)
    requires AreReadableRanges(m, from, to, rs) && IsScanned(m, o, rs, |rs|, xs)
    ensures var r := StableSort(xs);
      && IsSorted(r) && |r| == |xs| && |xs| <= o.maxResults
      && (forall x :: x in r && x.length > 0 ==> IsString(m, o, from, to, x) && multiset(r)[x] == 1)
      && (|xs| < o.maxResults ==>
           (forall x: MemoryString :: x.length > 0 && IsString(m, o, from, to, x) ==> x in r)
           && (HasEmpty(r) <==> o.minLength == 0 && SomeEndsClosed(m, o, rs)))
      && (HasEmpty(r) ==> o.minLength == 0)
  {
    var r := StableSort(xs);
    SortSorts(xs);
    assert |r| == |multiset(r)| == |xs|;
    forall x ensures x in r <==> x in xs {
      assert x in r <==> x in multiset(r);
      assert x in xs <==> x in multiset(xs);
    }
    forall x | x in r && x.length > 0 ensures IsString(m, o, from, to, x) && multiset(r)[x] == 1 {
      assert IsFound(m, o, rs, x);
      var i :| 0 <= i < |rs| && rs[i].start <= rs[i].end && IsStringIn(m, o, rs[i], x);
      assert IsMaximal(m, from, to, rs[i]);
      DistinctCounts(xs, x);
      assert x in multiset(r);
    }
    if |xs| < o.maxResults {
      forall x: MemoryString | x.length > 0 && IsString(m, o, from, to, x) ensures x in r {
        var k: Range :| k.start < k.end && IsMaximal(m, from, to, k) && IsStringIn(m, o, k, x);
        MaximalIsFound(m, from, to, rs, k);
        var i: nat :| i < |rs| && rs[i] == k;
        assert HasAll(m, o, rs[i], x.wide, xs);
      }
      assert rs[..|rs|] == rs;
    }
  }
}
