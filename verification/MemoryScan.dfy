/** The scan itself: two runs of text collected byte by byte across chunks. */
module MemoryScan {
  import opened MemoryModel
  import opened Units
  import opened MemoryStrings

  /** A string found so far, in a range scanned or being scanned. Only a minimum length of 0 lets an empty one in. */
  ghost predicate IsFound(m: Memory, o: Options, rs: seq<Range>, x: MemoryString) {
    if x.length == 0 then o.minLength == 0
    else exists i :: 0 <= i < |rs| && rs[i].start <= rs[i].end && IsStringIn(m, o, rs[i], x)
  }

  /** No string twice, empty ones apart. */
  ghost predicate Distinct(xs: seq<MemoryString>) {
    forall i, j :: 0 <= i < j < |xs| && xs[i].length > 0 ==> xs[i] != xs[j]
  }

  ghost predicate HasEmpty(xs: seq<MemoryString>) { exists x :: x in xs && x.length == 0 }

  /** What a scan may have collected: genuine strings, each once, at most as many as asked for. */
  ghost predicate IsCollected(m: Memory, o: Options, rs: seq<Range>, xs: seq<MemoryString>) {
    && (forall x :: x in xs ==> IsFound(m, o, rs, x)) && Distinct(xs) && |xs| <= o.maxResults
  }

  /** Of one kind, every string so far starts below the bound. */
  ghost predicate Below(xs: seq<MemoryString>, wide: bool, bound: nat) {
    forall x :: x in xs && x.wide == wide && x.length > 0 ==> x.address < bound
  }

  /** Every string of the kind that ended before character k of the range is there. */
  ghost predicate HasEnded(m: Memory, o: Options, start: nat, wide: bool, k: nat, xs: seq<MemoryString>) {
    forall i: nat, j: nat ::
      i < j < k && AllText(m, start, wide, i, j) && (i == 0 || !TextAt(m, start, wide, i - 1))
      && !TextAt(m, start, wide, j) && j - i >= o.minLength
      ==> StringOf(m, o, start, wide, i, j) in xs
  }

  class StringRun {
    var start: nat
    var length: nat
    var text: seq<nat>

    constructor ()
      ensures start == 0 && length == 0 && text == []
    {
      start, length, text := 0, 0, [];
    }

    method Add(address: nat, ch: nat, maxText: nat)
      modifies this
      ensures length == old(length) + 1 && start == if old(length) == 0 then address else old(start)
      ensures text == if |old(text)| < maxText then old(text) + [ch] else old(text)
    {
      if length == 0 { start := address; }
      length := length + 1;
      if |text| < maxText { text := text + [ch]; }
    }

    /** Ends the run; a long enough one is kept. */
    method End(wide: bool, o: Options, results: seq<MemoryString>) returns (kept: seq<MemoryString>)
      modifies this
      ensures length == 0 && text == [] && start == old(start)
      ensures kept == if old(length) >= o.minLength && |results| < o.maxResults
                      then results + [MemoryString(old(start), old(length), wide, old(text))] else results
    {
      kept := results;
      if length >= o.minLength && |results| < o.maxResults {
        kept := results + [MemoryString(start, length, wide, text)];
      }
      length := 0;
      text := [];
    }

    /** The run of text that reaches up to character k of a range (none if character k - 1 is not text). */
    ghost predicate IsOpen(m: Memory, o: Options, from: nat, wide: bool, k: nat)
      reads this
    {
      && length <= k && AllText(m, from, wide, k - length, k)
      && (k == length || !TextAt(m, from, wide, k - length - 1))
      && (if length == 0 then text == []
          else MemoryString(start, length, wide, text) == StringOf(m, o, from, wide, k - length, k))
    }

    /** The run after k characters of a range, and what was collected. */
    ghost predicate IsAt(m: Memory, o: Options, from: nat, wide: bool, k: nat, xs: seq<MemoryString>)
      reads this
    {
      && IsOpen(m, o, from, wide, k) && Below(xs, wide, CharAddress(from, wide, k - length))
      && (|xs| < o.maxResults ==> HasEnded(m, o, from, wide, k, xs))
    }

    /** One more character of the range: the loop's body for one kind. */
    method Feed(m: Memory, o: Options, ghost rs: seq<Range>, ghost r: Range, wide: bool, ghost k: nat, address: nat,
                ch: nat, xs: seq<MemoryString>) returns (kept: seq<MemoryString>)
      requires r in rs && r.start <= r.end && k < CharCount(r, wide) && IsEnabled(o, wide)
      requires address == CharAddress(r.start, wide, k) && ch == CharAt(m, r.start, wide, k)
      requires IsAt(m, o, r.start, wide, k, xs) && IsCollected(m, o, rs, xs)
      modifies this
      ensures IsAt(m, o, r.start, wide, k + 1, kept) && IsCollected(m, o, rs, kept)
      ensures xs <= kept && forall x :: x in kept && x !in xs ==> x.wide == wide && x.length > 0
    {
      hide IsCollected, IsFound, IsStringIn;
      kept := xs;
      if IsTextChar(ch, wide) {
        Extend(m, o, r, wide, k, address, ch, xs);
      } else if length > 0 {
        kept := Break(m, o, rs, r, wide, k, xs);
      } else {
        EndedOneMore(m, o, r.start, wide, k, 0, xs, xs);
      }
    }

    method Extend(m: Memory, o: Options, ghost r: Range, wide: bool, ghost k: nat, address: nat, ch: nat,
                  ghost xs: seq<MemoryString>)
      requires address == CharAddress(r.start, wide, k) && ch == CharAt(m, r.start, wide, k)
      requires TextAt(m, r.start, wide, k) && IsAt(m, o, r.start, wide, k, xs)
      modifies this
      ensures IsAt(m, o, r.start, wide, k + 1, xs)
    {
      hide HasEnded;
      TextGrows(m, o, r.start, wide, k - length, k);
      EndedInText(m, o, r.start, wide, k, xs);
      Add(address, ch, o.maxText);
    }

    method Break(m: Memory, o: Options, ghost rs: seq<Range>, ghost r: Range, wide: bool, ghost k: nat,
                 xs: seq<MemoryString>) returns (kept: seq<MemoryString>)
      requires r in rs && r.start <= r.end && k < CharCount(r, wide) && IsEnabled(o, wide)
      requires !TextAt(m, r.start, wide, k) && length > 0
      requires IsAt(m, o, r.start, wide, k, xs) && IsCollected(m, o, rs, xs)
      modifies this
      ensures IsAt(m, o, r.start, wide, k + 1, kept) && IsCollected(m, o, rs, kept)
      ensures xs <= kept && forall x :: x in kept && x !in xs ==> x.wide == wide && x.length > 0
    {
      hide IsCollected, HasEnded, StringOf;
      ghost var l := length;
      ghost var x := StringOf(m, o, r.start, wide, k - l, k);
      StringStarts(m, o, r, wide, k - l, k);
      if l >= o.minLength && |xs| < o.maxResults { Collect(m, o, rs, r, wide, k - l, k, xs); }
      kept := End(wide, o, xs);
      assert kept == xs || kept == xs + [x];
      EndedOneMore(m, o, r.start, wide, k, l, xs, kept);
    }
  }

  lemma EndedInText(m: Memory, o: Options, from: nat, wide: bool, k: nat, xs: seq<MemoryString>)
    requires TextAt(m, from, wide, k) && (|xs| < o.maxResults ==> HasEnded(m, o, from, wide, k, xs))
    ensures |xs| < o.maxResults ==> HasEnded(m, o, from, wide, k + 1, xs)
  {}

  ghost predicate IsStringOf(m: Memory, o: Options, r: Range, wide: bool, i: nat, j: nat)
    requires r.start <= r.end
  {
    IsRun(m, r, wide, i, j) && IsEnabled(o, wide) && j - i >= o.minLength
  }

  /** A string's text, one character longer. */
  lemma TextGrows(m: Memory, o: Options, from: nat, wide: bool, i: nat, k: nat)
    requires i <= k
    ensures var t, ch := StringOf(m, o, from, wide, i, k).text, CharAt(m, from, wide, k);
      StringOf(m, o, from, wide, i, k + 1).text == if |t| < o.maxText then t + [ch] else t
  {}

  lemma Collect(m: Memory, o: Options, rs: seq<Range>, r: Range, wide: bool, i: nat, j: nat, xs: seq<MemoryString>)
    requires r in rs && r.start <= r.end && IsStringOf(m, o, r, wide, i, j)
    requires IsCollected(m, o, rs, xs) && |xs| < o.maxResults && Below(xs, wide, CharAddress(r.start, wide, i))
    ensures IsCollected(m, o, rs, xs + [StringOf(m, o, r.start, wide, i, j)])
  {
    var x := StringOf(m, o, r.start, wide, i, j);
    assert IsStringIn(m, o, r, x);
    forall y | y in xs && y.length > 0 ensures y != x {}
  }

  lemma SameStart(m: Memory, from: nat, wide: bool, i: nat, i': nat, k: nat)
    requires i < k && i' <= k && AllText(m, from, wide, i, k) && AllText(m, from, wide, i', k)
    requires i == 0 || !TextAt(m, from, wide, i - 1)
    requires i' == 0 || !TextAt(m, from, wide, i' - 1)
    ensures i == i'
  {}

  /** Once character k is seen not to be text, the run of length l up to it has ended. */
  lemma EndedOneMore(m: Memory, o: Options, from: nat, wide: bool, k: nat, l: nat, xs: seq<MemoryString>,
                     kept: seq<MemoryString>)
    requires l <= k && AllText(m, from, wide, k - l, k) && (k == l || !TextAt(m, from, wide, k - l - 1))
    requires !TextAt(m, from, wide, k)
    requires |xs| < o.maxResults ==> HasEnded(m, o, from, wide, k, xs)
    requires xs <= kept
    requires |xs| < o.maxResults && l > 0 && l >= o.minLength ==> StringOf(m, o, from, wide, k - l, k) in kept
    ensures |kept| < o.maxResults ==> HasEnded(m, o, from, wide, k + 1, kept)
  {
    if |kept| < o.maxResults {
      forall i: nat, j: nat |
        i < j < k + 1 && AllText(m, from, wide, i, j) && (i == 0 || !TextAt(m, from, wide, i - 1))
        && !TextAt(m, from, wide, j) && j - i >= o.minLength
        ensures StringOf(m, o, from, wide, i, j) in kept
      {
        if j == k { SameStart(m, from, wide, i, k - l, k); }
      }
    }
  }

  // ----- a range

  /** What one kind's strings are does not depend on what is collected of the other. */
  lemma OtherKind(m: Memory, o: Options, from: nat, wide: bool, k: nat, bound: nat, xs: seq<MemoryString>,
                  kept: seq<MemoryString>)
    requires xs <= kept && forall x :: x in kept && x !in xs ==> x.wide != wide
    requires |xs| < o.maxResults ==> HasEnded(m, o, from, wide, k, xs)
    ensures |kept| < o.maxResults ==> HasEnded(m, o, from, wide, k, kept)
    ensures Below(xs, wide, bound) ==> Below(kept, wide, bound)
  {}

  ghost function CharsBefore(r: Range, wide: bool, offset: nat): nat
    requires r.start <= r.end
  {
    if wide then Min((offset + 1) / 2, CharCount(r, true)) else offset
  }

  /** One kind's run after so many bytes of the range; a kind not asked for has none. */
  ghost predicate IsReady(m: Memory, o: Options, r: Range, wide: bool, run: StringRun, offset: nat,
                          xs: seq<MemoryString>)
    requires r.start <= r.end
    reads run
  {
    if IsEnabled(o, wide) then run.IsAt(m, o, r.start, wide, CharsBefore(r, wide, offset), xs)
    else run.length == 0 && run.text == []
  }

  ghost predicate Grows(xs: seq<MemoryString>, kept: seq<MemoryString>) {
    xs <= kept && forall x :: x in kept && x !in xs ==> x.length > 0
  }

  /** A kind's run is not touched by what is collected of the other. */
  lemma OtherReady(m: Memory, o: Options, r: Range, wide: bool, run: StringRun, offset: nat,
                   xs: seq<MemoryString>, kept: seq<MemoryString>)
    requires r.start <= r.end && IsReady(m, o, r, wide, run, offset, xs)
    requires xs <= kept && forall x :: x in kept && x !in xs ==> x.wide != wide
    ensures IsReady(m, o, r, wide, run, offset, kept)
  {
    if IsEnabled(o, wide) {
      var k := CharsBefore(r, wide, offset);
      OtherKind(m, o, r.start, wide, k, CharAddress(r.start, wide, k - run.length), xs, kept);
    }
  }

  method ScanNarrow(m: Memory, o: Options, ghost rs: seq<Range>, ghost r: Range, ghost offset: nat, address: nat,
                    b: byte, ascii: StringRun, ghost wide: StringRun, xs: seq<MemoryString>)
    returns (kept: seq<MemoryString>)
    requires ascii != wide && r in rs && r.start <= r.end && address == r.start + offset < r.end && b == m.at(address)
    requires IsReady(m, o, r, false, ascii, offset, xs) && IsReady(m, o, r, true, wide, offset, xs)
    requires IsCollected(m, o, rs, xs)
    modifies ascii
    ensures IsReady(m, o, r, false, ascii, offset + 1, kept) && IsReady(m, o, r, true, wide, offset, kept)
    ensures IsCollected(m, o, rs, kept) && Grows(xs, kept)
  {
    hide IsCollected, HasEnded, IsTextChar;
    kept := xs;
    if o.ascii { kept := ascii.Feed(m, o, rs, r, false, offset, address, b, xs); }
    OtherReady(m, o, r, true, wide, offset, xs, kept);
  }

  method ScanWide(m: Memory, o: Options, ghost rs: seq<Range>, ghost r: Range, ghost offset: nat, address: nat, ch: nat,
                  pair: bool, ghost ascii: StringRun, wide: StringRun, xs: seq<MemoryString>)
    returns (kept: seq<MemoryString>)
    requires ascii != wide && r in rs && r.start <= r.end && address == r.start + offset < r.end
    requires pair == (offset % 2 == 0 && address + 1 < r.end)
    requires pair ==> ch == m.at(address) as int + 256 * (m.at(address + 1) as int)
    requires IsReady(m, o, r, false, ascii, offset + 1, xs) && IsReady(m, o, r, true, wide, offset, xs)
    requires IsCollected(m, o, rs, xs)
    modifies wide
    ensures IsReady(m, o, r, false, ascii, offset + 1, kept) && IsReady(m, o, r, true, wide, offset + 1, kept)
    ensures IsCollected(m, o, rs, kept) && Grows(xs, kept)
  {
    hide IsCollected, HasEnded, IsTextChar;
    kept := xs;
    if o.unicode && pair { kept := wide.Feed(m, o, rs, r, true, offset / 2, address, ch, xs); }
    OtherReady(m, o, r, false, ascii, offset + 1, xs, kept);
  }

  method ScanChunk(m: Memory, o: Options, ghost rs: seq<Range>, ghost r: Range, at: nat, buffer: array<byte>,
                   count: nat, ascii: StringRun, wide: StringRun, xs: seq<MemoryString>)
    returns (kept: seq<MemoryString>)
    requires ascii != wide && count <= buffer.Length && buffer[..count] == Bytes(m, at, count)
    requires r in rs && r.start <= at && at + count <= r.end && (at - r.start) % 2 == 0
    requires count % 2 == 0 || at + count == r.end
    requires IsReady(m, o, r, false, ascii, at - r.start, xs) && IsReady(m, o, r, true, wide, at - r.start, xs)
    requires IsCollected(m, o, rs, xs)
    modifies ascii, wide
    ensures IsReady(m, o, r, false, ascii, at + count - r.start, kept)
    ensures IsReady(m, o, r, true, wide, at + count - r.start, kept)
    ensures IsCollected(m, o, rs, kept) && Grows(xs, kept)
  {
    hide IsReady, IsCollected;
    kept := xs;
    ghost var bytes := Bytes(m, at, count);
    for i := 0 to count
      invariant buffer[..count] == bytes
      invariant IsReady(m, o, r, false, ascii, at + i - r.start, kept)
      invariant IsReady(m, o, r, true, wide, at + i - r.start, kept)
      invariant IsCollected(m, o, rs, kept) && Grows(xs, kept)
    {
      assert buffer[i] == bytes[i];
      kept := ScanNarrow(m, o, rs, r, at + i - r.start, at + i, buffer[i], ascii, wide, kept);
      var ch, pair := 0, i % 2 == 0 && i + 1 < count;
      if pair {
        assert buffer[i + 1] == bytes[i + 1];
        ch := buffer[i] as int + 256 * (buffer[i + 1] as int);
      }
      kept := ScanWide(m, o, rs, r, at + i - r.start, at + i, ch, pair, ascii, wide, kept);
    }
  }

  /** A range whose last character of the kind is not text, or that has none. */
  ghost predicate EndsClosed(m: Memory, o: Options, r: Range, wide: bool)
    requires r.start <= r.end
  {
    !IsEnabled(o, wide) || CharCount(r, wide) == 0 || !TextAt(m, r.start, wide, CharCount(r, wide) - 1)
  }

  ghost predicate HasAll(m: Memory, o: Options, r: Range, wide: bool, xs: seq<MemoryString>)
    requires r.start <= r.end
  {
    forall x: MemoryString :: x.wide == wide && x.length > 0 && IsStringIn(m, o, r, x) ==> x in xs
  }

  /** A kind's run at the end of the range: what is left of it is kept too. */
  method EndRange(m: Memory, o: Options, ghost rs: seq<Range>, ghost r: Range, wide: bool, run: StringRun,
                  xs: seq<MemoryString>)
    returns (kept: seq<MemoryString>)
    requires r in rs && r.start <= r.end && IsCollected(m, o, rs, xs)
    requires |xs| < o.maxResults ==> IsReady(m, o, r, wide, run, r.end - r.start, xs)
    modifies run
    ensures IsCollected(m, o, rs, kept) && xs <= kept
    ensures |xs| >= o.maxResults ==> kept == xs
    ensures forall x :: x in kept && x !in xs ==>
        x.length == 0 || (x.wide == wide && IsEnabled(o, wide) && x.address < r.end)
    ensures |kept| < o.maxResults ==> HasAll(m, o, r, wide, kept)
    ensures |kept| < o.maxResults ==>
      (HasEmpty(kept) <==> HasEmpty(xs) || (o.minLength == 0 && EndsClosed(m, o, r, wide)))
  {
    hide IsCollected, StringOf;
    ghost var n, l := CharCount(r, wide), run.length;
    if |xs| >= o.maxResults {
      kept := run.End(wide, o, xs);
    } else {
      kept := EndRun(m, o, rs, r, wide, run, xs);
      if IsEnabled(o, wide) { EndedAtEnd(m, o, r, wide, l, xs, kept); }
    }
  }

  method EndRun(m: Memory, o: Options, ghost rs: seq<Range>, ghost r: Range, wide: bool, run: StringRun,
                xs: seq<MemoryString>)
    returns (kept: seq<MemoryString>)
    requires r in rs && r.start <= r.end && IsCollected(m, o, rs, xs)
    requires |xs| < o.maxResults && IsReady(m, o, r, wide, run, r.end - r.start, xs)
    modifies run
    ensures IsCollected(m, o, rs, kept) && xs <= kept
    ensures forall x :: x in kept && x !in xs ==>
        x.length == 0 || (x.wide == wide && IsEnabled(o, wide) && x.address < r.end)
    ensures old(run.length) > 0 && old(run.length) >= o.minLength ==>
      StringOf(m, o, r.start, wide, CharCount(r, wide) - old(run.length), CharCount(r, wide)) in kept
    ensures HasEmpty(kept) <==> HasEmpty(xs) || (o.minLength == 0 && EndsClosed(m, o, r, wide))
  {
    hide HasEnded, IsCollected, StringOf;
    ghost var n, l, x := CharCount(r, wide), run.length, MemoryString(run.start, run.length, wide, run.text);
    assert l == 0 <==> EndsClosed(m, o, r, wide);
    if l >= o.minLength {
      if l > 0 {
        Collect(m, o, rs, r, wide, n - l, n, xs);
        StringStarts(m, o, r, wide, n - l, n);
      } else { CollectEmpty(m, o, rs, xs, x); }
      EmptyMore(xs, x);
    }
    kept := run.End(wide, o, xs);
    assert l >= o.minLength ==> kept == xs + [x] && kept[|xs|] == x;
  }

  lemma StringStarts(m: Memory, o: Options, r: Range, wide: bool, i: nat, j: nat)
    requires r.start <= r.end && i < j <= CharCount(r, wide)
    ensures var x := StringOf(m, o, r.start, wide, i, j);
      x.wide == wide && x.length == j - i && x.address == CharAddress(r.start, wide, i) < r.end
  {}

  lemma EmptyMore(xs: seq<MemoryString>, x: MemoryString)
    ensures HasEmpty(xs + [x]) <==> HasEmpty(xs) || x.length == 0
  {
    assert (xs + [x])[|xs|] == x;
    assert forall y :: y in xs ==> y in xs + [x];
  }

  lemma CollectEmpty(m: Memory, o: Options, rs: seq<Range>, xs: seq<MemoryString>, x: MemoryString)
    requires IsCollected(m, o, rs, xs) && |xs| < o.maxResults && o.minLength == 0 && x.length == 0
    ensures IsCollected(m, o, rs, xs + [x])
  {}

  lemma EndedAtEnd(m: Memory, o: Options, r: Range, wide: bool, l: nat, xs: seq<MemoryString>, kept: seq<MemoryString>)
    requires r.start <= r.end && l <= CharCount(r, wide)
    requires var n := CharCount(r, wide);
      AllText(m, r.start, wide, n - l, n) && (n == l || !TextAt(m, r.start, wide, n - l - 1))
    requires HasEnded(m, o, r.start, wide, CharCount(r, wide), xs) && xs <= kept
    requires l > 0 && l >= o.minLength ==>
        StringOf(m, o, r.start, wide, CharCount(r, wide) - l, CharCount(r, wide)) in kept
    ensures HasAll(m, o, r, wide, kept)
  {
    var n := CharCount(r, wide);
    forall x: MemoryString | x.wide == wide && x.length > 0 && IsStringIn(m, o, r, x) ensures x in kept {
      var i: nat, j: nat :| IsRun(m, r, x.wide, i, j) && IsEnabled(o, x.wide) && j - i >= o.minLength
                            && x == StringOf(m, o, r.start, x.wide, i, j);
      if j == n { SameStart(m, r.start, wide, i, n - l, n); }
    }
  }
}
