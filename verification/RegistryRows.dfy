/** What a row says of the events charged to it, and which events share one. */
module RegistryRows {
  import opened Optional
  import opened RegistryModel
  import opened RegistryInvariant
  import opened RegistryAccounting
  import opened RegistryAttribution
  import opened RegistryOwnership
  import opened Units

  /** The events charged to a row since it was last forgotten, in order. */
  ghost function ChargesOf(n: Naming, log: seq<LogEntry>, id: RowId): (xs: seq<LogEntry>)
    ensures forall x :: x in xs ==> x.Charge? && RowOf(n, x) == id
  {
    if log == [] then []
    else
      var before, x := ChargesOf(n, log[..|log| - 1], id), log[|log| - 1];
      if x.Forget? then (if id in x.ids then [] else before) else if RowOf(n, x) == id then before + [x] else before
  }

  /** The event a row starts with: the first with a time. */
  ghost predicate Starts(xs: seq<LogEntry>, i: nat)
    requires forall x :: x in xs ==> x.Charge?
  {
    i < |xs| && (forall j :: 0 <= j < i ==> xs[j].a.time == 0) && (i == |xs| - 1 || xs[i].a.time != 0)
  }

  /** The value used last, by an event that names one. */
  ghost function LastValue(xs: seq<LogEntry>): string
    requires forall x :: x in xs ==> x.Charge?
  {
    if xs == [] then ""
    else
      var e := xs[|xs| - 1].a.e;
      if e.op.QueryValue? || e.op.SetValue? || e.op.DeleteValue? then e.valueName else LastValue(xs[..|xs| - 1])
  }

  /** A row is of the process and key it starts with, and says what happened to it last. */
  ghost predicate IsRow(r: Row, xs: seq<LogEntry>)
    requires xs != [] && forall x :: x in xs ==> x.Charge?
  {
    var last := xs[|xs| - 1].a;
    && r.lastOp == last.e.op && r.lastStatus == last.e.status && r.lastSeen == last.time && r.lastTick == last.tick
    && r.lastValue == LastValue(xs)
    && exists i: nat :: Starts(xs, i) && Identifies(r, xs[i])
  }

  /** The row's identity is the event's: by name, or by the key object's address and why it has none. */
  ghost predicate Identifies(r: Row, x: LogEntry)
    requires x.Charge?
  {
    && r.pid == x.a.pid && r.key == x.name && r.firstSeen == x.a.time
    && r.address == (if x.name == "" then x.a.e.keyObject else 0)
    && r.unnamed == (if x.name == "" && x.a.e.keyObject != 0 then x.why else NotTried)
  }

  /** There is a row exactly for what was charged to it and not forgotten since, and it says so. */
  lemma {:induction false} RowTells(n: Naming, log: seq<LogEntry>, id: RowId)
    ensures id in Rows(n, log) <==> ChargesOf(n, log, id) != []
    ensures id in Rows(n, log) ==> IsRow(Rows(n, log)[id], ChargesOf(n, log, id))
  {
    if log != [] {
      var front, x := log[..|log| - 1], log[|log| - 1];
      RowTells(n, front, id);
      hide Weight, RowFor, IsRow, Rows, ChargesOf;
      RowsAre(n, log);
      ChargesAre(n, log, id);
      if x.Charge? && RowOf(n, x) == id {
        if id in Rows(n, front) {
          RowGrows(Rows(n, front)[id], ChargesOf(n, front, id), x);
        } else {
          RowBegins(x);
          assert [] + [x] == [x];
        }
      }
    }
  }

  lemma RowsAre(n: Naming, log: seq<LogEntry>)
    requires log != []
    ensures Rows(n, log) == Replayed(n, Rows(n, log[..|log| - 1]), log[|log| - 1])
  {}

  lemma ChargesAre(n: Naming, log: seq<LogEntry>, id: RowId)
    requires log != []
    ensures var before, x := ChargesOf(n, log[..|log| - 1], id), log[|log| - 1];
      ChargesOf(n, log, id)
        == if x.Forget? then (if id in x.ids then [] else before)
           else if RowOf(n, x) == id then before + [x] else before
  {}

  lemma RowBegins(x: LogEntry)
    requires x.Charge?
    ensures IsRow(Bumped(NewRow, x), [x])
  {
    hide Weight;
    assert Starts([x], 0) && Identifies(Bumped(NewRow, x), [x][0]);
    assert [x][..0] == [] && LastValue([x][..0]) == "";
  }

  lemma RowGrows(r: Row, xs: seq<LogEntry>, x: LogEntry)
    requires x.Charge? && xs != [] && (forall y :: y in xs ==> y.Charge?) && IsRow(r, xs)
    ensures IsRow(Bumped(r, x), xs + [x])
  {
    hide Weight;
    var more := xs + [x];
    assert more[..|more| - 1] == xs;
    var i: nat :| Starts(xs, i) && Identifies(r, xs[i]);
    if r.firstSeen != 0 { assert Starts(more, i) && more[i] == xs[i]; } else { assert Starts(more, |xs|); }
  }

  // ----- which events share a row

  lemma {:induction false} HexApart(a: nat, b: nat)
    requires Hex(a) == Hex(b)
    ensures a == b
  {
    HexEnds(a);
    HexEnds(b);
    DigitsApart(a % 16, b % 16);
    if a >= 16 && b >= 16 {
      assert Hex(a)[..|Hex(a)| - 1] == Hex(b)[..|Hex(b)| - 1];
      HexApart(a / 16, b / 16);
    }
  }

  lemma DigitsApart(a: nat, b: nat)
    requires a < 16 && b < 16 && "0123456789ABCDEF"[a] == "0123456789ABCDEF"[b]
    ensures a == b
  {}

  lemma HexEnds(a: nat)
    ensures |Hex(a)| >= 1 && Hex(a)[|Hex(a)| - 1] == "0123456789ABCDEF"[a % 16]
    ensures |Hex(a)| == 1 <==> a < 16
    ensures a >= 16 ==> Hex(a)[..|Hex(a)| - 1] == Hex(a / 16)
  {
    if a >= 16 { assert |Hex(a / 16)| >= 1; }
  }

  /** Events under names share a row exactly if their processes are the same and their names are but for case; without
      names, if their key objects are. */
  lemma SharedRow(n: Naming, x: LogEntry, y: LogEntry)
    requires x.Charge? && y.Charge? && (x.name == "" <==> y.name == "")
    ensures RowOf(n, x) == RowOf(n, y) <==>
      x.a.pid == y.a.pid
      && if x.name == "" then x.a.e.keyObject == y.a.e.keyObject else n.upper(x.name) == n.upper(y.name)
  {
    if x.name == "" && RowOf(n, x) == RowOf(n, y) {
      var a, b := ObjectText(x.a.e.keyObject), ObjectText(y.a.e.keyObject);
      assert a[1..] == Hex(x.a.e.keyObject) && b[1..] == Hex(y.a.e.keyObject);
      HexApart(x.a.e.keyObject, y.a.e.keyObject);
    }
  }

  // ----- what an event counts for

  /** An accepted event is one open, read or write, and a new key's is a write too; it is a failure if its status is an
      error other than a buffer too small. */
  lemma CountsOnce(e: Event)
    requires !IsIgnored(e)
    ensures var created := if e.op.CreateKey? && e.disposition == 1 then 1 else 0;
      Weight(e, Opens) + Weight(e, Reads) + Weight(e, Writes) == 1 + created
    ensures Weight(e, Opens) == 1 <==> e.op in {CreateKey, OpenKey}
    ensures Weight(e, Reads) == 1 <==>
      e.op in {QueryKey, QueryValue, EnumerateKey, EnumerateValue, QueryMultipleValues, QuerySecurity}
    ensures Weight(e, Failures) == 1 <==> e.status >= 0xC000_0000 && e.status != 0xC000_0023
  {}

  // ----- the order of a pass

  /** The queue is parted into what is counted and what is kept, each in order. */
  ghost predicate IsParted(q: seq<Deferred>, xs: seq<LogEntry>, kept: seq<Deferred>) {
    if q == [] then xs == [] && kept == []
    else
      || (xs != [] && IsOfEntry(xs[0], q[0]) && IsParted(q[1..], xs[1..], kept))
      || (kept != [] && kept[0] == q[0] && IsParted(q[1..], xs, kept[1..]))
  }

  lemma {:induction false} ApplyParts(n: Naming, s: State, todo: seq<Deferred>)
    ensures var r := ApplyAll(n, s, todo);
      s.log <= r.log && s.deferred <= r.deferred && IsParted(todo, r.log[|s.log|..], r.deferred[|s.deferred|..])
    decreases |todo|
  {
    hide Resume, IsReady, IsOfEntry;
    if todo != [] {
      var s1 := ApplyOne(n, s, todo[0]);
      var r := ApplyAll(n, s1, todo[1..]);
      ApplyParts(n, s1, todo[1..]);
      if IsReady(s, todo[0].waiting) {
        ResumeIsOf(n, s, todo[0]);
        assert r.log[|s.log|..][1..] == r.log[|s1.log|..];
      } else {
        assert r.deferred[|s.deferred|..][1..] == r.deferred[|s1.deferred|..];
      }
    }
  }

  /** A pass counts and keeps the queued events in the queue's order, each once, and what it keeps was not ready. */
  lemma PassOrder(n: Naming, s: State)
    ensures var r := ApplyDeferred(n, s);
      s.log <= r.log && IsParted(s.deferred, r.log[|s.log|..], r.deferred)
  {
    ApplyParts(n, s.(deferred := []), s.deferred);
  }
}
