/** RegistryIoTable as it runs: rows and the index of waited objects kept up to date in place, in step with
    the operations of RegistryModel. */
module RegistryTable {
  import opened Optional
  import opened RegistryModel
  import opened RegistryInvariant

  /** w counts the queued events waiting on each object, and lists no object nothing waits on. */
  ghost predicate Indexes(w: map<nat, nat>, q: seq<Deferred>) {
    forall x :: (x in w <==> Waiters(q, x) > 0) && (x in w ==> w[x] == Waiters(q, x))
  }

  /** The same while object y's count is being brought down. */
  ghost predicate IndexesDown(w: map<nat, nat>, q: seq<Deferred>, y: nat) {
    && y in w && w[y] == Waiters(q, y)
    && forall x :: x != y ==> (x in w <==> Waiters(q, x) > 0) && (x in w ==> w[x] == Waiters(q, x))
  }

  lemma WithoutOne(kept: seq<Deferred>, d: Deferred, rest: seq<Deferred>)
    ensures forall x :: Waiters(kept + [d] + rest, x) == Waiters(kept + rest, x) + (if d.waiting == x then 1 else 0)
  {
    forall x ensures Waiters(kept + [d] + rest, x) == Waiters(kept + rest, x) + (if d.waiting == x then 1 else 0) {
      WaitersConcat(kept + [d], rest, x);
      WaitersConcat(kept, [d], x);
      WaitersConcat(kept, rest, x);
    }
  }

  lemma IndexedIsWaited(w: map<nat, nat>, q: seq<Deferred>, x: nat)
    requires Indexes(w, q)
    ensures x in w <==> IsWaited(q, x)
  {
    WaitersPositive(q, x);
  }

  lemma NamesIgnoreQueue(n: Naming, s: State, q: seq<Deferred>, e: Event)
    ensures OpenName(n, s.(deferred := q), e) == OpenName(n, s, e)
    ensures forall base, name :: UnnamedBase(s.(deferred := q), base, name) == UnnamedBase(s, base, name)
  {}

  lemma ResumeIgnoresQueue(n: Naming, s: State, q: seq<Deferred>, d: Deferred)
    ensures Resume(n, s.(deferred := q), d) == Resume(n, s, d).(deferred := q)
  {
    hide OpenName, UnnamedBase;
    NamesIgnoreQueue(n, s, q, d.a.e);
    if IsOpen(d.a.e) {
      var name, x := OpenName(n, s, d.a.e), d.a.e.keyObject;
      var text := if name.Some? then name.value else UnnamedBase(s, d.a.e.baseObject, d.a.e.name);
      var named := x in s.pending && s.pending[x] == d.token;
      assert Charged(s.(deferred := q), d.a, text, named, Resumed(d.waiting), d.token)
          == Charged(s, d.a, text, named, Resumed(d.waiting), d.token).(deferred := q);
    }
  }

  lemma FlushAllSteps(s: State, x: nat, stamp: int, todo: seq<Deferred>)
    ensures FlushAll(s, x, stamp, todo)
         == if todo == [] then s else FlushAll(FlushOne(s, x, stamp, todo[0]), x, stamp, todo[1..])
  {}

  lemma ApplyAllSteps(n: Naming, s: State, todo: seq<Deferred>)
    ensures ApplyAll(n, s, todo) == if todo == [] then s else ApplyAll(n, ApplyOne(n, s, todo[0]), todo[1..])
  {}

  lemma RowsPush(n: Naming, log: seq<LogEntry>, x: LogEntry)
    ensures Rows(n, log + [x]) == Replayed(n, Rows(n, log), x)
  {
    assert (log + [x])[..|log|] == log;
  }

  lemma RowsForget(n: Naming, log: seq<LogEntry>, ids: set<RowId>)
    ensures Rows(n, log + [Forget(ids)]) == Rows(n, log) - ids
  {
    assert (log + [Forget(ids)])[..|log|] == log;
  }

  class RegistryIoTable {
    const naming: Naming
    var rows: map<RowId, Row>
    var names: map<nat, Name>
    var deferred: seq<Deferred>
    var waiting: map<nat, nat>
    var unnamed: set<nat>
    var attempts: map<nat, Attempts>
    var pending: map<nat, nat>
    var nextToken: nat
    ghost var log: seq<LogEntry>
    ghost var issued: map<nat, Arrival>
    ghost var handed: set<nat>

    ghost function Abs(): State
      reads this
    {
      State(log, names, deferred, unnamed, attempts, pending, nextToken, issued, handed)
    }

    ghost predicate Valid()
      reads this
    {
      rows == Rows(naming, log) && Indexes(waiting, deferred) && TOKEN_BASE <= nextToken
    }

    constructor (naming: Naming)
      ensures Valid() && Abs() == Empty && this.naming == naming
    {
      this.naming := naming;
      rows, names, deferred, waiting, unnamed := map[], map[], [], map[], {};
      attempts, pending, nextToken := map[], map[], TOKEN_BASE;
      log, issued, handed := [], map[], {};
    }

    /** A row with one more event in it. */
    method AddToRow(row: Row, a: Arrival, name: string, address: nat, ghost charge: LogEntry) returns (c: Row)
      requires charge.Charge? && charge.a == a && charge.name == name && charge.why == WhyUnnamed(Abs(), a.e.keyObject)
      requires address == if name == "" then a.e.keyObject else 0
      ensures c == Bumped(row, charge)
    {
      hide Weight;
      c := row;
      if c.firstSeen == 0 {
        var why := if address != 0 && address in attempts then attempts[address].why else NotTried;
        c := c.(pid := a.pid, key := name, address := address, unnamed := why, firstSeen := a.time);
      }
      c := c.(lastSeen := a.time, lastTick := a.tick, lastOp := a.e.op, lastStatus := a.e.status);
      c := AddCounts(c, a.e);
      if HasValue(a.e) { c := c.(lastValue := a.e.valueName); }
    }

    method AddCounts(row: Row, e: Event) returns (c: Row)
      ensures c == row.(openCount := row.openCount + Weight(e, Opens), readCount := row.readCount + Weight(e, Reads),
                        writeCount := row.writeCount + Weight(e, Writes),
                        failureCount := row.failureCount + Weight(e, Failures))
    {
      c := row;
      match e.op {
        case CreateKey =>
          c := c.(openCount := c.openCount + 1);
          if e.disposition == 1 { c := c.(writeCount := c.writeCount + 1); }
        case OpenKey => c := c.(openCount := c.openCount + 1);
        case QueryKey | QueryValue | EnumerateKey | EnumerateValue | QueryMultipleValues | QuerySecurity =>
          c := c.(readCount := c.readCount + 1);
        case _ => c := c.(writeCount := c.writeCount + 1);
      }
      if IsFailure(e.status) { c := c.(failureCount := c.failureCount + 1); }
    }

    method Count(a: Arrival, name: string, nameObject: bool, ghost via: Via, ghost token: nat)
      requires rows == Rows(naming, log)
      modifies this`rows, this`names, this`log
      ensures rows == Rows(naming, log)
      ensures Abs() == Charged(old(Abs()), a, name, nameObject, via, token)
    {
      hide Bumped, Rows;
      ghost var charge := Charge(a, name, WhyUnnamed(Abs(), a.e.keyObject), via, token);
      var address := if name == "" then a.e.keyObject else 0;
      var id := RowFor(naming, a.pid, name, a.e.keyObject);
      var c := AddToRow(if id in rows then rows[id] else NewRow, a, name, address, charge);
      rows := rows[id := c];
      if IsOpen(a.e) && nameObject && a.e.keyObject != 0 && name != "" && !IsFailure(a.e.status) {
        names := names[a.e.keyObject := Name(name, a.tick)];
      }
      RowsPush(naming, log, charge);
      log := log + [charge];
    }

    method NameToken(token: nat, keyObject: nat, name: string, tick: nat)
      modifies this`names, this`pending
      ensures Abs() == TokenNamed(old(Abs()), token, keyObject, name, tick)
    {
      if token == 0 { return; }
      names := names[token := Name(name, tick)];
      if keyObject in pending && pending[keyObject] == token { pending := pending - {keyObject}; }
    }

    /** One queued event: kept, or counted as the closed key's if it waited on the address from before. */
    method FlushEntry(x: nat, stamp: int, keep: seq<Deferred>, d: Deferred, ghost rest: seq<Deferred>)
      returns (kept: seq<Deferred>)
      requires rows == Rows(naming, log) && IndexesDown(waiting, keep + [d] + rest, x)
      requires WhyUnnamed(Abs(), x) == Closed
      modifies this`rows, this`names, this`log, this`waiting
      ensures rows == Rows(naming, log) && IndexesDown(waiting, kept + rest, x)
      ensures Abs().(deferred := kept) == FlushOne(old(Abs()).(deferred := keep), x, stamp, d)
    {
      hide Rows;
      if d.waiting != x || d.a.e.stamp >= stamp { return keep + [d]; }
      WithoutOne(keep, d, rest);
      var name := if IsOpen(d.a.e) then UnnamedName(x, Closed) + "\\" + d.a.e.name else "";
      Count(d.a, name, true, Flushed(x), d.token);
      waiting := waiting[x := waiting[x] - 1];
      kept := keep;
    }

    method FlushQueue(x: nat, stamp: int)
      requires rows == Rows(naming, log) && IndexesDown(waiting, deferred, x)
      requires WhyUnnamed(Abs(), x) == Closed
      modifies this`rows, this`names, this`log, this`deferred, this`waiting
      ensures rows == Rows(naming, log) && IndexesDown(waiting, deferred, x)
      ensures Abs() == FlushAll(old(Abs()).(deferred := []), x, stamp, old(deferred))
    {
      hide Rows, FlushOne, IndexesDown, FlushAll;
      var keep: seq<Deferred>, todo := [], deferred;
      assert keep + todo == todo;
      while todo != []
        invariant deferred == old(deferred) && WhyUnnamed(Abs(), x) == Closed
        invariant rows == Rows(naming, log) && IndexesDown(waiting, keep + todo, x)
        invariant FlushAll(Abs().(deferred := keep), x, stamp, todo)
               == FlushAll(old(Abs()).(deferred := []), x, stamp, old(deferred))
      {
        assert keep + todo == keep + [todo[0]] + todo[1..];
        FlushAllSteps(Abs().(deferred := keep), x, stamp, todo);
        keep := FlushEntry(x, stamp, keep, todo[0], todo[1..]);
        todo := todo[1..];
      }
      assert keep + todo == keep;
      FlushAllSteps(Abs().(deferred := keep), x, stamp, todo);
      deferred := keep;
    }

    method FlushWaiting(x: nat, stamp: int)
      requires rows == Rows(naming, log) && Indexes(waiting, deferred)
      modifies this`rows, this`names, this`log, this`attempts, this`deferred, this`waiting
      ensures rows == Rows(naming, log) && Indexes(waiting, deferred)
      ensures Abs() == FlushedAddress(old(Abs()), x, stamp)
    {
      hide Rows, FlushAll;
      IndexedIsWaited(waiting, deferred, x);
      if x !in waiting { return; }
      attempts := attempts[x := Attempts(MAX_ATTEMPTS, Closed)];
      FlushQueue(x, stamp);
      if waiting[x] == 0 { waiting := waiting - {x}; }
    }

    method MoveEntry(i: nat, x: nat, token: nat)
      requires i < |deferred| && deferred[i].waiting == x != token && IndexesDown(waiting, deferred, x)
      modifies this`deferred, this`waiting
      ensures IndexesDown(waiting, deferred, x)
      ensures deferred == old(deferred)[i := old(deferred)[i].(waiting := token)]
    {
      var d := deferred[i];
      ghost var before, after := deferred[..i], deferred[i + 1..];
      assert deferred == before + [d] + after;
      WithoutOne(before, d, after);
      deferred := deferred[i := d.(waiting := token)];
      assert deferred == before + [d.(waiting := token)] + after;
      WithoutOne(before, d.(waiting := token), after);
      waiting := waiting[token := (if token in waiting then waiting[token] else 0) + 1];
      waiting := waiting[x := waiting[x] - 1];
    }

    method Retarget(x: nat, stamp: int, token: nat)
      requires Indexes(waiting, deferred) && token != x
      modifies this`deferred, this`waiting
      ensures Indexes(waiting, deferred)
      ensures deferred == Retargeted(old(deferred), x, stamp, token)
    {
      IndexedIsWaited(waiting, deferred, x);
      if x !in waiting {
        assert forall d :: d in deferred ==> d.waiting != x;
        assert deferred == Retargeted(deferred, x, stamp, token);
        return;
      }
      var i := 0;
      while i < |deferred|
        invariant 0 <= i <= |deferred| == |old(deferred)|
        invariant forall k :: 0 <= k < i ==> deferred[k] == Retargeted(old(deferred), x, stamp, token)[k]
        invariant forall k :: i <= k < |deferred| ==> deferred[k] == old(deferred)[k]
        invariant IndexesDown(waiting, deferred, x)
      {
        if deferred[i].waiting == x && deferred[i].a.e.stamp >= stamp { MoveEntry(i, x, token); }
        i := i + 1;
      }
      if waiting[x] == 0 { waiting := waiting - {x}; }
    }

    method Defer(a: Arrival, on: nat, token: nat)
      requires rows == Rows(naming, log) && Indexes(waiting, deferred)
      modifies this`rows, this`names, this`log, this`pending, this`deferred, this`waiting, this`unnamed
      ensures rows == Rows(naming, log) && Indexes(waiting, deferred)
      ensures Abs() == Deferring(old(Abs()), a, on, token)
    {
      hide Rows;
      if |deferred| >= MAX_DEFERRED {
        if IsOpen(a.e) {
          var name := UnnamedBaseName(on, a.e.name);
          Count(a, name, true, Overflowed(on), token);
          NameToken(token, a.e.keyObject, name, a.tick);
        } else if IsToken(on) && on in names {
          Count(a, names[on].text, true, Overflowed(on), 0);
        } else {
          Count(a, "", true, Overflowed(on), 0);
        }
        return;
      }
      IndexedIsWaited(waiting, deferred, on);
      var d := Deferred(a, on, token);
      var count := if on in waiting then waiting[on] else 0;
      if count == 0 && !IsToken(on) { unnamed := unnamed + {on}; }
      waiting := waiting[on := count + 1];
      forall x ensures Waiters(deferred + [d], x) == Waiters(deferred, x) + (if on == x then 1 else 0) {
        WaitersConcat(deferred, [d], x);
      }
      deferred := deferred + [d];
    }

    method UnnamedBaseName(base: nat, relative: string) returns (name: string)
      ensures name == UnnamedBase(Abs(), base, relative)
    {
      name := UnnamedName(base, if base in attempts then attempts[base].why else NotTried) + "\\" + relative;
    }

    method OpenedName(e: Event) returns (name: Option<string>)
      ensures name == OpenName(naming, Abs(), e)
    {
      if e.name != "" && e.name[0] == '\\' { return Some(naming.registryName(e.name)); }
      if e.baseObject !in names { return None; }
      name := Some(if e.name == "" then names[e.baseObject].text else names[e.baseObject].text + "\\" + e.name);
    }

    method HasGivenUp(x: nat) returns (r: bool)
      ensures r == GaveUp(Abs(), x)
    {
      r := x == 0 || (x in attempts && attempts[x].count >= MAX_ATTEMPTS);
    }

    /** An event counted, or queued until its key object is named. */
    method OnEvent(a: Arrival)
      requires Valid() && !IsToken(a.e.keyObject) && nextToken < TOKEN_END
      modifies this
      ensures Valid() && Abs() == RegistryModel.OnEvent(naming, old(Abs()), a)
    {
      hide Rows;
      if IsIgnored(a.e) { return; }
      if IsOpen(a.e) { OnOpenEvent(a); } else { OnOperationEvent(a); }
    }

    method OnOpenEvent(a: Arrival)
      requires Valid() && !IsToken(a.e.keyObject) && nextToken < TOKEN_END
      modifies this
      ensures Valid()
      ensures Abs() == OnOpen(naming, old(Abs()), a)
    {
      hide Rows;
      var x := a.e.keyObject;
      if x != 0 {
        FlushWaiting(x, a.e.stamp);
        attempts := attempts - {x};
        pending := pending - {x};
      }
      assert Abs() == Reopened(old(Abs()), x, a.e.stamp);
      CountOrDeferOpen(a);
    }

    method CountOrDeferOpen(a: Arrival)
      requires Valid() && !IsToken(a.e.keyObject) && nextToken < TOKEN_END
      modifies this
      ensures Valid()
      ensures Abs() == Opened(naming, old(Abs()), a)
    {
      hide Rows;
      var name := OpenedName(a.e);
      var gaveUp := HasGivenUp(a.e.baseObject);
      if name.Some? {
        Count(a, name.value, true, Direct, 0);
      } else if gaveUp {
        var text := UnnamedBaseName(a.e.baseObject, a.e.name);
        Count(a, text, true, Direct, 0);
      } else {
        var token := 0;
        if a.e.keyObject != 0 && !IsFailure(a.e.status) {
          names := names - {a.e.keyObject};
          token := nextToken;
          nextToken := nextToken + 1;
          issued := issued[token := a];
          pending := pending[a.e.keyObject := token];
          Retarget(a.e.keyObject, a.e.stamp, token);
          assert Abs() == Issued(old(Abs()), a);
        }
        Defer(a, a.e.baseObject, token);
      }
    }

    method OnOperationEvent(a: Arrival)
      requires Valid()
      modifies this
      ensures Valid()
      ensures Abs() == OnOperation(old(Abs()), a)
    {
      hide Rows;
      var x := a.e.keyObject;
      var gaveUp := HasGivenUp(x);
      if x in names {
        names := names[x := names[x].(tick := a.tick)];
        Count(a, names[x].text, true, Direct, 0);
      } else if x in pending {
        Defer(a, pending[x], 0);
      } else if gaveUp {
        Count(a, "", true, Direct, 0);
      } else {
        Defer(a, x, 0);
      }
    }

    /** The addresses operations wait on, handed to the resolver. */
    method TakeUnnamed() returns (objects: set<nat>)
      requires Valid()
      modifies this`unnamed, this`handed
      ensures Valid() && Abs() == RegistryModel.TakeUnnamed(old(Abs())) && objects == old(unnamed)
    {
      hide Rows;
      objects := unnamed;
      handed := handed + unnamed;
      unnamed := {};
    }

    method SetName(x: nat, name: string, tick: nat)
      requires Valid()
      modifies this`names
      ensures Valid() && Abs() == RegistryModel.SetName(naming, old(Abs()), x, name, tick)
    {
      hide Rows;
      names := names[x := Name(naming.registryName(name), tick)];
    }

    method NameFailed(x: nat, why: Why)
      requires Valid()
      modifies this`attempts
      ensures Valid() && Abs() == RegistryModel.NameFailed(old(Abs()), x, why)
    {
      hide Rows;
      attempts := attempts[x := Attempts((if x in attempts then attempts[x].count else 0) + 1, why)];
    }

    method ResumeEvent(d: Deferred)
      requires rows == Rows(naming, log)
      modifies this`rows, this`names, this`log, this`pending
      ensures rows == Rows(naming, log)
      ensures Abs() == Resume(naming, old(Abs()), d)
    {
      hide Rows;
      if IsOpen(d.a.e) {
        var name := OpenedName(d.a.e);
        var text := "";
        if name.Some? { text := name.value; } else { text := UnnamedBaseName(d.a.e.baseObject, d.a.e.name); }
        var x := d.a.e.keyObject;
        Count(d.a, text, x in pending && pending[x] == d.token, Resumed(d.waiting), d.token);
        NameToken(d.token, x, text, d.a.tick);
      } else if d.waiting in names {
        var name := names[d.waiting];
        names := names[d.waiting := name.(tick := Max(name.tick, d.a.tick))];
        Count(d.a, name.text, true, Resumed(d.waiting), 0);
      } else {
        Count(d.a, "", true, Resumed(d.waiting), 0);
      }
    }

    method ApplyDeferred()
      requires Valid()
      modifies this
      ensures Valid() && Abs() == RegistryModel.ApplyDeferred(naming, old(Abs()))
    {
      hide Rows;
      ghost var before := Abs();
      ApplyQueue();
      assert Abs() == ApplyAll(naming, before.(deferred := []), before.deferred);
      var todo := waiting.Keys;
      forall x ensures x in waiting <==> IsWaited(deferred, x) {
        IndexedIsWaited(waiting, deferred, x);
      }
      assert (set x | x in todo && !IsToken(x)) == WaitedAddresses(deferred);
      unnamed := unnamed + set x | x in todo && !IsToken(x);
      handed := {};
    }

    method UnwaitEntry(ghost keep: seq<Deferred>, d: Deferred, ghost rest: seq<Deferred>)
      requires Indexes(waiting, keep + [d] + rest)
      modifies this`waiting
      ensures Indexes(waiting, keep + rest)
    {
      WithoutOne(keep, d, rest);
      if d.waiting in waiting {
        waiting := waiting[d.waiting := waiting[d.waiting] - 1];
        if waiting[d.waiting] == 0 { waiting := waiting - {d.waiting}; }
      }
    }

    method ApplyEntry(keep: seq<Deferred>, d: Deferred, ghost rest: seq<Deferred>) returns (kept: seq<Deferred>)
      requires rows == Rows(naming, log) && Indexes(waiting, keep + [d] + rest)
      modifies this`rows, this`names, this`log, this`pending, this`waiting
      ensures rows == Rows(naming, log) && Indexes(waiting, kept + rest)
      ensures Abs().(deferred := kept) == ApplyOne(naming, old(Abs()).(deferred := keep), d)
    {
      hide Rows, Resume;
      var gaveUp := HasGivenUp(d.waiting);
      if !(d.waiting in names || gaveUp) { return keep + [d]; }
      UnwaitEntry(keep, d, rest);
      ResumeIgnoresQueue(naming, Abs(), keep, d);
      ResumeEvent(d);
      kept := keep;
    }

    method ApplyQueue()
      requires rows == Rows(naming, log) && Indexes(waiting, deferred)
      modifies this`rows, this`names, this`log, this`pending, this`waiting, this`deferred
      ensures rows == Rows(naming, log) && Indexes(waiting, deferred)
      ensures Abs() == ApplyAll(naming, old(Abs()).(deferred := []), old(deferred))
    {
      hide Rows, ApplyOne, Indexes, ApplyAll;
      var keep: seq<Deferred>, todo := [], deferred;
      assert keep + todo == todo;
      while todo != []
        invariant deferred == old(deferred)
        invariant rows == Rows(naming, log) && Indexes(waiting, keep + todo)
        invariant ApplyAll(naming, Abs().(deferred := keep), todo)
               == ApplyAll(naming, old(Abs()).(deferred := []), old(deferred))
      {
        assert keep + todo == keep + [todo[0]] + todo[1..];
        ApplyAllSteps(naming, Abs().(deferred := keep), todo);
        keep := ApplyEntry(keep, todo[0], todo[1..]);
        todo := todo[1..];
      }
      assert keep + todo == keep;
      ApplyAllSteps(naming, Abs().(deferred := keep), todo);
      deferred := keep;
    }

    method RemoveProcess(pid: nat)
      requires Valid()
      modifies this`rows, this`log
      ensures Valid() && Abs() == RegistryModel.RemoveProcess(naming, old(Abs()), pid)
    {
      hide Rows;
      var ids := set id | id in rows && id.pid == pid;
      rows := rows - ids;
      RowsForget(naming, log, ids);
      log := log + [Forget(ids)];
    }

    method Prune(tick: nat)
      requires Valid()
      modifies this`rows, this`names, this`attempts, this`log
      ensures Valid() && Abs() == RegistryModel.Prune(naming, old(Abs()), tick)
    {
      hide Rows;
      var ids := set id | id in rows && Elapsed(tick, rows[id].lastTick) > KEY_IDLE;
      rows := rows - ids;
      RowsForget(naming, log, ids);
      log := log + [Forget(ids)];
      names := map x | x in names && !(Elapsed(tick, names[x].tick) > NAME_IDLE) :: names[x];
      forall x ensures x in waiting <==> IsWaited(deferred, x) {
        IndexedIsWaited(waiting, deferred, x);
      }
      attempts := map x | x in attempts && x in waiting :: attempts[x];
    }

    method Clear()
      requires Valid()
      modifies this
      ensures Valid() && Abs() == RegistryModel.Clear(naming, old(Abs()))
    {
      hide Rows;
      ghost var ids := rows.Keys;
      rows, names, deferred, waiting, unnamed := map[], map[], [], map[], {};
      attempts, pending := map[], map[];
      RowsForget(naming, log, ids);
      log := log + [Forget(ids)];
    }
  }
}
