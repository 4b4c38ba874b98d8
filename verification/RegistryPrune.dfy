/** What a prune forgets: by unsigned elapsed ticks, so a tick later than the prune's counts as long ago. */
module RegistryPrune {
  import opened Optional
  import opened RegistryModel
  import opened RegistryInvariant
  import opened RegistryDrain
  import opened RegistryHealth

  /** The ticks a table stores and the prune's are 64-bit numbers. */
  ghost predicate HasTicks(n: Naming, s: State, tick: nat) {
    && tick < TICKS
    && (forall id :: id in Rows(n, s.log) ==> Rows(n, s.log)[id].lastTick < TICKS)
    && forall x :: x in s.names ==> s.names[x].tick < TICKS
  }

  /** Only rows and names idle for longer than the limits go. */
  ghost predicate ForgetsIdleOnly(n: Naming, s: State, tick: nat) {
    var r := Prune(n, s, tick);
    && (forall id :: id in Rows(n, s.log) && id !in Rows(n, r.log) ==> Rows(n, s.log)[id].lastTick + KEY_IDLE < tick)
    && forall x :: x in s.names && x !in r.names ==> s.names[x].tick + NAME_IDLE < tick
  }

  /** Later than the prune's tick, by less than what wraps around to within the limit. */
  predicate IsLater(stored: nat, tick: nat, limit: nat) { tick < stored < tick + TICKS - limit }

  ghost predicate NoneLater(n: Naming, s: State, tick: nat) {
    && (forall id :: id in Rows(n, s.log) ==> !IsLater(Rows(n, s.log)[id].lastTick, tick, KEY_IDLE))
    && forall x :: x in s.names ==> !IsLater(s.names[x].tick, tick, NAME_IDLE)
  }

  /** A stored tick is too old if it is, or if it is later. */
  lemma ElapsedIs(tick: nat, stored: nat, limit: nat)
    requires tick < TICKS && stored < TICKS && limit < TICKS
    ensures Elapsed(tick, stored) > limit <==> stored + limit < tick || IsLater(stored, tick, limit)
  {
    if stored <= tick {
      assert Elapsed(tick, stored) == tick - stored;
    } else {
      assert (tick - stored + TICKS) % TICKS == tick - stored + TICKS;
      assert Elapsed(tick, stored) == tick - stored + TICKS;
    }
  }

  lemma PrunedRows(n: Naming, s: State, tick: nat)
    ensures forall id :: id in Rows(n, Prune(n, s, tick).log) <==>
      id in Rows(n, s.log) && Elapsed(tick, Rows(n, s.log)[id].lastTick) <= KEY_IDLE
  {
    var log := Prune(n, s, tick).log;
    assert log[..|log| - 1] == s.log;
  }

  /** A prune forgets only what has been idle for longer than the limits if and only if no stored tick is later. */
  lemma PruneForgetsIdleOnly(n: Naming, s: State, tick: nat)
    requires HasTicks(n, s, tick)
    ensures ForgetsIdleOnly(n, s, tick) <==> NoneLater(n, s, tick)
  {
    hide Elapsed, IsLater, Rows;
    PrunedRows(n, s, tick);
    var rows := Rows(n, s.log);
    forall id | id in rows
      ensures Elapsed(tick, rows[id].lastTick) > KEY_IDLE <==>
        rows[id].lastTick + KEY_IDLE < tick || IsLater(rows[id].lastTick, tick, KEY_IDLE)
    {
      ElapsedIs(tick, rows[id].lastTick, KEY_IDLE);
    }
    forall x | x in s.names
      ensures Elapsed(tick, s.names[x].tick) > NAME_IDLE <==>
        s.names[x].tick + NAME_IDLE < tick || IsLater(s.names[x].tick, tick, NAME_IDLE)
    {
      ElapsedIs(tick, s.names[x].tick, NAME_IDLE);
    }
    LaterIsNotIdle(tick);
  }

  lemma LaterIsNotIdle(tick: nat)
    ensures forall stored: nat, limit: nat :: IsLater(stored, tick, limit) ==> stored > tick
  {}

  const Counted := Arrival(Event(OpenKey, 20, 0, 0, 0, 1, "\\REGISTRY\\A", ""), 4, 1, 5)

  /** A prune with a tick read just before an event's forgets the event's row at once. */
  lemma EarlyPrune(n: Naming) returns (id: RowId)
    ensures var s := Run(n, Empty, [Traced(Counted)]);
      id in Rows(n, s.log) && id !in Rows(n, Prune(n, s, 4).log) && HasTicks(n, s, 4) && !NoneLater(n, s, 4)
  {
    assert [Traced(Counted)][..0] == [];
    var s := OnEvent(n, Empty, Counted);
    assert Run(n, Empty, [Traced(Counted)]) == s;
    assert |s.log| == 1 && s.log[..0] == [];
    id := RowOf(n, s.log[0]);
    assert Rows(n, s.log) == map[id := Bumped(NewRow, s.log[0])];
    ElapsedIs(4, 5, KEY_IDLE);
    PrunedRows(n, s, 4);
  }

  // ----- a prune that strands an operation

  const Early := Arrival(Event(QueryKey, 20, 0, 0, 0, 5, "", ""), 4, 1, 1)
  const Late := Arrival(Event(OpenKey, 20, 10, 0, 0, 1, "sub", ""), 4, 2, 1)

  const NamedLate := [Traced(Early), Traced(Late), Named(10, "\\REGISTRY\\A", 1), Apply]

  /** A query arrives before the open it follows, which waits for its base's name; the pass that counts the open
      names its token behind the query in the queue. A prune that finds the name unused for too long then drops it. */
  lemma PruneStrandingRun(n: Naming, later: seq<Call>)
    requires forall c :: c in later ==> OutsideTokens(c) && !c.Cleared?
    ensures var s := Run(n, Empty, NamedLate);
      && Healthy(s) && Strands(s, Pruned(200000))
      && Deferred(Early, TOKEN_BASE, 0) in Run(n, Prune(n, s, 200000), later).deferred
  {
    var s := AfterNaming(n);
    var d := Deferred(Early, TOKEN_BASE, 0);
    assert d in s.deferred;
    var r := Prune(n, s, 200000);
    assert Dead(r, r.deferred, TOKEN_BASE);
    DeadForever(n, r, later, TOKEN_BASE, d);
  }

  lemma AfterOpen(n: Naming, s1: State) returns (s2: State)
    requires s1 == Empty.(deferred := [Deferred(Early, 20, 0)], unnamed := {20})
    ensures s2 == OnEvent(n, s1, Late)
    ensures s2.deferred == [Deferred(Early, TOKEN_BASE, 0), Deferred(Late, 10, TOKEN_BASE)]
    ensures s2.pending == map[20 := TOKEN_BASE] && s2.attempts == map[] && s2.names == map[]
        && s2.nextToken == TOKEN_BASE + 1
  {
    var e, r := Deferred(Early, 20, 0), Reopened(s1, 20, 1);
    var b := FlushStart(s1, 20);
    assert IsWaited(s1.deferred, 20) by { assert e in s1.deferred; }
    assert FlushOne(b, 20, 1, e) == b.(deferred := [e]);
    assert [e][1..] == [] && FlushAll(b, 20, 1, [e]) == FlushAll(b.(deferred := [e]), 20, 1, []) == b.(deferred := [e]);
    assert FlushedAddress(s1, 20, 1) == b.(deferred := [e]);
    assert r.deferred == [e] && r.names == map[] && r.attempts == map[] && r.pending == map[];
    assert Retargeted([e], 20, 1, TOKEN_BASE) == [Deferred(Early, TOKEN_BASE, 0)];
    s2 := Opened(n, r, Late);
  }

  lemma AfterNaming(n: Naming) returns (s: State)
    ensures s == Run(n, Empty, NamedLate)
    ensures s.deferred == [Deferred(Early, TOKEN_BASE, 0)] && s.pending == map[] && s.attempts == map[]
    ensures TOKEN_BASE in s.names && s.names[TOKEN_BASE].tick == 1 && s.nextToken == TOKEN_BASE + 1
  {
    var s1 := OnEvent(n, Empty, Early);
    var s2 := AfterOpen(n, s1);
    hide OnEvent, ApplyDeferred, SetName;
    var s3 := SetName(n, s2, 10, "\\REGISTRY\\A", 1);
    s := ApplyDeferred(n, s3);
    NamesOne(n, s2);
    AfterPass(n, s3);
    RunOfFour(n, s1, s2, s3);
  }

  lemma NamesOne(n: Naming, s: State)
    requires s.names == map[]
    ensures var r := SetName(n, s, 10, "\\REGISTRY\\A", 1); r.names.Keys == {10} && r == s.(names := r.names)
  {}

  lemma RunOfFour(n: Naming, s1: State, s2: State, s3: State)
    requires s1 == OnEvent(n, Empty, Early) && s2 == OnEvent(n, s1, Late)
        && s3 == SetName(n, s2, 10, "\\REGISTRY\\A", 1)
    ensures Run(n, Empty, NamedLate) == ApplyDeferred(n, s3)
  {
    hide OnEvent, ApplyDeferred, SetName;
    var c := NamedLate;
    OneCallMore(n, [], c[0]);
    OneCallMore(n, [c[0]], c[1]);
    OneCallMore(n, [c[0], c[1]], c[2]);
    OneCallMore(n, [c[0], c[1], c[2]], c[3]);
    assert [] + [c[0]] == [c[0]] && [c[0]] + [c[1]] == [c[0], c[1]] && [c[0], c[1]] + [c[2]] == [c[0], c[1], c[2]];
    assert [c[0], c[1], c[2]] + [c[3]] == c;
  }

  lemma OneCallMore(n: Naming, calls: seq<Call>, c: Call)
    ensures Run(n, Empty, calls + [c]) == Step(n, Run(n, Empty, calls), c)
  {
    hide Step;
    assert (calls + [c])[..|calls|] == calls;
  }

  lemma AfterPass(n: Naming, s: State)
    requires s.deferred == [Deferred(Early, TOKEN_BASE, 0), Deferred(Late, 10, TOKEN_BASE)]
    requires s.pending == map[20 := TOKEN_BASE] && s.attempts == map[] && s.names.Keys == {10}
    ensures var r := ApplyDeferred(n, s);
      && r.deferred == [Deferred(Early, TOKEN_BASE, 0)] && r.pending == map[] && r.attempts == map[]
      && TOKEN_BASE in r.names && r.names[TOKEN_BASE].tick == 1 && r.nextToken == s.nextToken
  {
    var d, o := s.deferred[0], s.deferred[1];
    var b := s.(deferred := []);
    var b1 := b.(deferred := [d]);
    assert ApplyOne(n, b, d) == b1;
    var b2 := Resume(n, b1, o);
    assert ApplyOne(n, b1, o) == b2 && b2.deferred == [d] && b2.pending == map[] && b2.attempts == map[];
    assert s.deferred[1..] == [o] && [o][1..] == [];
    assert ApplyAll(n, b, s.deferred) == ApplyAll(n, b1, [o]);
    assert ApplyAll(n, b1, [o]) == ApplyAll(n, b2, []);
  }
}
