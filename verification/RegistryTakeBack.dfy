/** An open counted as a closed key's names its address even if a later open has taken it: exactly when that happens. */
module RegistryTakeBack {
  import opened Optional
  import opened RegistryModel
  import opened RegistryInvariant
  import opened RegistryAttribution
  import opened RegistryOwnership
  import opened RegistryNames
  import opened RegistryHistory

  ghost predicate NamesAddress(x: LogEntry) {
    x.Charge? && IsOpen(x.a.e) && x.a.e.keyObject != 0 && x.name != "" && !IsFailure(x.a.e.status)
  }

  /** Of the queued opens the last call counts as a closed key's, those that give their addresses a name own them. */
  ghost predicate OnlyOwnersName(n: Naming, calls: seq<Call>)
    requires calls != []
  {
    forall x :: x in Counted(n, calls) && NamesAddress(x) && x.via.Flushed? ==>
      StillOwns(n, calls[..|calls| - 1], x.token, x.a.e.keyObject)
  }

  /** A successful open waits on address x from before the stamp, and is not pending on its own address any more. */
  ghost predicate TakesBack(s: State, x: nat, stamp: int) {
    x != 0 && exists d :: d in s.deferred && IsTakingBack(s, x, stamp, d)
  }

  ghost predicate IsTakingBack(s: State, x: nat, stamp: int, d: Deferred) {
    && IsEarlier(d, x, stamp) && IsOpen(d.a.e) && NeedsToken(d.a.e)
    && !(d.a.e.keyObject in s.pending && s.pending[d.a.e.keyObject] == d.token)
  }

  /** Of the queued opens a new open counts as a closed key's, those that succeeded give their addresses a name; all of
      them still own their addresses if and only if none of them has lost its own to a later open. */
  lemma OwnersExactly(n: Naming, calls: seq<Call>, a: Arrival)
    requires (forall c :: c in calls ==> OutsideTokens(c)) && Run(n, Empty, calls).nextToken <= TOKEN_END
    requires IsOpen(a.e) && !IsIgnored(a.e)
    ensures OnlyOwnersName(n, calls + [Traced(a)]) <==> !TakesBack(Run(n, Empty, calls), a.e.keyObject, a.e.stamp)
  {
    var s, c, x := Run(n, Empty, calls), Traced(a), a.e.keyObject;
    RunMore(n, calls, c);
    RunTold(n, calls);
    CountedIs(n, calls, c);
    RunKeeps(n, calls);
    HasTokens(s);
    FlushedAre(n, s, a);
    assert (calls + [c])[..|calls|] == calls;
    hide Run, NamesTold, AttemptsTold, Counted, StillOwns, OnOpen, NamesAddress, IsFailure;
    var xs := Counted(n, calls + [c]);
    if TakesBack(s, x, a.e.stamp) {
      var d :| d in s.deferred && IsTakingBack(s, x, a.e.stamp, d);
      assert IsOwner(s.pending, d, Claims(n, calls));
      assert IsCounted(xs, d, x);
      var y :| y in xs && IsFlushOf(y, d, x);
      NamesIfOk(y, d, x);
      assert !OnlyOwnersName(n, calls + [c]);
    } else {
      forall y | y in xs && NamesAddress(y) && y.via.Flushed? ensures StillOwns(n, calls, y.token, y.a.e.keyObject) {
        assert WasQueued(s, x, a.e.stamp, y);
        var d :| d in s.deferred && IsEarlier(d, x, a.e.stamp) && IsFlushOf(y, d, x);
        NamesIfOk(y, d, x);
        assert x != 0 && !IsTakingBack(s, x, a.e.stamp, d);
        if IsOpen(d.a.e) { assert IsOwner(s.pending, d, Claims(n, calls)); }
      }
    }
  }

  ghost predicate IsFlushOf(y: LogEntry, d: Deferred, x: nat) {
    y.Charge? && y.a == d.a && y.via == Flushed(x) && y.token == d.token && y.name == ClosedName(x, d.a.e)
  }

  lemma NamesIfOk(y: LogEntry, d: Deferred, x: nat)
    requires IsFlushOf(y, d, x)
    ensures NamesAddress(y) <==> IsOpen(d.a.e) && NeedsToken(d.a.e)
  {
    hide UnnamedName;
  }

  /** The closed key's events among those counted are the ones queued on the address from before. */
  ghost predicate AreFlushed(s: State, x: nat, stamp: int, ys: seq<LogEntry>) {
    && (forall y :: y in ys && y.Charge? && y.via.Flushed? ==> x != 0 && WasQueued(s, x, stamp, y))
    && (x != 0 ==> forall d :: d in s.deferred && IsEarlier(d, x, stamp) ==> IsCounted(ys, d, x))
  }

  ghost predicate WasQueued(s: State, x: nat, stamp: int, y: LogEntry) {
    exists d :: d in s.deferred && IsEarlier(d, x, stamp) && IsFlushOf(y, d, x)
  }

  ghost predicate IsCounted(ys: seq<LogEntry>, d: Deferred, x: nat) { exists y :: y in ys && IsFlushOf(y, d, x) }

  lemma FlushedAre(n: Naming, s: State, a: Arrival)
    requires IsOpen(a.e) && s.nextToken > 0
    ensures var r := OnOpen(n, s, a);
      s.log <= r.log && AreFlushed(s, a.e.keyObject, a.e.stamp, r.log[|s.log|..])
  {
    var x := a.e.keyObject;
    var f := Reopened(s, x, a.e.stamp);
    SameTokens(s, x, a.e.stamp);
    OpenedTells(n, f, a, (t: nat, k: nat) => false);
    var r := Opened(n, f, a);
    hide Reopened, Opened, Tells, AreFlushed;
    FlushLog(s, x, a.e.stamp);
    if r.log == f.log {
    } else {
      assert r.log[|s.log|..] == f.log[|s.log|..] + [r.log[|f.log|]];
      OneMoreCounted(s, x, a.e.stamp, f.log[|s.log|..], r.log[|f.log|]);
    }
  }

  lemma OneMoreCounted(s: State, x: nat, stamp: int, ys: seq<LogEntry>, y: LogEntry)
    requires AreFlushed(s, x, stamp, ys) && !(y.Charge? && y.via.Flushed?)
    ensures AreFlushed(s, x, stamp, ys + [y])
  {
    hide WasQueued, IsFlushOf;
    forall d | IsCounted(ys, d, x) ensures IsCounted(ys + [y], d, x) {
      var z :| z in ys && IsFlushOf(z, d, x);
      assert z in ys + [y];
    }
  }

  lemma FlushLog(s: State, x: nat, stamp: int)
    ensures var f := Reopened(s, x, stamp); s.log <= f.log && AreFlushed(s, x, stamp, f.log[|s.log|..])
  {
    if x != 0 {
      ReopenedExactly(s, x, stamp);
      hide Reopened, ClosedName;
      var early := Earlier(s.deferred, x, stamp);
      var charges := ClosedCharges(s.attempts[x := Attempts(MAX_ATTEMPTS, Closed)], x, early);
      assert Reopened(s, x, stamp).log[|s.log|..] == charges;
      forall y | y in charges ensures WasQueued(s, x, stamp, y) {
        var i :| 0 <= i < |charges| && charges[i] == y;
        EarlierAre(s.deferred, x, stamp, early[i]);
        assert IsFlushOf(y, early[i], x);
      }
      forall d | d in s.deferred && IsEarlier(d, x, stamp) ensures IsCounted(charges, d, x) {
        EarlierAre(s.deferred, x, stamp, d);
        var i :| 0 <= i < |early| && early[i] == d;
        assert charges[i] in charges && IsFlushOf(charges[i], d, x);
      }
    }
  }

  lemma {:induction false} EarlierAre(q: seq<Deferred>, x: nat, stamp: int, d: Deferred)
    ensures d in Earlier(q, x, stamp) <==> d in q && IsEarlier(d, x, stamp)
  {
    if q != [] {
      EarlierAre(q[1..], x, stamp, d);
      assert q == [q[0]] + q[1..];
    }
  }

  // ----- a run in which it happens

  const First := Arrival(Event(OpenKey, 20, 10, 0, 0, 1, "sub", ""), 4, 1, 1)
  const Second := Arrival(Event(OpenKey, 20, 0, 0, 0, 2, "\\REGISTRY\\B", ""), 4, 2, 2)
  const Third := Arrival(Event(OpenKey, 10, 0, 0, 0, 3, "\\REGISTRY\\A", ""), 4, 3, 3)

  /** A key is opened relative to one not named yet, and another takes its address; then a third takes the base's. The
      address, the second key's, gets the first one's name. */
  lemma TakenBack(n: Naming)
    ensures var calls := [Traced(First), Traced(Second), Traced(Third)];
      && HasText(Run(n, Empty, calls).names, 20, UnnamedName(10, Closed) + "\\" + "sub") && Latest(calls, Second, 20)
  {
    hide UnnamedName;
    var s1, s2, s3 := FirstOpened(n);
    var calls := [Traced(First), Traced(Second), Traced(Third)];
    RunMore(n, [], Traced(First));
    RunMore(n, [Traced(First)], Traced(Second));
    RunMore(n, [Traced(First), Traced(Second)], Traced(Third));
    assert [] + [Traced(First)] == [Traced(First)];
    assert [Traced(First)] + [Traced(Second)] == [Traced(First), Traced(Second)];
    assert [Traced(First), Traced(Second)] + [Traced(Third)] == calls;
    assert IsLatest(calls, Second, 20, 1);
  }

  lemma FirstOpened(n: Naming) returns (s1: State, s2: State, s3: State)
    ensures s1 == OnEvent(n, Empty, First) && s2 == OnEvent(n, s1, Second) && s3 == OnEvent(n, s2, Third)
    ensures HasText(s3.names, 20, UnnamedName(10, Closed) + "\\" + "sub")
  {
    hide UnnamedName, IsFailure;
    SuccessIsNone();
    s1 := OnEvent(n, Empty, First);
    var d := Deferred(First, 10, TOKEN_BASE);
    assert s1.deferred == [d] && s1.attempts == map[] && s1.names == map[];
    s2 := OnEvent(n, s1, Second);
    assert s2.deferred == [d] && s2.attempts == map[];
    s3 := OnEvent(n, s2, Third);
    assert IsWaited(s2.deferred, 10) by { assert d in s2.deferred; }
    var b := FlushStart(s2, 10);
    var c := Charged(b, First, UnnamedBase(b, 10, "sub"), true, Flushed(10), TOKEN_BASE);
    assert FlushOne(b, 10, 3, d) == c && [d][1..] == [];
    assert FlushAll(b, 10, 3, [d]) == FlushAll(c, 10, 3, []) == c;
    assert Reopened(s2, 10, 3).names == c.names && 20 in c.names;
  }

  lemma SuccessIsNone()
    ensures !IsFailure(0)
  {}
}
