/** When the deferred queue drains, and when it cannot. */
module RegistryDrain {
  import opened Optional
  import opened RegistryModel
  import opened RegistryInvariant

  ghost predicate Owned(q: seq<Deferred>, t: nat) { exists d :: d in q && d.token == t }

  /** Every token waited on in q is named, or will be by a queued open. */
  ghost predicate OwnedWaits(s: State, q: seq<Deferred>) {
    forall d :: d in q && IsToken(d.waiting) ==> d.waiting in s.names || Owned(q, d.waiting)
  }

  ghost predicate NoOrphans(s: State) { OwnedWaits(s, s.deferred) }

  /** Every address waited on is named or given up on. */
  ghost predicate AddressesReady(s: State) {
    forall d :: d in s.deferred && !IsToken(d.waiting) ==> IsReady(s, d.waiting)
  }

  // ----- a token nothing will ever name

  /** Token t is unnamed and no open in q holds it. */
  ghost predicate Dead(s: State, q: seq<Deferred>, t: nat) {
    && IsToken(t) && t < s.nextToken && t !in s.names && t !in s.attempts
    && !Owned(q, t) && (forall d :: d in q ==> EventOk(d.a))
  }

  lemma {:induction false} FlushStaysDead(s: State, x: nat, stamp: int, todo: seq<Deferred>, t: nat, d: Deferred)
    requires Dead(s, s.deferred + todo, t) && !IsToken(x)
    ensures var r := FlushAll(s, x, stamp, todo);
      Dead(r, r.deferred, t) && (d in s.deferred + todo && d.waiting == t ==> d in r.deferred)
    decreases |todo|
  {
    if todo == [] {
      assert s.deferred + todo == s.deferred;
    } else {
      var s1 := FlushOne(s, x, stamp, todo[0]);
      assert todo[0] in s.deferred + todo;
      forall e | e in s1.deferred + todo[1..] ensures e in s.deferred + todo {}
      assert d in s.deferred + todo && d.waiting == t ==> d in s1.deferred + todo[1..];
      FlushStaysDead(s1, x, stamp, todo[1..], t, d);
    }
  }

  lemma ResumeKeepsDead(n: Naming, s: State, d: Deferred, t: nat)
    requires t !in s.names && IsToken(t) && EventOk(d.a) && d.token != t
    ensures var r := Resume(n, s, d); t !in r.names && r.deferred == s.deferred
  {}

  lemma {:induction false} ApplyStaysDead(n: Naming, s: State, todo: seq<Deferred>, t: nat, d: Deferred)
    requires Dead(s, s.deferred + todo, t)
    ensures var r := ApplyAll(n, s, todo);
      Dead(r, r.deferred, t) && (d in s.deferred + todo && d.waiting == t ==> d in r.deferred)
    decreases |todo|
  {
    if todo == [] {
      assert s.deferred + todo == s.deferred;
    } else {
      var s1 := ApplyOne(n, s, todo[0]);
      assert todo[0] in s.deferred + todo;
      if IsReady(s, todo[0].waiting) { ResumeKeepsDead(n, s, todo[0], t); }
      forall e | e in s1.deferred + todo[1..] ensures e in s.deferred + todo {}
      assert d in s.deferred + todo && d.waiting == t ==> d in s1.deferred + todo[1..];
      ApplyAllSame(n, s, todo);
      ApplyStaysDead(n, s1, todo[1..], t, d);
    }
  }

  lemma ApplyAllSame(n: Naming, s: State, todo: seq<Deferred>)
    requires todo != []
    ensures ApplyOne(n, s, todo[0]).nextToken == s.nextToken && ApplyOne(n, s, todo[0]).attempts == s.attempts
  {}

  ghost predicate Waits(s: State, d: Deferred, t: nat) { d in s.deferred && d.waiting == t }

  lemma ReopenedStaysDead(s: State, x: nat, stamp: int, t: nat, d: Deferred)
    requires Dead(s, s.deferred, t) && !IsToken(x)
    ensures var r := Reopened(s, x, stamp); Dead(r, r.deferred, t) && (Waits(s, d, t) ==> d in r.deferred)
  {
    if x != 0 && IsWaited(s.deferred, x) {
      var b := FlushStart(s, x);
      assert b.deferred + s.deferred == s.deferred;
      FlushStaysDead(b, x, stamp, s.deferred, t, d);
    }
  }

  lemma DeferringStaysDead(s: State, a: Arrival, waiting: nat, token: nat, t: nat, d: Deferred)
    requires Dead(s, s.deferred, t) && EventOk(a) && token != t
    ensures var r := Deferring(s, a, waiting, token); Dead(r, r.deferred, t) && (Waits(s, d, t) ==> d in r.deferred)
  {}

  lemma IssuedStaysDead(s: State, a: Arrival, t: nat, d: Deferred)
    requires Dead(s, s.deferred, t) && EventOk(a)
    ensures var r := Issued(s, a); Dead(r, r.deferred, t) && (Waits(s, d, t) ==> d in r.deferred)
  {
    var r := Issued(s, a);
    forall e | e in r.deferred ensures EventOk(e.a) && e.token != t {
      var i :| 0 <= i < |r.deferred| && r.deferred[i] == e;
      assert s.deferred[i] in s.deferred;
    }
    if i :| 0 <= i < |s.deferred| && s.deferred[i] == d {
      assert r.deferred[i] == Retargeted(s.deferred, a.e.keyObject, a.e.stamp, s.nextToken)[i];
    }
  }

  lemma OpenedStaysDead(n: Naming, s: State, a: Arrival, t: nat, d: Deferred)
    requires Dead(s, s.deferred, t) && EventOk(a) && IsOpen(a.e)
    ensures var r := Opened(n, s, a); Dead(r, r.deferred, t) && (Waits(s, d, t) ==> d in r.deferred)
  {
    if OpenName(n, s, a.e).None? && !GaveUp(s, a.e.baseObject) {
      if NeedsToken(a.e) {
        IssuedStaysDead(s, a, t, d);
        DeferringStaysDead(Issued(s, a), a, a.e.baseObject, s.nextToken, t, d);
      } else {
        DeferringStaysDead(s, a, a.e.baseObject, 0, t, d);
      }
    }
  }

  lemma OperationStaysDead(s: State, a: Arrival, t: nat, d: Deferred)
    requires Dead(s, s.deferred, t) && EventOk(a) && !IsOpen(a.e)
    ensures var r := OnOperation(s, a); Dead(r, r.deferred, t) && (Waits(s, d, t) ==> d in r.deferred)
  {
    var x := a.e.keyObject;
    if x in s.names {
    } else if x in s.pending {
      DeferringStaysDead(s, a, s.pending[x], 0, t, d);
    } else if !GaveUp(s, x) {
      DeferringStaysDead(s, a, x, 0, t, d);
    }
  }

  lemma StepStaysDead(n: Naming, s: State, c: Call, t: nat, d: Deferred)
    requires Dead(s, s.deferred, t) && OutsideTokens(c) && !c.Cleared?
    ensures var r := Step(n, s, c); Dead(r, r.deferred, t) && (Waits(s, d, t) ==> d in r.deferred)
  {
    match c
    case Traced(a) =>
      if !IsIgnored(a.e) {
        if IsOpen(a.e) {
          ReopenedStaysDead(s, a.e.keyObject, a.e.stamp, t, d);
          OpenedStaysDead(n, Reopened(s, a.e.keyObject, a.e.stamp), a, t, d);
        } else {
          OperationStaysDead(s, a, t, d);
        }
      }
    case Apply =>
      var b := s.(deferred := []);
      assert b.deferred + s.deferred == s.deferred;
      ApplyStaysDead(n, b, s.deferred, t, d);
    case _ =>
  }

  /** An operation waiting on a dead token stays queued whatever is called afterwards, short of Clear. */
  lemma {:induction false} DeadForever(n: Naming, s: State, calls: seq<Call>, t: nat, d: Deferred)
    requires Dead(s, s.deferred, t) && d in s.deferred && d.waiting == t
    requires forall c :: c in calls ==> OutsideTokens(c) && !c.Cleared?
    ensures var r := Run(n, s, calls); Dead(r, r.deferred, t) && d in r.deferred
  {
    if calls != [] {
      var k := |calls| - 1;
      DeadForever(n, s, calls[..k], t, d);
      StepStaysDead(n, Run(n, s, calls[..k]), calls[k], t, d);
    }
  }

  // ----- progress

  /** Some queued event is ready: follow the opens' tokens, which only grow along the waits. */
  lemma {:induction false} SomeReady(s: State, d: Deferred) returns (r: Deferred)
    requires Inv(s) && NoOrphans(s) && AddressesReady(s) && d in s.deferred
    ensures r in s.deferred && IsReady(s, r.waiting)
    decreases TOKEN_END - (if IsToken(d.waiting) then d.waiting else TOKEN_END)
  {
    if IsReady(s, d.waiting) {
      r := d;
    } else {
      assert IsToken(d.waiting);
      var o :| o in s.deferred && o.token == d.waiting;
      assert EntryOk(s, o);
      r := SomeReady(s, o);
    }
  }

  lemma ResumeGrows(n: Naming, s: State, d: Deferred)
    ensures var r := Resume(n, s, d);
      && s.names.Keys <= r.names.Keys && r.attempts == s.attempts && r.deferred == s.deferred
      && (IsOpen(d.a.e) && d.token != 0 ==> d.token in r.names)
  {}

  /** A pass over the queue: nothing ready is kept, nothing unready is lost, and tokens stay owned. */
  lemma {:induction false} ApplyAllProgress(n: Naming, s: State, todo: seq<Deferred>)
    requires forall d :: d in todo && d.token != 0 ==> IsOpen(d.a.e)
    requires OwnedWaits(s, s.deferred + todo)
    ensures var r := ApplyAll(n, s, todo);
      && s.names.Keys <= r.names.Keys
      && OwnedWaits(r, r.deferred)
      && |r.deferred| <= |s.deferred| + |todo|
      && ((exists d :: d in todo && IsReady(s, d.waiting)) ==> |r.deferred| < |s.deferred| + |todo|)
      && (forall d :: d in r.deferred ==> d in s.deferred || (d in todo && !IsReady(s, d.waiting)))
    decreases |todo|
  {
    if todo == [] {
      assert s.deferred + todo == s.deferred;
    } else {
      var d := todo[0];
      var s1 := ApplyOne(n, s, d);
      if IsReady(s, d.waiting) { ResumeGrows(n, s, d); }
      var q, q1 := s.deferred + todo, s1.deferred + todo[1..];
      assert d in q;
      forall e | e in q1 ensures e in q {}
      forall e | e in q1 && IsToken(e.waiting) ensures e.waiting in s1.names || Owned(q1, e.waiting) {
        if e.waiting !in s.names {
          var o :| o in q && o.token == e.waiting;
          if o != d { assert o in q1; } else if !IsReady(s, d.waiting) { assert d in q1; }
        }
      }
      ApplyAllProgress(n, s1, todo[1..]);
      if e :| e in todo && IsReady(s, e.waiting) {
        if !IsReady(s, d.waiting) { assert e in todo[1..] && IsReady(s1, e.waiting); }
      }
    }
  }

  ghost predicate TokensAreOpens(s: State) { forall d :: d in s.deferred && d.token != 0 ==> IsOpen(d.a.e) }

  lemma InvTokensAreOpens(s: State)
    requires Inv(s)
    ensures TokensAreOpens(s)
  {
    forall d | d in s.deferred && d.token != 0 ensures IsOpen(d.a.e) {
      assert EntryOk(s, d);
    }
  }

  /** A pass with every address ready removes at least one event, and leaves only waits on tokens. */
  lemma ApplyProgress(n: Naming, s: State)
    requires Inv(s) && NoOrphans(s) && AddressesReady(s) && s.deferred != []
    ensures var r := ApplyDeferred(n, s);
      Inv(r) && NoOrphans(r) && AddressesReady(r) && |r.deferred| < |s.deferred|
  {
    var d := SomeReady(s, s.deferred[0]);
    InvTokensAreOpens(s);
    assert [] + s.deferred == s.deferred;
    ApplyAllProgress(n, s.(deferred := []), s.deferred);
    assert IsReady(s.(deferred := []), d.waiting);
    ApplyDeferredKeeps(n, s);
    var r := ApplyDeferred(n, s);
    assert forall e :: e in s.deferred && !IsToken(e.waiting) ==> IsReady(s.(deferred := []), e.waiting);
  }

  ghost function Applied(n: Naming, s: State, passes: nat): State
    decreases passes
  {
    if passes == 0 then s else Applied(n, ApplyDeferred(n, s), passes - 1)
  }

  lemma {:induction false} Drains(n: Naming, s: State, passes: nat)
    requires Inv(s) && NoOrphans(s) && AddressesReady(s) && |s.deferred| <= passes
    ensures Applied(n, s, passes).deferred == []
    decreases passes
  {
    if s.deferred != [] {
      ApplyProgress(n, s);
      Drains(n, ApplyDeferred(n, s), passes - 1);
    } else if passes > 0 {
      assert ApplyDeferred(n, s).deferred == [];
      ApplyDeferredKeeps(n, s);
      Drains(n, ApplyDeferred(n, s), passes - 1);
    }
  }

  lemma {:induction false} AppliedStaysDead(n: Naming, s: State, passes: nat, t: nat, d: Deferred)
    requires Dead(s, s.deferred, t) && d in s.deferred && d.waiting == t
    ensures d in Applied(n, s, passes).deferred
    decreases passes
  {
    if passes > 0 {
      StepStaysDead(n, s, Apply, t, d);
      AppliedStaysDead(n, ApplyDeferred(n, s), passes - 1, t, d);
    }
  }

  /** An orphan waits on a dead token. */
  lemma OrphanIsDead(s: State, d: Deferred)
    requires Inv(s) && d in s.deferred && IsToken(d.waiting) && d.waiting !in s.names && !Owned(s.deferred, d.waiting)
    ensures Dead(s, s.deferred, d.waiting)
  {
    assert EntryOk(s, d);
    forall e | e in s.deferred ensures EventOk(e.a) {
      assert EntryOk(s, e);
    }
  }

  /** With every address ready, as many passes as there are queued events empty the queue exactly when no
      event waits on a token whose open is gone. */
  lemma DrainsExactly(n: Naming, s: State)
    requires Inv(s) && AddressesReady(s)
    ensures Applied(n, s, |s.deferred|).deferred == [] <==> NoOrphans(s)
  {
    if NoOrphans(s) {
      Drains(n, s, |s.deferred|);
    } else {
      var d :| d in s.deferred && IsToken(d.waiting) && d.waiting !in s.names && !Owned(s.deferred, d.waiting);
      OrphanIsDead(s, d);
      AppliedStaysDead(n, s, |s.deferred|, d.waiting, d);
    }
  }
}
