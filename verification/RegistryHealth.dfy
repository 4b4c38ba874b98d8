/** Which calls can leave an operation waiting for ever, and how long the others wait. */
module RegistryHealth {
  import opened Optional
  import opened RegistryModel
  import opened RegistryInvariant
  import opened RegistryDrain
  import opened RegistryAttribution

  /** Tokens waited on are named or owned, and so are the tokens operations to come would wait on. */
  ghost predicate Healthy(s: State) { NoOrphans(s) && PendingOwned(s, s.deferred) }

  ghost predicate PendingOwned(s: State, q: seq<Deferred>) {
    forall k :: k in s.pending ==> Owned(q, s.pending[k])
  }

  /** Open o, counted by an open of address x at stamp, leaves something waiting on its token: an operation
      queued already, or the ones still to come on its key object. */
  ghost predicate IsStranding(s: State, o: Deferred, x: nat, stamp: int) {
    && IsEarlier(o, x, stamp) && o.token != 0
    && (IsWaited(s.deferred, o.token)
        || (o.a.e.keyObject != x && o.a.e.keyObject in s.pending && s.pending[o.a.e.keyObject] == o.token))
  }

  /** The calls that strand operations: an open of the address a waiting open waits on, and a prune of a
      token's name while it is waited on. */
  ghost predicate Strands(s: State, c: Call) {
    match c
    case Traced(a) =>
      IsOpen(a.e) && !IsIgnored(a.e) && a.e.keyObject != 0
      && exists o :: o in s.deferred && IsStranding(s, o, a.e.keyObject, a.e.stamp)
    case Pruned(tick) =>
      exists d :: d in s.deferred && IsToken(d.waiting) && d.waiting in s.names
        && Elapsed(tick, s.names[d.waiting].tick) > NAME_IDLE
    case _ => false
  }

  // ----- flushing

  lemma {:induction false} FlushTokenNames(s: State, x: nat, stamp: int, todo: seq<Deferred>, t: nat)
    requires IsToken(t) && forall d :: d in todo ==> EventOk(d.a)
    ensures t in FlushAll(s, x, stamp, todo).names <==> t in s.names
    decreases |todo|
  {
    if todo != [] {
      assert EventOk(todo[0].a);
      FlushTokenNames(FlushOne(s, x, stamp, todo[0]), x, stamp, todo[1..], t);
    }
  }

  lemma {:induction false} SameOwner(q: seq<Deferred>, o: Deferred, e: Deferred)
    requires o in q && e in q && o.token == e.token && Owners(q, o.token) <= 1
    ensures o == e
  {
    if q != [] {
      OwnersPositive(q[1..], o.token);
      if q[0] != o && q[0] != e { SameOwner(q[1..], o, e); }
      assert q == [q[0]] + q[1..];
    }
  }

  lemma ReopenedNames(s: State, x: nat, stamp: int, t: nat)
    requires Inv(s) && IsToken(t)
    ensures t in Reopened(s, x, stamp).names <==> t in s.names
  {
    forall d | d in s.deferred ensures EventOk(d.a) {
      assert EntryOk(s, d);
    }
    FlushTokenNames(FlushStart(s, x), x, stamp, s.deferred, t);
  }

  lemma ReopenedStaysHealthy(s: State, x: nat, stamp: int)
    requires Inv(s) && Healthy(s) && x != 0
    requires forall o :: o in s.deferred ==> !IsStranding(s, o, x, stamp)
    ensures Healthy(Reopened(s, x, stamp))
  {
    var r := Reopened(s, x, stamp);
    ReopenedExactly(s, x, stamp);
    forall d ensures d in r.deferred <==> d in s.deferred && !IsEarlier(d, x, stamp) {
      OthersAre(s.deferred, x, stamp, d);
    }
    forall d | d in r.deferred && IsToken(d.waiting) ensures d.waiting in r.names || Owned(r.deferred, d.waiting) {
      ReopenedNames(s, x, stamp, d.waiting);
      if d.waiting !in s.names {
        var o :| o in s.deferred && o.token == d.waiting;
        assert !IsStranding(s, o, x, stamp);
      }
    }
    forall k | k in r.pending ensures Owned(r.deferred, r.pending[k]) {
      var o :| o in s.deferred && o.token == s.pending[k];
      assert EntryOk(s, o) && !IsStranding(s, o, x, stamp);
    }
  }

  /** A stranded token is dead once its open is flushed, and what waited or would wait on it still does. */
  lemma StrandedIsDead(s: State, o: Deferred, x: nat, stamp: int)
    requires Inv(s) && x != 0 && !IsToken(x) && o in s.deferred && IsStranding(s, o, x, stamp)
    ensures var r := Reopened(s, x, stamp);
      && Dead(r, r.deferred, o.token)
      && (IsWaited(r.deferred, o.token)
          || (o.a.e.keyObject != x && o.a.e.keyObject in r.pending && r.pending[o.a.e.keyObject] == o.token))
  {
    var r := Reopened(s, x, stamp);
    ReopenedExactly(s, x, stamp);
    ReopenedKeeps(s, x, stamp);
    assert EntryOk(s, o);
    ReopenedNames(s, x, stamp, o.token);
    forall e | e in r.deferred ensures e.token != o.token && EventOk(e.a) {
      OthersAre(s.deferred, x, stamp, e);
      assert EntryOk(r, e);
      if e.token == o.token {
        assert Owners(s.deferred, o.token) + LogOwners(s.log, o.token) <= 1;
        SameOwner(s.deferred, o, e);
      }
    }
    if d :| d in s.deferred && d.waiting == o.token { OthersAre(s.deferred, x, stamp, d); }
  }

  // ----- the rest of an open, and an operation

  lemma DeferringStaysHealthy(s: State, a: Arrival, waiting: nat, token: nat)
    requires |s.deferred| <= MAX_DEFERRED && EventOk(a)
    requires forall d :: d in s.deferred && IsToken(d.waiting) ==>
      d.waiting in s.names || Owned(s.deferred, d.waiting) || d.waiting == token
    requires forall k :: k in s.pending ==>
      Owned(s.deferred, s.pending[k]) || (token != 0 && s.pending[k] == token && k == a.e.keyObject)
    requires IsToken(waiting) ==> Owned(s.deferred, waiting)
    requires token != 0 ==> IsOpen(a.e) && IsToken(token) && !Owned(s.deferred, token)
    ensures Healthy(Deferring(s, a, waiting, token))
  {
    var r := Deferring(s, a, waiting, token);
    if |s.deferred| < MAX_DEFERRED {
      var d := Deferred(a, waiting, token);
      assert r.deferred[|s.deferred|] == d;
      assert forall e :: e in s.deferred ==> e in r.deferred;
    }
  }

  lemma RetargetedOwned(q: seq<Deferred>, x: nat, stamp: int, token: nat, t: nat)
    ensures Owned(Retargeted(q, x, stamp, token), t) <==> Owned(q, t)
  {
    RetargetedOwners(q, x, stamp, token, t);
    OwnersPositive(q, t);
    OwnersPositive(Retargeted(q, x, stamp, token), t);
  }

  /** Moving an address's waiting events to a new token leaves that token alone without an owner. */
  lemma IssuedIsHealthyButForToken(s: State, a: Arrival)
    requires Inv(s) && Healthy(s)
    ensures var r := Issued(s, a);
      && (forall d :: d in r.deferred && IsToken(d.waiting) ==>
            d.waiting in s.names || Owned(r.deferred, d.waiting) || d.waiting == s.nextToken)
      && (forall k :: k in r.pending ==>
            Owned(r.deferred, r.pending[k]) || (r.pending[k] == s.nextToken && k == a.e.keyObject))
      && !Owned(r.deferred, s.nextToken)
  {
    var r := Issued(s, a);
    forall t ensures Owned(r.deferred, t) <==> Owned(s.deferred, t) {
      RetargetedOwned(s.deferred, a.e.keyObject, a.e.stamp, s.nextToken, t);
    }
    forall d | d in r.deferred && IsToken(d.waiting)
      ensures d.waiting in s.names || Owned(r.deferred, d.waiting) || d.waiting == s.nextToken
    {
      var i :| 0 <= i < |r.deferred| && r.deferred[i] == d;
      assert s.deferred[i] in s.deferred;
    }
    forall d | d in s.deferred ensures d.token != s.nextToken {
      assert EntryOk(s, d);
    }
  }

  lemma OpenedStaysHealthy(n: Naming, s: State, a: Arrival)
    requires Inv(s) && Healthy(s) && EventOk(a) && IsOpen(a.e) && Opened(n, s, a).nextToken <= TOKEN_END
    ensures Healthy(Opened(n, s, a))
  {
    if OpenName(n, s, a.e).None? && !GaveUp(s, a.e.baseObject) {
      if NeedsToken(a.e) {
        IssuedIsHealthyButForToken(s, a);
        DeferringStaysHealthy(Issued(s, a), a, a.e.baseObject, s.nextToken);
      } else {
        DeferringStaysHealthy(s, a, a.e.baseObject, 0);
      }
    }
  }

  lemma OperationStaysHealthy(s: State, a: Arrival)
    requires Inv(s) && Healthy(s) && EventOk(a) && !IsOpen(a.e)
    ensures Healthy(OnOperation(s, a))
  {
    var x := a.e.keyObject;
    if x in s.names {
    } else if x in s.pending {
      DeferringStaysHealthy(s, a, s.pending[x], 0);
    } else if !GaveUp(s, x) {
      DeferringStaysHealthy(s, a, x, 0);
    }
  }

  /** A stranded address's pending token outlives the open that stranded it. */
  lemma OpenedKeepsPending(n: Naming, s: State, a: Arrival, k: nat)
    requires k in s.pending && Dead(s, s.deferred, s.pending[k]) && k != a.e.keyObject && EventOk(a) && IsOpen(a.e)
    ensures var r := Opened(n, s, a); k in r.pending && r.pending[k] == s.pending[k]
  {}

  // ----- a pass

  lemma ResumeOwnsPending(n: Naming, s: State, q: seq<Deferred>, d: Deferred)
    requires IssuedOk(s) && PendingOk(s) && EntryOk(s, d)
    requires forall k :: k in s.pending ==> Owned(q, s.pending[k]) || s.pending[k] == d.token
    ensures PendingOwned(Resume(n, s, d), q)
  {}

  lemma {:induction false} ApplyAllOwnsPending(n: Naming, s: State, todo: seq<Deferred>)
    requires InvWith(s, s.deferred + todo, 0)
    requires PendingOwned(s, s.deferred + todo)
    ensures PendingOwned(ApplyAll(n, s, todo), ApplyAll(n, s, todo).deferred)
    decreases |todo|
  {
    if todo == [] {
      assert s.deferred + todo == s.deferred;
    } else {
      var d := todo[0];
      var s1 := ApplyOne(n, s, d);
      assert s.deferred + todo == s.deferred + [d] + todo[1..];
      ApplyOneKeeps(n, s, d, todo[1..]);
      var q1 := s1.deferred + todo[1..];
      if IsReady(s, d.waiting) {
        TakeOut(s, s.deferred, d, todo[1..]);
        forall k | k in s.pending ensures Owned(q1, s.pending[k]) || s.pending[k] == d.token {
          var o :| o in s.deferred + [d] + todo[1..] && o.token == s.pending[k];
          if o != d { assert o in q1; }
        }
        ResumeOwnsPending(n, s, q1, d);
      }
      ApplyAllOwnsPending(n, s1, todo[1..]);
    }
  }

  lemma ApplyStaysHealthy(n: Naming, s: State)
    requires Inv(s) && Healthy(s)
    ensures Healthy(ApplyDeferred(n, s))
  {
    var b := s.(deferred := []);
    InvTokensAreOpens(s);
    assert b.deferred + s.deferred == s.deferred;
    ApplyAllProgress(n, b, s.deferred);
    Frame(s, b, s.deferred);
    ApplyAllOwnsPending(n, b, s.deferred);
  }

  // ----- exactly which calls strand

  lemma TracedStrands(n: Naming, s: State, a: Arrival)
    requires Inv(s) && Healthy(s) && EventOk(a) && IsOpen(a.e) && !IsIgnored(a.e)
    requires OnOpen(n, s, a).nextToken <= TOKEN_END
    ensures Healthy(OnOpen(n, s, a)) <==> !Strands(s, Traced(a))
  {
    var x, stamp := a.e.keyObject, a.e.stamp;
    var r := Reopened(s, x, stamp);
    ReopenedKeeps(s, x, stamp);
    if Strands(s, Traced(a)) {
      var o :| o in s.deferred && IsStranding(s, o, x, stamp);
      StrandedIsDead(s, o, x, stamp);
      var d := if IsWaited(r.deferred, o.token) then (var d :| d in r.deferred && d.waiting == o.token; d) else o;
      OpenedStaysDead(n, r, a, o.token, d);
      if !IsWaited(r.deferred, o.token) { OpenedKeepsPending(n, r, a, o.a.e.keyObject); }
    } else {
      if x != 0 { ReopenedStaysHealthy(s, x, stamp); }
      OpenedStaysHealthy(n, r, a);
    }
  }

  /** A call leaves the table healthy exactly when it does not strand anything. */
  lemma StrandsExactly(n: Naming, s: State, c: Call)
    requires Inv(s) && Healthy(s) && OutsideTokens(c) && Step(n, s, c).nextToken <= TOKEN_END
    ensures Healthy(Step(n, s, c)) <==> !Strands(s, c)
  {
    match c
    case Traced(a) =>
      if !IsIgnored(a.e) {
        if IsOpen(a.e) { TracedStrands(n, s, a); } else { OperationStaysHealthy(s, a); }
      }
    case Apply => ApplyStaysHealthy(n, s);
    case Pruned(tick) => PruneStrands(n, s, tick);
    case _ =>
  }

  lemma PruneStrands(n: Naming, s: State, tick: nat)
    requires Inv(s) && Healthy(s)
    ensures Healthy(Prune(n, s, tick)) <==> !Strands(s, Pruned(tick))
  {
    var r := Prune(n, s, tick);
    if Strands(s, Pruned(tick)) {
      var d :| d in s.deferred && IsToken(d.waiting) && d.waiting in s.names && d.waiting !in r.names;
      forall o | o in s.deferred ensures o.token != d.waiting {
        assert EntryOk(s, o);
      }
    }
  }
}
