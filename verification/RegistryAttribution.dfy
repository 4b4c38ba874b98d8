/** Who an event is counted for when kernel addresses are reused. */
module RegistryAttribution {
  import opened RegistryModel
  import opened RegistryInvariant

  /** The queued events an open of address x at stamp counts, in order, and the ones it keeps. */
  ghost function Earlier(q: seq<Deferred>, x: nat, stamp: int): seq<Deferred> {
    if q == [] then []
    else if IsEarlier(q[0], x, stamp) then [q[0]] + Earlier(q[1..], x, stamp) else Earlier(q[1..], x, stamp)
  }

  ghost function Others(q: seq<Deferred>, x: nat, stamp: int): seq<Deferred> {
    if q == [] then []
    else if IsEarlier(q[0], x, stamp) then Others(q[1..], x, stamp) else [q[0]] + Others(q[1..], x, stamp)
  }

  /** The name of a closed key's event: none, or relative to the closed key for an open. */
  ghost function ClosedName(x: nat, e: Event): string {
    if IsOpen(e) then UnnamedName(x, Closed) + "\\" + e.name else ""
  }

  /** The charges that count events as the closed key x's, in order. */
  ghost function ClosedCharges(attempts: map<nat, Attempts>, x: nat, q: seq<Deferred>): seq<LogEntry> {
    seq(|q|, i requires 0 <= i < |q| =>
      var a := q[i].a;
      var why := if a.e.keyObject in attempts then attempts[a.e.keyObject].why else NotTried;
      Charge(a, ClosedName(x, a.e), why, Flushed(x), q[i].token))
  }

  lemma {:induction false} FlushAllExactly(s: State, x: nat, stamp: int, todo: seq<Deferred>)
    requires x in s.attempts && s.attempts[x].why == Closed
    ensures var r := FlushAll(s, x, stamp, todo);
      && r.deferred == s.deferred + Others(todo, x, stamp)
      && r.log == s.log + ClosedCharges(s.attempts, x, Earlier(todo, x, stamp))
    decreases |todo|
  {
    hide FlushOne, ClosedCharges;
    if todo == [] {
      NoCharges(s.attempts, x);
    } else {
      var s1 := FlushOne(s, x, stamp, todo[0]);
      FlushOneExactly(s, x, stamp, todo[0], Earlier(todo[1..], x, stamp), Others(todo[1..], x, stamp));
      FlushAllExactly(s1, x, stamp, todo[1..]);
    }
  }

  lemma NoCharges(attempts: map<nat, Attempts>, x: nat)
    ensures ClosedCharges(attempts, x, []) == []
  {}

  lemma FlushOneExactly(s: State, x: nat, stamp: int, d: Deferred, early: seq<Deferred>, others: seq<Deferred>)
    requires x in s.attempts && s.attempts[x].why == Closed
    ensures var r := FlushOne(s, x, stamp, d);
      && r.attempts == s.attempts
      && (if IsEarlier(d, x, stamp)
          then r.deferred == s.deferred
            && r.log + ClosedCharges(s.attempts, x, early) == s.log + ClosedCharges(s.attempts, x, [d] + early)
          else r.log == s.log && r.deferred + others == s.deferred + ([d] + others))
  {
    hide UnnamedName;
    assert ClosedCharges(s.attempts, x, [d] + early)
        == ClosedCharges(s.attempts, x, [d]) + ClosedCharges(s.attempts, x, early);
  }

  lemma {:induction false} NoneEarlier(q: seq<Deferred>, x: nat, stamp: int)
    requires !IsWaited(q, x)
    ensures Earlier(q, x, stamp) == [] && Others(q, x, stamp) == q
  {
    if q != [] {
      assert q[0] in q;
      assert !IsWaited(q[1..], x);
      NoneEarlier(q[1..], x, stamp);
    }
  }

  /** An open of address x at stamp counts exactly what waited on x from before, as a closed key's and in
      queue order, and keeps the rest in order. */
  lemma ReopenedExactly(s: State, x: nat, stamp: int)
    requires x != 0
    ensures var r := Reopened(s, x, stamp);
      && r.deferred == Others(s.deferred, x, stamp)
      && r.log == s.log + ClosedCharges(s.attempts[x := Attempts(MAX_ATTEMPTS, Closed)], x,
                                        Earlier(s.deferred, x, stamp))
  {
    if IsWaited(s.deferred, x) {
      FlushAllExactly(FlushStart(s, x), x, stamp, s.deferred);
    } else {
      NoneEarlier(s.deferred, x, stamp);
    }
  }

  /** What the rest of an open's processing does to the queue: nothing if the open is named or its base given up on;
      else the open joins the queue if there is room, and one that waits with a token takes with it what waits on its
      address, in place. */
  lemma OpenedExactly(n: Naming, s: State, a: Arrival)
    ensures var r := Opened(n, s, a);
      var room := |s.deferred| < MAX_DEFERRED;
      if OpenName(n, s, a.e).Some? || GaveUp(s, a.e.baseObject) then
        r.deferred == s.deferred && r.nextToken == s.nextToken
      else if NeedsToken(a.e) then
        && r.deferred == Retargeted(s.deferred, a.e.keyObject, a.e.stamp, s.nextToken)
                         + (if room then [Deferred(a, a.e.baseObject, s.nextToken)] else [])
        && r.nextToken == s.nextToken + 1
      else
        r.deferred == s.deferred + (if room then [Deferred(a, a.e.baseObject, 0)] else []) && r.nextToken == s.nextToken
  {
    hide UnnamedBase, OpenName, WhyUnnamed, Retargeted, IsWaited;
    DeferringQueue(s, a, a.e.baseObject, 0);
    DeferringQueue(Issued(s, a), a, a.e.baseObject, s.nextToken);
  }

  lemma DeferringQueue(s: State, a: Arrival, waiting: nat, token: nat)
    ensures var r := Deferring(s, a, waiting, token);
      && r.deferred == s.deferred + (if |s.deferred| < MAX_DEFERRED then [Deferred(a, waiting, token)] else [])
      && r.nextToken == s.nextToken
  {
    hide UnnamedBase, WhyUnnamed, IsWaited;
  }

  /** Once an open of address x has moved what waits on it to a token, nothing waits on the address. */
  lemma AllMove(s: State, x: nat, stamp: int, token: nat)
    requires x != 0 && token != x
    ensures !IsWaited(Retargeted(Reopened(s, x, stamp).deferred, x, stamp, token), x)
  {
    ReopenedExactly(s, x, stamp);
    var q := Reopened(s, x, stamp).deferred;
    var moved := Retargeted(q, x, stamp, token);
    forall d | d in moved ensures d.waiting != x {
      var i :| 0 <= i < |moved| && moved[i] == d;
      OthersAre(s.deferred, x, stamp, q[i]);
    }
  }

  lemma {:induction false} OthersAre(q: seq<Deferred>, x: nat, stamp: int, d: Deferred)
    ensures d in Others(q, x, stamp) <==> d in q && !IsEarlier(d, x, stamp)
  {
    if q != [] {
      OthersAre(q[1..], x, stamp, d);
      assert q == [q[0]] + q[1..];
    }
  }

  /** An operation counted after waiting on a token went under exactly the name the token's open was counted
      under: some earlier charge of that token has the name, every charge of that token does, and the open's key
      object is the operation's own, whatever took the address since. */
  lemma TokenAttribution(n: Naming, calls: seq<Call>, j: nat)
    requires forall c :: c in calls ==> OutsideTokens(c)
    requires Run(n, Empty, calls).nextToken <= TOKEN_END
    requires var log := Run(n, Empty, calls).log;
      j < |log| && log[j].Charge? && log[j].via.Resumed? && IsToken(log[j].via.on) && !IsOpen(log[j].a.e)
    ensures var log := Run(n, Empty, calls).log;
      var t := log[j].via.on;
      && (exists i :: 0 <= i < j && log[i].Charge? && log[i].token == t && log[i].name == log[j].name
                      && IsOpen(log[i].a.e) && log[i].a.e.keyObject == log[j].a.e.keyObject)
      && (forall i :: 0 <= i < |log| && log[i].Charge? && log[i].token == t ==> log[i].name == log[j].name)
  {
    RunKeeps(n, calls);
    var s := Run(n, Empty, calls);
    var t := s.log[j].via.on;
    assert Attributed(s, j);
    var i :| 0 <= i < j && s.log[..j][i].Charge? && s.log[..j][i].token == t && s.log[..j][i].name == s.log[j].name;
    assert Attributed(s, i);
    assert Owners(s.deferred, t) + LogOwners(s.log, t) <= 1;
    forall k | 0 <= k < |s.log| && s.log[k].Charge? && s.log[k].token == t ensures k == i {
      if k < i { TwoOwners(s.log, t, k, i); } else if i < k { TwoOwners(s.log, t, i, k); }
    }
  }

  lemma {:induction false} OneOwner(log: seq<LogEntry>, t: nat, i: nat)
    requires i < |log| && log[i].Charge? && log[i].token == t
    ensures LogOwners(log, t) >= 1
  {
    if i < |log| - 1 { OneOwner(log[..|log| - 1], t, i); }
  }

  lemma {:induction false} TwoOwners(log: seq<LogEntry>, t: nat, i: nat, k: nat)
    requires i < k < |log| && log[i].Charge? && log[i].token == t && log[k].Charge? && log[k].token == t
    ensures LogOwners(log, t) >= 2
  {
    if k < |log| - 1 { TwoOwners(log[..|log| - 1], t, i, k); } else { OneOwner(log[..|log| - 1], t, i); }
  }
}
