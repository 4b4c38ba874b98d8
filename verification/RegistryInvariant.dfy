/** What every reachable RegistryIoTable state keeps. */
module RegistryInvariant {
  import opened Optional
  import opened RegistryModel

  // ----- counting in the queue and the log

  /** How many queued events hold token t. */
  ghost function Owners(q: seq<Deferred>, t: nat): nat {
    if q == [] then 0 else (if q[0].token == t then 1 else 0) + Owners(q[1..], t)
  }

  /** How many counted events held token t. */
  ghost function LogOwners(log: seq<LogEntry>, t: nat): nat {
    if log == [] then 0
    else LogOwners(log[..|log| - 1], t) + (if log[|log| - 1].Charge? && log[|log| - 1].token == t then 1 else 0)
  }

  /** The open that held token t was counted under name. */
  ghost predicate ChargedUnder(log: seq<LogEntry>, t: nat, name: string) {
    exists i :: 0 <= i < |log| && log[i].Charge? && log[i].token == t && log[i].name == name
  }

  lemma {:induction false} WaitersConcat(a: seq<Deferred>, b: seq<Deferred>, x: nat)
    ensures Waiters(a + b, x) == Waiters(a, x) + Waiters(b, x)
  {
    if a == [] {
      assert a + b == b;
    } else {
      assert (a + b)[1..] == a[1..] + b;
      WaitersConcat(a[1..], b, x);
    }
  }

  lemma {:induction false} OwnersConcat(a: seq<Deferred>, b: seq<Deferred>, t: nat)
    ensures Owners(a + b, t) == Owners(a, t) + Owners(b, t)
  {
    if a == [] {
      assert a + b == b;
    } else {
      assert (a + b)[1..] == a[1..] + b;
      OwnersConcat(a[1..], b, t);
    }
  }

  lemma {:induction false} WaitersPositive(q: seq<Deferred>, x: nat)
    ensures Waiters(q, x) > 0 <==> IsWaited(q, x)
  {
    if q != [] {
      WaitersPositive(q[1..], x);
      assert q == [q[0]] + q[1..];
    }
  }

  lemma {:induction false} OwnersPositive(q: seq<Deferred>, t: nat)
    ensures Owners(q, t) > 0 <==> exists d :: d in q && d.token == t
  {
    if q != [] {
      OwnersPositive(q[1..], t);
      assert q == [q[0]] + q[1..];
    }
  }

  lemma LogOwnersPush(log: seq<LogEntry>, x: LogEntry, t: nat)
    ensures LogOwners(log + [x], t) == LogOwners(log, t) + (if x.Charge? && x.token == t then 1 else 0)
  {
    assert (log + [x])[..|log|] == log;
  }

  lemma {:induction false} RetargetedOwners(q: seq<Deferred>, x: nat, stamp: int, token: nat, t: nat)
    ensures Owners(Retargeted(q, x, stamp, token), t) == Owners(q, t)
  {
    if q != [] {
      RetargetedOwners(q[1..], x, stamp, token, t);
      assert Retargeted(q, x, stamp, token)[1..] == Retargeted(q[1..], x, stamp, token);
    }
  }

  // ----- the invariant

  ghost predicate EventOk(a: Arrival) { !IsToken(a.e.keyObject) && !IsToken(a.e.baseObject) }

  /** An entry waits on its own subject's address, or on the token of that address's pending open; an open
      with a token of its own only ever waits on a later one. */
  ghost predicate EntryOk(s: State, d: Deferred) {
    && EventOk(d.a)
    && (d.token != 0 ==> d.token in s.issued && s.issued[d.token] == d.a && d.token !in s.names)
    && (if IsToken(d.waiting)
        then d.waiting in s.issued && s.issued[d.waiting].e.keyObject == Subject(d.a.e) && d.token < d.waiting
        else d.waiting == Subject(d.a.e) && d.waiting != 0)
  }

  ghost predicate IssuedOk(s: State) {
    && TOKEN_BASE <= s.nextToken <= TOKEN_END
    && (forall t :: t in s.issued <==> TOKEN_BASE <= t < s.nextToken)
    && (forall t :: t in s.issued ==> EventOk(s.issued[t]) && IsOpen(s.issued[t].e) && NeedsToken(s.issued[t].e))
  }

  /** A token belongs to at most one open, queued or counted; x is one in between. */
  ghost predicate TokensOk(s: State, q: seq<Deferred>, x: nat) {
    forall t :: t != 0 ==>
      Owners(q, t) + LogOwners(s.log, t) + (if t == x then 1 else 0) <= (if t in s.issued then 1 else 0)
  }

  ghost predicate NamesOk(s: State) {
    forall t :: t in s.names && IsToken(t) ==> t in s.issued && ChargedUnder(s.log, t, s.names[t].text)
  }

  ghost predicate PendingOk(s: State) {
    forall k :: k in s.pending ==>
      s.pending[k] in s.issued && s.pending[k] !in s.names && s.issued[s.pending[k]].e.keyObject == k
  }

  ghost predicate AddressesOk(s: State) {
    && (forall x :: x in s.attempts ==> !IsToken(x))
    && (forall x :: x in s.unnamed ==> !IsToken(x))
  }

  /** A token in the log is its open's; and a counted operation that had waited on a token went under the
      name its own key's open had been counted under before. */
  ghost predicate Attributed(s: State, j: nat)
    requires j < |s.log|
  {
    && OwnToken(s, s.log[j])
    && (s.log[j].Charge? && s.log[j].via.Resumed? && IsToken(s.log[j].via.on) && !IsOpen(s.log[j].a.e) ==>
      && ChargedUnder(s.log[..j], s.log[j].via.on, s.log[j].name)
      && s.log[j].via.on in s.issued
      && s.issued[s.log[j].via.on].e.keyObject == s.log[j].a.e.keyObject)
  }

  ghost predicate OwnToken(s: State, x: LogEntry) {
    x.Charge? && x.token != 0 ==> x.token in s.issued && s.issued[x.token] == x.a
  }

  ghost predicate LogOk(s: State) { forall j :: 0 <= j < |s.log| ==> Attributed(s, j) }

  /** No lost wake-up: the resolver has, or will be given, every address waited on. */
  ghost predicate WakesOk(s: State, q: seq<Deferred>) {
    forall d :: d in q && !IsToken(d.waiting) ==> d.waiting in s.unnamed || d.waiting in s.handed
  }

  /** The invariant with queue q in place of the state's, and an open holding x neither queued nor counted. */
  ghost predicate InvWith(s: State, q: seq<Deferred>, x: nat) {
    && IssuedOk(s) && TokensOk(s, q, x) && NamesOk(s) && PendingOk(s) && AddressesOk(s) && LogOk(s)
    && WakesOk(s, q)
    && (forall d :: d in q ==> EntryOk(s, d))
  }

  ghost predicate Inv(s: State) { InvWith(s, s.deferred, 0) && |s.deferred| <= MAX_DEFERRED }

  // ----- the steps keep it

  lemma ChargedUnderLonger(log: seq<LogEntry>, x: LogEntry, t: nat, name: string)
    requires ChargedUnder(log, t, name)
    ensures ChargedUnder(log + [x], t, name)
  {
    var i :| 0 <= i < |log| && log[i].Charge? && log[i].token == t && log[i].name == name;
    assert (log + [x])[i] == log[i];
  }

  /** The log and what depends on it after one more charge. */
  lemma LogGrows(s: State, x: LogEntry)
    requires NamesOk(s) && LogOk(s) && OwnToken(s, x)
    requires x.Charge? && x.via.Resumed? && IsToken(x.via.on) && !IsOpen(x.a.e) ==>
      ChargedUnder(s.log, x.via.on, x.name) && x.via.on in s.issued
      && s.issued[x.via.on].e.keyObject == x.a.e.keyObject
    ensures NamesOk(s.(log := s.log + [x])) && LogOk(s.(log := s.log + [x]))
  {
    var s' := s.(log := s.log + [x]);
    forall t | t in s.names && IsToken(t) ensures ChargedUnder(s'.log, t, s.names[t].text) {
      ChargedUnderLonger(s.log, x, t, s.names[t].text);
    }
    forall j | 0 <= j < |s'.log| ensures Attributed(s', j) {
      if j < |s.log| {
        assert Attributed(s, j);
        assert s'.log[..j] == s.log[..j];
      } else {
        assert s'.log[..j] == s.log;
      }
    }
  }

  lemma ChargeKeeps(s: State, q: seq<Deferred>, a: Arrival, name: string, nameObject: bool, via: Via, token: nat)
    requires InvWith(s, q, token) && EventOk(a)
    requires token != 0 ==> token in s.issued && s.issued[token] == a
    requires via.Resumed? && IsToken(via.on) && !IsOpen(a.e) ==>
      ChargedUnder(s.log, via.on, name) && via.on in s.issued && s.issued[via.on].e.keyObject == a.e.keyObject
    ensures InvWith(Charged(s, a, name, nameObject, via, token), q, 0)
  {
    var x := Charge(a, name, WhyUnnamed(s, a.e.keyObject), via, token);
    LogGrows(s, x);
    forall t | t != 0 ensures LogOwners(s.log + [x], t) == LogOwners(s.log, t) + (if t == token then 1 else 0) {
      LogOwnersPush(s.log, x, t);
    }
    var s' := Charged(s, a, name, nameObject, via, token);
    forall j | 0 <= j < |s'.log| ensures Attributed(s', j) {
      assert Attributed(s.(log := s.log + [x]), j);
    }
    forall d | d in q ensures EntryOk(s', d) {
      assert EntryOk(s, d);
    }
  }

  lemma NameTokenKeeps(s: State, q: seq<Deferred>, token: nat, name: string, tick: nat)
    requires InvWith(s, q, 0)
    requires token in s.issued && ChargedUnder(s.log, token, name) && LogOwners(s.log, token) == 1
    ensures InvWith(TokenNamed(s, token, s.issued[token].e.keyObject, name, tick), q, 0)
  {
    var s' := TokenNamed(s, token, s.issued[token].e.keyObject, name, tick);
    OwnersPositive(q, token);
    assert Owners(q, token) == 0;
    forall d | d in q ensures EntryOk(s', d) {
      assert EntryOk(s, d);
    }
    forall j | 0 <= j < |s'.log| ensures Attributed(s', j) {
      assert Attributed(s, j);
    }
  }

  /** The token of a charge just made can be named after it. */
  lemma JustCharged(s: State, q: seq<Deferred>, x: LogEntry)
    requires x.Charge? && TokensOk(s, q, x.token) && x.token != 0
    ensures ChargedUnder(s.log + [x], x.token, x.name)
    ensures LogOwners(s.log + [x], x.token) == 1
  {
    LogOwnersPush(s.log, x, x.token);
    assert (s.log + [x])[|s.log|] == x;
    assert Owners(q, x.token) >= 0;
  }

  /** Taking d out of the middle of the queue leaves its token in between. */
  lemma TakeOut(s: State, kept: seq<Deferred>, d: Deferred, rest: seq<Deferred>)
    requires InvWith(s, kept + [d] + rest, 0)
    ensures InvWith(s, kept + rest, d.token) && EntryOk(s, d)
  {
    var q, q' := kept + [d] + rest, kept + rest;
    forall t ensures Owners(q, t) == Owners(q', t) + (if t == d.token then 1 else 0) {
      OwnersConcat(kept + [d], rest, t);
      OwnersConcat(kept, [d], t);
      OwnersConcat(kept, rest, t);
    }
    assert q[|kept|] == d;
    forall e | e in q' ensures e in q {}
  }

  lemma FlushOneKeeps(s: State, x: nat, stamp: int, d: Deferred, rest: seq<Deferred>)
    requires InvWith(s, s.deferred + [d] + rest, 0)
    ensures var s' := FlushOne(s, x, stamp, d);
      InvWith(s', s'.deferred + rest, 0) && |s'.deferred| <= |s.deferred| + 1
  {
    if IsEarlier(d, x, stamp) {
      TakeOut(s, s.deferred, d, rest);
      var name := if IsOpen(d.a.e) then UnnamedBase(s, x, d.a.e.name) else "";
      ChargeKeeps(s, s.deferred + rest, d.a, name, true, Flushed(x), d.token);
    } else {
      Frame(s, s.(deferred := s.deferred + [d]), s.deferred + [d] + rest);
    }
  }

  /** The invariant does not read the state's own queue, only the one it is given. */
  lemma Frame(s: State, s': State, q: seq<Deferred>)
    requires InvWith(s, q, 0)
    requires s' == s.(deferred := s'.deferred, attempts := s'.attempts, pending := s'.pending,
                      unnamed := s'.unnamed, handed := s'.handed)
    requires forall x :: x in s'.attempts ==> !IsToken(x)
    requires forall k :: k in s'.pending ==> k in s.pending && s'.pending[k] == s.pending[k]
    requires forall x :: x in s'.unnamed ==> !IsToken(x)
    requires forall x :: x in s.unnamed || x in s.handed ==> x in s'.unnamed || x in s'.handed
    ensures InvWith(s', q, 0)
  {
    forall d | d in q ensures EntryOk(s', d) {
      assert EntryOk(s, d);
    }
    forall j | 0 <= j < |s'.log| ensures Attributed(s', j) {
      assert Attributed(s, j);
    }
  }

  lemma {:induction false} FlushAllKeeps(s: State, x: nat, stamp: int, todo: seq<Deferred>)
    requires InvWith(s, s.deferred + todo, 0)
    ensures var s' := FlushAll(s, x, stamp, todo);
      && InvWith(s', s'.deferred, 0) && |s'.deferred| <= |s.deferred| + |todo|
      && s'.nextToken == s.nextToken && s'.issued == s.issued
    decreases |todo|
  {
    hide FlushOne, InvWith;
    if todo == [] {
      assert s.deferred + todo == s.deferred;
    } else {
      assert s.deferred + todo == s.deferred + [todo[0]] + todo[1..];
      FlushOneKeeps(s, x, stamp, todo[0], todo[1..]);
      FlushAllKeeps(FlushOne(s, x, stamp, todo[0]), x, stamp, todo[1..]);
    }
  }

  lemma ReopenedKeeps(s: State, x: nat, stamp: int)
    requires Inv(s) && !IsToken(x)
    ensures var s' := Reopened(s, x, stamp);
      Inv(s') && s'.nextToken == s.nextToken && s'.issued == s.issued
  {
    if x != 0 {
      if IsWaited(s.deferred, x) {
        var b := FlushStart(s, x);
        Frame(s, b, s.deferred);
        assert b.deferred + s.deferred == s.deferred;
        FlushAllKeeps(b, x, stamp, s.deferred);
      }
      var f := FlushedAddress(s, x, stamp);
      Frame(f, Reopened(s, x, stamp), f.deferred);
    }
  }

  /** The address's waiting events move to a token made for its new open. */
  lemma IssueKeeps(s: State, a: Arrival)
    requires Inv(s) && EventOk(a) && IsOpen(a.e) && NeedsToken(a.e) && s.nextToken < TOKEN_END
    ensures var s' := Issued(s, a); InvWith(s', s'.deferred, s.nextToken) && s.nextToken !in s'.names
  {
    var s0 := s.(names := s.names - {a.e.keyObject});
    ShrinkKeeps(s, s0);
    assert Issued(s, a) == Issued(s0, a);
    UnnamedIssueKeeps(s0, a);
  }

  lemma UnnamedIssueKeeps(s: State, a: Arrival)
    requires Inv(s) && EventOk(a) && IsOpen(a.e) && NeedsToken(a.e) && s.nextToken < TOKEN_END
    requires a.e.keyObject !in s.names
    ensures var s' := Issued(s, a); InvWith(s', s'.deferred, s.nextToken) && s.nextToken !in s'.names
  {
    assert s.names - {a.e.keyObject} == s.names;
    RetargetKeeps(s, Issued(s, a), a);
    RetargetTokens(s, Issued(s, a), a);
  }

  lemma RetargetTokens(s: State, s': State, a: Arrival)
    requires Inv(s) && s.nextToken < TOKEN_END
    requires s' == s.(nextToken := s.nextToken + 1, issued := s.issued[s.nextToken := a], pending := s'.pending,
                      deferred := Retargeted(s.deferred, a.e.keyObject, a.e.stamp, s.nextToken))
    ensures TokensOk(s', s'.deferred, s.nextToken) && LogOk(s')
  {
    forall t | t != 0
      ensures Owners(s'.deferred, t) + LogOwners(s.log, t) + (if t == s.nextToken then 1 else 0)
           <= (if t in s'.issued then 1 else 0)
    {
      RetargetedOwners(s.deferred, a.e.keyObject, a.e.stamp, s.nextToken, t);
      assert Owners(s.deferred, t) + LogOwners(s.log, t) <= (if t in s.issued then 1 else 0);
    }
    forall j | 0 <= j < |s'.log| ensures Attributed(s', j) {
      assert Attributed(s, j);
    }
  }

  lemma RetargetKeeps(s: State, s': State, a: Arrival)
    requires Inv(s) && IsOpen(a.e) && EventOk(a)
    requires s' == s.(nextToken := s.nextToken + 1, issued := s.issued[s.nextToken := a], pending := s'.pending,
                      deferred := Retargeted(s.deferred, a.e.keyObject, a.e.stamp, s.nextToken))
    requires s.nextToken < TOKEN_END
    ensures forall d :: d in s'.deferred ==> EntryOk(s', d)
    ensures WakesOk(s', s'.deferred)
  {
    forall d | d in s'.deferred
      ensures EntryOk(s', d) && (!IsToken(d.waiting) ==> d.waiting in s.unnamed || d.waiting in s.handed)
    {
      var i :| 0 <= i < |s'.deferred| && s'.deferred[i] == d;
      assert s.deferred[i] in s.deferred && EntryOk(s, s.deferred[i]);
    }
  }

  /** Queuing an event, or counting it at once when the queue is full. */
  lemma DeferringKeeps(s: State, a: Arrival, waiting: nat, token: nat)
    requires InvWith(s, s.deferred, token) && |s.deferred| <= MAX_DEFERRED
    requires EntryOk(s, Deferred(a, waiting, token))
    requires token != 0 ==> IsOpen(a.e)
    ensures Inv(Deferring(s, a, waiting, token))
  {
    var s' := Deferring(s, a, waiting, token);
    if |s.deferred| >= MAX_DEFERRED {
      if IsOpen(a.e) {
        var name := UnnamedBase(s, waiting, a.e.name);
        var c := Charged(s, a, name, true, Overflowed(waiting), token);
        ChargeKeeps(s, s.deferred, a, name, true, Overflowed(waiting), token);
        if token != 0 {
          JustCharged(s, s.deferred, c.log[|s.log|]);
          NameTokenKeeps(c, c.deferred, token, name, a.tick);
        }
      } else {
        var name := if IsToken(waiting) && waiting in s.names then s.names[waiting].text else "";
        ChargeKeeps(s, s.deferred, a, name, true, Overflowed(waiting), 0);
      }
    } else {
      var d := Deferred(a, waiting, token);
      assert s'.deferred == s.deferred + [d];
      forall t ensures Owners(s'.deferred, t) == Owners(s.deferred, t) + (if t == token then 1 else 0) {
        OwnersConcat(s.deferred, [d], t);
      }
      forall e | e in s'.deferred ensures EntryOk(s', e) {
        assert e == d || EntryOk(s, e);
      }
      forall j | 0 <= j < |s'.log| ensures Attributed(s', j) {
        assert Attributed(s, j);
      }
      if !IsToken(waiting) && IsWaited(s.deferred, waiting) {
        var e :| e in s.deferred && e.waiting == waiting;
      }
    }
  }

  lemma OpenedKeeps(n: Naming, s: State, a: Arrival)
    requires Inv(s) && EventOk(a) && IsOpen(a.e) && Opened(n, s, a).nextToken <= TOKEN_END
    ensures Inv(Opened(n, s, a))
  {
    var name := OpenName(n, s, a.e);
    if name.Some? {
      ChargeKeeps(s, s.deferred, a, name.value, true, Direct, 0);
    } else if GaveUp(s, a.e.baseObject) {
      ChargeKeeps(s, s.deferred, a, UnnamedBase(s, a.e.baseObject, a.e.name), true, Direct, 0);
    } else if NeedsToken(a.e) {
      IssueKeeps(s, a);
      DeferringKeeps(Issued(s, a), a, a.e.baseObject, s.nextToken);
    } else {
      DeferringKeeps(s, a, a.e.baseObject, 0);
    }
  }

  lemma OnOpenKeeps(n: Naming, s: State, a: Arrival)
    requires Inv(s) && EventOk(a) && IsOpen(a.e) && OnOpen(n, s, a).nextToken <= TOKEN_END
    ensures Inv(OnOpen(n, s, a))
  {
    ReopenedKeeps(s, a.e.keyObject, a.e.stamp);
    OpenedKeeps(n, Reopened(s, a.e.keyObject, a.e.stamp), a);
  }

  /** A name touched: only its tick changes. */
  lemma TouchKeeps(s: State, q: seq<Deferred>, x: nat, tick: nat)
    requires InvWith(s, q, 0) && x in s.names
    ensures InvWith(s.(names := s.names[x := s.names[x].(tick := tick)]), q, 0)
  {
    var s' := s.(names := s.names[x := s.names[x].(tick := tick)]);
    forall d | d in q ensures EntryOk(s', d) {
      assert EntryOk(s, d);
    }
    forall j | 0 <= j < |s'.log| ensures Attributed(s', j) {
      assert Attributed(s, j);
    }
  }

  lemma OnOperationKeeps(s: State, a: Arrival)
    requires Inv(s) && EventOk(a) && !IsOpen(a.e)
    ensures Inv(OnOperation(s, a))
  {
    var x := a.e.keyObject;
    if x in s.names {
      TouchKeeps(s, s.deferred, x, a.tick);
      ChargeKeeps(s.(names := s.names[x := s.names[x].(tick := a.tick)]), s.deferred, a, s.names[x].text, true, Direct,
                  0);
    } else if x in s.pending {
      DeferringKeeps(s, a, s.pending[x], 0);
    } else if GaveUp(s, x) {
      ChargeKeeps(s, s.deferred, a, "", true, Direct, 0);
    } else {
      DeferringKeeps(s, a, x, 0);
    }
  }

  lemma ResumeKeeps(n: Naming, s: State, q: seq<Deferred>, d: Deferred)
    requires InvWith(s, q, d.token) && EntryOk(s, d) && IsReady(s, d.waiting)
    ensures InvWith(Resume(n, s, d), q, 0)
  {
    if IsOpen(d.a.e) {
      var name := OpenName(n, s, d.a.e);
      var text := if name.Some? then name.value else UnnamedBase(s, d.a.e.baseObject, d.a.e.name);
      var x := d.a.e.keyObject;
      var named := x in s.pending && s.pending[x] == d.token;
      var c := Charged(s, d.a, text, named, Resumed(d.waiting), d.token);
      ChargeKeeps(s, q, d.a, text, named, Resumed(d.waiting), d.token);
      if d.token != 0 {
        JustCharged(s, q, c.log[|s.log|]);
        NameTokenKeeps(c, q, d.token, text, d.a.tick);
      }
    } else {
      assert d.token == 0;
      if d.waiting in s.names {
        var name := s.names[d.waiting];
        TouchKeeps(s, q, d.waiting, Max(name.tick, d.a.tick));
        ChargeKeeps(s.(names := s.names[d.waiting := name.(tick := Max(name.tick, d.a.tick))]), q, d.a, name.text, true,
                    Resumed(d.waiting), 0);
      } else {
        assert !IsToken(d.waiting);
        ChargeKeeps(s, q, d.a, "", true, Resumed(d.waiting), 0);
      }
    }
  }

  lemma ApplyOneKeeps(n: Naming, s: State, d: Deferred, rest: seq<Deferred>)
    requires InvWith(s, s.deferred + [d] + rest, 0)
    ensures var s' := ApplyOne(n, s, d);
      InvWith(s', s'.deferred + rest, 0) && |s'.deferred| <= |s.deferred| + 1 && s'.nextToken == s.nextToken
  {
    if IsReady(s, d.waiting) {
      TakeOut(s, s.deferred, d, rest);
      ResumeKeeps(n, s, s.deferred + rest, d);
    } else {
      Frame(s, s.(deferred := s.deferred + [d]), s.deferred + [d] + rest);
    }
  }

  lemma {:induction false} ApplyAllKeeps(n: Naming, s: State, todo: seq<Deferred>)
    requires InvWith(s, s.deferred + todo, 0)
    ensures var s' := ApplyAll(n, s, todo);
      && InvWith(s', s'.deferred, 0) && |s'.deferred| <= |s.deferred| + |todo|
      && s'.nextToken == s.nextToken
    decreases |todo|
  {
    hide ApplyOne, InvWith;
    if todo == [] {
      assert s.deferred + todo == s.deferred;
    } else {
      assert s.deferred + todo == s.deferred + [todo[0]] + todo[1..];
      ApplyOneKeeps(n, s, todo[0], todo[1..]);
      ApplyAllKeeps(n, ApplyOne(n, s, todo[0]), todo[1..]);
    }
  }

  lemma ApplyDeferredKeeps(n: Naming, s: State)
    requires Inv(s)
    ensures Inv(ApplyDeferred(n, s))
  {
    var b := s.(deferred := []);
    Frame(s, b, s.deferred);
    assert b.deferred + s.deferred == s.deferred;
    ApplyAllKeeps(n, b, s.deferred);
    var r := ApplyAll(n, b, s.deferred);
    var r' := ApplyDeferred(n, s);
    Frame(r, r.(unnamed := r'.unnamed), r.deferred);
    assert forall d :: d in r.deferred && !IsToken(d.waiting) ==> d.waiting in WaitedAddresses(r.deferred);
    forall d | d in r'.deferred ensures EntryOk(r', d) {
      assert EntryOk(r, d);
    }
    forall j | 0 <= j < |r'.log| ensures Attributed(r', j) {
      assert Attributed(r, j);
    }
  }

  lemma ForgetKeeps(s: State, ids: set<RowId>)
    requires Inv(s)
    ensures Inv(s.(log := s.log + [Forget(ids)]))
  {
    var s' := s.(log := s.log + [Forget(ids)]);
    LogGrows(s, Forget(ids));
    forall t ensures LogOwners(s'.log, t) == LogOwners(s.log, t) {
      LogOwnersPush(s.log, Forget(ids), t);
    }
    forall d | d in s.deferred ensures EntryOk(s', d) {
      assert EntryOk(s, d);
    }
  }

  /** Names and queued events may only go; addresses may be named. */
  lemma ShrinkKeeps(s: State, s': State)
    requires Inv(s)
    requires s' == s.(names := s'.names, deferred := s'.deferred, pending := s'.pending, unnamed := s'.unnamed,
                      attempts := s'.attempts)
    requires forall t :: t in s'.names && (IsToken(t) || t in s.pending.Values) ==>
        t in s.names && s'.names[t] == s.names[t]
    requires forall k :: k in s'.pending ==> k in s.pending && s'.pending[k] == s.pending[k]
    requires (s'.deferred == s.deferred && s'.unnamed == s.unnamed) || (s'.deferred == [] && s'.unnamed == {})
    requires forall x :: x in s'.attempts ==> !IsToken(x)
    ensures Inv(s')
  {
    forall d | d in s'.deferred ensures EntryOk(s', d) {
      assert EntryOk(s, d);
    }
    forall j | 0 <= j < |s'.log| ensures Attributed(s', j) {
      assert Attributed(s, j);
    }
    assert TokensOk(s, s.deferred, 0);
    forall t | t != 0 ensures Owners(s'.deferred, t) <= Owners(s.deferred, t) {}
    forall k | k in s'.pending ensures s'.pending[k] !in s'.names {
      assert s.pending[k] in s.issued;
    }
  }

  /** Every call keeps the invariant, while there are tokens left. */
  lemma StepKeeps(n: Naming, s: State, c: Call)
    requires Inv(s) && OutsideTokens(c) && Step(n, s, c).nextToken <= TOKEN_END
    ensures Inv(Step(n, s, c))
  {
    match c
    case Traced(a) =>
      if !IsIgnored(a.e) {
        if IsOpen(a.e) { OnOpenKeeps(n, s, a); } else { OnOperationKeeps(s, a); }
      }
    case Take => Frame(s, TakeUnnamed(s), s.deferred);
    case Named(x, name, tick) => ShrinkKeeps(s, SetName(n, s, x, name, tick));
    case Failed(x, why) => Frame(s, NameFailed(s, x, why), s.deferred);
    case Apply => ApplyDeferredKeeps(n, s);
    case Removed(pid) => ForgetKeeps(s, set id | id in Rows(n, s.log) && id.pid == pid);
    case Pruned(tick) =>
      var f := Prune(n, s, tick);
      var ids := set id | id in Rows(n, s.log) && Elapsed(tick, Rows(n, s.log)[id].lastTick) > KEY_IDLE;
      ForgetKeeps(s, ids);
      ShrinkKeeps(s.(log := s.log + [Forget(ids)]), f);
    case Cleared =>
      ForgetKeeps(s, Rows(n, s.log).Keys);
      ShrinkKeeps(s.(log := s.log + [Forget(Rows(n, s.log).Keys)]), Clear(n, s));
  }

  // ----- all reachable states

  /** An event that gives out no token, or one. */
  ghost predicate IssuesFor(s: State, r: State, a: Arrival) {
    || (r.nextToken == s.nextToken && r.issued == s.issued)
    || (r.nextToken == s.nextToken + 1
          && r.issued == s.issued[s.nextToken := a])
  }

  lemma OpenedTokens(n: Naming, s: State, a: Arrival)
    ensures IssuesFor(s, Opened(n, s, a), a)
  {
    hide OpenName, UnnamedBase, WhyUnnamed, Retargeted, IsWaited;
  }

  lemma OperationTokens(s: State, a: Arrival)
    ensures OnOperation(s, a).nextToken == s.nextToken && OnOperation(s, a).issued == s.issued
  {}

  /** A call gives out at most one token, for the event it brings, and none that was given out before. */
  lemma TokensAreNew(n: Naming, s: State, c: Call)
    requires IssuedOk(s)
    ensures var r := Step(n, s, c);
      || (r.nextToken == s.nextToken && r.issued == s.issued)
      || (c.Traced? && s.nextToken !in s.issued && r.nextToken == s.nextToken + 1
          && r.issued == s.issued[s.nextToken := c.a])
  {
    hide Opened, OnOperation;
    if c.Traced? {
      OpenedTokens(n, Reopened(s, c.a.e.keyObject, c.a.e.stamp), c.a);
      OperationTokens(s, c.a);
    }
  }

  lemma TokensOnlyGrow(n: Naming, s: State, c: Call)
    ensures s.nextToken <= Step(n, s, c).nextToken
  {
    hide Opened, OnOperation;
    if c.Traced? {
      OpenedTokens(n, Reopened(s, c.a.e.keyObject, c.a.e.stamp), c.a);
      OperationTokens(s, c.a);
    }
  }

  /** Every state a run of calls reaches has the invariant, up to the last of the 2^48 tokens. */
  lemma {:induction false} RunKeeps(n: Naming, calls: seq<Call>)
    requires forall c :: c in calls ==> OutsideTokens(c)
    requires Run(n, Empty, calls).nextToken <= TOKEN_END
    ensures Inv(Run(n, Empty, calls))
  {
    if calls != [] {
      var k := |calls| - 1;
      TokensOnlyGrow(n, Run(n, Empty, calls[..k]), calls[k]);
      RunKeeps(n, calls[..k]);
      StepKeeps(n, Run(n, Empty, calls[..k]), calls[k]);
    }
  }
}
