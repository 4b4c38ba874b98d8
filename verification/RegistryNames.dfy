/** What the log says of names: which ones the events counted give, and under which names they are counted. */
module RegistryNames {
  import opened Optional
  import opened RegistryModel
  import opened RegistryInvariant

  // ----- reading the log

  /** The names after one more event counted. A successful open gives its name to its key object, unless it had to wait
      and a later open took the address (it does not own it), and to its token; an operation keeps the name it was
      counted under in use. */
  ghost function Noted(names: map<nat, Name>, x: LogEntry, owns: bool): map<nat, Name> {
    if x.Forget? then names
    else
      var e, name := x.a.e, Name(x.name, x.a.tick);
      if IsOpen(e) then
        var gives := e.keyObject != 0 && x.name != "" && !IsFailure(e.status) && (x.via.Resumed? ==> owns);
        var named := if gives then names[e.keyObject := name] else names;
        if x.token == 0 || x.via.Flushed? then named else named[x.token := name]
      else
        match x.via
        case Direct =>
          if e.keyObject in names then names[e.keyObject := names[e.keyObject].(tick := x.a.tick)] else names
        case Resumed(on) =>
          if on in names then names[on := names[on].(tick := Max(names[on].tick, x.a.tick))] else names
        case _ => names
  }

  /** owns says of an open's token and key object whether no later open took the address. */
  ghost function Read(names: map<nat, Name>, more: seq<LogEntry>, owns: (nat, nat) -> bool): map<nat, Name> {
    if more == [] then names
    else
      var x := more[|more| - 1];
      Noted(Read(names, more[..|more| - 1], owns), x, x.Charge? && owns(x.token, x.a.e.keyObject))
  }

  ghost function WhyOf(attempts: map<nat, Attempts>, x: nat): Why {
    if x in attempts then attempts[x].why else NotTried
  }

  ghost predicate IsGivenUp(attempts: map<nat, Attempts>, x: nat) {
    x == 0 || (x in attempts && attempts[x].count >= 3)
  }

  predicate IsAbsolute(name: string) { name != "" && name[0] == '\\' }

  /** A key below another, or the other itself. */
  function Below(base: string, relative: string): string {
    if relative == "" then base else base + "\\" + relative
  }

  /** The name an open gets: its own if it is absolute; else it is below its base, whatever that is called. */
  ghost function OpenedName(n: Naming, names: map<nat, Name>, attempts: map<nat, Attempts>, e: Event): string {
    if IsAbsolute(e.name) then n.registryName(e.name)
    else if e.baseObject in names then Below(names[e.baseObject].text, e.name)
    else UnnamedName(e.baseObject, WhyOf(attempts, e.baseObject)) + "\\" + e.name
  }

  ghost function TextOf(names: map<nat, Name>, x: nat): string { if x in names then names[x].text else "" }

  /** The name an event goes under, by how it came to be counted. */
  ghost function CountedName(n: Naming, names: map<nat, Name>, attempts: map<nat, Attempts>, e: Event, via: Via): string
  {
    match via
    case Flushed(on) => if IsOpen(e) then UnnamedName(on, Closed) + "\\" + e.name else ""
    case Overflowed(on) =>
      if IsOpen(e) then UnnamedName(on, WhyOf(attempts, on)) + "\\" + e.name
      else if IsToken(on) then TextOf(names, on) else ""
    case Resumed(on) => if IsOpen(e) then OpenedName(n, names, attempts, e) else TextOf(names, on)
    case Direct => if IsOpen(e) then OpenedName(n, names, attempts, e) else TextOf(names, e.keyObject)
  }

  /** What an event counted needed: its own name, or that of what it waited on, or the resolver's having given up. */
  ghost predicate WasReady(names: map<nat, Name>, attempts: map<nat, Attempts>, e: Event, via: Via) {
    match via
    case Direct => (IsOpen(e) && IsAbsolute(e.name)) || Subject(e) in names || IsGivenUp(attempts, Subject(e))
    case Resumed(on) => on in names || IsGivenUp(attempts, on)
    case _ => true
  }

  /** An event counted is counted under the name the names say, once they or the resolver's failures say it can be. */
  ghost predicate IsTold(n: Naming, names: map<nat, Name>, attempts: map<nat, Attempts>, x: LogEntry) {
    x.Charge? ==>
      var known := if x.via.Flushed? then attempts[x.via.on := Attempts(3, Closed)] else attempts;
      && x.name == CountedName(n, names, known, x.a.e, x.via) && x.why == WhyOf(known, x.a.e.keyObject)
      && WasReady(names, known, x.a.e, x.via)
  }

  /** From s to r events were counted, each as the names before it say, and r's names are what they leave. */
  ghost predicate Tells(n: Naming, s: State, r: State, attempts: map<nat, Attempts>, owns: (nat, nat) -> bool) {
    && s.log <= r.log && r.names == Read(s.names, r.log[|s.log|..], owns)
    && forall j :: |s.log| <= j < |r.log| ==>
         r.log[j].Charge? && IsTold(n, Read(s.names, r.log[|s.log|..j], owns), attempts, r.log[j])
  }

  lemma {:induction false} ReadMore(names: map<nat, Name>, a: seq<LogEntry>, b: seq<LogEntry>, owns: (nat, nat) -> bool)
    ensures Read(names, a + b, owns) == Read(Read(names, a, owns), b, owns)
  {
    hide Noted;
    if b == [] {
      assert a + b == a;
    } else {
      ReadMore(names, a, b[..|b| - 1], owns);
      assert (a + b)[..|a + b| - 1] == a + b[..|b| - 1];
    }
  }

  lemma TellsNothing(n: Naming, s: State, r: State, attempts: map<nat, Attempts>, owns: (nat, nat) -> bool)
    requires r.log == s.log && r.names == s.names
    ensures Tells(n, s, r, attempts, owns)
  {
    assert r.log[|s.log|..] == [];
  }

  lemma TellsOn(n: Naming, s: State, r: State, t: State, attempts: map<nat, Attempts>, owns: (nat, nat) -> bool)
    requires Tells(n, s, r, attempts, owns) && Tells(n, r, t, attempts, owns)
    ensures Tells(n, s, t, attempts, owns)
  {
    hide Read, IsTold;
    var a, b := r.log[|s.log|..], t.log[|r.log|..];
    assert t.log[|s.log|..] == a + b;
    ReadMore(s.names, a, b, owns);
    forall j | |s.log| <= j < |t.log|
      ensures t.log[j].Charge? && IsTold(n, Read(s.names, t.log[|s.log|..j], owns), attempts, t.log[j])
    {
      if j < |r.log| {
        assert t.log[|s.log|..j] == r.log[|s.log|..j] && t.log[j] == r.log[j];
      } else {
        assert t.log[|s.log|..j] == a + t.log[|r.log|..j];
        ReadMore(s.names, a, t.log[|r.log|..j], owns);
      }
    }
  }

  lemma TellsOne(n: Naming, s: State, r: State, x: LogEntry, attempts: map<nat, Attempts>, owns: (nat, nat) -> bool)
    requires x.Charge? && r.log == s.log + [x] && IsTold(n, s.names, attempts, x)
    requires r.names == Noted(s.names, x, owns(x.token, x.a.e.keyObject))
    ensures Tells(n, s, r, attempts, owns)
  {
    hide Noted, IsTold;
    assert r.log[|s.log|..] == [x] && r.log[|s.log|..|s.log|] == [] && [x][..0] == [];
    assert Read(s.names, [], owns) == s.names;
  }

  // ----- an open

  lemma {:induction false} FlushTells(n: Naming, s: State, x: nat, stamp: int, todo: seq<Deferred>,
                                      attempts: map<nat, Attempts>, owns: (nat, nat) -> bool)
    requires s.attempts == attempts[x := Attempts(3, Closed)]
    ensures var r := FlushAll(s, x, stamp, todo);
      && Tells(n, s, r, attempts, owns)
      && forall j :: |s.log| <= j < |r.log| ==> r.log[j].Charge? && r.log[j].via.Flushed?
    decreases |todo|
  {
    hide Tells, FlushOne;
    if todo == [] {
      TellsNothing(n, s, s, attempts, owns);
    } else {
      var s1 := FlushOne(s, x, stamp, todo[0]);
      FlushOneTells(n, s, x, stamp, todo[0], attempts, owns);
      FlushTells(n, s1, x, stamp, todo[1..], attempts, owns);
      TellsOn(n, s, s1, FlushAll(s1, x, stamp, todo[1..]), attempts, owns);
      TellsLonger(n, s1, FlushAll(s1, x, stamp, todo[1..]), attempts, owns);
    }
  }

  lemma TellsLonger(n: Naming, s: State, r: State, attempts: map<nat, Attempts>, owns: (nat, nat) -> bool)
    requires Tells(n, s, r, attempts, owns)
    ensures s.log <= r.log
  {}

  lemma FlushOneTells(n: Naming, s: State, x: nat, stamp: int, d: Deferred, attempts: map<nat, Attempts>,
                      owns: (nat, nat) -> bool)
    requires s.attempts == attempts[x := Attempts(3, Closed)]
    ensures var r := FlushOne(s, x, stamp, d);
      && Tells(n, s, r, attempts, owns) && r.attempts == s.attempts && s.log <= r.log
      && forall j :: |s.log| <= j < |r.log| ==> r.log[j].Charge? && r.log[j].via.Flushed?
  {
    hide Tells, UnnamedName;
    var r := FlushOne(s, x, stamp, d);
    if IsEarlier(d, x, stamp) {
      var c := r.log[|s.log|];
      assert r.log == s.log + [c];
      TellsOne(n, s, r, c, attempts, owns);
    } else {
      TellsNothing(n, s, r, attempts, owns);
    }
  }

  lemma ReopenedTells(n: Naming, s: State, x: nat, stamp: int, owns: (nat, nat) -> bool)
    ensures var r := Reopened(s, x, stamp);
      && r.attempts == (if x == 0 then s.attempts else s.attempts - {x}) && Tells(n, s, r, r.attempts, owns)
      && forall j :: |s.log| <= j < |r.log| ==> r.log[j].Charge? && r.log[j].via.Flushed?
  {
    hide Tells;
    var r := Reopened(s, x, stamp);
    if x == 0 || !IsWaited(s.deferred, x) {
      TellsNothing(n, s, r, r.attempts, owns);
    } else {
      var b, attempts := FlushStart(s, x), s.attempts - {x};
      assert b.attempts == attempts[x := Attempts(3, Closed)];
      FlushTells(n, b, x, stamp, s.deferred, attempts, owns);
      assert r.attempts == attempts;
      SameTold(n, b, FlushAll(b, x, stamp, s.deferred), s, r, attempts, owns);
    }
  }

  /** Only the log and the names tell. */
  lemma SameTold(n: Naming, s: State, r: State, s': State, r': State, attempts: map<nat, Attempts>,
                 owns: (nat, nat) -> bool)
    requires Tells(n, s, r, attempts, owns) && s'.log == s.log && r'.log == r.log && s'.names == s.names
    requires r'.names == r.names
    ensures Tells(n, s', r', attempts, owns)
  {
    hide Read, IsTold;
  }

  /** One event more is counted, and not a closed key's. */
  ghost predicate CountsOne(s: State, r: State) {
    |r.log| == |s.log| + 1 && s.log <= r.log && r.log[|s.log|].Charge? && !r.log[|s.log|].via.Flushed?
  }

  /** An open counted as the names say, its key object and token named. */
  lemma OpenCounted(n: Naming, s: State, a: Arrival, name: string, nameObject: bool, via: Via, token: nat,
                    owns: (nat, nat) -> bool)
    requires IsOpen(a.e) && !via.Flushed?
    requires if via.Resumed? then nameObject == owns(token, a.e.keyObject) else nameObject
    requires name == CountedName(n, s.names, s.attempts, a.e, via) && WasReady(s.names, s.attempts, a.e, via)
    ensures var r := TokenNamed(Charged(s, a, name, nameObject, via, token), token, a.e.keyObject, name, a.tick);
      Tells(n, s, r, s.attempts, owns) && r.attempts == s.attempts && CountsOne(s, r)
  {
    hide Tells, CountedName, WasReady, IsFailure;
    var r := TokenNamed(Charged(s, a, name, nameObject, via, token), token, a.e.keyObject, name, a.tick);
    TellsOne(n, s, r, r.log[|s.log|], s.attempts, owns);
  }

  /** An open that gets a token takes the name from its address, and so leaves the names the same if it is counted at
      once, to a full queue. */
  lemma OverflowTells(n: Naming, s: State, a: Arrival, owns: (nat, nat) -> bool)
    requires IsOpen(a.e) && NeedsToken(a.e) && |s.deferred| >= MAX_DEFERRED && s.nextToken > 0
    ensures var r := Deferring(Issued(s, a), a, a.e.baseObject, s.nextToken);
      Tells(n, s, r, s.attempts, owns) && r.attempts == s.attempts && CountsOne(s, r)
  {
    hide Tells, UnnamedName, Noted, Retargeted, Charged, TokenNamed, Deferring;
    var base, r := a.e.baseObject, Deferring(Issued(s, a), a, a.e.baseObject, s.nextToken);
    var name := UnnamedBase(s, base, a.e.name);
    OpenCounted(n, s, a, name, true, Overflowed(base), s.nextToken, owns);
    OverflowNames(s, a, name);
    SameTold(n, s, TokenNamed(Charged(s, a, name, true, Overflowed(base), s.nextToken), s.nextToken, a.e.keyObject,
                              name, a.tick), s, r, s.attempts, owns);
  }

  lemma OverflowNames(s: State, a: Arrival, name: string)
    requires IsOpen(a.e) && NeedsToken(a.e) && |s.deferred| >= MAX_DEFERRED
    requires name == UnnamedBase(s, a.e.baseObject, a.e.name)
    ensures var r := Deferring(Issued(s, a), a, a.e.baseObject, s.nextToken);
      var u := TokenNamed(Charged(s, a, name, true, Overflowed(a.e.baseObject), s.nextToken), s.nextToken,
                          a.e.keyObject, name, a.tick);
      r.log == u.log && r.names == u.names && r.attempts == u.attempts
  {
    hide UnnamedBase, Retargeted, IsFailure;
    assert UnnamedBase(Issued(s, a), a.e.baseObject, a.e.name) == name by { SameBase(s, Issued(s, a), a); }
    NotEmpty(s, a.e.baseObject, a.e.name);
    var k, given := a.e.keyObject, Name(name, a.tick);
    assert (s.names - {k})[k := given] == s.names[k := given];
  }

  lemma SameBase(s: State, r: State, a: Arrival)
    requires r.attempts == s.attempts
    ensures UnnamedBase(r, a.e.baseObject, a.e.name) == UnnamedBase(s, a.e.baseObject, a.e.name)
  {}

  lemma NotEmpty(s: State, base: nat, relative: string)
    ensures UnnamedBase(s, base, relative) != ""
  {
    hide UnnamedName;
  }

  /** An open that gets no token is counted at once, if the queue is full. */
  lemma PlainOverflowTells(n: Naming, s: State, a: Arrival, owns: (nat, nat) -> bool)
    requires IsOpen(a.e) && |s.deferred| >= MAX_DEFERRED
    ensures var r := Deferring(s, a, a.e.baseObject, 0);
      Tells(n, s, r, s.attempts, owns) && r.attempts == s.attempts && CountsOne(s, r)
  {
    hide Tells, UnnamedName, Charged;
    OpenCounted(n, s, a, UnnamedBase(s, a.e.baseObject, a.e.name), true, Overflowed(a.e.baseObject), 0, owns);
  }

  lemma QueuedTells(n: Naming, s: State, a: Arrival, waiting: nat, token: nat, owns: (nat, nat) -> bool)
    requires |s.deferred| < MAX_DEFERRED
    ensures var r := Deferring(s, a, waiting, token);
      r.log == s.log && r.names == s.names && r.attempts == s.attempts && Tells(n, s, r, s.attempts, owns)
  {
    hide Tells;
    TellsNothing(n, s, Deferring(s, a, waiting, token), s.attempts, owns);
  }

  /** The rest of an open's processing: it waits with a token and its address has no name, or it tells what it
      counts. */
  lemma OpenedTells(n: Naming, s: State, a: Arrival, owns: (nat, nat) -> bool)
    requires IsOpen(a.e) && s.nextToken > 0
    ensures var r := Opened(n, s, a);
      && r.attempts == s.attempts && (r.log == s.log || CountsOne(s, r))
      && (if r.log == s.log && NeedsToken(a.e) then r.names == s.names - {a.e.keyObject}
          else Tells(n, s, r, s.attempts, owns))
  {
    hide Tells, UnnamedName, IsWaited, Retargeted, Noted, IsFailure, Charged, Deferring;
    var e, r := a.e, Opened(n, s, a);
    var name := OpenName(n, s, e);
    if name.Some? {
      OpenCounted(n, s, a, name.value, true, Direct, 0, owns);
    } else if GaveUp(s, e.baseObject) {
      OpenCounted(n, s, a, UnnamedBase(s, e.baseObject, e.name), true, Direct, 0, owns);
    } else if |s.deferred| >= MAX_DEFERRED {
      if NeedsToken(e) {
        OverflowTells(n, s, a, owns);
      } else {
        PlainOverflowTells(n, s, a, owns);
      }
    } else if NeedsToken(e) {
      QueuedTells(n, Issued(s, a), a, e.baseObject, s.nextToken, owns);
    } else {
      QueuedTells(n, s, a, e.baseObject, 0, owns);
    }
  }

  // ----- an operation

  /** An operation counted as the names say, and the name kept in use. */
  lemma OperationCounted(n: Naming, s: State, names: map<nat, Name>, a: Arrival, name: string, via: Via,
                         owns: (nat, nat) -> bool)
    requires !IsOpen(a.e) && !via.Flushed?
    requires name == CountedName(n, s.names, s.attempts, a.e, via) && WasReady(s.names, s.attempts, a.e, via)
    requires names == Noted(s.names, Charge(a, name, WhyUnnamed(s, a.e.keyObject), via, 0),
                            owns(0, a.e.keyObject))
    ensures var r := Charged(s.(names := names), a, name, true, via, 0);
      Tells(n, s, r, s.attempts, owns) && r.attempts == s.attempts
  {
    hide Tells, CountedName, WasReady;
    var r := Charged(s.(names := names), a, name, true, via, 0);
    TellsOne(n, s, r, r.log[|s.log|], s.attempts, owns);
  }

  lemma OperationTells(n: Naming, s: State, a: Arrival, owns: (nat, nat) -> bool)
    requires !IsOpen(a.e)
    ensures var r := OnOperation(s, a); Tells(n, s, r, s.attempts, owns) && r.attempts == s.attempts
  {
    hide Tells, IsWaited, Charged;
    var x, r := a.e.keyObject, OnOperation(s, a);
    if x in s.names {
      OperationCounted(n, s, s.names[x := s.names[x].(tick := a.tick)], a, s.names[x].text, Direct, owns);
    } else if x !in s.pending && GaveUp(s, x) {
      OperationCounted(n, s, s.names, a, "", Direct, owns);
      assert s.(names := s.names) == s;
    } else {
      OperationDeferred(n, s, a, if x in s.pending then s.pending[x] else x, owns);
    }
  }

  lemma OperationDeferred(n: Naming, s: State, a: Arrival, waiting: nat, owns: (nat, nat) -> bool)
    requires !IsOpen(a.e)
    ensures var r := Deferring(s, a, waiting, 0); Tells(n, s, r, s.attempts, owns) && r.attempts == s.attempts
  {
    hide Tells, IsWaited, Charged;
    if |s.deferred| < MAX_DEFERRED {
      QueuedTells(n, s, a, waiting, 0, owns);
    } else {
      var name := if IsToken(waiting) && waiting in s.names then s.names[waiting].text else "";
      OperationCounted(n, s, s.names, a, name, Overflowed(waiting), owns);
      assert s.(names := s.names) == s;
    }
  }

  // ----- a pass

  /** Of the opens queued, those own their addresses that are pending on them. */
  ghost predicate OwnsPending(pending: map<nat, nat>, q: seq<Deferred>, owns: (nat, nat) -> bool) {
    forall d :: d in q && IsOpen(d.a.e) ==> IsOwner(pending, d, owns)
  }

  ghost predicate IsOwner(pending: map<nat, nat>, d: Deferred, owns: (nat, nat) -> bool) {
    var k := d.a.e.keyObject;
    owns(d.token, k) <==> k in pending && pending[k] == d.token
  }

  lemma ResumeTells(n: Naming, s: State, d: Deferred, owns: (nat, nat) -> bool)
    requires IsReady(s, d.waiting) && (IsOpen(d.a.e) ==> IsOwner(s.pending, d, owns))
    ensures var r := Resume(n, s, d); Tells(n, s, r, s.attempts, owns) && r.attempts == s.attempts
  {
    hide Tells, UnnamedName, Charged, TokenNamed;
    var e := d.a.e;
    if IsOpen(e) {
      var name := OpenName(n, s, e);
      var text := if name.Some? then name.value else UnnamedBase(s, e.baseObject, e.name);
      OpenCounted(n, s, d.a, text, e.keyObject in s.pending && s.pending[e.keyObject] == d.token, Resumed(d.waiting),
                  d.token, owns);
    } else if d.waiting in s.names {
      var name := s.names[d.waiting];
      OperationCounted(n, s, s.names[d.waiting := name.(tick := Max(name.tick, d.a.tick))], d.a, name.text,
                       Resumed(d.waiting), owns);
    } else {
      OperationCounted(n, s, s.names, d.a, "", Resumed(d.waiting), owns);
      assert s.(names := s.names) == s;
    }
  }

  lemma {:induction false} ApplyTells(n: Naming, s: State, todo: seq<Deferred>, owns: (nat, nat) -> bool)
    requires OwnsPending(s.pending, s.deferred + todo, owns) && forall t :: t != 0 ==> Owners(s.deferred + todo, t) <= 1
    ensures var r := ApplyAll(n, s, todo);
      Tells(n, s, r, s.attempts, owns) && r.attempts == s.attempts && OwnsPending(r.pending, r.deferred, owns)
    decreases |todo|
  {
    hide Tells, Resume, IsReady, OwnsPending;
    if todo == [] {
      TellsNothing(n, s, s, s.attempts, owns);
      assert s.deferred + todo == s.deferred;
    } else {
      var s1 := ApplyOne(n, s, todo[0]);
      assert s.deferred + todo == s.deferred + [todo[0]] + todo[1..];
      OneTells(n, s, todo[0], todo[1..], owns);
      ApplyTells(n, s1, todo[1..], owns);
      TellsOn(n, s, s1, ApplyAll(n, s1, todo[1..]), s.attempts, owns);
    }
  }

  lemma OneTells(n: Naming, s: State, d: Deferred, rest: seq<Deferred>, owns: (nat, nat) -> bool)
    requires var q := s.deferred + [d] + rest;
      OwnsPending(s.pending, q, owns) && forall t :: t != 0 ==> Owners(q, t) <= 1
    ensures var r := ApplyOne(n, s, d);
      && Tells(n, s, r, s.attempts, owns) && r.attempts == s.attempts && OwnsPending(r.pending, r.deferred + rest, owns)
      && forall t :: t != 0 ==> Owners(r.deferred + rest, t) <= 1
  {
    hide Tells, IsReady;
    var q, r := s.deferred + [d] + rest, ApplyOne(n, s, d);
    if IsReady(s, d.waiting) {
      assert d in q;
      ResumeTells(n, s, d, owns);
      OthersOwn(n, s, d, rest, owns);
    } else {
      TellsNothing(n, s, r, s.attempts, owns);
    }
  }

  /** The others own what they did once an open has been counted. */
  lemma OthersOwn(n: Naming, s: State, d: Deferred, rest: seq<Deferred>, owns: (nat, nat) -> bool)
    requires var q := s.deferred + [d] + rest;
      OwnsPending(s.pending, q, owns) && forall t :: t != 0 ==> Owners(q, t) <= 1
    ensures var r := Resume(n, s, d);
      && OwnsPending(r.pending, r.deferred + rest, owns) && r.deferred == s.deferred
      && forall t :: t != 0 ==> Owners(s.deferred + rest, t) <= 1
  {
    hide UnnamedBase, OpenName, WhyUnnamed;
    var q, others, r := s.deferred + [d] + rest, s.deferred + rest, Resume(n, s, d);
    forall t ensures Owners(q, t) == Owners(others, t) + (if t == d.token then 1 else 0) {
      OwnersConcat(s.deferred + [d], rest, t);
      OwnersConcat(s.deferred, [d], t);
      OwnersConcat(s.deferred, rest, t);
    }
    assert d in q;
    forall e | e in others && IsOpen(e.a.e) ensures IsOwner(r.pending, e, owns) {
      assert e in q && IsOwner(s.pending, e, owns);
      if d.token != 0 { OwnersPositive(others, d.token); }
    }
  }
}
