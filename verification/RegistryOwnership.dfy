/** Whose an operation is that waits on a token: the open it follows, among all the opens of its address. */
module RegistryOwnership {
  import opened Optional
  import opened RegistryModel
  import opened RegistryInvariant
  import opened RegistryAccounting
  import opened RegistryAttribution

  // ----- opens and operations in a run

  /** An accepted open of address x. */
  predicate IsOpenOf(c: Call, x: nat) { c.Traced? && IsOpen(c.a.e) && !IsIgnored(c.a.e) && c.a.e.keyObject == x }

  ghost predicate NoOpenIn(calls: seq<Call>, lo: nat, hi: nat, x: nat)
    requires hi <= |calls|
  {
    forall j :: lo <= j < hi ==> !IsOpenOf(calls[j], x)
  }

  /** The i-th call brings the open, the latest one of address x so far. */
  ghost predicate IsLatest(calls: seq<Call>, open: Arrival, x: nat, i: nat) {
    i < |calls| && calls[i] == Traced(open) && IsOpenOf(calls[i], x) && NoOpenIn(calls, i + 1, |calls|, x)
  }

  ghost predicate Latest(calls: seq<Call>, open: Arrival, x: nat) { exists i: nat :: IsLatest(calls, open, x, i) }

  /** The operation follows the open: no other open of its address comes between them. */
  ghost predicate Follows(calls: seq<Call>, op: Arrival, open: Arrival) {
    exists k: nat :: k < |calls| && calls[k] == Traced(op) && Latest(calls[..k], open, op.e.keyObject)
  }

  /** From the k-th call on, which brings the operation, no open of its address is later than it by its stamp. */
  ghost predicate NoneLaterSince(calls: seq<Call>, op: Arrival, k: nat) {
    k < |calls| && calls[k] == Traced(op)
    && forall j :: k < j < |calls| && IsOpenOf(calls[j], op.e.keyObject) ==> calls[j].a.e.stamp <= op.e.stamp
  }

  ghost predicate Arrived(calls: seq<Call>, op: Arrival) { exists k: nat :: NoneLaterSince(calls, op, k) }

  /** The operation arrived before the open, on another processor: by the stamps neither the open nor any other of its
      address between them is later than it. */
  ghost predicate CameEarly(calls: seq<Call>, op: Arrival, open: Arrival) {
    exists i: nat :: i < |calls| && calls[i] == Traced(open) && IsOpenOf(calls[i], op.e.keyObject)
      && Arrived(calls[..i + 1], op) && open.e.stamp <= op.e.stamp
  }

  ghost predicate OwnOpen(calls: seq<Call>, op: Arrival, open: Arrival) {
    Follows(calls, op, open) || CameEarly(calls, op, open)
  }

  // ----- what a longer run keeps

  lemma OwnOpenLonger(calls: seq<Call>, c: Call, op: Arrival, open: Arrival)
    requires OwnOpen(calls, op, open)
    ensures OwnOpen(calls + [c], op, open)
  {
    hide Latest, Arrived, IsOpenOf;
    var more := calls + [c];
    if Follows(calls, op, open) {
      var k: nat :| k < |calls| && calls[k] == Traced(op) && Latest(calls[..k], open, op.e.keyObject);
      assert more[..k] == calls[..k] && more[k] == calls[k];
    } else {
      var i: nat :| i < |calls| && calls[i] == Traced(open) && IsOpenOf(calls[i], op.e.keyObject)
        && Arrived(calls[..i + 1], op) && open.e.stamp <= op.e.stamp;
      assert more[..i + 1] == calls[..i + 1] && more[i] == calls[i];
    }
  }

  lemma LatestLonger(calls: seq<Call>, c: Call, open: Arrival, x: nat)
    requires Latest(calls, open, x) && !IsOpenOf(c, x)
    ensures Latest(calls + [c], open, x)
  {
    var i: nat :| IsLatest(calls, open, x, i);
    assert IsLatest(calls + [c], open, x, i);
  }

  lemma ArrivedLonger(calls: seq<Call>, c: Call, op: Arrival)
    requires Arrived(calls, op) && (IsOpenOf(c, op.e.keyObject) ==> c.a.e.stamp <= op.e.stamp)
    ensures Arrived(calls + [c], op)
  {
    var k: nat :| NoneLaterSince(calls, op, k);
    assert NoneLaterSince(calls + [c], op, k);
  }

  lemma JustOpened(calls: seq<Call>, open: Arrival)
    requires IsOpenOf(Traced(open), open.e.keyObject)
    ensures Latest(calls + [Traced(open)], open, open.e.keyObject)
  {
    assert IsLatest(calls + [Traced(open)], open, open.e.keyObject, |calls|);
  }

  lemma JustArrived(calls: seq<Call>, op: Arrival)
    ensures Arrived(calls + [Traced(op)], op)
  {
    assert NoneLaterSince(calls + [Traced(op)], op, |calls|);
  }

  lemma JustFollowed(calls: seq<Call>, op: Arrival, open: Arrival)
    requires Latest(calls, open, op.e.keyObject)
    ensures OwnOpen(calls + [Traced(op)], op, open)
  {
    var more := calls + [Traced(op)];
    assert more[..|calls|] == calls && more[|calls|] == Traced(op);
  }

  lemma JustCaught(calls: seq<Call>, op: Arrival, open: Arrival)
    requires IsOpenOf(Traced(open), op.e.keyObject) && open.e.stamp <= op.e.stamp && Arrived(calls + [Traced(open)], op)
    ensures OwnOpen(calls + [Traced(open)], op, open)
  {
    var more := calls + [Traced(open)];
    assert more[..|calls| + 1] == more && more[|calls|] == Traced(open);
  }

  // ----- the invariant

  /** A queued operation on a token has the token's open; on an address, it may still get one. */
  ghost predicate QueuedOk(calls: seq<Call>, issued: map<nat, Arrival>, d: Deferred) {
    !IsOpen(d.a.e) ==>
      if IsToken(d.waiting) then d.waiting in issued && OwnOpen(calls, d.a, issued[d.waiting]) else Arrived(calls, d.a)
  }

  ghost predicate CountedOk(calls: seq<Call>, issued: map<nat, Arrival>, x: LogEntry) {
    x.Charge? && x.via.Resumed? && IsToken(x.via.on) && !IsOpen(x.a.e) ==>
      x.via.on in issued && OwnOpen(calls, x.a, issued[x.via.on])
  }

  ghost predicate PendingLatest(calls: seq<Call>, issued: map<nat, Arrival>, pending: map<nat, nat>) {
    forall k :: k in pending ==> pending[k] in issued && Latest(calls, issued[pending[k]], k)
  }

  ghost predicate OwnInv(calls: seq<Call>, s: State) {
    && PendingLatest(calls, s.issued, s.pending)
    && (forall d :: d in s.deferred ==> QueuedOk(calls, s.issued, d))
    && (forall j :: 0 <= j < |s.log| ==> CountedOk(calls, s.issued, s.log[j]))
  }

  // ----- what the steps log

  /** The log grows by charges not made by a pass. */
  ghost predicate GrowsOtherwise(log: seq<LogEntry>, more: seq<LogEntry>) {
    log <= more && forall j :: |log| <= j < |more| ==> more[j].Forget? || !more[j].via.Resumed?
  }

  lemma ReopenedLog(s: State, x: nat, stamp: int)
    ensures GrowsOtherwise(s.log, Reopened(s, x, stamp).log)
  {
    if x != 0 { ReopenedExactly(s, x, stamp); }
  }

  lemma ChargedLog(s: State, a: Arrival, name: string, nameObject: bool, via: Via, token: nat)
    requires !via.Resumed?
    ensures var r := Charged(s, a, name, nameObject, via, token);
      GrowsOtherwise(s.log, r.log) && r.pending == s.pending && r.issued == s.issued
  {
    hide WhyUnnamed;
  }

  lemma DeferringLog(s: State, a: Arrival, waiting: nat, token: nat)
    ensures var r := Deferring(s, a, waiting, token);
      && GrowsOtherwise(s.log, r.log) && r.issued == s.issued
      && (forall k :: k in r.pending ==> k in s.pending && r.pending[k] == s.pending[k])
      && (token == 0 ==> r.pending == s.pending)
  {
    hide Charged, UnnamedBase, IsWaited, GrowsOtherwise;
    AsBefore(s.log);
    ChargedLog(s, a, UnnamedBase(s, waiting, a.e.name), true, Overflowed(waiting), token);
    ChargedLog(s, a, if IsToken(waiting) && waiting in s.names then s.names[waiting].text else "", true,
               Overflowed(waiting), 0);
  }

  lemma AsBefore(log: seq<LogEntry>)
    ensures GrowsOtherwise(log, log)
  {}

  lemma OpenedLog(n: Naming, s: State, a: Arrival)
    ensures GrowsOtherwise(s.log, Opened(n, s, a).log)
  {
    hide Charged, Deferring, UnnamedBase, OpenName, GaveUp, Retargeted, GrowsOtherwise, NeedsToken;
    var name := OpenName(n, s, a.e);
    if name.Some? { ChargedLog(s, a, name.value, true, Direct, 0); }
    ChargedLog(s, a, UnnamedBase(s, a.e.baseObject, a.e.name), true, Direct, 0);
    DeferringLog(Issued(s, a), a, a.e.baseObject, s.nextToken);
    DeferringLog(s, a, a.e.baseObject, 0);
  }

  lemma OpenedPending(n: Naming, s: State, a: Arrival)
    ensures var r := Opened(n, s, a);
      forall k :: k in r.pending ==>
        (k in s.pending && r.pending[k] == s.pending[k])
        || (k == a.e.keyObject && r.pending[k] == s.nextToken && r.issued == s.issued[s.nextToken := a])
  {
    hide Charged, Deferring, UnnamedBase, OpenName, GaveUp, Retargeted, GrowsOtherwise, NeedsToken;
    var name := OpenName(n, s, a.e);
    if name.Some? { ChargedLog(s, a, name.value, true, Direct, 0); }
    ChargedLog(s, a, UnnamedBase(s, a.e.baseObject, a.e.name), true, Direct, 0);
    DeferringLog(Issued(s, a), a, a.e.baseObject, s.nextToken);
    DeferringLog(s, a, a.e.baseObject, 0);
  }

  lemma OperationLog(s: State, a: Arrival)
    ensures GrowsOtherwise(s.log, OnOperation(s, a).log) && OnOperation(s, a).pending == s.pending
  {
    hide Charged, Deferring, GaveUp, GrowsOtherwise;
    var x := a.e.keyObject;
    if x in s.names {
      ChargedLog(s.(names := s.names[x := s.names[x].(tick := a.tick)]), a, s.names[x].text, true, Direct, 0);
    } else {
      ChargedLog(s, a, "", true, Direct, 0);
      DeferringLog(s, a, if x in s.pending then s.pending[x] else x, 0);
    }
  }

  /** A pass counts queued events, by what they waited on. */
  lemma {:induction false} ApplyAllLog(n: Naming, s: State, todo: seq<Deferred>)
    ensures var r := ApplyAll(n, s, todo);
      && s.log <= r.log && (forall d :: d in r.deferred ==> d in s.deferred || d in todo)
      && (forall k :: k in r.pending ==> k in s.pending && r.pending[k] == s.pending[k])
      && forall j :: |s.log| <= j < |r.log| ==> IsOf(r.log[j], todo)
    decreases |todo|
  {
    hide Resume, IsReady;
    if todo != [] {
      var s1 := ApplyOne(n, s, todo[0]);
      if IsReady(s, todo[0].waiting) { ResumeIsOf(n, s, todo[0]); }
      ApplyAllLog(n, s1, todo[1..]);
      var r := ApplyAll(n, s1, todo[1..]);
      forall j | |s.log| <= j < |r.log| ensures IsOf(r.log[j], todo) {
        if j < |s1.log| {
          assert r.log[j] == s1.log[j];
          assert todo[0] in todo;
        } else {
          assert IsOf(r.log[j], todo[1..]);
          var d :| d in todo[1..] && IsOfEntry(r.log[j], d);
          assert d in todo;
        }
      }
    }
  }

  ghost predicate IsOfEntry(x: LogEntry, d: Deferred) {
    x.Charge? && x.a == d.a && x.via == Resumed(d.waiting) && (IsOpen(d.a.e) ==> x.token == d.token)
  }

  ghost predicate IsOf(x: LogEntry, q: seq<Deferred>) { exists d :: d in q && IsOfEntry(x, d) }

  lemma ResumeIsOf(n: Naming, s: State, d: Deferred)
    ensures var r := Resume(n, s, d);
      && r.deferred == s.deferred && |r.log| == |s.log| + 1 && s.log <= r.log && IsOfEntry(r.log[|s.log|], d)
      && forall k :: k in r.pending ==> k in s.pending && r.pending[k] == s.pending[k]
  {
    hide OpenName, UnnamedBase, WhyUnnamed;
  }

  // ----- the steps keep it

  /** What stays queued, pending and counted through a call that is not an open of its address. */
  lemma QueuedLonger(calls: seq<Call>, c: Call, issued: map<nat, Arrival>, d: Deferred)
    requires QueuedOk(calls, issued, d)
    requires !IsOpen(d.a.e) && !IsToken(d.waiting) && IsOpenOf(c, d.a.e.keyObject) ==> c.a.e.stamp <= d.a.e.stamp
    ensures QueuedOk(calls + [c], issued, d)
  {
    hide OwnOpen, Arrived;
    if !IsOpen(d.a.e) {
      if IsToken(d.waiting) { OwnOpenLonger(calls, c, d.a, issued[d.waiting]); } else { ArrivedLonger(calls, c, d.a); }
    }
  }

  lemma CountedLonger(calls: seq<Call>, c: Call, issued: map<nat, Arrival>, x: LogEntry)
    requires CountedOk(calls, issued, x)
    ensures CountedOk(calls + [c], issued, x)
  {
    hide OwnOpen;
    if x.Charge? && x.via.Resumed? && IsToken(x.via.on) && !IsOpen(x.a.e) {
      OwnOpenLonger(calls, c, x.a, issued[x.via.on]);
    }
  }

  lemma PendingLonger(calls: seq<Call>, c: Call, issued: map<nat, Arrival>, pending: map<nat, nat>)
    requires PendingLatest(calls, issued, pending) && forall k :: k in pending ==> !IsOpenOf(c, k)
    ensures PendingLatest(calls + [c], issued, pending)
  {
    hide Latest;
    forall k | k in pending
      ensures Latest(calls + [c], issued[pending[k]], k)
    {
      LatestLonger(calls, c, issued[pending[k]], k);
    }
  }

  lemma LogLonger(calls: seq<Call>, c: Call, issued: map<nat, Arrival>, log: seq<LogEntry>, more: seq<LogEntry>)
    requires (forall j :: 0 <= j < |log| ==> CountedOk(calls, issued, log[j])) && GrowsOtherwise(log, more)
    ensures forall j :: 0 <= j < |more| ==> CountedOk(calls + [c], issued, more[j])
  {
    forall j | 0 <= j < |more| ensures CountedOk(calls + [c], issued, more[j]) {
      if j < |log| {
        assert more[j] == log[j];
        CountedLonger(calls, c, issued, log[j]);
      }
    }
  }

  /** A call that brings no accepted open, and queues, names or counts nothing new on a token. */
  lemma QuietKeepsOwn(calls: seq<Call>, c: Call, s: State, r: State)
    requires OwnInv(calls, s) && (forall x :: !IsOpenOf(c, x)) && r.issued == s.issued
    requires (forall d :: d in r.deferred ==> d in s.deferred) && GrowsOtherwise(s.log, r.log)
    requires forall k :: k in r.pending ==> k in s.pending && r.pending[k] == s.pending[k]
    ensures OwnInv(calls + [c], r)
  {
    hide IsOpenOf, QueuedOk, CountedOk, Latest, GrowsOtherwise;
    PendingLonger(calls, c, s.issued, s.pending);
    forall d | d in r.deferred ensures QueuedOk(calls + [c], r.issued, d) { QueuedLonger(calls, c, s.issued, d); }
    LogLonger(calls, c, s.issued, s.log, r.log);
  }

  lemma ApplyKeepsOwn(n: Naming, calls: seq<Call>, s: State)
    requires OwnInv(calls, s)
    ensures OwnInv(calls + [Apply], ApplyDeferred(n, s))
  {
    hide OwnOpen, Arrived, Latest, IsOf, Resume;
    var b := s.(deferred := []);
    ApplyAllLog(n, b, s.deferred);
    var r := ApplyDeferred(n, s);
    PendingLonger(calls, Apply, s.issued, s.pending);
    forall d | d in r.deferred
      ensures QueuedOk(calls + [Apply], r.issued, d)
    {
      QueuedLonger(calls, Apply, s.issued, d);
    }
    forall j | 0 <= j < |r.log| ensures CountedOk(calls + [Apply], r.issued, r.log[j]) {
      if j < |s.log| {
        assert r.log[j] == s.log[j];
      } else {
        CountedIsQueued(calls, s, r.log[j]);
      }
      CountedLonger(calls, Apply, s.issued, r.log[j]);
    }
  }

  lemma CountedIsQueued(calls: seq<Call>, s: State, x: LogEntry)
    requires OwnInv(calls, s) && IsOf(x, s.deferred)
    ensures CountedOk(calls, s.issued, x)
  {
    hide OwnOpen, Arrived, Latest;
    var d :| d in s.deferred && IsOfEntry(x, d);
    assert QueuedOk(calls, s.issued, d);
  }

  lemma OperationKeepsOwn(calls: seq<Call>, s: State, a: Arrival)
    requires OwnInv(calls, s) && !IsOpen(a.e) && !IsToken(a.e.keyObject)
    ensures OwnInv(calls + [Traced(a)], OnOperation(s, a))
  {
    var x, r := a.e.keyObject, OnOperation(s, a);
    OperationLog(s, a);
    OperationTokens(s, a);
    OperationQueue(s, a);
    hide OwnOpen, Arrived, Latest, OnOperation, GrowsOtherwise, CountedOk;
    PendingLonger(calls, Traced(a), s.issued, s.pending);
    LogLonger(calls, Traced(a), s.issued, s.log, r.log);
    forall d | d in r.deferred ensures QueuedOk(calls + [Traced(a)], r.issued, d) {
      if d in s.deferred {
        QueuedLonger(calls, Traced(a), s.issued, d);
      } else if x in s.pending {
        JustFollowed(calls, a, s.issued[s.pending[x]]);
      }
      JustArrived(calls, a);
    }
  }

  /** An operation is queued on its address's pending open, or on the address. */
  lemma OperationQueue(s: State, a: Arrival)
    ensures forall d :: d in OnOperation(s, a).deferred ==>
      d in s.deferred
      || (d.a == a
          && d.waiting == if a.e.keyObject in s.pending then s.pending[a.e.keyObject] else a.e.keyObject)
  {}

  /** What is queued after an open: what was, what moved to its token, and the open. */
  lemma OpenedQueue(n: Naming, s: State, a: Arrival)
    ensures var r := Opened(n, s, a);
      forall d :: d in r.deferred ==>
        d in s.deferred || d.a == a
        || (r.nextToken == s.nextToken + 1
            && exists e :: e in s.deferred && Moves(e, a.e.keyObject, a.e.stamp) && d == e.(waiting := s.nextToken))
  {
    OpenedExactly(n, s, a);
    hide Opened, OpenName, GaveUp, NeedsToken;
    var r := Opened(n, s, a);
    forall d | d in r.deferred && d !in s.deferred && d.a != a
      ensures r.nextToken == s.nextToken + 1
        && exists e :: e in s.deferred && Moves(e, a.e.keyObject, a.e.stamp) && d == e.(waiting := s.nextToken)
    {
      var i :| 0 <= i < |r.deferred| && r.deferred[i] == d;
      assert i < |s.deferred|;
      assert s.deferred[i] in s.deferred;
    }
  }

  /** An open that takes its address over leaves queued only what is not earlier, and nothing pending on the address. */
  lemma ReopenedOwn(calls: seq<Call>, s: State, a: Arrival)
    requires Inv(s) && OwnInv(calls, s) && EventOk(a)
    ensures OwnInv(calls + [Traced(a)], Reopened(s, a.e.keyObject, a.e.stamp))
  {
    hide OwnOpen, Arrived, Latest, CountedOk, GrowsOtherwise;
    var x, c := a.e.keyObject, Traced(a);
    var r := Reopened(s, x, a.e.stamp);
    ReopenedLog(s, x, a.e.stamp);
    ReopenedRest(s, x, a.e.stamp);
    forall k | k in r.pending ensures k != x {
      assert s.issued[s.pending[k]].e.keyObject == k && NeedsToken(s.issued[s.pending[k]].e);
    }
    PendingLonger(calls, c, s.issued, r.pending);
    LogLonger(calls, c, s.issued, s.log, r.log);
    forall d | d in r.deferred ensures QueuedOk(calls + [c], r.issued, d) {
      assert EntryOk(s, d);
      QueuedLonger(calls, c, s.issued, d);
    }
  }

  lemma ReopenedRest(s: State, x: nat, stamp: int)
    ensures var r := Reopened(s, x, stamp);
      && r.issued == s.issued && r.pending == (if x == 0 then s.pending else s.pending - {x})
      && forall d :: d in r.deferred ==> d in s.deferred && (x != 0 ==> !IsEarlier(d, x, stamp))
  {
    if x != 0 {
      ReopenedExactly(s, x, stamp);
      forall d | d in Reopened(s, x, stamp).deferred ensures d in s.deferred && !IsEarlier(d, x, stamp) {
        OthersAre(s.deferred, x, stamp, d);
      }
    }
  }

  /** A queued operation that moves to an open's token has that open. */
  lemma MovedIsOwn(calls: seq<Call>, s: State, d: Deferred, a: Arrival)
    requires EntryOk(s, d) && QueuedOk(calls + [Traced(a)], s.issued, d) && Moves(d, a.e.keyObject, a.e.stamp)
    requires !IsOpen(d.a.e) && IsOpen(a.e) && !IsIgnored(a.e) && !IsToken(a.e.keyObject)
    ensures OwnOpen(calls + [Traced(a)], d.a, a)
  {
    hide OwnOpen, Arrived;
    JustCaught(calls, d.a, a);
  }

  lemma OpenedOwn(n: Naming, calls: seq<Call>, s: State, a: Arrival)
    requires Inv(s) && OwnInv(calls + [Traced(a)], s)
    requires IsOpen(a.e) && !IsIgnored(a.e) && EventOk(a)
    ensures OwnInv(calls + [Traced(a)], Opened(n, s, a))
  {
    hide OwnOpen, Arrived, Latest, Opened, GrowsOtherwise;
    var more, r := calls + [Traced(a)], Opened(n, s, a);
    OpenedTokens(n, s, a);
    OpenedPending(n, s, a);
    OpenedQueue(n, s, a);
    JustOpened(calls, a);
    assert s.nextToken !in s.issued;
    forall d | d in r.deferred ensures QueuedOk(more, r.issued, d) {
      if d !in s.deferred && d.a != a && !IsOpen(d.a.e) {
        var e :| e in s.deferred && Moves(e, a.e.keyObject, a.e.stamp) && d == e.(waiting := s.nextToken);
        assert EntryOk(s, e);
        MovedIsOwn(calls, s, e, a);
      } else if d in s.deferred {
        assert QueuedOk(more, s.issued, d);
      }
    }
    OpenedLog(n, s, a);
    LogIssued(more, s.issued, r.issued, s.log, r.log);
  }

  lemma LogIssued(calls: seq<Call>, issued: map<nat, Arrival>, later: map<nat, Arrival>, log: seq<LogEntry>,
                  more: seq<LogEntry>)
    requires (forall j :: 0 <= j < |log| ==> CountedOk(calls, issued, log[j])) && GrowsOtherwise(log, more)
    requires forall t :: t in issued ==> t in later && later[t] == issued[t]
    ensures forall j :: 0 <= j < |more| ==> CountedOk(calls, later, more[j])
  {
    hide OwnOpen;
    forall j | 0 <= j < |more| ensures CountedOk(calls, later, more[j]) {
      if j < |log| { assert more[j] == log[j] && CountedOk(calls, issued, log[j]); }
    }
  }

  lemma OpenKeepsOwn(n: Naming, calls: seq<Call>, s: State, a: Arrival)
    requires Inv(s) && OwnInv(calls, s) && IsOpen(a.e) && !IsIgnored(a.e) && EventOk(a)
    ensures OwnInv(calls + [Traced(a)], OnOpen(n, s, a))
  {
    hide Inv, OwnInv, Opened, Reopened;
    ReopenedOwn(calls, s, a);
    ReopenedKeeps(s, a.e.keyObject, a.e.stamp);
    OpenedOwn(n, calls, Reopened(s, a.e.keyObject, a.e.stamp), a);
  }

  lemma StepKeepsOwn(n: Naming, calls: seq<Call>, s: State, c: Call)
    requires Inv(s) && OwnInv(calls, s) && OutsideTokens(c)
    ensures OwnInv(calls + [c], Step(n, s, c))
  {
    hide Inv, OwnInv, OnOpen, OnOperation, ApplyDeferred, Rows;
    match c
    case Traced(a) =>
      if IsIgnored(a.e) {
        QuietKeepsOwn(calls, c, s, s);
      } else if IsOpen(a.e) {
        OpenKeepsOwn(n, calls, s, a);
      } else {
        OperationKeepsOwn(calls, s, a);
      }
    case Apply => ApplyKeepsOwn(n, calls, s);
    case _ => QuietKeepsOwn(calls, c, s, Step(n, s, c));
  }

  lemma {:induction false} RunKeepsOwn(n: Naming, calls: seq<Call>)
    requires (forall c :: c in calls ==> OutsideTokens(c)) && Run(n, Empty, calls).nextToken <= TOKEN_END
    ensures OwnInv(calls, Run(n, Empty, calls))
  {
    hide Step, Inv;
    if calls != [] {
      var k := |calls| - 1;
      TokensOnlyGrow(n, Run(n, Empty, calls[..k]), calls[k]);
      RunKeepsOwn(n, calls[..k]);
      RunKeeps(n, calls[..k]);
      StepKeepsOwn(n, calls[..k], Run(n, Empty, calls[..k]), calls[k]);
      assert calls[..k] + [calls[k]] == calls;
    }
  }

  /** An operation counted after waiting on a token went under the name of its own open: the latest accepted open of its
      key object's address when it arrived, or, if it arrived early, one that by its stamp is not later. */
  lemma OperationsHaveTheirOpens(n: Naming, calls: seq<Call>, j: nat)
    requires (forall c :: c in calls ==> OutsideTokens(c)) && Run(n, Empty, calls).nextToken <= TOKEN_END
    requires var log := Run(n, Empty, calls).log;
      j < |log| && log[j].Charge? && log[j].via.Resumed? && IsToken(log[j].via.on) && !IsOpen(log[j].a.e)
    ensures var log := Run(n, Empty, calls).log;
      exists i :: 0 <= i < j && log[i].Charge? && log[i].token == log[j].via.on && log[i].name == log[j].name
                  && OwnOpen(calls, log[j].a, log[i].a)
  {
    hide OwnOpen, Run, Inv, Latest;
    var s := Run(n, Empty, calls);
    RunKeepsOwn(n, calls);
    assert CountedOk(calls, s.issued, s.log[j]);
    TokenAttribution(n, calls, j);
    RunKeeps(n, calls);
    var i :| 0 <= i < j && s.log[i].Charge? && s.log[i].token == s.log[j].via.on && s.log[i].name == s.log[j].name;
    OwnTokens(s, i);
  }

  lemma OwnTokens(s: State, i: nat)
    requires Inv(s) && i < |s.log| && s.log[i].Charge? && s.log[i].token != 0
    ensures s.log[i].token in s.issued && s.issued[s.log[i].token] == s.log[i].a
  {
    assert Attributed(s, i);
  }
}
