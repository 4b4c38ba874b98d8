/** The names and failures a run's calls and log say there are, and every event counted by them. */
module RegistryHistory {
  import opened Optional
  import opened RegistryModel
  import opened RegistryInvariant
  import opened RegistryAccounting
  import opened RegistryAttribution
  import opened RegistryOwnership
  import opened RegistryNames

  // ----- what the calls and the log say

  /** The i-th call brings the open that gets token t. */
  ghost predicate Issues(n: Naming, calls: seq<Call>, t: nat, i: nat) {
    i < |calls| && Run(n, Empty, calls[..i]).nextToken == t && Run(n, Empty, calls[..i + 1]).nextToken == t + 1
  }

  /** No open of address k was accepted after the one that got token t. */
  ghost predicate StillOwns(n: Naming, calls: seq<Call>, t: nat, k: nat) {
    exists i: nat :: OwnsSince(n, calls, t, k, i)
  }

  ghost predicate OwnsSince(n: Naming, calls: seq<Call>, t: nat, k: nat, i: nat) {
    Issues(n, calls, t, i) && IsOpenOf(calls[i], k) && NoOpenIn(calls, i + 1, |calls|, k)
  }

  ghost function Claims(n: Naming, calls: seq<Call>): (nat, nat) -> bool {
    (t: nat, k: nat) => StillOwns(n, calls, t, k)
  }

  /** What the last call counted. */
  ghost function Counted(n: Naming, calls: seq<Call>): seq<LogEntry>
    requires calls != []
  {
    var m := |calls| - 1;
    StepLog(n, Run(n, Empty, calls[..m]), calls[m]);
    Run(n, Empty, calls).log[|Run(n, Empty, calls[..m]).log|..]
  }

  /** The last call brings an open that has to wait with a token: of the events it counts, all are a closed key's. */
  ghost predicate Waits(n: Naming, calls: seq<Call>)
    requires calls != []
  {
    var c := calls[|calls| - 1];
    && c.Traced? && IsOpen(c.a.e) && !IsIgnored(c.a.e) && NeedsToken(c.a.e)
    && forall x :: x in Counted(n, calls) ==> x.Charge? && x.via.Flushed?
  }

  /** The names there are once the first j events the last call counts have been counted. */
  ghost function NamesAt(n: Naming, calls: seq<Call>, j: nat): map<nat, Name>
    requires calls != [] && j <= |Counted(n, calls)|
    decreases |calls|, 0
  {
    var front := calls[..|calls| - 1];
    Read(NamesTold(n, front), Counted(n, calls)[..j], Claims(n, front))
  }

  /** The names there are: those the resolver and the events counted gave last, but for an address whose open has to
      wait, and those unused for too long at a prune. */
  ghost function NamesTold(n: Naming, calls: seq<Call>): map<nat, Name>
    decreases |calls|, 1
  {
    if calls == [] then map[]
    else NamesAfter(n, NamesAt(n, calls, |Counted(n, calls)|), calls[|calls| - 1], Waits(n, calls))
  }

  ghost function NamesAfter(n: Naming, names: map<nat, Name>, c: Call, waits: bool): map<nat, Name> {
    match c
    case Traced(a) => if waits then names - {a.e.keyObject} else names
    case Named(x, name, tick) => names[x := Name(n.registryName(name), tick)]
    case Pruned(tick) => map x | x in names && Elapsed(tick, names[x].tick) <= 120000 :: names[x]
    case Cleared => map[]
    case _ => names
  }

  /** The resolver's failures: since an address was opened last, and while something waits on it at every prune. */
  ghost function AttemptsTold(n: Naming, calls: seq<Call>): map<nat, Attempts> {
    if calls == [] then map[]
    else
      var front := calls[..|calls| - 1];
      AttemptsAfter(AttemptsTold(n, front), calls[|calls| - 1], Run(n, Empty, front).deferred)
  }

  ghost function AttemptsAfter(attempts: map<nat, Attempts>, c: Call, queued: seq<Deferred>): map<nat, Attempts> {
    match c
    case Traced(a) =>
      if IsOpen(a.e) && !IsIgnored(a.e) && a.e.keyObject != 0 then attempts - {a.e.keyObject} else attempts
    case Failed(x, why) => attempts[x := Attempts((if x in attempts then attempts[x].count else 0) + 1, why)]
    case Pruned(_) => map x | x in attempts && IsWaited(queued, x) :: attempts[x]
    case Cleared => map[]
    case _ => attempts
  }

  lemma StepLog(n: Naming, s: State, c: Call)
    ensures s.log <= Step(n, s, c).log
  {
    hide OnOpen, OnOperation, Rows, GrowsOtherwise, ApplyAll;
    match c
    case Traced(a) =>
      if !IsIgnored(a.e) && IsOpen(a.e) { OpenLog(n, s, a); }
      OperationLog(s, a);
      GrowsOn(s.log, OnOperation(s, a).log);
    case Apply => ApplyAllLog(n, s.(deferred := []), s.deferred);
    case _ =>
  }

  lemma GrowsOn(log: seq<LogEntry>, more: seq<LogEntry>)
    requires GrowsOtherwise(log, more)
    ensures log <= more
  {}

  lemma OpenLog(n: Naming, s: State, a: Arrival)
    ensures s.log <= OnOpen(n, s, a).log
  {
    hide Opened, Reopened;
    var f := Reopened(s, a.e.keyObject, a.e.stamp);
    ReopenedLog(s, a.e.keyObject, a.e.stamp);
    OpenedLog(n, f, a);
  }

  // ----- a longer run

  lemma RunMore(n: Naming, calls: seq<Call>, c: Call)
    ensures Run(n, Empty, calls + [c]) == Step(n, Run(n, Empty, calls), c)
  {
    hide Step;
    assert (calls + [c])[..|calls|] == calls;
  }

  lemma IssuesMore(n: Naming, calls: seq<Call>, c: Call, t: nat, i: nat)
    requires i < |calls|
    ensures Issues(n, calls + [c], t, i) <==> Issues(n, calls, t, i)
  {
    hide Run;
    assert (calls + [c])[..i] == calls[..i] && (calls + [c])[..i + 1] == calls[..i + 1];
  }

  lemma NotIssuedLast(n: Naming, calls: seq<Call>, c: Call, t: nat)
    requires t < Run(n, Empty, calls).nextToken
    ensures !Issues(n, calls + [c], t, |calls|)
  {
    hide Run;
    assert (calls + [c])[..|calls|] == calls;
  }

  /** An owner stays one until its address is opened again. */
  lemma ClaimsLonger(n: Naming, calls: seq<Call>, c: Call, t: nat, k: nat)
    requires t < Run(n, Empty, calls).nextToken
    ensures StillOwns(n, calls + [c], t, k) <==> StillOwns(n, calls, t, k) && !IsOpenOf(c, k)
  {
    hide Run, IsOpenOf;
    var more := calls + [c];
    NotIssuedLast(n, calls, c, t);
    if StillOwns(n, more, t, k) {
      var i: nat :| OwnsSince(n, more, t, k, i);
      IssuesMore(n, calls, c, t, i);
      assert more[|calls|] == c && more[i] == calls[i];
      assert forall j :: i + 1 <= j < |calls| ==> more[j] == calls[j];
      assert OwnsSince(n, calls, t, k, i);
    }
    if StillOwns(n, calls, t, k) && !IsOpenOf(c, k) {
      var i: nat :| OwnsSince(n, calls, t, k, i);
      IssuesMore(n, calls, c, t, i);
      assert OwnsSince(n, more, t, k, i);
    }
  }

  /** The open that gets a token owns its address at first. */
  lemma ClaimsNew(n: Naming, calls: seq<Call>, c: Call, k: nat)
    requires IsOpenOf(c, k) && Run(n, Empty, calls + [c]).nextToken == Run(n, Empty, calls).nextToken + 1
    ensures StillOwns(n, calls + [c], Run(n, Empty, calls).nextToken, k)
  {
    hide Run, IsOpenOf;
    var more := calls + [c];
    assert more[..|calls|] == calls && more[..|calls| + 1] == more && more[|calls|] == c;
    assert OwnsSince(n, more, Run(n, Empty, calls).nextToken, k, |calls|);
  }

  // ----- the history says what the table holds

  ghost predicate IsHistory(n: Naming, calls: seq<Call>) {
    var s := Run(n, Empty, calls);
    && s.names == NamesTold(n, calls) && s.attempts == AttemptsTold(n, calls)
    && OwnsPending(s.pending, s.deferred, Claims(n, calls))
  }

  /** Every event the last call counts is counted as the names and failures there are say. */
  ghost predicate AllTold(n: Naming, calls: seq<Call>)
    requires calls != []
  {
    forall j :: 0 <= j < |Counted(n, calls)| ==>
      IsTold(n, NamesAt(n, calls, j), AttemptsTold(n, calls), Counted(n, calls)[j])
  }

  lemma TellsAll(n: Naming, calls: seq<Call>, c: Call, r: State, attempts: map<nat, Attempts>)
    requires var s := Run(n, Empty, calls);
      Tells(n, s, r, attempts, Claims(n, calls)) && s.names == NamesTold(n, calls)
    requires r.log == Run(n, Empty, calls + [c]).log && attempts == AttemptsTold(n, calls + [c])
    ensures AllTold(n, calls + [c]) && r.names == NamesAt(n, calls + [c], |Counted(n, calls + [c])|)
    ensures Counted(n, calls + [c]) == r.log[|Run(n, Empty, calls).log|..]
  {
    hide Run, Read, IsTold, NamesTold, AttemptsTold, Step;
    var s, more := Run(n, Empty, calls), calls + [c];
    assert more[..|calls|] == calls;
    CountedIs(n, calls, c);
    var x := Counted(n, more);
    forall j | 0 <= j < |x| ensures IsTold(n, NamesAt(n, more, j), attempts, x[j]) {
      assert x[..j] == r.log[|s.log|..|s.log| + j];
    }
    assert x[..|x|] == x;
  }

  lemma CountedIs(n: Naming, calls: seq<Call>, c: Call)
    ensures Run(n, Empty, calls).log <= Run(n, Empty, calls + [c]).log
    ensures Counted(n, calls + [c]) == Run(n, Empty, calls + [c]).log[|Run(n, Empty, calls).log|..]
  {
    RunMore(n, calls, c);
    hide Step, Run;
    StepLog(n, Run(n, Empty, calls), c);
    assert (calls + [c])[..|calls|] == calls && (calls + [c])[|calls|] == c;
  }

  /** A call that counts nothing. */
  lemma NothingCounted(n: Naming, calls: seq<Call>, c: Call)
    requires var s, r := Run(n, Empty, calls), Run(n, Empty, calls + [c]);
      r.log == s.log || (|r.log| == |s.log| + 1 && r.log[|s.log|].Forget?)
    ensures AllTold(n, calls + [c]) && NamesAt(n, calls + [c], |Counted(n, calls + [c])|) == NamesTold(n, calls)
  {
    CountedIs(n, calls, c);
    hide Run, NamesTold, AttemptsTold, Step;
    var more := calls + [c];
    assert more[..|calls|] == calls;
    var x := Counted(n, more);
    if x != [] { assert x[..|x|] == x && x[..0] == []; }
  }

  // ----- the steps keep it

  /** The opens queued own what they did, after a call that is no open. */
  lemma OthersStillOwn(n: Naming, calls: seq<Call>, c: Call)
    requires var s, r := Run(n, Empty, calls), Run(n, Empty, calls + [c]);
      && Inv(s) && OwnsPending(r.pending, r.deferred, Claims(n, calls)) && (forall k :: !IsOpenOf(c, k))
      && forall d :: d in r.deferred && IsOpen(d.a.e) ==> d in s.deferred
    ensures var r := Run(n, Empty, calls + [c]); OwnsPending(r.pending, r.deferred, Claims(n, calls + [c]))
  {
    hide Run, StillOwns, IsOpenOf;
    var s, r := Run(n, Empty, calls), Run(n, Empty, calls + [c]);
    forall d | d in r.deferred && IsOpen(d.a.e) ensures IsOwner(r.pending, d, Claims(n, calls + [c])) {
      assert IsOwner(r.pending, d, Claims(n, calls));
      TokenIsOld(s, d);
      ClaimsLonger(n, calls, c, d.token, d.a.e.keyObject);
    }
  }

  lemma TokenIsOld(s: State, d: Deferred)
    requires Inv(s) && d in s.deferred
    ensures d.token < s.nextToken
  {
    assert EntryOk(s, d);
  }

  lemma OperationHistory(n: Naming, calls: seq<Call>, a: Arrival)
    requires Inv(Run(n, Empty, calls)) && IsHistory(n, calls) && (IsOpen(a.e) ==> IsIgnored(a.e))
    ensures IsHistory(n, calls + [Traced(a)]) && AllTold(n, calls + [Traced(a)])
  {
    var s, c := Run(n, Empty, calls), Traced(a);
    RunMore(n, calls, c);
    ToldOfOthers(n, calls, c);
    if IsIgnored(a.e) {
      NothingCounted(n, calls, c);
    } else {
      OperationTells(n, s, a, Claims(n, calls));
      TellsAll(n, calls, c, OnOperation(s, a), s.attempts);
      OperationQueue(s, a);
      OperationLog(s, a);
    }
    hide Run, OnOperation, NamesTold, AttemptsTold, StillOwns, Inv;
    OthersStillOwn(n, calls, c);
  }

  /** A traced event that is no accepted open leaves the names as counted, and the failures. */
  lemma ToldOfOthers(n: Naming, calls: seq<Call>, c: Call)
    requires c.Traced? && (IsOpen(c.a.e) ==> IsIgnored(c.a.e))
    ensures AttemptsTold(n, calls + [c]) == AttemptsTold(n, calls)
    ensures NamesTold(n, calls + [c]) == NamesAt(n, calls + [c], |Counted(n, calls + [c])|)
  {
    assert (calls + [c])[..|calls|] == calls;
    hide Run;
  }

  lemma PassHistory(n: Naming, calls: seq<Call>)
    requires Inv(Run(n, Empty, calls)) && IsHistory(n, calls)
    ensures IsHistory(n, calls + [Apply]) && AllTold(n, calls + [Apply])
  {
    var s := Run(n, Empty, calls);
    var b := s.(deferred := []);
    RunMore(n, calls, Apply);
    assert b.deferred + s.deferred == s.deferred;
    PassTokens(s);
    ApplyTells(n, b, s.deferred, Claims(n, calls));
    ApplyAllLog(n, b, s.deferred);
    var r := ApplyAll(n, b, s.deferred);
    SameTold(n, b, r, s, ApplyDeferred(n, s), s.attempts, Claims(n, calls));
    ToldOfPass(n, calls);
    TellsAll(n, calls, Apply, ApplyDeferred(n, s), s.attempts);
    hide Run, ApplyAll, NamesTold, AttemptsTold, StillOwns, Inv;
    OthersStillOwn(n, calls, Apply);
  }

  lemma PassTokens(s: State)
    requires Inv(s)
    ensures forall t :: t != 0 ==> RegistryInvariant.Owners(s.deferred, t) <= 1
  {}

  lemma ToldOfPass(n: Naming, calls: seq<Call>)
    ensures AttemptsTold(n, calls + [Apply]) == AttemptsTold(n, calls)
    ensures NamesTold(n, calls + [Apply]) == NamesAt(n, calls + [Apply], |Counted(n, calls + [Apply])|)
  {
    assert (calls + [Apply])[..|calls|] == calls;
    hide Run;
  }

  /** A call that traces and counts nothing. */
  lemma QuietHistory(n: Naming, calls: seq<Call>, c: Call)
    requires Inv(Run(n, Empty, calls)) && IsHistory(n, calls) && !c.Traced? && !c.Apply?
    ensures IsHistory(n, calls + [c]) && AllTold(n, calls + [c])
  {
    RunMore(n, calls, c);
    QuietStep(n, Run(n, Empty, calls), c);
    NothingCounted(n, calls, c);
    QuietTold(n, calls, c);
    hide Run, NamesTold, AttemptsTold, StillOwns, Inv, Rows;
    OthersStillOwn(n, calls, c);
  }

  lemma QuietStep(n: Naming, s: State, c: Call)
    requires !c.Traced? && !c.Apply?
    ensures var r := Step(n, s, c);
      && (r.log == s.log || (|r.log| == |s.log| + 1 && r.log[|s.log|].Forget?))
      && ((r.deferred == s.deferred && r.pending == s.pending) || r.deferred == [])
      && r.names == NamesAfter(n, s.names, c, false) && r.attempts == AttemptsAfter(s.attempts, c, s.deferred)
  {
    hide Rows, Elapsed, IsWaited;
  }

  lemma QuietTold(n: Naming, calls: seq<Call>, c: Call)
    requires IsHistory(n, calls) && !c.Traced? && !c.Apply?
    requires NamesAt(n, calls + [c], |Counted(n, calls + [c])|) == NamesTold(n, calls)
    ensures var r := Step(n, Run(n, Empty, calls), c);
      r.names == NamesTold(n, calls + [c]) && r.attempts == AttemptsTold(n, calls + [c])
  {
    var s := Run(n, Empty, calls);
    QuietStep(n, s, c);
    assert (calls + [c])[..|calls|] == calls && (calls + [c])[|calls|] == c;
    hide Run, NamesAt, Step, NamesAfter, AttemptsAfter, OwnsPending;
    assert !Waits(n, calls + [c]);
  }

  // ----- an open

  lemma OpenHistory(n: Naming, calls: seq<Call>, a: Arrival)
    requires Inv(Run(n, Empty, calls)) && IsHistory(n, calls) && IsOpen(a.e) && !IsIgnored(a.e) && EventOk(a)
    ensures IsHistory(n, calls + [Traced(a)]) && AllTold(n, calls + [Traced(a)])
  {
    hide Inv, Reopened, Opened, NamesTold, AttemptsTold, StillOwns, IsOwner;
    RunMore(n, calls, Traced(a));
    OpenTold(n, calls, a);
    OpenOwns(n, calls, a);
  }

  lemma OpenTold(n: Naming, calls: seq<Call>, a: Arrival)
    requires Inv(Run(n, Empty, calls)) && IsHistory(n, calls) && IsOpen(a.e) && !IsIgnored(a.e)
    ensures var r := Run(n, Empty, calls + [Traced(a)]);
      && r.names == NamesTold(n, calls + [Traced(a)]) && r.attempts == AttemptsTold(n, calls + [Traced(a)])
      && AllTold(n, calls + [Traced(a)])
  {
    var s, c, owns := Run(n, Empty, calls), Traced(a), Claims(n, calls);
    var f := Reopened(s, a.e.keyObject, a.e.stamp);
    var r := Opened(n, f, a);
    RunMore(n, calls, c);
    ReopenedTells(n, s, a.e.keyObject, a.e.stamp, owns);
    ReopenedRest(s, a.e.keyObject, a.e.stamp);
    HasTokens(s);
    SameTokens(s, a.e.keyObject, a.e.stamp);
    OpenedTells(n, f, a, owns);
    FailuresOfOpen(n, calls, a);
    hide Run, Reopened, Opened, Tells, NamesTold, AttemptsTold, Inv, NamesAt, Counted, AllTold;
    NamesOfOpen(n, calls, a);
    if r.log == f.log && NeedsToken(a.e) {
      TellsAll(n, calls, c, f, f.attempts);
      FlushedOnly(s.log, f.log);
    } else {
      TellsOn(n, s, f, r, f.attempts, owns);
      TellsAll(n, calls, c, r, f.attempts);
      TellsLonger(n, s, f, f.attempts, owns);
      if NeedsToken(a.e) { OwnIsCounted(s.log, f, r); }
    }
  }

  lemma HasTokens(s: State)
    requires Inv(s)
    ensures s.nextToken > 0
  {}

  lemma SameTokens(s: State, x: nat, stamp: int)
    ensures Reopened(s, x, stamp).nextToken == s.nextToken
  {}

  lemma FlushedOnly(log: seq<LogEntry>, more: seq<LogEntry>)
    requires log <= more && forall j :: |log| <= j < |more| ==> more[j].Charge? && more[j].via.Flushed?
    ensures forall x :: x in more[|log|..] ==> x.Charge? && x.via.Flushed?
  {}

  lemma OwnIsCounted(log: seq<LogEntry>, f: State, r: State)
    requires log <= f.log && CountsOne(f, r)
    ensures exists x :: x in r.log[|log|..] && !(x.Charge? && x.via.Flushed?)
  {
    assert r.log[|log|..][|f.log| - |log|] == r.log[|f.log|];
  }

  lemma FailuresOfOpen(n: Naming, calls: seq<Call>, a: Arrival)
    requires IsHistory(n, calls) && IsOpen(a.e) && !IsIgnored(a.e)
    ensures var attempts := Run(n, Empty, calls).attempts;
      AttemptsTold(n, calls + [Traced(a)]) == if a.e.keyObject == 0 then attempts else attempts - {a.e.keyObject}
  {
    assert (calls + [Traced(a)])[..|calls|] == calls;
    hide Run;
  }

  lemma NamesOfOpen(n: Naming, calls: seq<Call>, a: Arrival)
    requires IsOpen(a.e) && !IsIgnored(a.e)
    ensures var more := calls + [Traced(a)];
      var names := NamesAt(n, more, |Counted(n, more)|);
      NamesTold(n, more)
        == if NeedsToken(a.e) && forall x :: x in Counted(n, more) ==> x.Charge? && x.via.Flushed?
           then names - {a.e.keyObject} else names
  {
    hide Run, NamesAt, Counted;
  }

  lemma OpenOwns(n: Naming, calls: seq<Call>, a: Arrival)
    requires Inv(Run(n, Empty, calls)) && IsHistory(n, calls) && IsOpen(a.e) && !IsIgnored(a.e) && EventOk(a)
    ensures var r := Run(n, Empty, calls + [Traced(a)]);
      OwnsPending(r.pending, r.deferred, Claims(n, calls + [Traced(a)]))
  {
    var s, k := Run(n, Empty, calls), a.e.keyObject;
    var f := Reopened(s, k, a.e.stamp);
    var r := Opened(n, f, a);
    RunMore(n, calls, Traced(a));
    ReopenedRest(s, k, a.e.stamp);
    SameTokens(s, k, a.e.stamp);
    OpenPends(n, s, f, a);
    hide Run, Reopened, Opened, StillOwns, Inv, IsOwner, NeedsToken, PendsOn;
    forall d | d in r.deferred && IsOpen(d.a.e) ensures IsOwner(r.pending, d, Claims(n, calls + [Traced(a)])) {
      OpenOwner(n, calls, a, f, r, d);
    }
  }

  /** What an open leaves pending: nothing else on its address, and all on the others. */
  ghost predicate PendsOn(s: State, r: State, k: nat) {
    && (forall x :: x != k ==> (x in r.pending <==> x in s.pending))
    && (forall x :: x != k && x in s.pending ==> r.pending[x] == s.pending[x])
    && (k in r.pending ==> r.pending[k] == s.nextToken)
  }

  lemma OpenPends(n: Naming, s: State, f: State, a: Arrival)
    requires Inv(s) && f.nextToken == s.nextToken
    requires f.pending == if a.e.keyObject == 0 then s.pending else s.pending - {a.e.keyObject}
    ensures PendsOn(s, Opened(n, f, a), a.e.keyObject)
  {
    NothingPendsOnNull(s);
    PendingAfter(n, f, a);
    hide Inv, Opened;
  }

  /** An open queued after another open owns its address if it is pending on it. */
  lemma OpenOwner(n: Naming, calls: seq<Call>, a: Arrival, f: State, r: State, d: Deferred)
    requires var s := Run(n, Empty, calls);
      && Inv(s) && OwnsPending(s.pending, s.deferred, Claims(n, calls)) && f.nextToken == s.nextToken
      && (forall e :: e in f.deferred ==> e in s.deferred)
      && Run(n, Empty, calls + [Traced(a)]) == r && PendsOn(s, r, a.e.keyObject)
    requires r == Opened(n, f, a) && d in r.deferred && IsOpen(d.a.e) && IsOpen(a.e) && !IsIgnored(a.e)
    ensures IsOwner(r.pending, d, Claims(n, calls + [Traced(a)]))
  {
    var s, more := Run(n, Empty, calls), calls + [Traced(a)];
    HasTokens(s);
    hide Run, Opened, StillOwns, Inv, IsOwner;
    if e :| e in f.deferred && e.a == d.a && e.token == d.token {
      TokenIsOld(s, e);
      OldOwner(n, calls, a, e, s.pending, r.pending);
      SameOwner(e, d, r.pending, Claims(n, more));
    } else {
      QueuedAfter(n, f, a, d);
      if d.token == 0 {
        NoOwner(n, calls, a, d, r.pending);
      } else {
        PendingAfter(n, f, a);
        NewOwner(n, calls, a, d, r.pending);
      }
    }
  }

  lemma OldOwner(n: Naming, calls: seq<Call>, a: Arrival, e: Deferred, was: map<nat, nat>, later: map<nat, nat>)
    requires IsOwner(was, e, Claims(n, calls)) && e.token < Run(n, Empty, calls).nextToken
    requires IsOpen(a.e) && !IsIgnored(a.e)
    requires forall x :: x != a.e.keyObject ==> (x in later <==> x in was) && (x in was ==> later[x] == was[x])
    requires a.e.keyObject in later ==> later[a.e.keyObject] != e.token
    ensures IsOwner(later, e, Claims(n, calls + [Traced(a)]))
  {
    hide Run, StillOwns;
    ClaimsLonger(n, calls, Traced(a), e.token, e.a.e.keyObject);
  }

  lemma SameOwner(e: Deferred, d: Deferred, pending: map<nat, nat>, owns: (nat, nat) -> bool)
    requires IsOwner(pending, e, owns) && e.a == d.a && e.token == d.token
    ensures IsOwner(pending, d, owns)
  {}

  lemma NoOwner(n: Naming, calls: seq<Call>, a: Arrival, d: Deferred, later: map<nat, nat>)
    requires 0 < Run(n, Empty, calls).nextToken && IsOpen(a.e) && !IsIgnored(a.e) && d.a == a && d.token == 0
    requires a.e.keyObject in later ==> later[a.e.keyObject] != 0
    ensures IsOwner(later, d, Claims(n, calls + [Traced(a)]))
  {
    hide Run, StillOwns;
    ClaimsLonger(n, calls, Traced(a), 0, a.e.keyObject);
  }

  lemma NewOwner(n: Naming, calls: seq<Call>, a: Arrival, d: Deferred, later: map<nat, nat>)
    requires IsOpen(a.e) && !IsIgnored(a.e) && d.a == a && d.token == Run(n, Empty, calls).nextToken
    requires Run(n, Empty, calls + [Traced(a)]).nextToken == Run(n, Empty, calls).nextToken + 1
    requires a.e.keyObject in later && later[a.e.keyObject] == d.token
    ensures IsOwner(later, d, Claims(n, calls + [Traced(a)]))
  {
    hide Run, StillOwns;
    ClaimsNew(n, calls, Traced(a), a.e.keyObject);
  }

  /** What is queued after an open is as it was, but for what it waits on, or is the open. */
  lemma QueuedAfter(n: Naming, s: State, a: Arrival, d: Deferred)
    requires d in Opened(n, s, a).deferred && forall e :: e in s.deferred ==> e.a != d.a || e.token != d.token
    ensures d.a == a && |s.deferred| < MAX_DEFERRED
    ensures d.token == 0 || (d.token == s.nextToken && Opened(n, s, a).nextToken == s.nextToken + 1)
  {
    OpenedExactly(n, s, a);
    hide Opened, OpenName, GaveUp, NeedsToken;
    var r := Opened(n, s, a);
    var i :| 0 <= i < |r.deferred| && r.deferred[i] == d;
    assert forall j :: 0 <= j < |s.deferred| ==> s.deferred[j] in s.deferred;
    assert i >= |s.deferred|;
  }

  lemma NothingPendsOnNull(s: State)
    requires Inv(s)
    ensures 0 !in s.pending && forall k :: k in s.pending ==> TOKEN_BASE <= s.pending[k] < s.nextToken
  {
    forall k | k in s.pending ensures k != 0 { assert s.issued[s.pending[k]].e.keyObject == k; }
  }

  /** What is pending after an open: the open, if it is queued with a token, and what was on other addresses. */
  lemma PendingAfter(n: Naming, s: State, a: Arrival)
    ensures var r, k := Opened(n, s, a), a.e.keyObject;
      && (forall x :: x != k ==> (x in r.pending <==> x in s.pending))
      && (forall x :: x != k && x in s.pending ==> r.pending[x] == s.pending[x])
      && (if r.nextToken == s.nextToken + 1 then
            (|s.deferred| < MAX_DEFERRED ==> k in r.pending) && (k in r.pending ==> r.pending[k] == s.nextToken)
          else r.pending == s.pending)
  {
    hide UnnamedBase, OpenName, GaveUp, Retargeted, IsWaited, WhyUnnamed, IsFailure;
  }

  // ----- over every run

  lemma StepTold(n: Naming, calls: seq<Call>, c: Call)
    requires Inv(Run(n, Empty, calls)) && IsHistory(n, calls) && OutsideTokens(c)
    ensures IsHistory(n, calls + [c]) && AllTold(n, calls + [c])
  {
    hide Run, Inv, IsHistory, AllTold;
    match c
    case Traced(a) =>
      if IsOpen(a.e) && !IsIgnored(a.e) { OpenHistory(n, calls, a); } else { OperationHistory(n, calls, a); }
    case Apply => PassHistory(n, calls);
    case _ => QuietHistory(n, calls, c);
  }

  /** In every reachable state the names and the resolver's failures are the ones the calls and the log say, and every
      event was counted by them. */
  lemma {:induction false} RunTold(n: Naming, calls: seq<Call>)
    requires (forall c :: c in calls ==> OutsideTokens(c)) && Run(n, Empty, calls).nextToken <= TOKEN_END
    ensures IsHistory(n, calls) && (calls != [] ==> AllTold(n, calls))
  {
    hide Step, Inv, IsHistory, AllTold;
    if calls == [] {
      NoHistory(n);
    } else {
      var k := |calls| - 1;
      TokensOnlyGrow(n, Run(n, Empty, calls[..k]), calls[k]);
      RunTold(n, calls[..k]);
      RunKeeps(n, calls[..k]);
      assert calls[..k] + [calls[k]] == calls;
      StepTold(n, calls[..k], calls[k]);
    }
  }

  lemma NoHistory(n: Naming)
    ensures IsHistory(n, []) && NamesTold(n, []) == map[]
  {}

  // ----- what names an event

  /** What an operation counts on arrival. */
  ghost predicate AreOnArrival(xs: seq<LogEntry>, a: Arrival, names: map<nat, Name>, attempts: map<nat, Attempts>) {
    var k := a.e.keyObject;
    && |xs| <= 1 && (forall x :: x in xs ==> x.Charge? && x.a == a)
    && (if k in names then xs != [] && xs[0].via.Direct? && xs[0].name == names[k].text
        else forall x :: x in xs && x.via.Direct? ==> x.name == "" && IsGivenUp(attempts, k))
  }

  /** An operation on an address with a name is counted at once, under that name. On one without, it is counted as it
      arrives only if the resolver has given up, and under no name. */
  lemma OperationNamed(n: Naming, calls: seq<Call>, a: Arrival)
    requires (forall c :: c in calls ==> OutsideTokens(c)) && Run(n, Empty, calls).nextToken <= TOKEN_END
    requires !IsOpen(a.e) && !IsIgnored(a.e)
    ensures AreOnArrival(Counted(n, calls + [Traced(a)]), a, NamesTold(n, calls), AttemptsTold(n, calls))
  {
    var c := Traced(a);
    RunMore(n, calls, c);
    RunTold(n, calls);
    CountedIs(n, calls, c);
    OperationCounts(Run(n, Empty, calls), a);
    hide Run, NamesTold, AttemptsTold, Counted, OnOperation, AreOnArrival;
    assert Step(n, Run(n, Empty, calls), c) == OnOperation(Run(n, Empty, calls), a);
  }

  lemma OperationCounts(s: State, a: Arrival)
    ensures var r := OnOperation(s, a);
      s.log <= r.log && AreOnArrival(r.log[|s.log|..], a, s.names, s.attempts)
  {
    hide IsWaited, Charged, Deferring;
    var x, r := a.e.keyObject, OnOperation(s, a);
    if x in s.names {
      CountsJust(s.(names := s.names[x := s.names[x].(tick := a.tick)]), a, s.names[x].text, Direct);
    } else if x in s.pending {
      DeferringCounts(s, a, s.pending[x]);
    } else if GaveUp(s, x) {
      CountsJust(s, a, "", Direct);
    } else {
      DeferringCounts(s, a, x);
    }
  }

  lemma CountsJust(s: State, a: Arrival, name: string, via: Via)
    ensures var r := Charged(s, a, name, true, via, 0);
      && s.log <= r.log && r.log[|s.log|..] == [Charge(a, name, WhyUnnamed(s, a.e.keyObject), via, 0)]
  {
    hide WhyUnnamed;
  }

  lemma DeferringCounts(s: State, a: Arrival, waiting: nat)
    ensures var r := Deferring(s, a, waiting, 0);
      && s.log <= r.log && |r.log[|s.log|..]| <= 1
      && forall x :: x in r.log[|s.log|..] ==> x.Charge? && x.a == a && x.via.Overflowed?
  {
    hide UnnamedBase, IsWaited, Charged;
    if |s.deferred| >= MAX_DEFERRED {
      CountsJust(s, a, UnnamedBase(s, waiting, a.e.name), Overflowed(waiting));
      var name := if IsToken(waiting) && waiting in s.names then s.names[waiting].text else "";
      CountsJust(s, a, name, Overflowed(waiting));
    }
  }

  /** The event counted gives address k the text, or is the open whose token k is. */
  ghost predicate Gives(x: LogEntry, k: nat, text: string, owns: (nat, nat) -> bool) {
    && x.Charge? && IsOpen(x.a.e) && x.name == text
    && ((x.a.e.keyObject == k && k != 0 && text != "" && !IsFailure(x.a.e.status)
         && (x.via.Resumed? ==> owns(x.token, k)))
        || (x.token == k && k != 0 && !x.via.Flushed?))
  }

  ghost predicate HasText(names: map<nat, Name>, k: nat, text: string) { k in names && names[k].text == text }

  /** A name was there before, or was given by one of the events counted. */
  lemma {:induction false} ReadGives(names: map<nat, Name>, more: seq<LogEntry>, owns: (nat, nat) -> bool, k: nat)
    requires k in Read(names, more, owns)
    ensures var text := Read(names, more, owns)[k].text;
      HasText(names, k, text) || exists x :: x in more && Gives(x, k, text, owns)
  {
    if more != [] {
      var front, x := more[..|more| - 1], more[|more| - 1];
      var text := Read(names, more, owns)[k].text;
      assert x in more;
      hide IsFailure;
      if HasText(Read(names, front, owns), k, text) { ReadGives(names, front, owns, k); }
    }
  }

  /** The last call gives address k, or the token k, the text. */
  ghost predicate CallGives(n: Naming, calls: seq<Call>, k: nat, text: string)
    requires calls != []
  {
    var c := calls[|calls| - 1];
    || (c.Named? && c.address == k && text == n.registryName(c.name))
    || exists x :: x in Counted(n, calls) && Gives(x, k, text, Claims(n, calls[..|calls| - 1]))
  }

  /** The i-th call gives k the text, and k keeps it from then on. */
  ghost predicate GivenLast(n: Naming, calls: seq<Call>, k: nat, text: string, i: nat) {
    && i < |calls| && CallGives(n, calls[..i + 1], k, text)
    && forall j :: i < j <= |calls| ==> HasText(NamesTold(n, calls[..j]), k, text)
  }

  /** A name is the one given last: by the resolver, or by an open counted under it that succeeded and, if it had to
      wait, still owned its address. */
  lemma {:induction false} NameWasGiven(n: Naming, calls: seq<Call>, k: nat)
    requires k in NamesTold(n, calls)
    ensures exists i: nat :: GivenLast(n, calls, k, NamesTold(n, calls)[k].text, i)
  {
    NoHistory(n);
    hide NamesTold, CallGives;
    var m, text := |calls| - 1, NamesTold(n, calls)[k].text;
    var front := calls[..m];
    assert calls[..m + 1] == calls && calls[..|calls|] == calls;
    if CallGives(n, calls, k, text) {
      assert GivenLast(n, calls, k, text, m);
    } else {
      NotGiven(n, calls, k, text);
      NameWasGiven(n, front, k);
      var i: nat :| GivenLast(n, front, k, text, i);
      assert front[..i + 1] == calls[..i + 1] && forall j :: 0 <= j <= m ==> front[..j] == calls[..j];
      assert GivenLast(n, calls, k, text, i);
    }
  }

  lemma NotGiven(n: Naming, calls: seq<Call>, k: nat, text: string)
    requires calls != [] && !CallGives(n, calls, k, text) && HasText(NamesTold(n, calls), k, text)
    ensures HasText(NamesTold(n, calls[..|calls| - 1]), k, text)
  {
    var front, xs := calls[..|calls| - 1], Counted(n, calls);
    hide Counted, Run, Waits, Read;
    assert xs[..|xs|] == xs;
    assert HasText(NamesAt(n, calls, |xs|), k, text);
    ReadGives(NamesTold(n, front), xs, Claims(n, front), k);
  }

  // ----- what a pass renames

  /** If a pass changes the name of an address, an open was pending on it, the latest accepted one of the address, and
      the name is the one that open was counted under in the pass. */
  lemma PassRenames(n: Naming, calls: seq<Call>, k: nat)
    requires (forall c :: c in calls ==> OutsideTokens(c)) && Run(n, Empty, calls).nextToken <= TOKEN_END
    requires var s, r := Run(n, Empty, calls), Run(n, Empty, calls + [Apply]);
      !IsToken(k) && k in r.names && !HasText(s.names, k, r.names[k].text)
    ensures var s, r := Run(n, Empty, calls), Run(n, Empty, calls + [Apply]);
      && k in s.pending && s.pending[k] in s.issued && Latest(calls, s.issued[s.pending[k]], k)
      && exists x :: x in Counted(n, calls + [Apply]) && x.Charge? && x.a == s.issued[s.pending[k]]
                     && x.token == s.pending[k] && x.name == r.names[k].text
  {
    var s, r, more := Run(n, Empty, calls), Run(n, Empty, calls + [Apply]), calls + [Apply];
    RunTold(n, calls);
    RunKeeps(n, calls);
    RunKeepsOwn(n, calls);
    RunMore(n, calls, Apply);
    PassHistory(n, calls);
    CountedIs(n, calls, Apply);
    ToldOfPass(n, calls);
    assert more[..|calls|] == calls;
    var text, xs, owns := r.names[k].text, Counted(n, more), Claims(n, calls);
    hide Run, Inv, NamesTold, AttemptsTold, Counted, ApplyDeferred, StillOwns, Latest, QueuedOk, CountedOk, AllTold;
    hide Read;
    assert xs[..|xs|] == xs && NamesAt(n, more, |xs|) == Read(NamesTold(n, calls), xs, owns);
    ReadGives(NamesTold(n, calls), xs, owns, k);
    var x :| x in xs && Gives(x, k, text, owns);
    CountedByPass(n, s, xs, x);
    var d :| d in s.deferred && IsOfEntry(x, d);
    GiverPends(s, d, x, k, text, owns);
  }

  lemma CountedByPass(n: Naming, s: State, xs: seq<LogEntry>, x: LogEntry)
    requires var r := ApplyDeferred(n, s); s.log <= r.log && xs == r.log[|s.log|..] && x in xs
    ensures exists d :: d in s.deferred && IsOfEntry(x, d)
  {
    ApplyAllLog(n, s.(deferred := []), s.deferred);
    hide ApplyAll;
    var r := ApplyDeferred(n, s);
    var j :| 0 <= j < |xs| && xs[j] == x;
    assert r.log[|s.log| + j] == x;
    assert IsOf(r.log[|s.log| + j], s.deferred);
  }

  /** An open counted by a pass that gives its address its name is pending on it. */
  lemma GiverPends(s: State, d: Deferred, x: LogEntry, k: nat, text: string, owns: (nat, nat) -> bool)
    requires Inv(s) && d in s.deferred && IsOfEntry(x, d) && Gives(x, k, text, owns) && !IsToken(k)
    requires OwnsPending(s.pending, s.deferred, owns)
    ensures k in s.pending && s.pending[k] == x.token && s.pending[k] in s.issued && s.issued[s.pending[k]] == x.a
  {
    assert EntryOk(s, d) && IsOwner(s.pending, d, owns);
  }

  // ----- nothing is given up on too soon

  /** How often the resolver has failed on an address since it was opened last. */
  ghost function Failures(calls: seq<Call>, x: nat): nat {
    if calls == [] then 0
    else
      var before, c := Failures(calls[..|calls| - 1], x), calls[|calls| - 1];
      match c
      case Failed(y, _) => if y == x then before + 1 else before
      case Cleared => 0
      case _ => if x != 0 && IsOpenOf(c, x) then 0 else before
  }

  lemma {:induction false} AttemptsAreFailures(n: Naming, calls: seq<Call>, x: nat)
    requires x in AttemptsTold(n, calls)
    ensures AttemptsTold(n, calls)[x].count <= Failures(calls, x)
  {
    hide Run;
    var front := calls[..|calls| - 1];
    if x in AttemptsTold(n, front) { AttemptsAreFailures(n, front, x); }
  }

  /** An event counted though neither it nor what it waited on has a name: the resolver has failed on the address at
      least three times since it was opened last, unless there is no address. */
  lemma NotTooSoon(n: Naming, calls: seq<Call>, j: nat)
    requires (forall c :: c in calls ==> OutsideTokens(c)) && Run(n, Empty, calls).nextToken <= TOKEN_END
    requires calls != [] && j < |Counted(n, calls)|
    ensures var x, names := Counted(n, calls)[j], NamesAt(n, calls, j);
      x.Charge? && (x.via.Direct? || x.via.Resumed?) ==>
        var subject := if x.via.Direct? then Subject(x.a.e) else x.via.on;
        || subject in names || subject == 0 || Failures(calls, subject) >= 3
        || (x.via.Direct? && IsOpen(x.a.e) && IsAbsolute(x.a.e.name))
  {
    RunTold(n, calls);
    hide Run, NamesAt, Counted, CountedName;
    var x := Counted(n, calls)[j];
    assert IsTold(n, NamesAt(n, calls, j), AttemptsTold(n, calls), x);
    if x.Charge? && (x.via.Direct? || x.via.Resumed?) {
      var subject := if x.via.Direct? then Subject(x.a.e) else x.via.on;
      if subject in AttemptsTold(n, calls) { AttemptsAreFailures(n, calls, subject); }
    }
  }
}
