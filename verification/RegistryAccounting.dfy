/** Conservation: every accepted event is counted once or still queued, and the rows add up. */
module RegistryAccounting {
  import opened RegistryModel
  import opened RegistryInvariant

  // ----- any measure of events

  ghost function LogSum(log: seq<LogEntry>, w: Arrival -> nat): nat {
    if log == [] then 0
    else LogSum(log[..|log| - 1], w) + (if log[|log| - 1].Charge? then w(log[|log| - 1].a) else 0)
  }

  ghost function HeldSum(q: seq<Deferred>, w: Arrival -> nat): nat {
    if q == [] then 0 else w(q[0].a) + HeldSum(q[1..], w)
  }

  /** What the run's accepted events amount to. */
  ghost function AcceptedSum(calls: seq<Call>, w: Arrival -> nat): nat {
    if calls == [] then 0
    else
      var c := calls[|calls| - 1];
      AcceptedSum(calls[..|calls| - 1], w) + (if c.Traced? && !IsIgnored(c.a.e) then w(c.a) else 0)
  }

  ghost function Total(s: State, w: Arrival -> nat): nat { LogSum(s.log, w) + HeldSum(s.deferred, w) }

  lemma LogSumPush(log: seq<LogEntry>, x: LogEntry, w: Arrival -> nat)
    ensures LogSum(log + [x], w) == LogSum(log, w) + (if x.Charge? then w(x.a) else 0)
  {
    assert (log + [x])[..|log|] == log;
  }

  lemma {:induction false} HeldSumConcat(a: seq<Deferred>, b: seq<Deferred>, w: Arrival -> nat)
    ensures HeldSum(a + b, w) == HeldSum(a, w) + HeldSum(b, w)
  {
    if a == [] {
      assert a + b == b;
    } else {
      assert (a + b)[1..] == a[1..] + b;
      HeldSumConcat(a[1..], b, w);
    }
  }

  lemma {:induction false} HeldSumRetargeted(q: seq<Deferred>, x: nat, stamp: int, token: nat, w: Arrival -> nat)
    ensures HeldSum(Retargeted(q, x, stamp, token), w) == HeldSum(q, w)
  {
    if q != [] {
      assert Retargeted(q, x, stamp, token)[1..] == Retargeted(q[1..], x, stamp, token);
      HeldSumRetargeted(q[1..], x, stamp, token, w);
    }
  }

  lemma ChargedSum(s: State, a: Arrival, name: string, nameObject: bool, via: Via, token: nat, w: Arrival -> nat)
    ensures LogSum(Charged(s, a, name, nameObject, via, token).log, w) == LogSum(s.log, w) + w(a)
  {
    LogSumPush(s.log, Charge(a, name, WhyUnnamed(s, a.e.keyObject), via, token), w);
  }

  lemma DeferringSum(s: State, a: Arrival, waiting: nat, token: nat, w: Arrival -> nat)
    ensures Total(Deferring(s, a, waiting, token), w) == Total(s, w) + w(a)
  {
    HeldSumConcat(s.deferred, [Deferred(a, waiting, token)], w);
    if IsOpen(a.e) {
      ChargedSum(s, a, UnnamedBase(s, waiting, a.e.name), true, Overflowed(waiting), token, w);
    } else {
      var name := if IsToken(waiting) && waiting in s.names then s.names[waiting].text else "";
      ChargedSum(s, a, name, true, Overflowed(waiting), 0, w);
    }
  }

  lemma {:induction false} FlushAllSum(s: State, x: nat, stamp: int, todo: seq<Deferred>, w: Arrival -> nat)
    ensures Total(FlushAll(s, x, stamp, todo), w) == Total(s, w) + HeldSum(todo, w)
    decreases |todo|
  {
    if todo != [] {
      var d := todo[0];
      HeldSumConcat(s.deferred, [d], w);
      var name := if IsOpen(d.a.e) then UnnamedBase(s, x, d.a.e.name) else "";
      ChargedSum(s, d.a, name, true, Flushed(x), d.token, w);
      FlushAllSum(FlushOne(s, x, stamp, d), x, stamp, todo[1..], w);
    }
  }

  lemma ResumeLogs(n: Naming, s: State, d: Deferred) returns (x: LogEntry)
    ensures x.Charge? && x.a == d.a
    ensures Resume(n, s, d).log == s.log + [x] && Resume(n, s, d).deferred == s.deferred
  {
    var r := Resume(n, s, d);
    if IsOpen(d.a.e) {
      var name := OpenName(n, s, d.a.e);
      var text := if name.Some? then name.value else UnnamedBase(s, d.a.e.baseObject, d.a.e.name);
      x := Charge(d.a, text, WhyUnnamed(s, d.a.e.keyObject), Resumed(d.waiting), d.token);
    } else {
      x := Charge(d.a, if d.waiting in s.names then s.names[d.waiting].text else "",
                  WhyUnnamed(s, d.a.e.keyObject), Resumed(d.waiting), 0);
    }
  }

  lemma ResumeSum(n: Naming, s: State, d: Deferred, w: Arrival -> nat)
    ensures Total(Resume(n, s, d), w) == Total(s, w) + w(d.a)
  {
    var x := ResumeLogs(n, s, d);
    LogSumPush(s.log, x, w);
  }

  lemma {:induction false} ApplyAllSum(n: Naming, s: State, todo: seq<Deferred>, w: Arrival -> nat)
    ensures Total(ApplyAll(n, s, todo), w) == Total(s, w) + HeldSum(todo, w)
    decreases |todo|
  {
    if todo != [] {
      HeldSumConcat(s.deferred, [todo[0]], w);
      ResumeSum(n, s, todo[0], w);
      ApplyAllSum(n, ApplyOne(n, s, todo[0]), todo[1..], w);
    }
  }

  lemma OpenedSum(n: Naming, s: State, a: Arrival, w: Arrival -> nat)
    requires IsOpen(a.e)
    ensures Total(Opened(n, s, a), w) == Total(s, w) + w(a)
  {
    var name := OpenName(n, s, a.e);
    if name.Some? {
      ChargedSum(s, a, name.value, true, Direct, 0, w);
    } else if GaveUp(s, a.e.baseObject) {
      ChargedSum(s, a, UnnamedBase(s, a.e.baseObject, a.e.name), true, Direct, 0, w);
    } else if NeedsToken(a.e) {
      HeldSumRetargeted(s.deferred, a.e.keyObject, a.e.stamp, s.nextToken, w);
      DeferringSum(Issued(s, a), a, a.e.baseObject, s.nextToken, w);
    } else {
      DeferringSum(s, a, a.e.baseObject, 0, w);
    }
  }

  lemma OperationSum(s: State, a: Arrival, w: Arrival -> nat)
    ensures Total(OnOperation(s, a), w) == Total(s, w) + w(a)
  {
    var x := a.e.keyObject;
    if x in s.names {
      ChargedSum(s.(names := s.names[x := s.names[x].(tick := a.tick)]), a, s.names[x].text, true, Direct, 0, w);
    } else if x in s.pending {
      DeferringSum(s, a, s.pending[x], 0, w);
    } else if GaveUp(s, x) {
      ChargedSum(s, a, "", true, Direct, 0, w);
    } else {
      DeferringSum(s, a, x, 0, w);
    }
  }

  lemma ReopenedSum(s: State, x: nat, stamp: int, w: Arrival -> nat)
    ensures Total(Reopened(s, x, stamp), w) == Total(s, w)
  {
    FlushAllSum(FlushStart(s, x), x, stamp, s.deferred, w);
  }

  lemma OnEventSum(n: Naming, s: State, a: Arrival, w: Arrival -> nat)
    requires !IsIgnored(a.e)
    ensures Total(OnEvent(n, s, a), w) == Total(s, w) + w(a)
  {
    if IsOpen(a.e) {
      ReopenedSum(s, a.e.keyObject, a.e.stamp, w);
      OpenedSum(n, Reopened(s, a.e.keyObject, a.e.stamp), a, w);
    } else {
      OperationSum(s, a, w);
    }
  }

  lemma StepSum(n: Naming, s: State, c: Call, w: Arrival -> nat)
    requires !c.Cleared?
    ensures Total(Step(n, s, c), w) == Total(s, w) + (if c.Traced? && !IsIgnored(c.a.e) then w(c.a) else 0)
  {
    match c
    case Traced(a) => if !IsIgnored(a.e) { OnEventSum(n, s, a, w); }
    case Apply => ApplyAllSum(n, s.(deferred := []), s.deferred, w);
    case Removed(pid) => LogSumPush(s.log, Step(n, s, c).log[|s.log|], w);
    case Pruned(tick) => LogSumPush(s.log, Step(n, s, c).log[|s.log|], w);
    case _ =>
  }

  /** Whatever is measured, the counted and the queued events amount to the accepted ones: naming, flushing,
      overflow and giving up lose nothing and count nothing twice. */
  lemma {:induction false} Conservation(n: Naming, calls: seq<Call>, w: Arrival -> nat)
    requires forall c :: c in calls ==> !c.Cleared?
    ensures Total(Run(n, Empty, calls), w) == AcceptedSum(calls, w)
  {
    if calls != [] {
      var k := |calls| - 1;
      Conservation(n, calls[..k], w);
      StepSum(n, Run(n, Empty, calls[..k]), calls[k], w);
    }
  }

  // ----- the rows

  ghost function Part(m: map<RowId, Row>, id: RowId, pid: nat, c: Counter): nat
    requires id in m
  {
    if id.pid == pid then Field(m[id], c) else 0
  }

  /** A counter summed over a process's rows. */
  ghost function RowSum(m: map<RowId, Row>, pid: nat, c: Counter): nat
    decreases |m|
  {
    if m == map[] then 0
    else var id :| id in m; Part(m, id, pid, c) + RowSum(m - {id}, pid, c)
  }

  lemma {:induction false} RowSumAt(m: map<RowId, Row>, id: RowId, pid: nat, c: Counter)
    requires id in m
    ensures RowSum(m, pid, c) == Part(m, id, pid, c) + RowSum(m - {id}, pid, c)
    decreases |m|
  {
    var k :| k in m && RowSum(m, pid, c) == Part(m, k, pid, c) + RowSum(m - {k}, pid, c);
    if k != id {
      var mk, mi := m - {k}, m - {id};
      assert |mk| < |m| && |mi| < |m|;
      RowSumAt(mk, id, pid, c);
      RowSumAt(mi, k, pid, c);
      assert mk - {id} == mi - {k};
      assert Part(mk, id, pid, c) == Part(m, id, pid, c) && Part(mi, k, pid, c) == Part(m, k, pid, c);
    }
  }

  ghost predicate NothingForgotten(log: seq<LogEntry>) { forall x :: x in log ==> x.Charge? }

  /** A process's part of an arrival's weight. */
  ghost function WeightOf(pid: nat, c: Counter): Arrival -> nat {
    (a: Arrival) => if a.pid == pid then Weight(a.e, c) else 0
  }

  lemma {:induction false} RowsAddUp(n: Naming, log: seq<LogEntry>, pid: nat, c: Counter)
    requires NothingForgotten(log)
    ensures RowSum(Rows(n, log), pid, c) == LogSum(log, WeightOf(pid, c))
  {
    if log != [] {
      var x, before := log[|log| - 1], Rows(n, log[..|log| - 1]);
      assert x in log;
      RowsAddUp(n, log[..|log| - 1], pid, c);
      var id, after := RowOf(n, x), Rows(n, log);
      RowSumAt(after, id, pid, c);
      assert after - {id} == before - {id};
      if id in before {
        RowSumAt(before, id, pid, c);
      } else {
        assert before - {id} == before;
      }
    }
  }

  /** A row holds exactly what was charged to it. */
  ghost function ChargedTo(n: Naming, log: seq<LogEntry>, id: RowId, c: Counter): nat {
    if log == [] then 0
    else
      var x := log[|log| - 1];
      if x.Forget? then (if id in x.ids then 0 else ChargedTo(n, log[..|log| - 1], id, c))
      else ChargedTo(n, log[..|log| - 1], id, c) + (if RowOf(n, x) == id then Weight(x.a.e, c) else 0)
  }

  lemma {:induction false} RowHoldsItsCharges(n: Naming, log: seq<LogEntry>, id: RowId, c: Counter)
    ensures Field(RowAt(Rows(n, log), id), c) == ChargedTo(n, log, id, c)
  {
    if log != [] {
      RowHoldsItsCharges(n, log[..|log| - 1], id, c);
    }
  }

  /** Failures never exceed operations, in any row a log leaves. */
  lemma {:induction false} FailuresWithinOperations(n: Naming, log: seq<LogEntry>, id: RowId)
    requires id in Rows(n, log)
    ensures var r := Rows(n, log)[id]; r.failureCount <= r.openCount + r.readCount + r.writeCount
  {
    var x, before := log[|log| - 1], Rows(n, log[..|log| - 1]);
    if id in before { FailuresWithinOperations(n, log[..|log| - 1], id); }
  }

  lemma {:induction false} ForgetsNothing(n: Naming, calls: seq<Call>)
    requires forall c :: c in calls ==> !c.Removed? && !c.Pruned? && !c.Cleared?
    ensures NothingForgotten(Run(n, Empty, calls).log)
  {
    if calls != [] {
      var k := |calls| - 1;
      var s, c := Run(n, Empty, calls[..k]), calls[k];
      ForgetsNothing(n, calls[..k]);
      match c
      case Traced(a) => EventCharges(n, s, a);
      case Apply => ApplyCharges(n, s.(deferred := []), s.deferred);
      case _ =>
    }
  }

  lemma OpenedCharges(n: Naming, s: State, a: Arrival)
    requires NothingForgotten(s.log)
    ensures NothingForgotten(Opened(n, s, a).log)
  {
    hide UnnamedBase, OpenName, WhyUnnamed, Retargeted, IsWaited;
  }

  lemma EventCharges(n: Naming, s: State, a: Arrival)
    requires NothingForgotten(s.log)
    ensures NothingForgotten(OnEvent(n, s, a).log)
  {
    if IsOpen(a.e) {
      FlushCharges(FlushStart(s, a.e.keyObject), a.e.keyObject, a.e.stamp, s.deferred);
      OpenedCharges(n, Reopened(s, a.e.keyObject, a.e.stamp), a);
    }
  }

  lemma {:induction false} FlushCharges(s: State, x: nat, stamp: int, todo: seq<Deferred>)
    requires NothingForgotten(s.log)
    ensures NothingForgotten(FlushAll(s, x, stamp, todo).log)
    decreases |todo|
  {
    if todo != [] { FlushCharges(FlushOne(s, x, stamp, todo[0]), x, stamp, todo[1..]); }
  }

  lemma {:induction false} ApplyCharges(n: Naming, s: State, todo: seq<Deferred>)
    requires NothingForgotten(s.log)
    ensures NothingForgotten(ApplyAll(n, s, todo).log)
    decreases |todo|
  {
    if todo != [] {
      if IsReady(s, todo[0].waiting) { var x := ResumeLogs(n, s, todo[0]); }
      ApplyCharges(n, ApplyOne(n, s, todo[0]), todo[1..]);
    }
  }

  /** Over any run that forgets nothing, a process's rows and its queued events together hold exactly what
      its accepted events contribute to each counter. */
  lemma RowConservation(n: Naming, calls: seq<Call>, pid: nat, c: Counter)
    requires forall c :: c in calls ==> !c.Removed? && !c.Pruned? && !c.Cleared?
    ensures var s := Run(n, Empty, calls);
      RowSum(Rows(n, s.log), pid, c) + HeldSum(s.deferred, WeightOf(pid, c)) == AcceptedSum(calls, WeightOf(pid, c))
  {
    ForgetsNothing(n, calls);
    RowsAddUp(n, Run(n, Empty, calls).log, pid, c);
    Conservation(n, calls, WeightOf(pid, c));
  }
}
