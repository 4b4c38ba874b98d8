/** ObjectNameQuery: a caller and its worker threads as interleaved atomic steps. A worker is shared through
    two auto-reset events (request, done), the target, the name and two flags; one that times out is left behind
    and the next call starts another. */
module NameQueryProtocol {
  import opened Optional

  /** A handle passed to the numbered call of GetName. */
  datatype Job = Job(call: nat, handle: nat)

  /** Where a worker's loop is; a query under way remembers the target it was given. */
  datatype WorkerPc = Sleeping | Woken | Clearing | Querying | InQuery(job: Option<Job>) | Checking | Finishing | Exited

  /** job is history: the target the name was queried for. */
  datatype Name = Name(text: string, job: Option<Job>)

  datatype Worker = Worker(request: bool, done: bool, target: Option<Job>, name: Name, abandoned: bool, exit: bool,
                           pc: WorkerPc)

  /** Where GetName or the destructor is. */
  datatype CallerPc =
    | Idle | Ready(job: Job) | TargetSet(job: Job) | Waiting(job: Job) | Taking(job: Job)
    | TimedOut(job: Job) | AbandonedSet(job: Job) | ExitSet(job: Job) | Released(job: Job)
    | Destroying | ExitSetLast | Destroyed

  /** What a call returned: a name, or nothing (no worker, or a timeout). */
  datatype Answer = Answer(job: Job, name: Option<Name>)

  /** What a query that returned gave for its target: a name, or none. */
  datatype Result = Result(job: Option<Job>, name: Option<string>)

  /** results is history: the queries that returned, in order. */
  datatype State = State(workers: seq<Worker>, current: Option<nat>, caller: CallerPc, calls: nat,
                         abandonedCount: nat, answers: seq<Answer>, results: seq<Result>)

  const Initial := State([], None, Idle, 0, 0, [], [])
  const NewWorker := Worker(false, false, None, Name("", None), false, false, Sleeping)

  datatype WorkerStep = Wake | CheckExit | Clear | Query | Retry | Return(name: Option<string>) | CheckAbandoned
    | SignalDone

  datatype Step =
    | Call(handle: nat, canStart: bool) | SetTarget | SetRequest | SeeDone | Take | TimeOut | SetAbandoned | SetExit
    | Wakeup | Release | Destroy | SetLastExit | LastWakeup
    | Work(w: nat, step: WorkerStep)

  predicate CanWork(w: Worker, step: WorkerStep) {
    match step
    case Wake => w.pc.Sleeping? && w.request
    case CheckExit => w.pc.Woken?
    case Clear => w.pc.Clearing?
    case Query => w.pc.Querying?
    case Retry => w.pc.InQuery?
    case Return(_) => w.pc.InQuery?
    case CheckAbandoned => w.pc.Checking?
    case SignalDone => w.pc.Finishing?
  }

  /** The worker's loop: waiting for a request resets it; a query whose buffer was too small is made again. */
  function Worked(w: Worker, step: WorkerStep): Worker
    requires CanWork(w, step)
  {
    match step
    case Wake => w.(request := false, pc := Woken)
    case CheckExit => w.(pc := if w.exit then Exited else Clearing)
    case Clear => w.(name := Name("", None), pc := Querying)
    case Query => w.(pc := InQuery(w.target))
    case Retry => w.(pc := Querying)
    case Return(name) => w.(name := Name(if name.Some? then name.value else "", w.pc.job), pc := Checking)
    case CheckAbandoned => w.(pc := if w.abandoned then Exited else Finishing)
    case SignalDone => w.(done := true, pc := Sleeping)
  }

  /** What a worker's step adds to the results. */
  function ResultsOf(w: Worker, step: WorkerStep): seq<Result>
    requires CanWork(w, step)
  {
    if step.Return? then [Result(w.pc.job, step.name)] else []
  }

  predicate HasWorker(s: State) { s.current.Some? && s.current.value < |s.workers| }

  function Current(s: State): Worker
    requires HasWorker(s)
  {
    s.workers[s.current.value]
  }

  function SetCurrent(s: State, w: Worker): State
    requires HasWorker(s)
  {
    s.(workers := s.workers[s.current.value := w])
  }

  predicate CanStep(s: State, a: Step) {
    match a
    case Call(_, _) => s.caller.Idle?
    case SetTarget => s.caller.Ready? && HasWorker(s)
    case SetRequest => s.caller.TargetSet? && HasWorker(s)
    case SeeDone => s.caller.Waiting? && HasWorker(s) && Current(s).done
    case Take => s.caller.Taking? && HasWorker(s)
    case TimeOut => s.caller.Waiting?
    case SetAbandoned => s.caller.TimedOut? && HasWorker(s)
    case SetExit => s.caller.AbandonedSet? && HasWorker(s)
    case Wakeup => s.caller.ExitSet? && HasWorker(s)
    case Release => s.caller.Released?
    case Destroy => s.caller.Idle?
    case SetLastExit => s.caller.Destroying? && HasWorker(s)
    case LastWakeup => s.caller.ExitSetLast? && HasWorker(s)
    case Work(w, step) => w < |s.workers| && CanWork(s.workers[w], step)
  }

  function Returned(s: State, job: Job, name: Option<Name>): State {
    s.(caller := Idle, answers := s.answers + [Answer(job, name)])
  }

  function Stepped(s: State, a: Step): State
    requires CanStep(s, a)
  {
    match a
    case Call(handle, canStart) =>
      var job := Job(s.calls, handle);
      var t := s.(calls := s.calls + 1);
      if s.current.Some? then t.(caller := Ready(job))
      else if canStart then t.(workers := s.workers + [NewWorker], current := Some(|s.workers|), caller := Ready(job))
      else Returned(t, job, None)
    case SetTarget => SetCurrent(s, Current(s).(target := Some(s.caller.job))).(caller := TargetSet(s.caller.job))
    case SetRequest => SetCurrent(s, Current(s).(request := true)).(caller := Waiting(s.caller.job))
    case SeeDone => SetCurrent(s, Current(s).(done := false)).(caller := Taking(s.caller.job))
    case Take =>
      Returned(SetCurrent(s, Current(s).(name := Name("", None))), s.caller.job, Some(Current(s).name))
    case TimeOut => s.(caller := TimedOut(s.caller.job))
    case SetAbandoned => SetCurrent(s, Current(s).(abandoned := true)).(caller := AbandonedSet(s.caller.job))
    case SetExit => SetCurrent(s, Current(s).(exit := true)).(caller := ExitSet(s.caller.job))
    case Wakeup => SetCurrent(s, Current(s).(request := true)).(caller := Released(s.caller.job))
    case Release => Returned(s.(current := None, abandonedCount := s.abandonedCount + 1), s.caller.job, None)
    case Destroy => if s.current.Some? then s.(caller := Destroying) else s.(caller := Destroyed)
    case SetLastExit => SetCurrent(s, Current(s).(exit := true)).(caller := ExitSetLast)
    case LastWakeup => SetCurrent(s, Current(s).(request := true)).(caller := Destroyed, current := None)
    case Work(w, step) =>
      s.(workers := s.workers[w := Worked(s.workers[w], step)], results := s.results + ResultsOf(s.workers[w], step))
  }

  /** The states steps lead to, each possible where it is taken. */
  ghost predicate IsRun(s: State, steps: seq<Step>, t: State) {
    if steps == [] then t == s
    else
      var front, last := steps[..|steps| - 1], steps[|steps| - 1];
      exists m :: IsRun(s, front, m) && LeadsTo(m, last, t)
  }

  ghost predicate LeadsTo(s: State, a: Step, t: State) { CanStep(s, a) && t == Stepped(s, a) }

  // ----- the invariant

  /** Between calls: asleep, nothing asked and nothing to say. */
  ghost predicate IsAtRest(w: Worker) {
    w.pc.Sleeping? && !w.request && !w.done && !w.abandoned && !w.exit
  }

  /** The text a query's result leaves: its name, or nothing without one. */
  function TextOf(r: Result): string { if r.name.Some? then r.name.value else "" }

  /** The name is what the query for the job gave. */
  ghost predicate IsResultFor(results: seq<Result>, name: Name, job: Job) {
    name.job == Some(job) && exists r :: r in results && r.job == Some(job) && name.text == TextOf(r)
  }

  /** At work on a job: not begun, under way, or done with a name for it. */
  ghost predicate IsOn(w: Worker, job: Job, results: seq<Result>) {
    && w.target == Some(job)
    && match w.pc
       case Sleeping => w.request != w.done && (w.done ==> IsResultFor(results, w.name, job))
       case Woken => !w.request && !w.done
       case Clearing => !w.request && !w.done
       case Querying => !w.request && !w.done
       case InQuery(on) => !w.request && !w.done && on == Some(job)
       case Checking => !w.request && !w.done && IsResultFor(results, w.name, job)
       case Finishing => !w.request && !w.done && IsResultFor(results, w.name, job)
       case Exited => false
  }

  /** Left behind: told to exit, and awake or about to be. */
  ghost predicate IsLeft(w: Worker) { w.exit && (w.request || w.pc.Woken? || w.pc.Exited?) }

  ghost predicate CallerOk(s: State) {
    match s.caller
    case Idle => HasWorker(s) ==> IsAtRest(Current(s))
    case Ready(_) => HasWorker(s) && IsAtRest(Current(s))
    case TargetSet(job) => HasWorker(s) && IsAtRest(Current(s)) && Current(s).target == Some(job)
    case Waiting(job) => HasWorker(s) && IsOn(Current(s), job, s.results) && !Current(s).abandoned && !Current(s).exit
    case Taking(job) => HasWorker(s) && IsAtRest(Current(s)) && IsResultFor(s.results, Current(s).name, job)
    case TimedOut(_) => HasWorker(s)
    case AbandonedSet(_) => HasWorker(s)
    case ExitSet(_) => HasWorker(s) && Current(s).exit
    case Released(_) => HasWorker(s) && IsLeft(Current(s))
    case Destroying => HasWorker(s) && IsAtRest(Current(s))
    case ExitSetLast => HasWorker(s) && Current(s).exit
    case Destroyed => s.current.None?
  }

  ghost predicate AnswersOk(s: State) {
    forall a :: a in s.answers && a.name.Some? ==> IsResultFor(s.results, a.name.value, a.job)
  }

  ghost predicate Inv(s: State) {
    && (s.current.Some? ==> HasWorker(s)) && CallerOk(s) && AnswersOk(s)
    && forall i :: 0 <= i < |s.workers| && s.current != Some(i) ==> IsLeft(s.workers[i])
  }

  lemma WorkerKeeps(w: Worker, step: WorkerStep)
    requires CanWork(w, step)
    ensures !IsAtRest(w)
    ensures IsLeft(w) ==> IsLeft(Worked(w, step))
    ensures forall job, results :: IsOn(w, job, results) && !w.abandoned && !w.exit ==>
        IsOn(Worked(w, step), job, results + ResultsOf(w, step))
  {
    forall job, results | IsOn(w, job, results) && !w.abandoned && !w.exit
      ensures IsOn(Worked(w, step), job, results + ResultsOf(w, step))
    {
      StillResults(results, ResultsOf(w, step));
      if step.Return? {
        var r := Result(w.pc.job, step.name);
        assert r in results + ResultsOf(w, step);
      }
    }
  }

  lemma StillResults(results: seq<Result>, more: seq<Result>)
    ensures forall name, job :: IsResultFor(results, name, job) ==> IsResultFor(results + more, name, job)
  {
    forall name, job | IsResultFor(results, name, job) ensures IsResultFor(results + more, name, job) {
      var r :| r in results && r.job == Some(job) && name.text == TextOf(r);
      assert r in results + more;
    }
  }

  /** Every step keeps the invariant. */
  lemma StepKeeps(s: State, a: Step)
    requires Inv(s) && CanStep(s, a)
    ensures Inv(Stepped(s, a))
  {
    if a.Work? {
      WorkerKeeps(s.workers[a.w], a.step);
      StillResults(s.results, ResultsOf(s.workers[a.w], a.step));
      hide Worked, IsOn, IsResultFor, ResultsOf;
    }
  }

  lemma {:induction false} RunKeeps(steps: seq<Step>, t: State)
    requires IsRun(Initial, steps, t)
    ensures Inv(t)
  {
    if steps != [] {
      var m :| IsRun(Initial, steps[..|steps| - 1], m) && LeadsTo(m, steps[|steps| - 1], t);
      RunKeeps(steps[..|steps| - 1], m);
      StepKeeps(m, steps[|steps| - 1]);
    }
  }

  // ----- safety

  ghost predicate CallerUsesName(s: State) { s.caller.Taking? }

  ghost predicate WorkerUsesName(w: Worker) { w.pc.Clearing? || w.pc.InQuery? }

  ghost predicate CallerUsesTarget(s: State) { s.caller.Ready? }

  ghost predicate WorkerUsesTarget(w: Worker) { w.pc.Querying? }

  /** Under every interleaving of any number of calls: a name returned is what the query for the handle of that very
      call gave, and the caller and its worker never touch the name, or the target, at the same time. */
  lemma Safe(steps: seq<Step>, t: State)
    requires IsRun(Initial, steps, t)
    ensures forall a :: a in t.answers && a.name.Some? ==> IsResultFor(t.results, a.name.value, a.job)
    ensures HasWorker(t) ==> !(CallerUsesName(t) && WorkerUsesName(Current(t)))
    ensures HasWorker(t) ==> !(CallerUsesTarget(t) && WorkerUsesTarget(Current(t)))
  {
    RunKeeps(steps, t);
  }

  // ----- one result a call

  /** A worker's query has not returned: it is still to be made, or is under way. */
  predicate IsToReturn(w: Worker) {
    || w.pc.Clearing? || w.pc.Querying? || w.pc.InQuery?
    || (w.pc.Woken? && !w.exit) || (w.pc.Sleeping? && w.request && !w.exit)
  }

  ghost predicate IsBefore(job: Option<Job>, call: nat) { job.Some? ==> job.value.call < call }

  ghost predicate HasResult(s: State, job: Option<Job>) { exists i :: 0 <= i < |s.results| && s.results[i].job == job }

  ghost predicate WorkerJobOk(s: State, w: Worker) {
    && IsBefore(w.target, s.calls) && (w.pc.InQuery? ==> w.pc.job == w.target)
    && (w.request && !w.exit ==> w.pc.Sleeping?)
    && (IsToReturn(w) ==> w.target.Some? && !HasResult(s, w.target))
  }

  /** Each job is a different worker's, and has one result at most, once its query has returned. */
  ghost predicate JobsOk(s: State) {
    && (forall i :: 0 <= i < |s.results| ==> s.results[i].job.Some? && IsBefore(s.results[i].job, s.calls))
    && (forall i, j :: 0 <= i < j < |s.results| ==> s.results[i].job != s.results[j].job)
    && (forall i :: 0 <= i < |s.workers| ==> WorkerJobOk(s, s.workers[i]))
    && (forall i, j :: 0 <= i < j < |s.workers| && s.workers[i].target.Some? ==>
          s.workers[i].target != s.workers[j].target)
    && match s.caller
       case Ready(job) =>
         && job.call < s.calls && (forall i :: 0 <= i < |s.workers| ==> IsBefore(s.workers[i].target, job.call))
         && forall i :: 0 <= i < |s.results| ==> IsBefore(s.results[i].job, job.call)
       case TargetSet(job) => !HasResult(s, Some(job))
       case _ => true
  }

  lemma StepKeepsJobs(s: State, a: Step)
    requires Inv(s) && CanStep(s, a) && JobsOk(s)
    ensures JobsOk(Stepped(s, a))
  {
    hide Inv, JobsOk, CanWork, Stepped;
    if a.Work? { WorkKeepsJobs(s, a.w, a.step); } else { CallerKeepsJobs(s, a); }
  }

  lemma CallerKeepsJobs(s: State, a: Step)
    requires Inv(s) && CanStep(s, a) && JobsOk(s) && !a.Work?
    ensures JobsOk(Stepped(s, a))
  {
    hide IsOn, IsLeft, AnswersOk, IsResultFor, HasResult;
    var t := Stepped(s, a);
    SameResults(s, t);
    if a.SetTarget? { NoResultYet(s, s.caller.job); }
  }

  lemma SameResults(s: State, t: State)
    requires s.results == t.results
    ensures forall job :: HasResult(s, job) <==> HasResult(t, job)
  {}

  lemma NoResultYet(s: State, job: Job)
    requires forall i :: 0 <= i < |s.results| ==> IsBefore(s.results[i].job, job.call)
    ensures !HasResult(s, Some(job))
  {}

  lemma WorkKeepsJobs(s: State, w: nat, step: WorkerStep)
    requires Inv(s) && CanStep(s, Work(w, step)) && JobsOk(s)
    ensures JobsOk(Stepped(s, Work(w, step)))
  {
    hide IsOn, IsLeft, AnswersOk, IsResultFor, HasResult;
    var t := Stepped(s, Work(w, step));
    if step.Return? { OneMoreResult(s, t, Result(s.workers[w].pc.job, step.name)); } else { SameResults(s, t); }
  }

  lemma OneMoreResult(s: State, t: State, r: Result)
    requires t.results == s.results + [r]
    ensures forall job :: HasResult(t, job) <==> HasResult(s, job) || job == r.job
    ensures !HasResult(s, r.job) ==> forall i :: 0 <= i < |s.results| ==> s.results[i].job != r.job
  {
    forall job ensures HasResult(t, job) <==> HasResult(s, job) || job == r.job {
      if i: nat :| i < |s.results| && s.results[i].job == job { assert t.results[i].job == job; }
      if job == r.job { assert t.results[|s.results|].job == job; }
    }
  }

  lemma {:induction false} RunKeepsJobs(steps: seq<Step>, t: State)
    requires IsRun(Initial, steps, t)
    ensures JobsOk(t)
  {
    hide Inv, JobsOk, Stepped, CanStep;
    if steps == [] {
      NoJobs();
    } else {
      var m :| IsRun(Initial, steps[..|steps| - 1], m) && LeadsTo(m, steps[|steps| - 1], t);
      RunKeeps(steps[..|steps| - 1], m);
      RunKeepsJobs(steps[..|steps| - 1], m);
      StepKeepsJobs(m, steps[|steps| - 1]);
    }
  }

  lemma NoJobs()
    ensures JobsOk(Initial)
  {}

  /** Each answer has exactly one result, of the query for its own call, and its name is what that result says: the name
      the query gave, and empty only if it gave none or an empty one. */
  lemma AnswersAreResults(steps: seq<Step>, t: State, a: Answer)
    requires IsRun(Initial, steps, t) && a in t.answers && a.name.Some?
    ensures exists i ::
              && 0 <= i < |t.results| && t.results[i].job == Some(a.job) && a.name.value.text == TextOf(t.results[i])
              && forall j :: 0 <= j < |t.results| && j != i ==> t.results[j].job != Some(a.job)
  {
    RunKeeps(steps, t);
    RunKeepsJobs(steps, t);
    var r :| r in t.results && r.job == Some(a.job) && a.name.value.text == TextOf(r);
    var i :| 0 <= i < |t.results| && t.results[i] == r;
  }

  // ----- one answer a call

  /** The handles of the calls made, in order. */
  ghost function Handles(steps: seq<Step>): seq<nat> {
    if steps == [] then [] else Handles(steps[..|steps| - 1]) + HandleOf(steps[|steps| - 1])
  }

  function HandleOf(a: Step): seq<nat> { if a.Call? then [a.handle] else [] }

  /** Whether a worker has been started and not been let go of since. */
  ghost predicate Started(steps: seq<Step>) {
    steps != [] && StartedBy(steps[|steps| - 1], Started(steps[..|steps| - 1]))
  }

  predicate StartedBy(a: Step, before: bool) {
    match a
    case Call(_, canStart) => canStart || before
    case Release => false
    case LastWakeup => false
    case _ => before
  }

  /** How the calls ended, in order: with the worker done, or timed out or without a worker. */
  ghost function Ends(steps: seq<Step>): seq<bool> {
    if steps == [] then []
    else Ends(steps[..|steps| - 1]) + EndOf(steps[|steps| - 1], Started(steps[..|steps| - 1]))
  }

  function EndOf(a: Step, started: bool): seq<bool> {
    match a
    case Take => [true]
    case Release => [false]
    case Call(_, canStart) => if canStart || started then [] else [false]
    case _ => []
  }

  /** The call under way. */
  function JobOf(c: CallerPc): Option<Job> {
    match c
    case Ready(job) => Some(job)
    case TargetSet(job) => Some(job)
    case Waiting(job) => Some(job)
    case Taking(job) => Some(job)
    case TimedOut(job) => Some(job)
    case AbandonedSet(job) => Some(job)
    case ExitSet(job) => Some(job)
    case Released(job) => Some(job)
    case _ => None
  }

  ghost predicate IsAnswered(s: State, handles: seq<nat>, ends: seq<bool>, started: bool) {
    && s.calls == |handles| && |s.answers| == |ends| && (started <==> s.current.Some?)
    && |ends| == (if JobOf(s.caller).Some? then s.calls - 1 else s.calls)
    && (JobOf(s.caller).Some? ==> JobOf(s.caller) == Some(Job(s.calls - 1, handles[s.calls - 1])))
    && forall k :: 0 <= k < |ends| ==>
         s.answers[k].job == Job(k, handles[k]) && (s.answers[k].name.Some? <==> ends[k])
  }

  lemma StepAnswers(s: State, a: Step, handles: seq<nat>, ends: seq<bool>, started: bool)
    requires Inv(s) && CanStep(s, a) && IsAnswered(s, handles, ends, started)
    ensures IsAnswered(Stepped(s, a), handles + HandleOf(a), ends + EndOf(a, started), StartedBy(a, started))
  {
    hide IsAtRest, IsOn, IsLeft, AnswersOk, IsResultFor, Worked;
  }

  /** Every call gets its answer, in order, for its own handle: a name exactly when its worker was done in time. */
  lemma {:induction false} AnswersInOrder(steps: seq<Step>, t: State)
    requires IsRun(Initial, steps, t)
    ensures IsAnswered(t, Handles(steps), Ends(steps), Started(steps))
  {
    hide Inv, IsAnswered, Stepped, CanStep;
    if steps == [] {
      NoneAnswered();
    } else {
      var front, a := steps[..|steps| - 1], steps[|steps| - 1];
      var m :| IsRun(Initial, front, m) && LeadsTo(m, a, t);
      RunKeeps(front, m);
      AnswersInOrder(front, m);
      StepAnswers(m, a, Handles(front), Ends(front), Started(front));
    }
  }

  lemma NoneAnswered()
    ensures IsAnswered(Initial, [], [], false)
  {}

  // ----- liveness

  /** A worker the caller has let go of. */
  ghost predicate IsAlone(s: State, i: nat) { i < |s.workers| && s.current != Some(i) }

  /** The loop's steps left at most, a query counting once however often it is made. */
  ghost function Rank(w: Worker): nat {
    match w.pc
    case Exited => 0
    case Woken => 1
    case Sleeping => 2
    case Finishing => 3
    case Checking => 4
    case InQuery(_) => 5
    case Querying => 5
    case Clearing => 6
  }

  /** A worker left behind is never stuck: it has exited, or it is in its query, or a step of its own is
      possible. */
  lemma LeftIsNeverStuck(steps: seq<Step>, t: State, i: nat)
    requires IsRun(Initial, steps, t) && IsAlone(t, i)
    ensures var w := t.workers[i];
      w.pc.Exited? || w.pc.InQuery? || exists step :: CanWork(w, step)
  {
    RunKeeps(steps, t);
    var w := t.workers[i];
    match w.pc
    case Sleeping => assert CanWork(w, Wake);
    case Woken => assert CanWork(w, CheckExit);
    case Clearing => assert CanWork(w, Clear);
    case Querying => assert CanWork(w, Query);
    case Checking => assert CanWork(w, CheckAbandoned);
    case Finishing => assert CanWork(w, SignalDone);
    case _ =>
  }

  /** The steps of worker i in a run, other than asking again. */
  ghost function StepsOf(steps: seq<Step>, i: nat): nat {
    if steps == [] then 0
    else
      var a := steps[|steps| - 1];
      StepsOf(steps[..|steps| - 1], i) + (if a.Work? && a.w == i && !a.step.Query? && !a.step.Retry? then 1 else 0)
  }

  /** Nobody else touches a worker left behind, and each step of its own other than asking again brings it
      closer to its end. */
  lemma LeftMovesOn(s: State, a: Step, i: nat)
    requires Inv(s) && CanStep(s, a) && IsAlone(s, i)
    ensures var t := Stepped(s, a);
      && IsAlone(t, i)
      && (if a.Work? && a.w == i
          then (if a.step.Query? || a.step.Retry? then Rank(t.workers[i]) == Rank(s.workers[i])
                else Rank(t.workers[i]) < Rank(s.workers[i]))
          else t.workers[i] == s.workers[i])
  {}

  /** So after at most six steps of its own a worker left behind, abandoned or destroyed, has exited. */
  lemma {:induction false} LeftExits(s: State, steps: seq<Step>, t: State, i: nat)
    requires Inv(s) && IsAlone(s, i) && IsRun(s, steps, t)
    ensures Inv(t) && IsAlone(t, i) && Rank(t.workers[i]) + StepsOf(steps, i) <= Rank(s.workers[i]) <= 6
    ensures StepsOf(steps, i) >= 6 ==> t.workers[i].pc.Exited?
  {
    if steps != [] {
      var m :| IsRun(s, steps[..|steps| - 1], m) && LeadsTo(m, steps[|steps| - 1], t);
      LeftExits(s, steps[..|steps| - 1], m, i);
      StepKeeps(m, steps[|steps| - 1]);
      LeftMovesOn(m, steps[|steps| - 1], i);
    }
  }

  /** The caller is never stuck either: it can always give up waiting. */
  lemma CallerIsNeverStuck(steps: seq<Step>, t: State)
    requires IsRun(Initial, steps, t) && !t.caller.Destroyed?
    ensures exists a: Step :: !a.Work? && CanStep(t, a)
  {
    RunKeeps(steps, t);
    var a := match t.caller
      case Idle => Destroy
      case Ready(_) => SetTarget
      case TargetSet(_) => SetRequest
      case Waiting(_) => TimeOut
      case Taking(_) => Take
      case TimedOut(_) => SetAbandoned
      case AbandonedSet(_) => SetExit
      case ExitSet(_) => Wakeup
      case Released(_) => Release
      case Destroying => SetLastExit
      case ExitSetLast => LastWakeup
      case Destroyed => Destroy;
    assert CanStep(t, a);
  }

  /** A worker exits only once it was left behind, or is about to be: no call waits on one that has exited. */
  lemma WaitedWorkerIsAlive(steps: seq<Step>, t: State)
    requires IsRun(Initial, steps, t) && t.caller.Waiting?
    ensures HasWorker(t) && !Current(t).pc.Exited?
    ensures Current(t).done || Current(t).pc.InQuery? || exists step :: CanWork(Current(t), step)
  {
    RunKeeps(steps, t);
    var w := Current(t);
    match w.pc
    case Sleeping => if !w.done { assert CanWork(w, Wake); }
    case Woken => assert CanWork(w, CheckExit);
    case Clearing => assert CanWork(w, Clear);
    case Querying => assert CanWork(w, Query);
    case Checking => assert CanWork(w, CheckAbandoned);
    case Finishing => assert CanWork(w, SignalDone);
    case _ =>
  }

  /** As many workers were left behind as the count says, and no more are running besides the current one. */
  ghost predicate CountOk(s: State) {
    var last := if s.caller.Destroyed? then 1 else 0;
    var workers := if s.current.Some? then |s.workers| - 1 else |s.workers|;
    s.abandonedCount <= workers <= s.abandonedCount + last
  }

  lemma {:induction false} CountsAbandoned(steps: seq<Step>, t: State)
    requires IsRun(Initial, steps, t)
    ensures CountOk(t)
  {
    hide Inv, CountOk, Stepped, CanStep;
    if steps == [] {
      NoneCounts();
    } else {
      var m :| IsRun(Initial, steps[..|steps| - 1], m) && LeadsTo(m, steps[|steps| - 1], t);
      RunKeeps(steps[..|steps| - 1], m);
      CountsAbandoned(steps[..|steps| - 1], m);
      StepCounts(m, steps[|steps| - 1]);
    }
  }

  lemma NoneCounts()
    ensures CountOk(Initial)
  {}

  lemma StepCounts(s: State, a: Step)
    requires Inv(s) && CanStep(s, a) && CountOk(s)
    ensures CountOk(Stepped(s, a))
  {
    hide Worked, IsAtRest, IsOn, IsLeft, AnswersOk;
  }

  // ----- the workers still blocked

  ghost function LeftBehind(s: State): set<nat> { set i: nat | i < |s.workers| && s.current != Some(i) }

  /** The workers left behind whose query has not returned, or whose loop has not ended since. */
  ghost function Blocked(s: State): set<nat> { set i | i in LeftBehind(s) && !s.workers[i].pc.Exited? }

  ghost function Below(n: nat): set<nat> { if n == 0 then {} else Below(n - 1) + {n - 1} }

  lemma {:induction false} BelowSize(n: nat)
    ensures |Below(n)| == n && forall i: nat :: i in Below(n) <==> i < n
  {
    if n > 0 { BelowSize(n - 1); }
  }

  lemma LeftBehindSize(s: State)
    requires s.current.Some? ==> HasWorker(s)
    ensures |LeftBehind(s)| == if s.current.Some? then |s.workers| - 1 else |s.workers|
  {
    BelowSize(|s.workers|);
    if s.current.Some? {
      assert LeftBehind(s) == Below(|s.workers|) - {s.current.value};
    } else {
      assert LeftBehind(s) == Below(|s.workers|);
    }
  }

  /** The count is never less than the workers still blocked, and is their number if and only if no worker left behind
      has exited. */
  lemma CountsBlocked(steps: seq<Step>, t: State)
    requires IsRun(Initial, steps, t) && !t.caller.Destroyed?
    ensures |Blocked(t)| <= t.abandonedCount
    ensures |Blocked(t)| == t.abandonedCount <==> forall i :: i in LeftBehind(t) ==> !t.workers[i].pc.Exited?
  {
    RunKeeps(steps, t);
    CountsAbandoned(steps, t);
    LeftBehindSize(t);
    var exited := LeftBehind(t) - Blocked(t);
    assert LeftBehind(t) == Blocked(t) + exited;
    assert |LeftBehind(t)| == |Blocked(t)| + |exited|;
    if i :| i in LeftBehind(t) && t.workers[i].pc.Exited? { assert i in exited; }
  }

  const GiveUp: seq<Step> :=
    [Call(1, true), SetTarget, SetRequest, TimeOut, SetAbandoned, SetExit, Wakeup, Release, Work(0, Wake),
     Work(0, CheckExit)]

  /** A call that times out, and its worker exits: the count stays 1, and nothing is blocked. */
  lemma CountsExited() returns (t: State)
    ensures IsRun(Initial, GiveUp, t) && t.abandonedCount == 1 && Blocked(t) == {}
  {
    t := Initial;
    var n := 0;
    assert GiveUp[..0] == [];
    AfterAll();
    hide After, Blocked;
    while n < 10
      invariant 0 <= n <= 10 && IsRun(Initial, GiveUp[..n], t) && t == After(n)
    {
      AfterNext(n);
      StepMore(GiveUp[..n], t, GiveUp[n], After(n + 1));
      assert GiveUp[..n + 1] == GiveUp[..n] + [GiveUp[n]];
      t := After(n + 1);
      n := n + 1;
    }
    assert GiveUp[..10] == GiveUp;
  }

  lemma StepMore(steps: seq<Step>, m: State, a: Step, t: State)
    requires IsRun(Initial, steps, m) && LeadsTo(m, a, t)
    ensures IsRun(Initial, steps + [a], t)
  {
    assert (steps + [a])[..|steps|] == steps && (steps + [a])[|steps|] == a;
  }

  /** The states of that run. */
  ghost function After(n: nat): State
    requires n <= 10
  {
    var job := Job(0, 1);
    var w := NewWorker;
    var asked := w.(target := Some(job), request := true);
    match n
    case 0 => Initial
    case 1 => State([w], Some(0), Ready(job), 1, 0, [], [])
    case 2 => State([w.(target := Some(job))], Some(0), TargetSet(job), 1, 0, [], [])
    case 3 => State([asked], Some(0), Waiting(job), 1, 0, [], [])
    case 4 => State([asked], Some(0), TimedOut(job), 1, 0, [], [])
    case 5 => State([asked.(abandoned := true)], Some(0), AbandonedSet(job), 1, 0, [], [])
    case 6 => State([asked.(abandoned := true, exit := true)], Some(0), ExitSet(job), 1, 0, [], [])
    case 7 => State([asked.(abandoned := true, exit := true)], Some(0), Released(job), 1, 0, [], [])
    case 8 => State([asked.(abandoned := true, exit := true)], None, Idle, 1, 1, [Answer(job, None)], [])
    case 9 => State([asked.(abandoned := true, exit := true, request := false, pc := Woken)], None, Idle, 1, 1,
                    [Answer(job, None)], [])
    case _ => State([asked.(abandoned := true, exit := true, request := false, pc := Exited)], None, Idle, 1, 1,
                    [Answer(job, None)], [])
  }

  lemma AfterAll()
    ensures After(0) == Initial && After(10).abandonedCount == 1 && Blocked(After(10)) == {}
  {}

  lemma AfterNext(n: nat)
    requires n < 10
    ensures LeadsTo(After(n), GiveUp[n], After(n + 1))
  {}
}
