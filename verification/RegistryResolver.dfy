/** The resolver's passes over a table no events come to: how long an operation waits at most. */
module RegistryResolver {
  import opened Optional
  import opened RegistryModel
  import opened RegistryInvariant
  import opened RegistryDrain
  import opened RegistryHealth
  import RegistryAttribution

  /** What the handle table says about an address on one pass: a name, or why there is none. */
  datatype Answer = Found(name: string) | NotFound(why: Why)

  function FoundNames(n: Naming, taken: set<nat>, answer: nat -> Answer, tick: nat): map<nat, Name> {
    map x | x in taken && answer(x).Found? :: Name(n.registryName(answer(x).name), tick)
  }

  function FailedOnce(attempts: map<nat, Attempts>, taken: set<nat>, answer: nat -> Answer): map<nat, Attempts> {
    map x | x in taken && answer(x).NotFound? ::
      Attempts((if x in attempts then attempts[x].count else 0) + 1, answer(x).why)
  }

  /** Every address of taken answered. */
  function Answered(n: Naming, s: State, taken: set<nat>, answer: nat -> Answer, tick: nat): State {
    s.(names := s.names + FoundNames(n, taken, answer, tick),
       attempts := s.attempts + FailedOnce(s.attempts, taken, answer))
  }

  /** The resolver's calls for the addresses, one after the other. */
  function AnsweredInTurn(n: Naming, s: State, order: seq<nat>, answer: nat -> Answer, tick: nat): State {
    if order == [] then s
    else
      var k := |order| - 1;
      var r := AnsweredInTurn(n, s, order[..k], answer, tick);
      match answer(order[k])
      case Found(name) => SetName(n, r, order[k], name, tick)
      case NotFound(why) => NameFailed(r, order[k], why)
  }

  function Members(order: seq<nat>): set<nat> { set x | x in order }

  /** In any order they come to the answers at once. */
  lemma {:induction false} AnyOrder(n: Naming, s: State, order: seq<nat>, answer: nat -> Answer, tick: nat)
    requires forall i, j :: 0 <= i < j < |order| ==> order[i] != order[j]
    ensures AnsweredInTurn(n, s, order, answer, tick) == Answered(n, s, Members(order), answer, tick)
  {
    if order == [] {
      AnswerNone(n, s, answer, tick);
    } else {
      var k := |order| - 1;
      var before, x := Members(order[..k]), order[k];
      AnyOrder(n, s, order[..k], answer, tick);
      assert Members(order) == before + {x};
      AnswerOneMore(n, s, before, x, answer, tick);
    }
  }

  lemma AnswerNone(n: Naming, s: State, answer: nat -> Answer, tick: nat)
    ensures Answered(n, s, {}, answer, tick) == s
  {
    assert FoundNames(n, {}, answer, tick) == map[] && FailedOnce(s.attempts, {}, answer) == map[];
  }

  lemma AnswerOneMore(n: Naming, s: State, taken: set<nat>, x: nat, answer: nat -> Answer, tick: nat)
    requires x !in taken
    ensures var r := Answered(n, s, taken, answer, tick);
      Answered(n, s, taken + {x}, answer, tick)
        == match answer(x)
           case Found(name) => SetName(n, r, x, name, tick)
           case NotFound(why) => NameFailed(r, x, why)
  {
    OneMore(n, s.names, s.attempts, taken, x, answer, tick);
  }

  lemma OneMore(n: Naming, names: map<nat, Name>, attempts: map<nat, Attempts>, taken: set<nat>, x: nat,
                answer: nat -> Answer, tick: nat)
    requires x !in taken
    ensures names + FoundNames(n, taken + {x}, answer, tick)
         == (if answer(x).NotFound? then names + FoundNames(n, taken, answer, tick)
             else (names + FoundNames(n, taken, answer, tick))[x := Name(n.registryName(answer(x).name), tick)])
    ensures attempts + FailedOnce(attempts, taken + {x}, answer)
         == (if answer(x).Found? then attempts + FailedOnce(attempts, taken, answer)
             else (attempts + FailedOnce(attempts, taken, answer))
               [x := Attempts((if x in attempts then attempts[x].count else 0) + 1, answer(x).why)])
  {}

  /** One pass: take the unnamed addresses, answer each, apply, and prune. */
  function Pass(n: Naming, s: State, answer: nat -> Answer, tick: nat): State {
    Prune(n, AppliedPass(n, s, answer, tick), tick)
  }

  /** The pass before its prune. */
  function AppliedPass(n: Naming, s: State, answer: nat -> Answer, tick: nat): State {
    ApplyDeferred(n, Answered(n, TakeUnnamed(s), s.unnamed, answer, tick))
  }

  function Iterated(f: (nat, State) -> State, s: State, k: nat): State {
    if k == 0 then s else f(k - 1, Iterated(f, s, k - 1))
  }

  /** k passes, each with its own answers, at its own time. */
  function Passes(n: Naming, s: State, answers: nat -> nat -> Answer, ticks: nat -> nat, k: nat): State {
    Iterated((i: nat, x: State) => Pass(n, x, answers(i), ticks(i)), s, k)
  }

  // ----- the prune that ends a pass

  /** No queued event, and no name of a token one waits on, is as old as an unused name at the time. */
  ghost predicate IsRecent(s: State, q: seq<Deferred>, tick: nat) {
    && (forall d :: d in q ==> Elapsed(tick, d.a.tick) <= NAME_IDLE)
    && (forall d :: d in q && IsToken(d.waiting) && d.waiting in s.names ==>
          Elapsed(tick, s.names[d.waiting].tick) <= NAME_IDLE)
  }

  lemma ResumeIsRecent(n: Naming, s: State, q: seq<Deferred>, d: Deferred, tick: nat)
    requires d in q && IsRecent(s, q, tick) && EventOk(d.a)
    ensures IsRecent(Resume(n, s, d), q, tick)
  {}

  lemma FewerAreRecent(s: State, q: seq<Deferred>, r: seq<Deferred>, tick: nat)
    requires IsRecent(s, q, tick) && forall d :: d in r ==> d in q
    ensures IsRecent(s, r, tick)
  {}

  lemma {:induction false} ApplyAllIsRecent(n: Naming, s: State, todo: seq<Deferred>, q: seq<Deferred>, tick: nat)
    requires IsRecent(s, q, tick) && (forall d :: d in q ==> EventOk(d.a))
    requires (forall d :: d in todo ==> d in q) && forall d :: d in s.deferred ==> d in q
    ensures var r := ApplyAll(n, s, todo); IsRecent(r, q, tick) && forall d :: d in r.deferred ==> d in q
    decreases |todo|
  {
    hide Resume, IsReady;
    if todo != [] {
      var d := todo[0];
      if IsReady(s, d.waiting) {
        ResumeIsRecent(n, s, q, d, tick);
        ResumeGrows(n, s, d);
      } else {
        SameNames(s, s.(deferred := s.deferred + [d]), q, tick);
      }
      ApplyAllIsRecent(n, ApplyOne(n, s, d), todo[1..], q, tick);
    }
  }

  /** Whether a queue is recent depends on the names only. */
  lemma SameNames(s: State, r: State, q: seq<Deferred>, tick: nat)
    requires IsRecent(s, q, tick) && forall t :: t in r.names && IsToken(t) ==> t in s.names && r.names[t] == s.names[t]
    ensures IsRecent(r, q, tick)
  {}

  lemma PassIsRecent(n: Naming, s: State, answer: nat -> Answer, tick: nat, other: nat)
    requires Inv(s) && IsRecent(s, s.deferred, other)
    ensures var r := AppliedPass(n, s, answer, tick); IsRecent(r, r.deferred, other)
    ensures var r := Pass(n, s, answer, tick); IsRecent(r, r.deferred, other)
  {
    var t := Answered(n, TakeUnnamed(s), s.unnamed, answer, tick);
    SameNames(s, t, s.deferred, other);
    forall d | d in s.deferred ensures EventOk(d.a) { assert EntryOk(s, d); }
    SameNames(t, t.(deferred := []), s.deferred, other);
    ApplyAllIsRecent(n, t.(deferred := []), t.deferred, s.deferred, other);
    var r := AppliedPass(n, s, answer, tick);
    FewerAreRecent(r, s.deferred, r.deferred, other);
    SameNames(r, Prune(n, r, tick), r.deferred, other);
  }

  lemma PruneKeeps(n: Naming, s: State, tick: nat)
    requires Inv(s)
    ensures Inv(Prune(n, s, tick))
  {
    StepKeeps(n, s, Pruned(tick));
  }

  /** A prune keeps the names queued events wait for, if they are recent. */
  lemma PruneKeepsOwned(n: Naming, s: State, tick: nat)
    requires NoOrphans(s) && IsRecent(s, s.deferred, tick)
    ensures NoOrphans(Prune(n, s, tick))
  {}

  lemma AnsweredKeeps(n: Naming, s: State, answer: nat -> Answer, tick: nat)
    requires Inv(s)
    ensures var r := Answered(n, TakeUnnamed(s), s.unnamed, answer, tick);
      Inv(r) && r.deferred == s.deferred && s.names.Keys <= r.names.Keys
  {
    var t := TakeUnnamed(s);
    Frame(s, t, s.deferred);
    ShrinkKeeps(t, Answered(n, t, s.unnamed, answer, tick));
  }

  /** Each address still waited on has failed at least k times and is in the resolver's list again. */
  ghost predicate Tried(s: State, k: nat) {
    forall d :: d in s.deferred && !IsToken(d.waiting) ==>
      d.waiting in s.unnamed && (k == 0 || (d.waiting in s.attempts && s.attempts[d.waiting].count >= k))
  }

  /** A pass keeps the invariant. */
  lemma PassKeeps(n: Naming, s: State, answer: nat -> Answer, tick: nat)
    requires Inv(s)
    ensures Inv(Pass(n, s, answer, tick))
  {
    hide Inv, Answered, ApplyDeferred, Prune;
    AnsweredKeeps(n, s, answer, tick);
    ApplyDeferredKeeps(n, Answered(n, TakeUnnamed(s), s.unnamed, answer, tick));
    PruneKeeps(n, AppliedPass(n, s, answer, tick), tick);
  }

  lemma PassTries(n: Naming, s: State, answer: nat -> Answer, tick: nat, k: nat)
    requires Tried(s, k)
    ensures Tried(Pass(n, s, answer, tick), k + 1)
  {
    var t := Answered(n, TakeUnnamed(s), s.unnamed, answer, tick);
    KeptAreUnready(n, t);
    var r := AppliedPass(n, s, answer, tick);
    forall d | d in r.deferred && !IsToken(d.waiting)
      ensures d.waiting in r.unnamed && d.waiting in r.attempts && r.attempts[d.waiting].count >= k + 1
    {
      assert d in s.deferred && d.waiting !in t.names;
    }
    PruneKeepsTried(n, r, tick, k + 1);
  }

  lemma PruneKeepsTried(n: Naming, s: State, tick: nat, k: nat)
    requires Tried(s, k)
    ensures Tried(Prune(n, s, tick), k)
  {}

  lemma {:induction false} KeptAre(n: Naming, s: State, todo: seq<Deferred>)
    ensures var r := ApplyAll(n, s, todo);
      && s.names.Keys <= r.names.Keys
      && forall d :: d in r.deferred ==> d in s.deferred || (d in todo && !IsReady(s, d.waiting))
    decreases |todo|
  {
    if todo != [] {
      if IsReady(s, todo[0].waiting) { ResumeGrows(n, s, todo[0]); }
      KeptAre(n, ApplyOne(n, s, todo[0]), todo[1..]);
    }
  }

  lemma KeptAreUnready(n: Naming, s: State)
    ensures var r := ApplyDeferred(n, s);
      && r.attempts == s.attempts
      && forall d :: d in r.deferred ==>
          d in s.deferred && !IsReady(s, d.waiting) && (!IsToken(d.waiting) ==> d.waiting in r.unnamed)
  {
    KeptAre(n, s.(deferred := []), s.deferred);
    var r := ApplyAll(n, s.(deferred := []), s.deferred);
    forall d | d in r.deferred
      ensures !IsReady(s, d.waiting) && (!IsToken(d.waiting) ==> d.waiting in WaitedAddresses(r.deferred))
    {
      assert !IsReady(s.(deferred := []), d.waiting);
    }
  }

  /** The first pass sees to what an earlier, unfinished one had taken; each of the next three tries every
      address still waited on. */
  lemma FirstPass(n: Naming, s: State, answer: nat -> Answer, tick: nat)
    ensures Tried(Pass(n, s, answer, tick), 0)
  {
    var t := Answered(n, TakeUnnamed(s), s.unnamed, answer, tick);
    KeptAreUnready(n, t);
    PruneKeepsTried(n, AppliedPass(n, s, answer, tick), tick, 0);
  }

  lemma PassProgress(n: Naming, s: State, answer: nat -> Answer, tick: nat)
    requires Inv(s) && NoOrphans(s) && IsRecent(s, s.deferred, tick)
    ensures var r := Pass(n, s, answer, tick);
      NoOrphans(r) && (AddressesReady(s) && s.deferred != [] ==> |r.deferred| < |s.deferred|)
    ensures |Pass(n, s, answer, tick).deferred| <= |s.deferred|
  {
    var t := Answered(n, TakeUnnamed(s), s.unnamed, answer, tick);
    AnsweredKeeps(n, s, answer, tick);
    InvTokensAreOpens(t);
    assert [] + t.deferred == t.deferred;
    ApplyAllProgress(n, t.(deferred := []), t.deferred);
    if AddressesReady(s) && s.deferred != [] {
      AnswersKeepReady(n, s, answer, tick);
      ApplyProgress(n, t);
    }
    PassIsRecent(n, s, answer, tick, tick);
    PruneKeepsOwned(n, AppliedPass(n, s, answer, tick), tick);
  }

  lemma AnswersKeepReady(n: Naming, s: State, answer: nat -> Answer, tick: nat)
    ensures var t := Answered(n, TakeUnnamed(s), s.unnamed, answer, tick);
      forall x :: IsReady(s, x) ==> IsReady(t, x)
  {}

  /** Recent at the times of all the passes. */
  ghost predicate StaysRecent(s: State, ticks: nat -> nat, passes: nat) {
    forall i: nat :: i < passes ==> IsRecent(s, s.deferred, ticks(i))
  }

  /** After i of so many passes over a queue of at most size events: from the fifth on each pass removes one. */
  ghost predicate Progressing(i: nat, s: State, size: nat, ticks: nat -> nat, passes: nat) {
    && Inv(s) && NoOrphans(s) && StaysRecent(s, ticks, passes)
    && (i > 0 ==> Tried(s, i - 1)) && |s.deferred| <= size
    && (i > MAX_ATTEMPTS ==> s.deferred == [] || |s.deferred| + (i - (MAX_ATTEMPTS + 1)) <= size)
  }

  lemma PassProgresses(n: Naming, s: State, answer: nat -> Answer, i: nat, size: nat, ticks: nat -> nat, passes: nat)
    requires i < passes && Progressing(i, s, size, ticks, passes)
    ensures Progressing(i + 1, Pass(n, s, answer, ticks(i)), size, ticks, passes)
  {
    hide IsRecent, Pass, Inv, NoOrphans;
    if i > MAX_ATTEMPTS { TriedAreReady(s, i - 1); }
    hide Tried, AddressesReady;
    PassKeeps(n, s, answer, ticks(i));
    if i == 0 { FirstPass(n, s, answer, ticks(i)); } else { PassTries(n, s, answer, ticks(i), i - 1); }
    PassProgress(n, s, answer, ticks(i));
    var r := Pass(n, s, answer, ticks(i));
    forall j: nat | j < passes ensures IsRecent(r, r.deferred, ticks(j)) {
      PassIsRecent(n, s, answer, ticks(i), ticks(j));
    }
  }

  /** What was tried often enough is given up on. */
  lemma TriedAreReady(s: State, k: nat)
    requires Tried(s, k) && k >= MAX_ATTEMPTS
    ensures AddressesReady(s)
  {}

  lemma PassStaysDead(n: Naming, s: State, answer: nat -> Answer, tick: nat, t: nat, d: Deferred)
    requires Inv(s) && Dead(s, s.deferred, t) && Waits(s, d, t)
    ensures var r := Pass(n, s, answer, tick); Dead(r, r.deferred, t) && Waits(r, d, t)
  {
    var u := Answered(n, TakeUnnamed(s), s.unnamed, answer, tick);
    AnsweredKeeps(n, s, answer, tick);
    StepStaysDead(n, u, Apply, t, d);
    ApplyDeferredKeeps(n, u);
    var r := AppliedPass(n, s, answer, tick);
    StepStaysDead(n, r, Pruned(tick), t, d);
  }

  lemma {:induction false} PassesProgress(n: Naming, s: State, answers: nat -> nat -> Answer, ticks: nat -> nat, k: nat,
                                          passes: nat)
    requires k <= passes && Progressing(0, s, |s.deferred|, ticks, passes)
    ensures Progressing(k, Passes(n, s, answers, ticks, k), |s.deferred|, ticks, passes)
  {
    hide Progressing, Pass;
    if k > 0 {
      PassesProgress(n, s, answers, ticks, k - 1, passes);
      PassProgresses(n, Passes(n, s, answers, ticks, k - 1), answers(k - 1), k - 1, |s.deferred|, ticks, passes);
    }
  }

  lemma {:induction false} PassesStayDead(n: Naming, s: State, answers: nat -> nat -> Answer, ticks: nat -> nat, k: nat,
                                          t: nat, d: Deferred)
    requires Inv(s) && Dead(s, s.deferred, t) && Waits(s, d, t)
    ensures var r := Passes(n, s, answers, ticks, k); Inv(r) && Dead(r, r.deferred, t) && Waits(r, d, t)
  {
    hide Inv, Dead, Waits, Pass;
    if k > 0 {
      PassesStayDead(n, s, answers, ticks, k - 1, t, d);
      PassKeeps(n, Passes(n, s, answers, ticks, k - 1), answers(k - 1), ticks(k - 1));
      PassStaysDead(n, Passes(n, s, answers, ticks, k - 1), answers(k - 1), ticks(k - 1), t, d);
    }
  }

  /** Whatever the resolver finds, MAX_ATTEMPTS + 1 passes and one more per queued event empty the queue,
      exactly when nothing queued waits on a token whose open is gone; if what is queued is not so old that the
      passes' prunes drop the names it waits for. */
  lemma QuietPassesDrainExactly(n: Naming, s: State, answers: nat -> nat -> Answer, ticks: nat -> nat)
    requires Inv(s) && StaysRecent(s, ticks, MAX_ATTEMPTS + 1 + |s.deferred|)
    ensures Passes(n, s, answers, ticks, MAX_ATTEMPTS + 1 + |s.deferred|).deferred == [] <==> NoOrphans(s)
  {
    var k := MAX_ATTEMPTS + 1 + |s.deferred|;
    if NoOrphans(s) {
      PassesProgress(n, s, answers, ticks, k, k);
    } else {
      var d :| d in s.deferred && IsToken(d.waiting) && d.waiting !in s.names && !Owned(s.deferred, d.waiting);
      OrphanIsDead(s, d);
      PassesStayDead(n, s, answers, ticks, k, d.waiting, d);
    }
  }

  // ----- whole runs

  /** A run none of whose calls strands anything. */
  ghost predicate NeverStrands(n: Naming, calls: seq<Call>) {
    calls == []
    || (NeverStrands(n, calls[..|calls| - 1])
        && !Strands(Run(n, Empty, calls[..|calls| - 1]), calls[|calls| - 1]))
  }

  /** Then whatever is queued at its end drains. */
  lemma RunsDrain(n: Naming, calls: seq<Call>, answers: nat -> nat -> Answer, ticks: nat -> nat)
    requires forall c :: c in calls ==> OutsideTokens(c)
    requires Run(n, Empty, calls).nextToken <= TOKEN_END && NeverStrands(n, calls)
    requires var s := Run(n, Empty, calls); StaysRecent(s, ticks, MAX_ATTEMPTS + 1 + |s.deferred|)
    ensures var s := Run(n, Empty, calls); Passes(n, s, answers, ticks, MAX_ATTEMPTS + 1 + |s.deferred|).deferred == []
  {
    hide Inv, Healthy, StaysRecent, Passes;
    RunKeeps(n, calls);
    RunsAreHealthy(n, calls);
    HealthyDrains(n, Run(n, Empty, calls), answers, ticks);
  }

  lemma HealthyDrains(n: Naming, s: State, answers: nat -> nat -> Answer, ticks: nat -> nat)
    requires Inv(s) && Healthy(s) && StaysRecent(s, ticks, MAX_ATTEMPTS + 1 + |s.deferred|)
    ensures Passes(n, s, answers, ticks, MAX_ATTEMPTS + 1 + |s.deferred|).deferred == []
  {
    hide Inv, StaysRecent, Passes, NoOrphans;
    QuietPassesDrainExactly(n, s, answers, ticks);
  }

  /** Every token waited on has a name or a queued open, and so do the tokens to come. */
  lemma {:induction false} RunsAreHealthy(n: Naming, calls: seq<Call>)
    requires forall c :: c in calls ==> OutsideTokens(c)
    requires Run(n, Empty, calls).nextToken <= TOKEN_END && NeverStrands(n, calls)
    ensures Healthy(Run(n, Empty, calls))
  {
    if calls != [] {
      var k := |calls| - 1;
      var s := Run(n, Empty, calls[..k]);
      TokensOnlyGrow(n, s, calls[k]);
      RunsAreHealthy(n, calls[..k]);
      RunKeeps(n, calls[..k]);
      StrandsExactly(n, s, calls[k]);
    }
  }

  // ----- a run that strands an operation

  const Opening := Arrival(Event(OpenKey, 20, 10, 0, 0, 1, "sub", ""), 4, 1, 1)
  const Querying := Arrival(Event(QueryKey, 20, 0, 0, 0, 2, "", ""), 4, 2, 2)
  const Reopening := Arrival(Event(OpenKey, 10, 0, 0, 0, 3, "\\REGISTRY\\A", ""), 4, 3, 3)

  /** A key is opened relative to one not named yet and queried; then another key takes the base's address,
      which counts the waiting open but not its token: the query waits for ever. */
  lemma StrandingRun(n: Naming, later: seq<Call>)
    requires forall c :: c in later ==> OutsideTokens(c) && !c.Cleared?
    ensures var s := Run(n, Empty, [Traced(Opening), Traced(Querying), Traced(Reopening)]);
      Deferred(Querying, TOKEN_BASE, 0) in Run(n, s, later).deferred
  {
    var calls := [Traced(Opening), Traced(Querying), Traced(Reopening)];
    assert calls[..2] == [Traced(Opening), Traced(Querying)] && calls[..2][..1] == [Traced(Opening)];
    var s1 := OnEvent(n, Empty, Opening);
    assert s1.deferred == [Deferred(Opening, 10, TOKEN_BASE)] && s1.pending == map[20 := TOKEN_BASE];
    var s2 := OnEvent(n, s1, Querying);
    var o, d := Deferred(Opening, 10, TOKEN_BASE), Deferred(Querying, TOKEN_BASE, 0);
    assert s2.deferred == [o, d];
    assert Run(n, Empty, [Traced(Opening)]) == s1;
    assert Run(n, Empty, calls[..2]) == s2;
    RunKeeps(n, calls[..2]);
    assert d in s2.deferred && IsStranding(s2, o, 10, 3);
    StrandedIsDead(s2, o, 10, 3);
    var r := Reopened(s2, 10, 3);
    RegistryAttribution.ReopenedExactly(s2, 10, 3);
    RegistryAttribution.OthersAre(s2.deferred, 10, 3, d);
    OpenedStaysDead(n, r, Reopening, TOKEN_BASE, d);
    DeadForever(n, Run(n, Empty, calls), later, TOKEN_BASE, d);
  }
}
