/** ProcessManager::Update: one snapshot of the system's processes after another, told apart by key, in two
    buffers used in turn. */
module ProcessSnapshots {
  import opened Optional
  import opened ProcessHistory

  /** A process's record in a snapshot; cpu is its kernel and user time together. */
  datatype Entry = Entry(key: Key, parentId: nat, cpu: int)

  /** A pointer into one of the two buffers: the record at an index. */
  datatype Pointer = Pointer(buffer: nat, index: nat)

  /** What the query of the system did: a snapshot in the buffer, or a failure and whatever it left there. */
  datatype Outcome = Filled(entries: seq<Entry>) | Failed(left: seq<Entry>)

  ghost predicate DistinctKeys(es: seq<Entry>) { forall i, j :: 0 <= i < j < |es| ==> es[i].key != es[j].key }

  function Keys(es: seq<Entry>): set<Key> { set e | e in es :: e.key }

  class ProcessInfo {
    const key: Key
    const parentId: nat
    var native: Pointer
    var extended: Option<Pointer>
    var elapsed: int   // CPU time since the previous snapshot

    constructor (e: Entry, native: Pointer, useFullInfo: bool)
      ensures key == e.key && parentId == e.parentId && this.native == native && elapsed == 0
      ensures extended == if useFullInfo && e.key.id != 0 then Some(native) else None
    {
      key, parentId, this.native, elapsed := e.key, e.parentId, native, 0;
      extended := if useFullInfo && e.key.id != 0 then Some(native) else None;
    }
  }

  /** The processes of a snapshot whose keys were not known before. */
  ghost function NewOnes(ps: seq<ProcessInfo>, es: seq<Entry>, known: set<Key>): seq<ProcessInfo>
    requires |ps| == |es|
  {
    if ps == [] then []
    else
      var k := |ps| - 1;
      NewOnes(ps[..k], es[..k], known) + if es[k].key in known then [] else [ps[k]]
  }

  /** The new processes of a snapshot are exactly those of unknown keys, each once. */
  lemma {:induction false} NewOnesExactly(ps: seq<ProcessInfo>, es: seq<Entry>, known: set<Key>)
    requires |ps| == |es| && DistinctKeys(es) && forall i :: 0 <= i < |ps| ==> ps[i].key == es[i].key
    ensures forall p :: p in NewOnes(ps, es, known) <==> p in ps && p.key !in known
    ensures forall i, j :: 0 <= i < j < |NewOnes(ps, es, known)| ==>
        NewOnes(ps, es, known)[i] != NewOnes(ps, es, known)[j]
  {
    if ps != [] {
      var k := |ps| - 1;
      NewOnesExactly(ps[..k], es[..k], known);
      assert ps == ps[..k] + [ps[k]];
      forall p | p in ps[..k] ensures p != ps[k] {
        var i :| 0 <= i < k && ps[..k][i] == p;
        assert es[i].key != es[k].key;
      }
    }
  }

  function KeysOf(ps: seq<ProcessInfo>): seq<Key> { seq(|ps|, i requires 0 <= i < |ps| => ps[i].key) }

  /** Their keys are exactly the snapshot's unknown ones, each once. */
  lemma {:induction false} NewKeys(ps: seq<ProcessInfo>, es: seq<Entry>, known: set<Key>)
    requires |ps| == |es| && DistinctKeys(es) && forall i :: 0 <= i < |ps| ==> ps[i].key == es[i].key
    ensures Distinct(KeysOf(NewOnes(ps, es, known)))
    ensures forall k :: k in KeysOf(NewOnes(ps, es, known)) <==> k in Keys(es) && k !in known
  {
    if ps != [] {
      var n := |ps| - 1;
      var before, last := NewOnes(ps[..n], es[..n], known), es[n];
      NewKeys(ps[..n], es[..n], known);
      Unseen(es, n);
      KeysMore(es, n);
      assert es[..n + 1] == es;
      hide Keys, DistinctKeys, NewOnes;
      assert KeysOf(before + [ps[n]]) == KeysOf(before) + [last.key];
      assert KeysOf(before + []) == KeysOf(before);
    }
  }

  /** The keys of the values of a map by key are the map's. */
  lemma GoneKeys(ps: seq<ProcessInfo>, byKey: map<Key, ProcessInfo>)
    requires AreValues(ps, byKey) && (forall i, j :: 0 <= i < j < |ps| ==> ps[i] != ps[j])
    requires forall k :: k in byKey ==> byKey[k].key == k
    ensures Distinct(KeysOf(ps)) && forall k :: k in KeysOf(ps) <==> k in byKey
  {
    var ks := KeysOf(ps);
    forall k | k in byKey ensures k in ks {
      var i :| 0 <= i < |ps| && ps[i] == byKey[k];
      assert ks[i] == k;
    }
    forall i | 0 <= i < |ps| ensures ps[i] == byKey[ks[i]] { assert ps[i] in ps; }
  }

  class ProcessManager {
    const useFullInfo: bool
    var buffers: seq<seq<Entry>>
    var bufIndex: nat
    var processes: seq<ProcessInfo>
    var byKey: map<Key, ProcessInfo>
    var byId: map<nat, ProcessInfo>
    var newProcesses: seq<ProcessInfo>
    var terminatedProcesses: seq<ProcessInfo>
    ghost var previous: seq<Entry>  // the snapshot before the last one
    ghost var run: seq<Batch>       // what each snapshot so far reported

    /** The snapshot the live processes belong to: the buffer filled last, which the next query does not write. */
    ghost function Snapshot(): seq<Entry>
      requires |buffers| == 2 && bufIndex < 2
      reads this
    {
      buffers[1 - bufIndex]
    }

    /** Every live process points at its own record in the snapshot, and what was reported is a run that ends in it. */
    ghost predicate Valid()
      reads this, processes
    {
      && |buffers| == 2 && bufIndex < 2
      && IsLive(processes, byKey, byId, Snapshot(), 1 - bufIndex, useFullInfo, previous)
      && IsRun(run) && Live(run) == Keys(Snapshot())
    }

    constructor (useFullInfo: bool)
      ensures Valid() && processes == []
    {
      this.useFullInfo := useFullInfo;
      buffers, bufIndex := [[], []], 0;
      processes, newProcesses, terminatedProcesses := [], [], [];
      byKey, byId := map[], map[];
      previous, run := [], [];
    }

    /** Fills the current buffer, or fails; the other one is not touched. */
    method QuerySystemProcesses(outcome: Outcome) returns (entries: Option<seq<Entry>>)
      requires |buffers| == 2 && bufIndex < 2
      modifies this`buffers
      ensures entries == if outcome.Filled? then Some(outcome.entries) else None
      ensures |buffers| == 2 && buffers[1 - bufIndex] == old(buffers)[1 - bufIndex]
      ensures outcome.Filled? ==> buffers[bufIndex] == outcome.entries
    {
      buffers := buffers[bufIndex := if outcome.Filled? then outcome.entries else outcome.left];
      entries := if outcome.Filled? then Some(outcome.entries) else None;
    }

    /** The record a known process still points at: its own, in the previous snapshot. */
    method PreviousRecord(p: ProcessInfo) returns (e: Entry)
      requires |buffers| == 2 && p.native.buffer < 2 && p.native.index < |buffers[p.native.buffer]|
      ensures e == buffers[p.native.buffer][p.native.index]
    {
      e := buffers[p.native.buffer][p.native.index];
    }

    /** A process's object for its record in the new snapshot: the one it has, or a new one. */
    method BuildProcessInfo(e: Entry, at: Pointer, known: Option<ProcessInfo>, elapsed: int) returns (p: ProcessInfo)
      requires known.Some? ==> known.value.key == e.key
      modifies if known.Some? then {known.value} else {}
      ensures p.key == e.key && p.native == at && (known.None? ==> p.parentId == e.parentId)
      ensures known.Some? ==> p == known.value && p.elapsed == elapsed
      ensures known.None? ==> fresh(p) && p.elapsed == 0
      ensures useFullInfo && (known.Some? || e.key.id != 0) ==> p.extended == Some(at)
      ensures !useFullInfo ==> p.extended == if known.Some? then old(known.value.extended) else None
      ensures useFullInfo && known.None? && e.key.id == 0 ==> p.extended == None
    {
      if known.None? {
        p := new ProcessInfo(e, at, useFullInfo);
      } else {
        p := known.value;
        p.native := at;
        if useFullInfo { p.extended := Some(at); }
        p.elapsed := elapsed;
      }
    }

    /** The object for one record of the new snapshot. */
    method TakeProcess(e: Entry, at: Pointer, ghost prev: seq<Entry>) returns (p: ProcessInfo)
      requires |buffers| == 2 && bufIndex < 2 && buffers[1 - bufIndex] == prev
      requires AllBack(byKey, prev, 1 - bufIndex, useFullInfo) && (e.key in byKey ==> byKey[e.key].key == e.key)
      requires e.key in byKey <==> e.key in Keys(prev)
      modifies if e.key in byKey then {byKey[e.key]} else {}
      ensures p.key == e.key && IsAt(p, e, at, useFullInfo, prev)
      ensures if e.key in byKey then p == byKey[e.key] else fresh(p) && p.parentId == e.parentId
    {
      if e.key in byKey {
        var known := byKey[e.key];
        var record := PreviousRecord(known);
        assert record in prev && record.key == e.key;
        p := BuildProcessInfo(e, at, Some(known), e.cpu - record.cpu);
      } else {
        p := BuildProcessInfo(e, at, None, 0);
      }
    }

    /** The same, beside the processes taken before it. */
    method TakeNext(es: seq<Entry>, ps: seq<ProcessInfo>, ghost prev: seq<Entry>) returns (p: ProcessInfo)
      requires |buffers| == 2 && bufIndex < 2 && buffers[1 - bufIndex] == prev
      requires AllAt(ps, es, bufIndex, useFullInfo, prev) && AllBack(byKey, prev, 1 - bufIndex, useFullInfo)
      requires forall k :: k in byKey ==> byKey[k].key == k
      requires |ps| < |es| && forall j :: 0 <= j < |ps| ==> ps[j].key != es[|ps|].key
      requires es[|ps|].key in byKey <==> es[|ps|].key in Keys(prev)
      modifies if es[|ps|].key in byKey then {byKey[es[|ps|].key]} else {}
      ensures p.key == es[|ps|].key && AllAt(ps + [p], es, bufIndex, useFullInfo, prev)
      ensures AllBack(byKey - {p.key}, prev, 1 - bufIndex, useFullInfo)
      ensures if p.key in byKey then p == byKey[p.key] else fresh(p)
    {
      hide Measured, Keys;
      p := TakeProcess(es[|ps|], Pointer(bufIndex, |ps|), prev);
    }

    /** One record more: its object, and its place in the lists and maps. */
    method TakeEntry(es: seq<Entry>, ghost known: map<Key, ProcessInfo>, ghost prev: seq<Entry>,
                     ps: seq<ProcessInfo>, byNewKey: map<Key, ProcessInfo>)
      returns (p: ProcessInfo)
      requires |ps| < |es| && DistinctKeys(es) && IsTaking(es, known, ps, byNewKey, byKey, byId, newProcesses)
      requires |buffers| == 2 && bufIndex < 2 && buffers[1 - bufIndex] == prev
      requires AllAt(ps, es, bufIndex, useFullInfo, prev) && AllBack(byKey, prev, 1 - bufIndex, useFullInfo)
      requires known.Keys == Keys(prev) && forall k :: k in known ==> known[k].key == k
      modifies this`byKey, this`byId, this`newProcesses
      modifies if es[|ps|].key in byKey then {byKey[es[|ps|].key]} else {}
      ensures IsTaking(es, known, ps + [p], byNewKey[es[|ps|].key := p], byKey, byId, newProcesses)
      ensures AllAt(ps + [p], es, bufIndex, useFullInfo, prev) && AllBack(byKey, prev, 1 - bufIndex, useFullInfo)
      ensures buffers == old(buffers) && bufIndex == old(bufIndex) && previous == old(previous) && run == old(run)
      ensures p.key == es[|ps|].key && (p.key !in known ==> fresh(p))
      ensures byKey == old(byKey) - {es[|ps|].key}
    {
      hide IsTaking, AllAt, AllBack, DistinctKeys, Keys;
      var e := es[|ps|];
      TakingKeys(es, known, ps, byNewKey, byKey, byId, newProcesses);
      p := TakeNext(es, ps, prev);
      TakingMore(es, known, ps, byNewKey, byKey, byId, newProcesses, p);
      if e.key !in byKey { newProcesses := newProcesses + [p]; }
      byKey := byKey - {e.key};
      if e.key.id !in byId { byId := byId[e.key.id := p]; }
    }

    method TakeAll(es: seq<Entry>, ghost known: map<Key, ProcessInfo>, ghost live: seq<ProcessInfo>,
                   ghost prev: seq<Entry>)
      returns (ps: seq<ProcessInfo>, byNewKey: map<Key, ProcessInfo>)
      requires DistinctKeys(es) && byKey == known && byId == map[] && newProcesses == []
      requires |buffers| == 2 && bufIndex < 2 && buffers[1 - bufIndex] == prev
      requires AllBack(known, prev, 1 - bufIndex, useFullInfo)
      requires known.Keys == Keys(prev) && forall k :: k in known ==> known[k].key == k && known[k] in live
      modifies this`byKey, this`byId, this`newProcesses, live
      ensures buffers == old(buffers) && bufIndex == old(bufIndex) && previous == old(previous) && run == old(run)
      ensures |ps| == |es| && IsTaking(es, known, ps, byNewKey, byKey, byId, newProcesses)
      ensures AllAt(ps, es, bufIndex, useFullInfo, prev) && AllBack(byKey, prev, 1 - bufIndex, useFullInfo)
      ensures forall p :: p in ps && p.key !in known ==> fresh(p)
    {
      hide IsTaking, AllAt, AllBack, DistinctKeys, Keys;
      ps, byNewKey := [], map[];
      NothingTaken(es, known, bufIndex, useFullInfo, prev);
      while |ps| < |es|
        invariant buffers == old(buffers) && bufIndex == old(bufIndex) && previous == old(previous) && run == old(run)
        invariant |ps| <= |es| && forall k :: k in byKey ==> byKey[k] in live
        invariant IsTaking(es, known, ps, byNewKey, byKey, byId, newProcesses)
        invariant AllAt(ps, es, bufIndex, useFullInfo, prev) && AllBack(byKey, prev, 1 - bufIndex, useFullInfo)
        invariant forall p :: p in ps && p.key !in known ==> fresh(p)
      {
        TakingKeys(es, known, ps, byNewKey, byKey, byId, newProcesses);
        var p := TakeEntry(es, known, prev, ps, byNewKey);
        ps, byNewKey := ps + [p], byNewKey[es[|ps|].key := p];
      }
    }

    /** What is left of the known processes, in no particular order. */
    method Remaining() returns (left: seq<ProcessInfo>)
      requires forall k :: k in byKey ==> byKey[k].key == k
      ensures AreValues(left, byKey) && forall i, j :: 0 <= i < j < |left| ==> left[i] != left[j]
    {
      left := [];
      var keys := byKey.Keys;
      while keys != {}
        invariant keys <= byKey.Keys && forall i, j :: 0 <= i < j < |left| ==> left[i] != left[j]
        invariant forall p :: p in left ==> p.key in byKey && p.key !in keys && byKey[p.key] == p
        invariant forall k :: k in byKey && k !in keys ==> byKey[k] in left
      {
        var k :| k in keys;
        left := left + [byKey[k]];
        keys := keys - {k};
      }
    }

    /** A snapshot just read into the current buffer becomes the one the live processes belong to. */
    method TakeSnapshot(es: seq<Entry>)
      requires Valid() && DistinctKeys(es) && buffers[bufIndex] == es
      modifies this, processes
      ensures Valid() && Snapshot() == es && previous == old(Snapshot()) && bufIndex == 1 - old(bufIndex)
      ensures newProcesses == NewOnes(processes, es, old(byKey).Keys)
      ensures forall p :: p in processes && p.key !in old(byKey) ==> fresh(p)
      ensures forall p :: p in processes && p.key in old(byKey) ==> p == old(byKey)[p.key]
      ensures forall p :: p in terminatedProcesses <==> p in old(processes) && p.key !in Keys(es)
      ensures AllStill(terminatedProcesses, buffers[bufIndex], bufIndex, useFullInfo)
          && buffers[bufIndex] == old(Snapshot())
      ensures run == old(run) + [Batch(Keys(es), KeysOf(newProcesses), KeysOf(terminatedProcesses))]
    {
      hide IsTaking, AllBack, AllStill, DistinctKeys, IsLive, NewOnes, Keys, KeysOf, IsBatch, IsRun, Live;
      ghost var known, prev, before := byKey, Snapshot(), processes;
      WhenLive(processes, byKey, byId, prev, 1 - bufIndex, useFullInfo, previous);
      byId := map[];
      newProcesses := [];
      var ps, byNewKey := TakeAll(es, known, before, prev);
      TakenAll(es, known, ps, byNewKey, byKey, byId, newProcesses, bufIndex, useFullInfo, prev);
      terminatedProcesses := Remaining();
      StillThere(terminatedProcesses, byKey, prev, 1 - bufIndex, useFullInfo);
      Gone(terminatedProcesses, byKey, known, before, Keys(es));
      BatchOf(ps, es, known.Keys, Keys(prev), newProcesses, terminatedProcesses, byKey);
      Settle(es, ps, byNewKey, prev);
    }

    /** The processes taken become the live ones. */
    method Settle(es: seq<Entry>, ps: seq<ProcessInfo>, byNewKey: map<Key, ProcessInfo>, ghost prev: seq<Entry>)
      requires |buffers| == 2 && bufIndex < 2 && buffers[bufIndex] == es && buffers[1 - bufIndex] == prev
      requires IsLive(ps, byNewKey, byId, es, bufIndex, useFullInfo, prev)
      requires IsRun(run) && Live(run) == Keys(prev)
      requires IsBatch(Keys(prev), Batch(Keys(es), KeysOf(newProcesses), KeysOf(terminatedProcesses)))
      modifies this`processes, this`byKey, this`bufIndex, this`previous, this`run
      ensures Valid() && processes == ps && Snapshot() == es && previous == prev && bufIndex == 1 - old(bufIndex)
      ensures run == old(run) + [Batch(Keys(es), KeysOf(newProcesses), KeysOf(terminatedProcesses))]
    {
      hide IsLive, Keys, KeysOf, IsBatch, IsRun, Live;
      ghost var batch := Batch(Keys(es), KeysOf(newProcesses), KeysOf(terminatedProcesses));
      RunMore(run, batch);
      previous, run := prev, run + [batch];
      assert IsLive(ps, byNewKey, byId, es, bufIndex, useFullInfo, prev);
      processes, byKey, bufIndex := ps, byNewKey, 1 - bufIndex;
      assert IsLive(ps, byNewKey, byId, es, 1 - bufIndex, useFullInfo, prev);
      assert Snapshot() == es;
    }

    /** The next snapshot taken, or the failure to: then the live processes and what they point at stay. */
    method Update(outcome: Outcome) returns (count: nat)
      requires Valid() && (outcome.Filled? ==> DistinctKeys(outcome.entries))
      modifies this, processes
      ensures Valid() && count == |processes|
      ensures outcome.Failed? ==>
        && processes == old(processes) && newProcesses == old(newProcesses)
        && terminatedProcesses == old(terminatedProcesses) && Snapshot() == old(Snapshot()) && run == old(run)
        && forall p :: p in processes ==> p.native == old(p.native) && p.elapsed == old(p.elapsed)
      ensures outcome.Filled? ==>
        && Snapshot() == outcome.entries && previous == old(Snapshot()) && bufIndex == 1 - old(bufIndex)
        && newProcesses == NewOnes(processes, outcome.entries, old(byKey).Keys)
        && (forall p :: p in processes && p.key !in old(byKey) ==> fresh(p))
        && (forall p :: p in processes && p.key in old(byKey) ==> p == old(byKey)[p.key])
        && (forall p :: p in terminatedProcesses <==> p in old(processes) && p.key !in Keys(outcome.entries))
        && AllStill(terminatedProcesses, buffers[bufIndex], bufIndex, useFullInfo)
        && buffers[bufIndex] == old(Snapshot())
        && run == old(run) + [Batch(Keys(outcome.entries), KeysOf(newProcesses), KeysOf(terminatedProcesses))]
    {
      hide IsLive, DistinctKeys, NewOnes, Keys, KeysOf, AllStill, IsRun, Live;
      var entries := QuerySystemProcesses(outcome);
      if entries.Some? { TakeSnapshot(entries.value); }
      count := |processes|;
    }
  }

  /** An index of the live processes by key. */
  lemma IndexIs(byKey: map<Key, ProcessInfo>, ps: seq<ProcessInfo>)
    requires IsIndex(byKey, ps)
    ensures AreValues(ps, byKey) && forall k :: k in byKey ==> byKey[k].key == k
  {}

  lemma SameKeys(byKey: map<Key, ProcessInfo>, ps: seq<ProcessInfo>, es: seq<Entry>)
    requires IsIndex(byKey, ps) && |ps| == |es| && forall i :: 0 <= i < |ps| ==> ps[i].key == es[i].key
    ensures byKey.Keys == Keys(es)
  {
    forall k | k in byKey ensures k in Keys(es) {
      var i :| 0 <= i < |ps| && ps[i] == byKey[k];
      assert es[i] in es;
    }
    forall k | k in Keys(es) ensures k in byKey {
      var i :| 0 <= i < |es| && es[i].key == k;
      assert ps[i].key in byKey;
    }
  }

  lemma BackAtSnapshot(byKey: map<Key, ProcessInfo>, ps: seq<ProcessInfo>, es: seq<Entry>,
                       buffer: nat, useFullInfo: bool, prev: seq<Entry>)
    requires IsIndex(byKey, ps) && AllAt(ps, es, buffer, useFullInfo, prev) && |ps| == |es|
    requires forall i :: 0 <= i < |ps| ==> ps[i].key == es[i].key
    ensures AllBack(byKey, es, buffer, useFullInfo)
  {
    forall k | k in byKey
      ensures byKey[k].native.buffer == buffer && byKey[k].native.index < |es|
      ensures es[byKey[k].native.index].key == byKey[k].key
          && (byKey[k].extended.Some? ==> useFullInfo && byKey[k].extended == Some(byKey[k].native))
    {
      var i :| 0 <= i < |ps| && ps[i] == byKey[k];
      assert IsAt(ps[i], es[i], Pointer(buffer, i), useFullInfo, prev);
    }
  }

  /** Every process of a snapshot at its own record in the buffer that holds it, and both indexes of them. */
  ghost predicate IsLive(ps: seq<ProcessInfo>, byKey: map<Key, ProcessInfo>, byId: map<nat, ProcessInfo>,
                         es: seq<Entry>, buffer: nat, useFullInfo: bool, prev: seq<Entry>)
    reads ps
  {
    && DistinctKeys(es) && |ps| == |es| && (forall i :: 0 <= i < |ps| ==> ps[i].key == es[i].key)
    && AllAt(ps, es, buffer, useFullInfo, prev) && IsIndex(byKey, ps) && IdsOk(byId, ps)
  }

  lemma WhenLive(ps: seq<ProcessInfo>, byKey: map<Key, ProcessInfo>, byId: map<nat, ProcessInfo>,
                 es: seq<Entry>, buffer: nat, useFullInfo: bool, prev: seq<Entry>)
    requires IsLive(ps, byKey, byId, es, buffer, useFullInfo, prev)
    ensures AreValues(ps, byKey) && forall k :: k in byKey ==> byKey[k].key == k && byKey[k] in ps
    ensures AllBack(byKey, es, buffer, useFullInfo) && byKey.Keys == Keys(es)
  {
    hide DistinctKeys, AllAt, IdsOk, AllBack, Keys;
    IndexIs(byKey, ps);
    BackAtSnapshot(byKey, ps, es, buffer, useFullInfo, prev);
    SameKeys(byKey, ps, es);
  }

  /** All taken: what is left of the known processes has gone. */
  lemma TakenAll(es: seq<Entry>, known: map<Key, ProcessInfo>, ps: seq<ProcessInfo>, byNewKey: map<Key, ProcessInfo>,
                 byKey: map<Key, ProcessInfo>, byId: map<nat, ProcessInfo>, newProcesses: seq<ProcessInfo>,
                 buffer: nat, useFullInfo: bool, prev: seq<Entry>)
    requires IsTaking(es, known, ps, byNewKey, byKey, byId, newProcesses) && |ps| == |es|
    requires DistinctKeys(es) && AllAt(ps, es, buffer, useFullInfo, prev)
    requires forall k :: k in known ==> known[k].key == k
    ensures IsLive(ps, byNewKey, byId, es, buffer, useFullInfo, prev) && newProcesses == NewOnes(ps, es, known.Keys)
    ensures forall i :: 0 <= i < |ps| ==> ps[i].key == es[i].key
    ensures forall p :: p in ps && p.key in known ==> p == known[p.key]
    ensures byKey == (map k | k in known && k !in Keys(es) :: known[k]) && byKey.Keys == known.Keys - Keys(es)
    ensures forall k :: k in byKey ==> byKey[k].key == k
  {
    assert es[..|ps|] == es;
    hide IdsOk, IsIndex, NewOnes, Keys, AllAt, DistinctKeys;
    assert byKey.Keys == known.Keys - Keys(es);
  }

  /** What was live and is not in the new snapshot. */
  lemma Gone(ts: seq<ProcessInfo>, left: map<Key, ProcessInfo>, known: map<Key, ProcessInfo>, live: seq<ProcessInfo>,
             now: set<Key>)
    requires AreValues(ts, left) && AreValues(live, known) && left == (map k | k in known && k !in now :: known[k])
    ensures forall p :: p in ts <==> p in live && p.key !in now
  {
    forall p | p in live && p.key !in now ensures p in ts {
      assert p.key in left && left[p.key] == p;
    }
  }

  /** The lists reported are the differences of the two snapshots. */
  lemma BatchOf(ps: seq<ProcessInfo>, es: seq<Entry>, known: set<Key>, was: set<Key>, new0: seq<ProcessInfo>,
                gone: seq<ProcessInfo>, left: map<Key, ProcessInfo>)
    requires |ps| == |es| && DistinctKeys(es) && (forall i :: 0 <= i < |ps| ==> ps[i].key == es[i].key)
    requires known == was && new0 == NewOnes(ps, es, known) && left.Keys == known - Keys(es)
    requires AreValues(gone, left) && (forall i, j :: 0 <= i < j < |gone| ==> gone[i] != gone[j])
    requires forall k :: k in left ==> left[k].key == k
    ensures IsBatch(was, Batch(Keys(es), KeysOf(new0), KeysOf(gone)))
  {
    hide DistinctKeys, NewOnes, Keys, KeysOf, AreValues;
    NewKeys(ps, es, known);
    GoneKeys(gone, left);
  }

  /** Processes that still point at their own records in the buffer with the previous snapshot. */
  ghost predicate AllStill(ps: seq<ProcessInfo>, prev: seq<Entry>, buffer: int, useFullInfo: bool)
    reads ps
  {
    forall p :: p in ps ==>
      p.native.buffer == buffer && p.native.index < |prev| && prev[p.native.index].key == p.key
      && (p.extended.Some? ==> useFullInfo && p.extended == Some(p.native))
  }

  lemma StillThere(ps: seq<ProcessInfo>, left: map<Key, ProcessInfo>, prev: seq<Entry>, buffer: int, useFullInfo: bool)
    requires AreValues(ps, left) && AllBack(left, prev, buffer, useFullInfo)
    ensures AllStill(ps, prev, buffer, useFullInfo)
  {}

  lemma NothingTaken(es: seq<Entry>, known: map<Key, ProcessInfo>, buffer: nat, useFullInfo: bool, prev: seq<Entry>)
    ensures IsTaking(es, known, [], map[], known, map[], []) && AllAt([], es, buffer, useFullInfo, prev)
  {
    assert es[..0] == [];
  }

  /** Half-way through a snapshot: its first processes taken, the rest of the known ones not seen yet. */
  ghost predicate IsTaking(es: seq<Entry>, known: map<Key, ProcessInfo>, ps: seq<ProcessInfo>,
                           byNewKey: map<Key, ProcessInfo>, byKey: map<Key, ProcessInfo>,
                           byId: map<nat, ProcessInfo>, newProcesses: seq<ProcessInfo>) {
    && |ps| <= |es| && IsPlaced(es, known, ps)
    && byKey == (map k | k in known && k !in Keys(es[..|ps|]) :: known[k])
    && IsIndex(byNewKey, ps) && IdsOk(byId, ps)
    && newProcesses == NewOnes(ps, es[..|ps|], known.Keys)
  }

  lemma TakingKeys(es: seq<Entry>, known: map<Key, ProcessInfo>, ps: seq<ProcessInfo>, byNewKey: map<Key, ProcessInfo>,
                   byKey: map<Key, ProcessInfo>, byId: map<nat, ProcessInfo>, newProcesses: seq<ProcessInfo>)
    requires IsTaking(es, known, ps, byNewKey, byKey, byId, newProcesses) && |ps| < |es| && DistinctKeys(es)
    requires forall k :: k in known ==> known[k].key == k
    ensures forall k :: k in byKey ==> k in known && byKey[k].key == k
    ensures es[|ps|].key in known ==> es[|ps|].key in byKey
    ensures forall j :: 0 <= j < |ps| ==> ps[j].key != es[|ps|].key
  {
    Unseen(es, |ps|);
  }

  lemma TakingMore(es: seq<Entry>, known: map<Key, ProcessInfo>, ps: seq<ProcessInfo>, byNewKey: map<Key, ProcessInfo>,
                   byKey: map<Key, ProcessInfo>, byId: map<nat, ProcessInfo>, newProcesses: seq<ProcessInfo>,
                   p: ProcessInfo)
    requires IsTaking(es, known, ps, byNewKey, byKey, byId, newProcesses) && |ps| < |es| && DistinctKeys(es)
    requires p.key == es[|ps|].key && (p.key in byKey ==> p == byKey[p.key])
    ensures IsTaking(es, known, ps + [p], byNewKey[p.key := p], byKey - {p.key},
                     if p.key.id in byId then byId else byId[p.key.id := p],
                     if p.key in byKey then newProcesses else newProcesses + [p])
  {
    hide IdsOk, NewOnes, Keys, IsIndex;
    Unseen(es, |ps|);
    IdsMore(byId, ps, p);
    NewMore(ps, es, known.Keys, p);
    KeysMore(es, |ps|);
    assert forall j :: 0 <= j < |ps| ==> ps[j].key == es[j].key;
    IndexMore(byNewKey, ps, p);
  }

  /** The CPU time since the snapshot before, in which the process was if its key was; nothing for a new one. */
  ghost predicate Measured(elapsed: int, e: Entry, prev: seq<Entry>) {
    if e.key in Keys(prev) then exists r :: r in prev && r.key == e.key && elapsed == e.cpu - r.cpu else elapsed == 0
  }

  /** A process at its record in the buffer being read. */
  ghost predicate IsAt(p: ProcessInfo, e: Entry, at: Pointer, useFullInfo: bool, prev: seq<Entry>)
    reads p
  {
    p.native == at && (p.extended.Some? ==> useFullInfo && p.extended == Some(at)) && Measured(p.elapsed, e, prev)
  }

  ghost predicate AllAt(ps: seq<ProcessInfo>, es: seq<Entry>, buffer: nat, useFullInfo: bool, prev: seq<Entry>)
    reads ps
  {
    |ps| <= |es| && forall j :: 0 <= j < |ps| ==> IsAt(ps[j], es[j], Pointer(buffer, j), useFullInfo, prev)
  }

  /** The known processes not seen yet still point at their own records in the previous snapshot. */
  ghost predicate AllBack(known: map<Key, ProcessInfo>, prev: seq<Entry>, buffer: int, useFullInfo: bool)
    reads known.Values
  {
    forall k :: k in known ==>
      var p := known[k];
      p.native.buffer == buffer && p.native.index < |prev| && prev[p.native.index].key == p.key
      && (p.extended.Some? ==> useFullInfo && p.extended == Some(p.native))
  }

  /** The objects taken are the known ones of their keys, where there are any. */
  ghost predicate IsPlaced(es: seq<Entry>, known: map<Key, ProcessInfo>, ps: seq<ProcessInfo>)
    requires |ps| <= |es|
  {
    forall j :: 0 <= j < |ps| ==> ps[j].key == es[j].key && (es[j].key in known ==> ps[j] == known[es[j].key])
  }

  ghost predicate AreValues(ps: seq<ProcessInfo>, byKey: map<Key, ProcessInfo>) {
    (forall p :: p in ps ==> p.key in byKey && byKey[p.key] == p) && forall k :: k in byKey ==> byKey[k] in ps
  }

  ghost predicate IsIndex(byKey: map<Key, ProcessInfo>, ps: seq<ProcessInfo>) {
    && (forall j :: 0 <= j < |ps| ==> ps[j].key in byKey && byKey[ps[j].key] == ps[j])
    && forall k :: k in byKey ==> byKey[k] in ps && byKey[k].key == k
  }

  lemma Unseen(es: seq<Entry>, i: nat)
    requires i < |es| && DistinctKeys(es)
    ensures es[i].key !in Keys(es[..i])
    ensures forall j :: 0 <= j < i ==> es[j].key != es[i].key && es[j].key in Keys(es[..i])
  {
    forall x | x in es[..i] ensures x.key != es[i].key { var j :| 0 <= j < i && es[..i][j] == x; }
    forall j | 0 <= j < i ensures es[j].key in Keys(es[..i]) { assert es[..i][j] == es[j]; }
  }

  lemma KeysMore(es: seq<Entry>, i: nat)
    requires i < |es|
    ensures Keys(es[..i + 1]) == Keys(es[..i]) + {es[i].key}
  {
    assert es[..i + 1] == es[..i] + [es[i]];
  }

  lemma IndexMore(byKey: map<Key, ProcessInfo>, ps: seq<ProcessInfo>, p: ProcessInfo)
    requires IsIndex(byKey, ps) && forall j :: 0 <= j < |ps| ==> ps[j].key != p.key
    ensures IsIndex(byKey[p.key := p], ps + [p])
  {
    assert (ps + [p])[|ps|] == p;
  }

  lemma NewMore(ps: seq<ProcessInfo>, es: seq<Entry>, known: set<Key>, p: ProcessInfo)
    requires |ps| < |es|
    ensures NewOnes(ps + [p], es[..|ps| + 1], known)
         == NewOnes(ps, es[..|ps|], known) + if es[|ps|].key in known then [] else [p]
  {
    assert (ps + [p])[..|ps|] == ps && es[..|ps| + 1][..|ps|] == es[..|ps|];
  }

  lemma IdsMore(byId: map<nat, ProcessInfo>, ps: seq<ProcessInfo>, p: ProcessInfo)
    requires IdsOk(byId, ps)
    ensures IdsOk(if p.key.id in byId then byId else byId[p.key.id := p], ps + [p])
  {
    var r, qs := if p.key.id in byId then byId else byId[p.key.id := p], ps + [p];
    forall id | id in r
      ensures exists i ::
                0 <= i < |qs| && r[id] == qs[i] && qs[i].key.id == id && forall j :: 0 <= j < i ==> qs[j].key.id != id
    {
      if id in byId {
        var i :| 0 <= i < |ps| && byId[id] == ps[i] && ps[i].key.id == id
          && forall j :: 0 <= j < i ==> ps[j].key.id != id;
        assert qs[i] == ps[i];
      } else {
        assert qs[|ps|] == p;
      }
    }
  }

  /** Each ID's first process in the snapshot. */
  ghost predicate IdsOk(byId: map<nat, ProcessInfo>, ps: seq<ProcessInfo>) {
    && (forall i :: 0 <= i < |ps| ==> ps[i].key.id in byId)
    && forall id :: id in byId ==> exists i ::
         0 <= i < |ps| && byId[id] == ps[i] && ps[i].key.id == id && forall j :: 0 <= j < i ==> ps[j].key.id != id
  }
}
