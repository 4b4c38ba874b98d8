/** IpcTracker's ALPC half: send and receive events joined by message ID, counted per client and server. */
module AlpcMatching {
  import opened Units
  import opened AlpcModel
  import opened AlpcMessages

  // The history

  /** The message IDs of the events of an opcode. */
  ghost function EventIds(history: seq<Event>, opcode: int): multiset<uint32> {
    if history == [] then multiset{}
    else
      var e := history[|history| - 1];
      EventIds(history[..|history| - 1], opcode) + if e.opcode == opcode then multiset{e.id} else multiset{}
  }

  /** The message IDs of the pairs counted. */
  ghost function PairIds(pairs: seq<Pair>): multiset<uint32> {
    if pairs == [] then multiset{} else PairIds(pairs[..|pairs| - 1]) + multiset{pairs[|pairs| - 1].id}
  }

  ghost function Events(history: seq<Event>, opcode: int): nat { |EventIds(history, opcode)| }

  /** The q-th event is the next of its message after the p-th. */
  ghost predicate IsNext(history: seq<Event>, id: uint32, p: int, q: int)
    requires 0 <= p < q < |history|
  {
    history[p].id == id && history[q].id == id && forall r :: p < r < q ==> history[r].id != id
  }

  /** The message's events from lo on and before hi: none long after the one before it. */
  ghost predicate IsUnbroken(history: seq<Event>, id: uint32, lo: nat, hi: nat)
    requires hi <= |history|
  {
    forall p, q :: lo <= p < q < hi && IsNext(history, id, p, q) ==>
      Elapsed(history[q].tick, history[p].tick) <= PENDING_LIFETIME
  }

  ghost predicate Happened(history: seq<Event>, lo: nat, hi: nat, opcode: int, id: uint32, pid: uint32)
    requires hi <= |history|
  {
    exists i :: lo <= i < hi && history[i].opcode == opcode && history[i].id == id && history[i].pid == pid
  }

  /** The last event of the message from lo on was at the tick. */
  ghost predicate LastAt(history: seq<Event>, id: uint32, lo: nat, tick: nat) {
    forall p :: lo <= p < |history| && history[p].id == id && (forall r :: p < r < |history| ==> history[r].id != id)
      ==> history[p].tick == tick
  }

  /** What a pending message says of a process happened, in one message that did not expire since. */
  ghost predicate IsTrueSince(history: seq<Event>, id: uint32, m: Message, lo: nat) {
    && IsUnbroken(history, id, lo, |history|) && LastAt(history, id, lo, m.tick)
    && (m.sender != 0 ==> Happened(history, lo, |history|, SEND, id, m.sender))
    && (m.receiver != 0 ==> Happened(history, lo, |history|, RECEIVE, id, m.receiver))
    && (m.client != 0 ==> Happened(history, lo, |history|, WAIT_FOR_REPLY, id, m.client))
  }

  ghost predicate IsTrue(history: seq<Event>, id: uint32, m: Message) {
    exists lo: nat :: IsTrueSince(history, id, m, lo)
  }

  /** A pair is a sender and a receiver of one unexpired message, counted at the last of its events; its client is the
      sender, or a receiver that waited for the reply. */
  ghost predicate IsWitnessedIn(history: seq<Event>, p: Pair, lo: nat, hi: nat) {
    && 0 < hi <= |history| && history[hi - 1].id == p.id && history[hi - 1].now == p.now
    && IsUnbroken(history, p.id, lo, hi) && p.client != p.server && p.client != 0 && p.server != 0
    && ((Happened(history, lo, hi, SEND, p.id, p.client) && Happened(history, lo, hi, RECEIVE, p.id, p.server))
        || (Happened(history, lo, hi, RECEIVE, p.id, p.client) && Happened(history, lo, hi, SEND, p.id, p.server)
            && Happened(history, lo, hi, WAIT_FOR_REPLY, p.id, p.client)))
  }

  ghost predicate IsWitnessed(history: seq<Event>, p: Pair) {
    exists lo: nat, hi: nat :: IsWitnessedIn(history, p, lo, hi)
  }

  ghost function Senders(pending: map<uint32, Message>): set<uint32> {
    set id | id in pending && pending[id].sender != 0
  }

  ghost function Receivers(pending: map<uint32, Message>): set<uint32> {
    set id | id in pending && pending[id].receiver != 0
  }

  /** When the pair of a key was counted. */
  ghost function Times(pairs: seq<Pair>, key: nat): seq<int> {
    if pairs == [] then []
    else
      var p := pairs[|pairs| - 1];
      Times(pairs[..|pairs| - 1], key) + if Pack(p.client, p.server) == key then [p.now] else []
  }

  /** The counters say exactly how often, when first and when last each pair was counted. */
  ghost predicate IsTally(alpc: map<nat, Counter>, pairs: seq<Pair>) {
    && (forall key :: key in alpc <==> Times(pairs, key) != [])
    && forall key :: key in alpc ==>
         var t := Times(pairs, key);
         alpc[key] == Counter(|t|, t[0], t[|t| - 1])
  }

  ghost function Without(pairs: seq<Pair>, pid: uint32): seq<Pair> {
    if pairs == [] then []
    else
      var p := pairs[|pairs| - 1];
      if p.client == pid || p.server == pid then Without(pairs[..|pairs| - 1], pid)
      else Without(pairs[..|pairs| - 1], pid) + [p]
  }

  /** All of a state: messages that happened, pairs that happened, and of no message more of them than its sends or its
      receives. */
  ghost predicate IsFaithful(pending: map<uint32, Message>, pairs: seq<Pair>, history: seq<Event>) {
    && (forall id :: id in pending ==> IsTrue(history, id, pending[id]))
    && (forall p :: p in pairs ==> IsWitnessed(history, p))
    && PairIds(pairs) + multiset(Senders(pending)) <= EventIds(history, SEND)
    && PairIds(pairs) + multiset(Receivers(pending)) <= EventIds(history, RECEIVE)
  }

  class IpcTracker {
    var pending: map<uint32, Message>
    var alpc: map<nat, Counter>
    var lastPrune: nat
    ghost var history: seq<Event>   // the events counted
    ghost var pairs: seq<Pair>      // the messages counted of processes not removed

    ghost predicate Valid()
      reads this
    {
      IsTally(alpc, pairs) && IsFaithful(pending, pairs, history) && (IsClock(history) ==> IsExact(pending, history))
    }

    constructor ()
      ensures Valid() && pending == map[] && alpc == map[] && history == [] && pairs == []
    {
      pending, alpc, lastPrune := map[], map[], 0;
      history, pairs := [], [];
    }

    method OnAlpc(e: Event)
      requires Valid()
      modifies this
      ensures Valid()
      ensures !IsCounted(e) ==> pending == old(pending) && alpc == old(alpc) && lastPrune == old(lastPrune)
                                && history == old(history) && pairs == old(pairs)
      ensures IsCounted(e) ==>
        var m := Seen(Known(old(pending), e), e);
        var prunes := e.opcode != WAIT_FOR_REPLY && Elapsed(e.tick, old(lastPrune)) > PRUNE_INTERVAL;
        && history == old(history) + [e] && pairs == old(pairs) + PairsOf(m, e)
        && (var left := old(pending)[e.id := Left(m, e)]; pending == if prunes then Pruned(left, e.tick) else left)
        && lastPrune == if prunes then e.tick else old(lastPrune)
      ensures IsCounted(e) && IsClock(history) ==>
        exists ps :: pairs == old(pairs) + ps && AreCounted(ps, Conversation(history, e.id))
    {
      hide IsFaithful, IsTally, Elapsed, IsExact, IsClock, AreCounted, Conversation;
      if e.opcode < SEND || e.opcode > WAIT_FOR_REPLY || !e.hasId || e.pid == 0 || e.pid == NO_PROCESS { return; }
      var message := if e.id in pending then pending[e.id] else NONE;
      if Elapsed(e.tick, message.tick) > PENDING_LIFETIME { message := NONE; }
      message := message.(tick := e.tick);
      if e.opcode == SEND {
        message := message.(sender := e.pid);
      } else if e.opcode == RECEIVE {
        message := message.(receiver := e.pid);
      } else {
        message := message.(client := e.pid);
        Faithful(pending, pairs, history, e);
        ExactStep(pending, history, e);
        assert pairs == pairs + PairsOf(message, e);
        pending, history := pending[e.id := message], history + [e];
        return;
      }
      ghost var m := message;
      Faithful(pending, pairs, history, e);
      ExactStep(pending, history, e);
      if message.sender != 0 && message.receiver != 0 {
        var sender, receiver := message.sender, message.receiver;
        message := message.(sender := 0, receiver := 0);
        if sender != receiver {
          var client := if message.client == receiver then receiver else sender;
          var server := if client == sender then receiver else sender;
          Add(e.id, client, server, e.now);
        }
      }
      pending, history := pending[e.id := message], history + [e];
      assert message == Left(m, e) && pairs == old(pairs) + PairsOf(m, e);
      if Elapsed(e.tick, lastPrune) > PRUNE_INTERVAL {
        lastPrune := e.tick;
        PrunedIsFaithful(pending, pairs, history, e.tick);
        ExactPruned(pending, history, e.tick);
        pending := Pruned(pending, e.tick);
      }
    }

    /** One message more of a client and a server. */
    method Add(ghost id: uint32, client: uint32, server: uint32, now: int)
      requires IsTally(alpc, pairs)
      modifies this`alpc, this`pairs
      ensures IsTally(alpc, pairs) && pairs == old(pairs) + [Pair(id, client, server, now)]
    {
      var key := Pack(client, server);
      var c := if key in alpc then alpc[key] else Counter(0, 0, 0);
      c := Counter(c.count + 1, if c.count == 0 then now else c.firstSeen, now);
      TallyMore(alpc, pairs, Pair(id, client, server, now), c);
      alpc, pairs := alpc[key := c], pairs + [Pair(id, client, server, now)];
    }

    /** A process that exited is forgotten: its pairs go, and the others stay as they were. */
    method RemoveProcess(pid: uint32)
      requires Valid()
      modifies this`alpc, this`pairs
      ensures Valid() && pairs == Without(old(pairs), pid)
    {
      TallyWithout(alpc, pairs, pid);
      FaithfulWithout(pending, pairs, history, pid);
      alpc := map key | key in alpc && !(ClientOf(key) == pid || ServerOf(key) == pid) :: alpc[key];
      pairs := Without(pairs, pid);
    }

    /** Every pair counted, once, with how often, when first and when last; in no particular order. */
    method GetLinks() returns (links: seq<Link>)
      requires Valid()
      ensures forall l :: l in links ==>
        var t := Times(pairs, Pack(l.client, l.server));
        t != [] && l.counter == Counter(|t|, t[0], t[|t| - 1])
      ensures forall p :: p in pairs ==> exists l :: l in links && l.client == p.client && l.server == p.server
      ensures forall i, j :: 0 <= i < j < |links| ==>
          (links[i].client, links[i].server) != (links[j].client, links[j].server)
      ensures Total(links) == |pairs| && Total(links) <= Events(history, SEND)
          && Total(links) <= Events(history, RECEIVE)
    {
      hide IsTally, IsFaithful, Times, ClientOf, ServerOf, Pack, Total, Events;
      links := [];
      ghost var done: seq<nat> := [];
      var keys := alpc.Keys;
      while keys != {}
        invariant keys <= alpc.Keys && AreLinks(links, done, alpc)
        invariant forall key :: key in alpc <==> key in done || key in keys
        invariant forall key :: key in done ==> key !in keys
      {
        hide AreLinks;
        var key :| key in keys;
        LinksMore(links, done, alpc, key);
        links := links + [Link(ClientOf(key), ServerOf(key), alpc[key])];
        done := done + [key];
        keys := keys - {key};
      }
      LinksAreAll(links, done, alpc, pairs);
      LinksAddUp(links, done, alpc, pairs);
      BoundedByMessage(pending, pairs, history, 0);
    }
  }

  /** The links of keys seen, each once. */
  ghost predicate AreLinks(links: seq<Link>, done: seq<nat>, alpc: map<nat, Counter>) {
    && |links| == |done| && (forall i, j :: 0 <= i < j < |done| ==> done[i] != done[j])
    && forall i :: 0 <= i < |done| ==>
      done[i] in alpc && links[i] == Link(ClientOf(done[i]), ServerOf(done[i]), alpc[done[i]])
  }

  lemma LinksMore(links: seq<Link>, done: seq<nat>, alpc: map<nat, Counter>, key: nat)
    requires AreLinks(links, done, alpc) && key in alpc && key !in done
    ensures AreLinks(links + [Link(ClientOf(key), ServerOf(key), alpc[key])], done + [key], alpc)
  {
    hide ClientOf, ServerOf;
  }

  lemma LinksAreAll(links: seq<Link>, done: seq<nat>, alpc: map<nat, Counter>, pairs: seq<Pair>)
    requires AreLinks(links, done, alpc) && IsTally(alpc, pairs) && forall key :: key in alpc ==> key in done
    ensures forall l :: l in links ==>
      var t := Times(pairs, Pack(l.client, l.server));
      t != [] && l.counter == Counter(|t|, t[0], t[|t| - 1])
    ensures forall p :: p in pairs ==> exists l :: l in links && l.client == p.client && l.server == p.server
    ensures forall i, j :: 0 <= i < j < |links| ==>
        (links[i].client, links[i].server) != (links[j].client, links[j].server)
  {
    hide ClientOf, ServerOf, Times, Pack;
    forall i | 0 <= i < |links| ensures Pack(links[i].client, links[i].server) == done[i] { KeyOfPair(pairs, done[i]); }
    forall p | p in pairs ensures exists l :: l in links && l.client == p.client && l.server == p.server {
      PairHasTimes(pairs, p);
      Unpacks(p.client, p.server);
      var i :| 0 <= i < |done| && done[i] == Pack(p.client, p.server);
      assert links[i] in links;
    }
  }

  // The counters add up

  ghost function Total(links: seq<Link>): nat {
    if links == [] then 0 else Total(links[..|links| - 1]) + links[|links| - 1].counter.count
  }

  ghost function Sum(keys: seq<nat>, pairs: seq<Pair>): nat {
    if keys == [] then 0 else Sum(keys[..|keys| - 1], pairs) + |Times(pairs, keys[|keys| - 1])|
  }

  lemma LinksAddUp(links: seq<Link>, done: seq<nat>, alpc: map<nat, Counter>, pairs: seq<Pair>)
    requires AreLinks(links, done, alpc) && IsTally(alpc, pairs) && forall key :: key in alpc ==> key in done
    ensures Total(links) == |pairs|
  {
    TotalIsSum(links, done, alpc, pairs);
    forall p | p in pairs ensures Pack(p.client, p.server) in done { PairHasTimes(pairs, p); }
    SumIsAll(done, pairs);
  }

  lemma {:induction false} TotalIsSum(links: seq<Link>, done: seq<nat>, alpc: map<nat, Counter>, pairs: seq<Pair>)
    requires AreLinks(links, done, alpc) && IsTally(alpc, pairs)
    ensures Total(links) == Sum(done, pairs)
  {
    hide ClientOf, ServerOf, Times;
    if done != [] { TotalIsSum(links[..|done| - 1], done[..|done| - 1], alpc, pairs); }
  }

  /** Different keys that cover all pairs share them out. */
  lemma {:induction false} SumIsAll(keys: seq<nat>, pairs: seq<Pair>)
    requires forall i, j :: 0 <= i < j < |keys| ==> keys[i] != keys[j]
    requires forall p :: p in pairs ==> Pack(p.client, p.server) in keys
    ensures Sum(keys, pairs) == |pairs|
  {
    if pairs == [] {
      SumOfNone(keys);
    } else {
      var before, p := pairs[..|pairs| - 1], pairs[|pairs| - 1];
      SumIsAll(keys, before);
      assert pairs == before + [p];
      SumMore(keys, before, p);
    }
  }

  lemma {:induction false} SumOfNone(keys: seq<nat>)
    ensures Sum(keys, []) == 0
  {
    if keys != [] { SumOfNone(keys[..|keys| - 1]); }
  }

  lemma {:induction false} SumMore(keys: seq<nat>, pairs: seq<Pair>, p: Pair)
    requires forall i, j :: 0 <= i < j < |keys| ==> keys[i] != keys[j]
    ensures Sum(keys, pairs + [p]) == Sum(keys, pairs) + if Pack(p.client, p.server) in keys then 1 else 0
  {
    hide Times, Pack;
    if keys != [] {
      var last := keys[|keys| - 1];
      SumMore(keys[..|keys| - 1], pairs, p);
      TimesMore(pairs, p, last);
      assert keys == keys[..|keys| - 1] + [last];
      assert last !in keys[..|keys| - 1];
    }
  }

  // The lemmas

  lemma HappenedMore(history: seq<Event>, e: Event, lo: nat, hi: nat, opcode: int, id: uint32, pid: uint32)
    requires hi <= |history| && Happened(history, lo, hi, opcode, id, pid)
    ensures Happened(history + [e], lo, hi, opcode, id, pid) && Happened(history + [e], lo, hi + 1, opcode, id, pid)
  {
    var i :| lo <= i < hi && history[i].opcode == opcode && history[i].id == id && history[i].pid == pid;
    assert (history + [e])[i] == history[i];
  }

  lemma JustHappened(history: seq<Event>, e: Event, lo: nat)
    requires lo <= |history|
    ensures Happened(history + [e], lo, |history| + 1, e.opcode, e.id, e.pid)
  {
    assert (history + [e])[|history|] == e;
  }

  lemma UnbrokenMore(history: seq<Event>, e: Event, id: uint32, lo: nat, hi: nat)
    requires hi <= |history| && IsUnbroken(history, id, lo, hi)
    ensures IsUnbroken(history + [e], id, lo, hi)
  {
    var h := history + [e];
    forall p, q | lo <= p < q < hi && IsNext(h, id, p, q) ensures Elapsed(h[q].tick, h[p].tick) <= PENDING_LIFETIME {
      assert forall r :: p <= r <= q ==> h[r] == history[r];
      assert IsNext(history, id, p, q);
    }
  }

  /** A message's events are unbroken through the next event, unless that is of the message and too late. */
  lemma StaysUnbroken(history: seq<Event>, e: Event, id: uint32, m: Message, lo: nat)
    requires IsUnbroken(history, id, lo, |history|) && LastAt(history, id, lo, m.tick)
    requires e.id == id ==> Elapsed(e.tick, m.tick) <= PENDING_LIFETIME
    ensures IsUnbroken(history + [e], id, lo, |history| + 1)
  {
    hide Elapsed;
    var h, n := history + [e], |history|;
    UnbrokenMore(history, e, id, lo, n);
    forall p, q | lo <= p < q < n + 1 && IsNext(h, id, p, q) ensures Elapsed(h[q].tick, h[p].tick) <= PENDING_LIFETIME {
      if q == n {
        assert forall r :: p <= r < n ==> h[r] == history[r];
        assert forall r :: p < r < n ==> history[r].id != id;
      }
    }
  }

  lemma LastStays(history: seq<Event>, e: Event, id: uint32, lo: nat, tick: nat)
    requires LastAt(history, id, lo, tick) && e.id != id
    ensures LastAt(history + [e], id, lo, tick)
  {
    var h := history + [e];
    forall p | lo <= p < |h| && h[p].id == id && (forall r :: p < r < |h| ==> h[r].id != id) ensures h[p].tick == tick {
      assert forall r :: p <= r < |history| ==> h[r] == history[r];
    }
  }

  lemma LastIsNew(history: seq<Event>, e: Event, lo: nat)
    ensures LastAt(history + [e], e.id, lo, e.tick)
  {
    var h := history + [e];
    assert h[|history|] == e;
  }

  /** Another message's event changes nothing a message says. */
  lemma TrueOfOthers(history: seq<Event>, e: Event, id: uint32, m: Message)
    requires IsTrue(history, id, m) && e.id != id
    ensures IsTrue(history + [e], id, m)
  {
    hide IsUnbroken, LastAt, Happened;
    var lo: nat :| IsTrueSince(history, id, m, lo);
    StaysUnbroken(history, e, id, m, lo);
    LastStays(history, e, id, lo, m.tick);
    FieldsMore(history, e, id, m, lo);
    assert IsTrueSince(history + [e], id, m, lo);
  }

  lemma FieldsMore(history: seq<Event>, e: Event, id: uint32, m: Message, lo: nat)
    requires IsTrueSince(history, id, m, lo)
    ensures var h, n := history + [e], |history| + 1;
      && (m.sender != 0 ==> Happened(h, lo, n, SEND, id, m.sender))
      && (m.receiver != 0 ==> Happened(h, lo, n, RECEIVE, id, m.receiver))
      && (m.client != 0 ==> Happened(h, lo, n, WAIT_FOR_REPLY, id, m.client))
  {
    hide Happened, IsUnbroken, LastAt;
    var n := |history|;
    if m.sender != 0 { HappenedMore(history, e, lo, n, SEND, id, m.sender); }
    if m.receiver != 0 { HappenedMore(history, e, lo, n, RECEIVE, id, m.receiver); }
    if m.client != 0 { HappenedMore(history, e, lo, n, WAIT_FOR_REPLY, id, m.client); }
  }

  /** A message with its next event, which is not too late, or starts it anew. */
  lemma TrueOfSeen(pending: map<uint32, Message>, history: seq<Event>, e: Event) returns (lo: nat)
    requires IsCounted(e) && (e.id in pending ==> IsTrue(history, e.id, pending[e.id]))
    ensures IsTrueSince(history + [e], e.id, Seen(Known(pending, e), e), lo) && lo <= |history|
  {
    hide IsUnbroken, LastAt, Happened, Elapsed;
    var m := if e.id in pending then pending[e.id] else NONE;
    if e.id in pending && Elapsed(e.tick, m.tick) <= PENDING_LIFETIME {
      lo :| IsTrueSince(history, e.id, m, lo);
      if lo > |history| { lo := StartsLater(history, e.id, m, lo); }
      StaysUnbroken(history, e, e.id, m, lo);
      FieldsMore(history, e, e.id, m, lo);
    } else {
      lo := |history|;
      StartsAnew(history, e);
    }
    LastIsNew(history, e, lo);
    JustHappened(history, e, lo);
  }

  /** A message that says nothing yet can start at the end. */
  lemma StartsLater(history: seq<Event>, id: uint32, m: Message, from: nat) returns (lo: nat)
    requires IsTrueSince(history, id, m, from) && from > |history|
    ensures lo == |history| && IsTrueSince(history, id, m, lo)
  {
    lo := |history|;
  }

  lemma StartsAnew(history: seq<Event>, e: Event)
    ensures IsUnbroken(history + [e], e.id, |history|, |history| + 1)
  {}

  lemma WitnessedMore(history: seq<Event>, e: Event, p: Pair)
    requires IsWitnessed(history, p)
    ensures IsWitnessed(history + [e], p)
  {
    hide Happened, IsUnbroken;
    var lo: nat, hi: nat :| IsWitnessedIn(history, p, lo, hi);
    UnbrokenMore(history, e, p.id, lo, hi);
    forall opcode, pid | Happened(history, lo, hi, opcode, p.id, pid)
      ensures Happened(history + [e], lo, hi, opcode, p.id, pid)
    {
      HappenedMore(history, e, lo, hi, opcode, p.id, pid);
    }
    assert IsWitnessedIn(history + [e], p, lo, hi);
  }

  lemma EventsMore(history: seq<Event>, e: Event, opcode: int)
    ensures EventIds(history + [e], opcode)
         == EventIds(history, opcode) + if e.opcode == opcode then multiset{e.id} else multiset{}
  {
    assert (history + [e])[..|history|] == history;
  }

  lemma PairIdsMore(pairs: seq<Pair>, p: Pair)
    ensures PairIds(pairs + [p]) == PairIds(pairs) + multiset{p.id}
  {
    assert (pairs + [p])[..|pairs|] == pairs;
  }

  /** An event keeps a state faithful: a message counted is no longer waiting. */
  lemma Faithful(pending: map<uint32, Message>, pairs: seq<Pair>, history: seq<Event>, e: Event)
    requires IsFaithful(pending, pairs, history) && IsCounted(e)
    ensures var m := Seen(Known(pending, e), e);
      IsFaithful(pending[e.id := Left(m, e)], pairs + PairsOf(m, e), history + [e])
  {
    hide IsTrueSince, IsWitnessedIn, Known, EventIds, PairIds;
    var m := Seen(Known(pending, e), e);
    var after := pending[e.id := Left(m, e)];
    var lo := TrueOfSeen(pending, history, e);
    LeftIsTrue(history + [e], e, m, lo);
    forall id | id in after ensures IsTrue(history + [e], id, after[id]) {
      if id != e.id { TrueOfOthers(history, e, id, pending[id]); }
    }
    forall p | p in pairs + PairsOf(m, e) ensures IsWitnessed(history + [e], p) {
      if p in pairs { WitnessedMore(history, e, p); } else { JustWitnessed(history + [e], e, m, lo, p); }
    }
    FaithfulCounts(pending, pairs, history, e);
  }

  lemma LeftIsTrue(history: seq<Event>, e: Event, m: Message, lo: nat)
    requires IsTrueSince(history, e.id, m, lo)
    ensures IsTrue(history, e.id, Left(m, e))
  {
    hide IsUnbroken, LastAt, Happened;
    assert IsTrueSince(history, e.id, Left(m, e), lo);
  }

  lemma JustWitnessed(history: seq<Event>, e: Event, m: Message, lo: nat, p: Pair)
    requires history != [] && history[|history| - 1] == e && IsTrueSince(history, e.id, m, lo) && p in PairsOf(m, e)
    ensures IsWitnessed(history, p)
  {
    hide IsUnbroken, LastAt, Happened;
    assert IsWitnessedIn(history, p, lo, |history|);
  }

  lemma FaithfulCounts(pending: map<uint32, Message>, pairs: seq<Pair>, history: seq<Event>, e: Event)
    requires IsCounted(e)
    requires PairIds(pairs) + multiset(Senders(pending)) <= EventIds(history, SEND)
    requires PairIds(pairs) + multiset(Receivers(pending)) <= EventIds(history, RECEIVE)
    ensures var m := Seen(Known(pending, e), e);
      var after := pending[e.id := Left(m, e)];
      && PairIds(pairs + PairsOf(m, e)) + multiset(Senders(after)) <= EventIds(history + [e], SEND)
      && PairIds(pairs + PairsOf(m, e)) + multiset(Receivers(after)) <= EventIds(history + [e], RECEIVE)
  {
    var known := Known(pending, e);
    var m := Seen(known, e);
    var after := pending[e.id := Left(m, e)];
    EventsMore(history, e, SEND);
    EventsMore(history, e, RECEIVE);
    PairsMore(pairs, m, e);
    assert known.sender != 0 ==> e.id in Senders(pending);
    assert known.receiver != 0 ==> e.id in Receivers(pending);
    hide Known, EventIds, PairIds;
    WaitingElsewhere(pending, e.id, Left(m, e));
    hide Senders, Receivers;
    var made := if PairsOf(m, e) == [] then 0 else 1;
    Balanced(PairIds(pairs), Senders(pending), EventIds(history, SEND), e.id, made, Senders(after),
             if e.opcode == SEND then 1 else 0);
    Balanced(PairIds(pairs), Receivers(pending), EventIds(history, RECEIVE), e.id, made, Receivers(after),
             if e.opcode == RECEIVE then 1 else 0);
  }

  lemma PairsMore(pairs: seq<Pair>, m: Message, e: Event)
    ensures PairIds(pairs + PairsOf(m, e))
         == PairIds(pairs) + if PairsOf(m, e) == [] then multiset{} else multiset{e.id}
  {
    hide PairIds;
    if PairsOf(m, e) == [] {
      assert pairs + PairsOf(m, e) == pairs;
    } else {
      PairIdsMore(pairs, PairsOf(m, e)[0]);
    }
  }

  /**
   * Counted and waiting are at most what happened, message by message, if that holds of the one
   * message that changed.
   */
  lemma Balanced(counted: multiset<uint32>, waiting: set<uint32>, happened: multiset<uint32>, id: uint32,
                 made: nat, after: set<uint32>, more: nat)
    requires counted + multiset(waiting) <= happened && after - {id} == waiting - {id} && made <= 1 && more <= 1
    requires made + (if id in after then 1 else 0) <= (if id in waiting then 1 else 0) + more
    ensures counted + (if made == 0 then multiset{} else multiset{id}) + multiset(after)
         <= happened + if more == 0 then multiset{} else multiset{id}
  {
    var a := counted + (if made == 0 then multiset{} else multiset{id}) + multiset(after);
    var b := happened + if more == 0 then multiset{} else multiset{id};
    forall x ensures a[x] <= b[x] {
      assert (counted + multiset(waiting))[x] <= happened[x];
      assert x != id ==> (x in after <==> x in after - {id}) && (x in waiting <==> x in waiting - {id});
    }
  }

  lemma WaitingElsewhere(pending: map<uint32, Message>, id: uint32, m: Message)
    ensures Senders(pending[id := m]) - {id} == Senders(pending) - {id}
    ensures Receivers(pending[id := m]) - {id} == Receivers(pending) - {id}
    ensures id in Senders(pending[id := m]) <==> m.sender != 0
    ensures id in Receivers(pending[id := m]) <==> m.receiver != 0
  {}

  lemma PrunedIsFaithful(pending: map<uint32, Message>, pairs: seq<Pair>, history: seq<Event>, tick: nat)
    requires IsFaithful(pending, pairs, history)
    ensures IsFaithful(Pruned(pending, tick), pairs, history)
  {
    hide IsTrue, IsWitnessed, EventIds, PairIds;
    assert Senders(Pruned(pending, tick)) <= Senders(pending);
    assert Receivers(Pruned(pending, tick)) <= Receivers(pending);
  }

  /** Of each message, and in all, no more pairs are counted than it was sent, and than it was received. */
  lemma {:induction false} BoundedByMessage(pending: map<uint32, Message>, pairs: seq<Pair>, history: seq<Event>,
                                            id: uint32)
    requires IsFaithful(pending, pairs, history)
    ensures PairIds(pairs)[id] <= EventIds(history, SEND)[id] && PairIds(pairs)[id] <= EventIds(history, RECEIVE)[id]
    ensures |pairs| <= Events(history, SEND) && |pairs| <= Events(history, RECEIVE)
  {
    hide IsTrue, IsWitnessed;
    PairCount(pairs);
    Fewer(PairIds(pairs), EventIds(history, SEND));
    Fewer(PairIds(pairs), EventIds(history, RECEIVE));
  }

  lemma {:induction false} PairCount(pairs: seq<Pair>)
    ensures |PairIds(pairs)| == |pairs|
  {
    if pairs != [] { PairCount(pairs[..|pairs| - 1]); }
  }

  lemma Fewer(a: multiset<uint32>, b: multiset<uint32>)
    requires a <= b
    ensures |a| <= |b|
  {
    assert b == a + (b - a);
  }

  lemma TimesMore(pairs: seq<Pair>, p: Pair, key: nat)
    ensures Times(pairs + [p], key) == Times(pairs, key) + if Pack(p.client, p.server) == key then [p.now] else []
  {
    assert (pairs + [p])[..|pairs|] == pairs;
  }

  lemma TallyMore(alpc: map<nat, Counter>, pairs: seq<Pair>, p: Pair, c: Counter)
    requires IsTally(alpc, pairs)
    requires var key := Pack(p.client, p.server);
      c == if key in alpc
           then Counter(alpc[key].count + 1, if alpc[key].count == 0 then p.now else alpc[key].firstSeen, p.now)
           else Counter(1, p.now, p.now)
    ensures IsTally(alpc[Pack(p.client, p.server) := c], pairs + [p])
  {
    hide Times, Pack;
    forall key: nat
      ensures Times(pairs + [p], key) == Times(pairs, key) + if Pack(p.client, p.server) == key then [p.now] else []
    {
      TimesMore(pairs, p, key);
    }
  }

  lemma {:induction false} KeyOfPair(pairs: seq<Pair>, key: nat)
    requires Times(pairs, key) != []
    ensures Pack(ClientOf(key), ServerOf(key)) == key
  {
    var p := pairs[|pairs| - 1];
    if Pack(p.client, p.server) == key { Unpacks(p.client, p.server); } else { KeyOfPair(pairs[..|pairs| - 1], key); }
  }

  lemma {:induction false} PairHasTimes(pairs: seq<Pair>, p: Pair)
    requires p in pairs
    ensures Times(pairs, Pack(p.client, p.server)) != []
  {
    if pairs[|pairs| - 1] != p { PairHasTimes(pairs[..|pairs| - 1], p); }
  }

  lemma {:induction false} TimesWithout(pairs: seq<Pair>, pid: uint32, key: nat)
    ensures Times(Without(pairs, pid), key)
         == if ClientOf(key) == pid || ServerOf(key) == pid then [] else Times(pairs, key)
  {
    hide Pack, ClientOf, ServerOf;
    if pairs != [] {
      var p := pairs[|pairs| - 1];
      TimesWithout(pairs[..|pairs| - 1], pid, key);
      Unpacks(p.client, p.server);
      TimesMore(Without(pairs[..|pairs| - 1], pid), p, key);
    }
  }

  lemma TallyWithout(alpc: map<nat, Counter>, pairs: seq<Pair>, pid: uint32)
    requires IsTally(alpc, pairs)
    ensures IsTally(map key | key in alpc && !(ClientOf(key) == pid || ServerOf(key) == pid) :: alpc[key],
                    Without(pairs, pid))
  {
    hide ClientOf, ServerOf;
    forall key: nat
      ensures Times(Without(pairs, pid), key)
           == if ClientOf(key) == pid || ServerOf(key) == pid then [] else Times(pairs, key)
    {
      TimesWithout(pairs, pid, key);
    }
  }

  lemma {:induction false} WithoutIsPart(pairs: seq<Pair>, pid: uint32)
    ensures PairIds(Without(pairs, pid)) <= PairIds(pairs)
  {
    if pairs != [] {
      var before, last := pairs[..|pairs| - 1], pairs[|pairs| - 1];
      WithoutIsPart(before, pid);
      PairIdsMore(Without(before, pid), last);
      OneMoreIn(PairIds(Without(before, pid)), PairIds(before), last.id);
    }
  }

  lemma OneMoreIn(a: multiset<uint32>, b: multiset<uint32>, id: uint32)
    requires a <= b
    ensures a <= b + multiset{id} && a + multiset{id} <= b + multiset{id}
  {}

  lemma {:induction false} WithoutOthers(pairs: seq<Pair>, pid: uint32)
    ensures forall p :: p in Without(pairs, pid) ==> p in pairs && p.client != pid && p.server != pid
  {
    if pairs != [] { WithoutOthers(pairs[..|pairs| - 1], pid); }
  }

  lemma FaithfulWithout(pending: map<uint32, Message>, pairs: seq<Pair>, history: seq<Event>, pid: uint32)
    requires IsFaithful(pending, pairs, history)
    ensures IsFaithful(pending, Without(pairs, pid), history)
  {
    hide IsTrue, IsWitnessed, EventIds;
    WithoutIsPart(pairs, pid);
    WithoutOthers(pairs, pid);
  }
}
