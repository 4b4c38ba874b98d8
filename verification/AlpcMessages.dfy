/** When a message is counted, and for whom, by the events seen alone. */
module AlpcMessages {
  import opened Units
  import opened AlpcModel

  /** Ticks are 64-bit numbers that never go back. */
  ghost predicate IsClock(history: seq<Event>) {
    && (forall i :: 0 <= i < |history| ==> history[i].tick < 0x1_0000_0000_0000_0000)
    && forall i, j :: 0 <= i < j < |history| ==> history[i].tick <= history[j].tick
  }

  /** A message's events since it was last silent for longer than a message lives, in order. */
  ghost function Conversation(history: seq<Event>, id: uint32): seq<Event> {
    if history == [] then []
    else
      var before, e := Conversation(history[..|history| - 1], id), history[|history| - 1];
      if e.id != id then before
      else if before != [] && e.tick - before[|before| - 1].tick <= PENDING_LIFETIME then before + [e]
      else [e]
  }

  /** The last event completes a send and a receive that were not counted before. */
  ghost predicate Completes(m: seq<Event>)
    decreases |m|, 0
  {
    m != []
    && var before, e := m[..|m| - 1], m[|m| - 1];
       (e.opcode == SEND && Waiting(before, RECEIVE) != 0) || (e.opcode == RECEIVE && Waiting(before, SEND) != 0)
  }

  /** Who sent or received it last, and was not counted since; 0 for nobody. */
  ghost function Waiting(m: seq<Event>, opcode: int): uint32
    decreases |m|, 1
  {
    if m == [] || Completes(m) then 0
    else if m[|m| - 1].opcode == opcode then m[|m| - 1].pid
    else Waiting(m[..|m| - 1], opcode)
  }

  ghost function Sender(m: seq<Event>): uint32
    requires m != []
  {
    if m[|m| - 1].opcode == SEND then m[|m| - 1].pid else Waiting(m[..|m| - 1], SEND)
  }

  ghost function Receiver(m: seq<Event>): uint32
    requires m != []
  {
    if m[|m| - 1].opcode == RECEIVE then m[|m| - 1].pid else Waiting(m[..|m| - 1], RECEIVE)
  }

  /** Who waited for a reply last; 0 for nobody. */
  ghost function Waiter(m: seq<Event>): uint32 {
    if m == [] then 0
    else if m[|m| - 1].opcode == WAIT_FOR_REPLY then m[|m| - 1].pid
    else Waiter(m[..|m| - 1])
  }

  /** The pair a completed message counts for: its sender and its receiver, the receiver the client exactly when it was
      the last to wait for a reply. */
  ghost predicate IsPairOf(p: Pair, m: seq<Event>) {
    && m != [] && p.id == m[|m| - 1].id && p.now == m[|m| - 1].now
    && (p.client == Receiver(m) <==> Waiter(m) == Receiver(m))
    && if p.client == Receiver(m) then p.server == Sender(m) else p.client == Sender(m) && p.server == Receiver(m)
  }

  /** What the last event of a message counts: one pair if it completes a send and a receive of two processes. */
  ghost predicate AreCounted(ps: seq<Pair>, m: seq<Event>) {
    if Completes(m) && Sender(m) != Receiver(m) then |ps| == 1 && IsPairOf(ps[0], m) else ps == []
  }

  /** A request and its reply count for the same client and server: who waits for the reply is the client of both. */
  lemma SameLink(p: Pair, m: seq<Event>, client: uint32, server: uint32)
    requires m != [] && IsPairOf(p, m) && Waiter(m) == client && client != server
    requires (Sender(m) == client && Receiver(m) == server) || (Sender(m) == server && Receiver(m) == client)
    ensures p.client == client && p.server == server
  {}

  /** What is pending is exactly what the events say of each message, if it has not expired. */
  ghost predicate IsExact(pending: map<uint32, Message>, history: seq<Event>) {
    forall id: uint32 :: IsExactOf(pending, history, id)
  }

  ghost predicate IsExactOf(pending: map<uint32, Message>, history: seq<Event>, id: uint32) {
    var m := Conversation(history, id);
    if id in pending then
      m != [] && pending[id] == Message(Waiting(m, SEND), Waiting(m, RECEIVE), Waiter(m), m[|m| - 1].tick)
    else
      m == [] || history == [] || history[|history| - 1].tick - m[|m| - 1].tick > PENDING_LIFETIME
  }

  lemma ConversationMore(history: seq<Event>, e: Event, id: uint32)
    ensures Conversation(history + [e], id)
         == (var before := Conversation(history, id);
             if e.id != id then before
             else if before != [] && e.tick - before[|before| - 1].tick <= PENDING_LIFETIME then before + [e]
             else [e])
  {
    assert (history + [e])[..|history|] == history;
  }

  /** A conversation's events are of the history: none has a later tick than the last. */
  lemma {:induction false} TicksBefore(history: seq<Event>, id: uint32)
    requires IsClock(history)
    ensures var m := Conversation(history, id);
      m != [] ==> history != [] && m[|m| - 1].tick <= history[|history| - 1].tick < 0x1_0000_0000_0000_0000
  {
    if history != [] { TicksBefore(history[..|history| - 1], id); }
  }

  /** The message an event is found to be of, and what it says with the event. */
  lemma SeenIs(pending: map<uint32, Message>, history: seq<Event>, e: Event)
    requires IsExactOf(pending, history, e.id) && IsClock(history + [e]) && IsCounted(e)
    ensures var m, c := Seen(Known(pending, e), e), Conversation(history + [e], e.id);
      && c != [] && c[|c| - 1] == e && m.tick == e.tick && m.client == Waiter(c)
      && (IsMatched(m, e) <==> Completes(c))
      && (if Completes(c) then m.sender == Sender(c) && m.receiver == Receiver(c)
          else m.sender == Waiting(c, SEND) && m.receiver == Waiting(c, RECEIVE))
  {
    var before, c := Conversation(history, e.id), Conversation(history + [e], e.id);
    ConversationMore(history, e, e.id);
    assert IsClock(history) by { assert forall i :: 0 <= i < |history| ==> (history + [e])[i] == history[i]; }
    TicksBefore(history, e.id);
    if history != [] { assert (history + [e])[|history| - 1] == history[|history| - 1]; }
    assert (history + [e])[|history|] == e;
    if e.id in pending { ElapsedIs(e.tick, pending[e.id].tick); }
    assert c == [e] || c == before + [e];
    assert c[..|c| - 1] == if c == [e] then [] else before;
  }

  lemma ElapsedIs(tick: nat, from: nat)
    requires from <= tick < 0x1_0000_0000_0000_0000
    ensures Elapsed(tick, from) == tick - from
  {}

  /** An event keeps what is pending exact, and adds the pair of its message exactly if it completes it. */
  lemma ExactStep(pending: map<uint32, Message>, history: seq<Event>, e: Event)
    requires IsCounted(e)
    ensures var m, c := Seen(Known(pending, e), e), Conversation(history + [e], e.id);
      IsClock(history + [e]) && (IsClock(history) ==> IsExact(pending, history)) ==>
        && IsExact(pending[e.id := Left(m, e)], history + [e])
        && AreCounted(PairsOf(m, e), c)
  {
    if IsClock(history + [e]) && (IsClock(history) ==> IsExact(pending, history)) {
      assert IsClock(history) by { assert forall i :: 0 <= i < |history| ==> (history + [e])[i] == history[i]; }
      assert IsExactOf(pending, history, e.id);
      SeenIs(pending, history, e);
      ExactPairs(pending, history, e);
      ExactLeft(pending, history, e);
    }
  }

  lemma ExactPairs(pending: map<uint32, Message>, history: seq<Event>, e: Event)
    requires IsExactOf(pending, history, e.id) && IsClock(history + [e]) && IsCounted(e)
    ensures var m, c := Seen(Known(pending, e), e), Conversation(history + [e], e.id);
      AreCounted(PairsOf(m, e), c)
  {
    hide Known, Seen, Completes, Conversation, Sender, Receiver, Waiter, IsClock, IsExactOf;
    SeenIs(pending, history, e);
  }

  lemma ExactLeft(pending: map<uint32, Message>, history: seq<Event>, e: Event)
    requires IsExact(pending, history) && IsClock(history + [e]) && IsCounted(e)
    ensures IsExact(pending[e.id := Left(Seen(Known(pending, e), e), e)], history + [e])
  {
    hide IsExactOf, Left, Seen, Known, IsClock;
    var after := pending[e.id := Left(Seen(Known(pending, e), e), e)];
    forall id: uint32 ensures IsExactOf(after, history + [e], id) {
      assert IsExactOf(pending, history, id);
      if id == e.id { ExactOwn(pending, history, e); } else { ExactOther(pending, after, history, e, id); }
    }
  }

  lemma ExactOwn(pending: map<uint32, Message>, history: seq<Event>, e: Event)
    requires IsExactOf(pending, history, e.id) && IsClock(history + [e]) && IsCounted(e)
    ensures IsExactOf(pending[e.id := Left(Seen(Known(pending, e), e), e)], history + [e], e.id)
  {
    SeenIs(pending, history, e);
    hide Known, Seen, Sender, Receiver, Waiter, Conversation, IsClock, IsCounted;
    var c := Conversation(history + [e], e.id);
    NoneWaiting(c);
  }

  /** Once a message is counted nobody is waiting for it to be. */
  lemma NoneWaiting(m: seq<Event>)
    ensures Completes(m) ==> Waiting(m, SEND) == 0 && Waiting(m, RECEIVE) == 0
  {}

  lemma ExactOther(pending: map<uint32, Message>, after: map<uint32, Message>, history: seq<Event>, e: Event,
                   id: uint32)
    requires IsExactOf(pending, history, id) && IsClock(history + [e]) && e.id != id
    requires id in after <==> id in pending
    requires id in pending ==> after[id] == pending[id]
    ensures IsExactOf(after, history + [e], id)
  {
    hide Waiting, Waiter;
    ConversationMore(history, e, id);
    if history != [] { assert (history + [e])[|history| - 1] == history[|history| - 1]; }
    assert (history + [e])[|history|] == e;
  }

  /** What a prune takes away has expired. */
  lemma ExactPruned(pending: map<uint32, Message>, history: seq<Event>, tick: nat)
    requires history != [] && history[|history| - 1].tick == tick
    ensures IsClock(history) && IsExact(pending, history) ==> IsExact(Pruned(pending, tick), history)
  {
    hide Waiting, Waiter, Conversation, Elapsed;
    if IsClock(history) && IsExact(pending, history) {
      forall id: uint32 ensures IsExactOf(Pruned(pending, tick), history, id) {
        assert IsExactOf(pending, history, id);
        TicksBefore(history, id);
        if id in pending { ElapsedIs(tick, pending[id].tick); }
      }
    }
  }
}
