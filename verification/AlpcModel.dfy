/** IpcTracker's ALPC half: its data, and what one event does to its message. */
module AlpcModel {
  import opened Units

  const SEND := 33
  const RECEIVE := 34
  const WAIT_FOR_REPLY := 35
  const PENDING_LIFETIME := 10000
  const PRUNE_INTERVAL := 30000
  const NO_PROCESS := 0xFFFF_FFFF

  datatype Event = Event(opcode: int, pid: uint32, hasId: bool, id: uint32, tick: nat, now: int)

  /** A message between its events; 0 for a process not seen yet. */
  datatype Message = Message(sender: uint32, receiver: uint32, client: uint32, tick: nat)

  datatype Counter = Counter(count: nat, firstSeen: int, lastSeen: int)

  /** A message counted. */
  datatype Pair = Pair(id: uint32, client: uint32, server: uint32, now: int)

  datatype Link = Link(client: uint32, server: uint32, counter: Counter)

  const NONE := Message(0, 0, 0, 0)

  /** The difference of 64-bit ticks, which wraps around. */
  function Elapsed(tick: nat, from: nat): nat { (tick - from) % 0x1_0000_0000_0000_0000 }

  predicate IsCounted(e: Event) {
    SEND <= e.opcode <= WAIT_FOR_REPLY && e.hasId && e.pid != 0 && e.pid != NO_PROCESS
  }

  function Pack(client: uint32, server: uint32): nat { var c: int, s: int := client, server; c * 0x1_0000_0000 + s }

  function ClientOf(key: nat): uint32 { key / 0x1_0000_0000 % 0x1_0000_0000 }

  function ServerOf(key: nat): uint32 { key % 0x1_0000_0000 }

  lemma Unpacks(client: uint32, server: uint32)
    ensures ClientOf(Pack(client, server)) == client && ServerOf(Pack(client, server)) == server
  {}

  // One event

  /** The message an event is of, started anew if its last event is too long ago. */
  function Known(pending: map<uint32, Message>, e: Event): Message {
    var m := if e.id in pending then pending[e.id] else NONE;
    (if Elapsed(e.tick, m.tick) > PENDING_LIFETIME then NONE else m).(tick := e.tick)
  }

  function Seen(m: Message, e: Event): Message {
    if e.opcode == SEND then m.(sender := e.pid)
    else if e.opcode == RECEIVE then m.(receiver := e.pid)
    else m.(client := e.pid)
  }

  predicate IsMatched(m: Message, e: Event) { e.opcode != WAIT_FOR_REPLY && m.sender != 0 && m.receiver != 0 }

  /** The message an event of it leaves pending. */
  function Left(m: Message, e: Event): Message { if IsMatched(m, e) then m.(sender := 0, receiver := 0) else m }

  /**
   * What a message counts for: nothing unless two processes met; the receiver is the client if it
   * waits for the reply.
   */
  function PairsOf(m: Message, e: Event): seq<Pair> {
    if !IsMatched(m, e) || m.sender == m.receiver then []
    else if m.client == m.receiver then [Pair(e.id, m.receiver, m.sender, e.now)]
    else [Pair(e.id, m.sender, m.receiver, e.now)]
  }

  function Pruned(pending: map<uint32, Message>, tick: nat): map<uint32, Message> {
    map id | id in pending && Elapsed(tick, pending[id].tick) <= PENDING_LIFETIME :: pending[id]
  }
}
