/** Registry I/O counting: the data of RegistryIoTable and what each of its operations does to it.

    A table's abstract state leaves out what the class derives from it: the rows are the replay of the
    `log` of everything counted so far, and the index of waited objects is recomputed from the queue.
    RegistryTable.dfy holds the class that keeps both up to date in place. */
module RegistryModel {
  import opened Optional
  import opened Units

  datatype Operation =
    | Nothing | CreateKey | OpenKey | DeleteKey | QueryKey | SetValue | DeleteValue | QueryValue
    | EnumerateKey | EnumerateValue | QueryMultipleValues | SetKeyInformation | FlushKey | CloseKey
    | QuerySecurity | SetSecurity

  datatype Why = NotTried | Closed | KernelHandle | Protected

  datatype Event = Event(op: Operation, keyObject: nat, baseObject: nat, status: uint32,
                         disposition: uint32, stamp: int, name: string, valueName: string)

  /** An event as the session delivers it. */
  datatype Arrival = Arrival(e: Event, pid: nat, time: int, tick: nat)

  /** The two string functions the table calls and does not define: the registry editor's form of an
      NT name, and upper-casing. */
  datatype Naming = Naming(registryName: string -> string, upper: string -> string)

  datatype Name = Name(text: string, tick: nat)
  datatype Attempts = Attempts(count: nat, why: Why)

  /** A queued event; token is 0 unless it is an open whose key object's operations wait on it. */
  datatype Deferred = Deferred(a: Arrival, waiting: nat, token: nat)

  datatype RowId = RowId(pid: nat, key: string)
  datatype Row = Row(pid: nat, key: string, address: nat, unnamed: Why,
                     openCount: nat, readCount: nat, writeCount: nat, failureCount: nat,
                     lastOp: Operation, lastStatus: uint32, lastValue: string,
                     firstSeen: int, lastSeen: int, lastTick: nat)

  /** How an event came to be counted: on arrival, on arrival to a full queue, by a later open of the
      address it waited on, or by the pass that found what it waited on ready. */
  datatype Via = Direct | Overflowed(on: nat) | Flushed(on: nat) | Resumed(on: nat)

  datatype LogEntry =
    | Charge(a: Arrival, name: string, why: Why, via: Via, token: nat)
    | Forget(ids: set<RowId>)

  /** issued and handed are history: the open each token was made for, and the addresses given to the
      resolver since the last ApplyDeferred. */
  datatype State = State(log: seq<LogEntry>, names: map<nat, Name>, deferred: seq<Deferred>,
                         unnamed: set<nat>, attempts: map<nat, Attempts>, pending: map<nat, nat>,
                         nextToken: nat, issued: map<nat, Arrival>, handed: set<nat>)

  const MAX_ATTEMPTS: nat := 3
  const MAX_DEFERRED: nat := 100000
  const KEY_IDLE: nat := 60000
  const NAME_IDLE: nat := 120000
  const TOKEN_BASE: nat := 0x7FFF_0000_0000_0000
  const TOKEN_END: nat := 0x8000_0000_0000_0000
  const TICKS: nat := 0x1_0000_0000_0000_0000

  const Empty := State([], map[], [], {}, map[], map[], TOKEN_BASE, map[], {})

  predicate IsToken(x: nat) { TOKEN_BASE <= x < TOKEN_END }

  predicate IsOpen(e: Event) { e.op.OpenKey? || e.op.CreateKey? }

  predicate IsRead(e: Event) {
    e.op.QueryKey? || e.op.QueryValue? || e.op.EnumerateKey? || e.op.EnumerateValue?
    || e.op.QueryMultipleValues? || e.op.QuerySecurity?
  }

  predicate HasValue(e: Event) { e.op.QueryValue? || e.op.SetValue? || e.op.DeleteValue? }

  predicate IsRetried(status: uint32) { status == 0x104 }

  // the two top bits set, other than for a buffer too small
  predicate IsFailure(status: uint32) { status / 0x4000_0000 == 3 && status != 0xC000_0023 }

  predicate IsIgnored(e: Event) {
    e.op.Nothing? || e.op.CloseKey? || e.op.FlushKey? || (IsOpen(e) && IsRetried(e.status))
  }

  /** What an event's name depends on: its key object, or the base its name is relative to. */
  function Subject(e: Event): nat { if IsOpen(e) then e.baseObject else e.keyObject }

  function Hex(value: nat): string {
    (if value < 16 then "" else Hex(value / 16)) + ["0123456789ABCDEF"[value % 16]]
  }

  function ObjectText(address: nat): string { "#" + Hex(address) }

  function UnnamedName(address: nat, why: Why): string {
    match why
    case Closed => "(key 0x" + Hex(address) + ", closed)"
    case KernelHandle => "(kernel key 0x" + Hex(address) + ")"
    case Protected => "(key 0x" + Hex(address) + " of a protected process)"
    case NotTried => "(key 0x" + Hex(address) + ")"
  }

  // ----- rows

  function RowFor(n: Naming, pid: nat, name: string, address: nat): RowId {
    RowId(pid, if name == "" then ObjectText(address) else n.upper(name))
  }

  function RowOf(n: Naming, c: LogEntry): RowId
    requires c.Charge?
  {
    RowFor(n, c.a.pid, c.name, c.a.e.keyObject)
  }

  const NewRow := Row(0, "", 0, NotTried, 0, 0, 0, 0, Nothing, 0, "", 0, 0, 0)

  datatype Counter = Opens | Reads | Writes | Failures

  function Field(r: Row, c: Counter): nat {
    match c
    case Opens => r.openCount
    case Reads => r.readCount
    case Writes => r.writeCount
    case Failures => r.failureCount
  }

  /** What one event adds to each counter. */
  function Weight(e: Event, c: Counter): nat {
    match c
    case Opens => if IsOpen(e) then 1 else 0
    case Reads => if IsRead(e) then 1 else 0
    case Writes =>
      if IsOpen(e) then (if e.op.CreateKey? && e.disposition == 1 then 1 else 0)
      else if IsRead(e) then 0 else 1
    case Failures => if IsFailure(e.status) then 1 else 0
  }

  function Bumped(r: Row, c: LogEntry): Row
    requires c.Charge?
  {
    var e := c.a.e;
    var address := if c.name == "" then e.keyObject else 0;
    var first := if r.firstSeen != 0 then r
      else r.(pid := c.a.pid, key := c.name, address := address,
              unnamed := if address != 0 then c.why else NotTried, firstSeen := c.a.time);
    first.(openCount := r.openCount + Weight(e, Opens), readCount := r.readCount + Weight(e, Reads),
           writeCount := r.writeCount + Weight(e, Writes), failureCount := r.failureCount + Weight(e, Failures),
           lastOp := e.op, lastStatus := e.status,
           lastValue := if HasValue(e) then e.valueName else r.lastValue,
           lastSeen := c.a.time, lastTick := c.a.tick)
  }

  function RowAt(rows: map<RowId, Row>, id: RowId): Row { if id in rows then rows[id] else NewRow }

  function Replayed(n: Naming, rows: map<RowId, Row>, x: LogEntry): map<RowId, Row> {
    match x
    case Charge(_, _, _, _, _) => rows[RowOf(n, x) := Bumped(RowAt(rows, RowOf(n, x)), x)]
    case Forget(ids) => rows - ids
  }

  /** The rows a log leaves. */
  function Rows(n: Naming, log: seq<LogEntry>): map<RowId, Row> {
    if log == [] then map[] else Replayed(n, Rows(n, log[..|log| - 1]), log[|log| - 1])
  }

  // ----- the queue

  /** How many queued events wait on x. */
  function Waiters(q: seq<Deferred>, x: nat): nat {
    if q == [] then 0 else (if q[0].waiting == x then 1 else 0) + Waiters(q[1..], x)
  }

  predicate IsWaited(q: seq<Deferred>, x: nat) { exists d :: d in q && d.waiting == x }

  function WaitedAddresses(q: seq<Deferred>): set<nat> {
    set d | d in q && !IsToken(d.waiting) :: d.waiting
  }

  predicate Moves(d: Deferred, address: nat, stamp: int) { d.waiting == address && d.a.e.stamp >= stamp }

  predicate IsEarlier(d: Deferred, address: nat, stamp: int) { d.waiting == address && d.a.e.stamp < stamp }

  /** What waits on object from stamp on waits on the token instead. */
  function Retargeted(q: seq<Deferred>, address: nat, stamp: int, token: nat): (r: seq<Deferred>)
    ensures |r| == |q|
  {
    seq(|q|, i requires 0 <= i < |q| => if Moves(q[i], address, stamp) then q[i].(waiting := token) else q[i])
  }

  // ----- naming and counting

  function OpenName(n: Naming, s: State, e: Event): Option<string> {
    if e.name != "" && e.name[0] == '\\' then Some(n.registryName(e.name))
    else if e.baseObject !in s.names then None
    else Some(if e.name == "" then s.names[e.baseObject].text
              else s.names[e.baseObject].text + "\\" + e.name)
  }

  predicate GaveUp(s: State, address: nat) {
    address == 0 || (address in s.attempts && s.attempts[address].count >= MAX_ATTEMPTS)
  }

  predicate IsReady(s: State, x: nat) { x in s.names || GaveUp(s, x) }

  function WhyUnnamed(s: State, address: nat): Why {
    if address in s.attempts then s.attempts[address].why else NotTried
  }

  function UnnamedBase(s: State, base: nat, relative: string): string {
    UnnamedName(base, WhyUnnamed(s, base)) + "\\" + relative
  }

  /** An event counted under a name; an open names its key object for what follows. */
  function Charged(s: State, a: Arrival, name: string, nameObject: bool, via: Via, token: nat): State {
    s.(log := s.log + [Charge(a, name, WhyUnnamed(s, a.e.keyObject), via, token)],
       names := if IsOpen(a.e) && nameObject && a.e.keyObject != 0 && name != "" && !IsFailure(a.e.status)
                then s.names[a.e.keyObject := Name(name, a.tick)] else s.names)
  }

  /** The token of a counted open gets the open's name, and the open is not pending any more. */
  function TokenNamed(s: State, token: nat, keyObject: nat, name: string, tick: nat): State {
    if token == 0 then s
    else s.(names := s.names[token := Name(name, tick)],
            pending := if keyObject in s.pending && s.pending[keyObject] == token
                       then s.pending - {keyObject} else s.pending)
  }

  function Deferring(s: State, a: Arrival, waiting: nat, token: nat): State {
    if |s.deferred| >= MAX_DEFERRED then
      if IsOpen(a.e) then
        var name := UnnamedBase(s, waiting, a.e.name);
        TokenNamed(Charged(s, a, name, true, Overflowed(waiting), token), token, a.e.keyObject, name, a.tick)
      else
        Charged(s, a, if IsToken(waiting) && waiting in s.names then s.names[waiting].text else "",
                true, Overflowed(waiting), 0)
    else
      s.(deferred := s.deferred + [Deferred(a, waiting, token)],
         unnamed := if !IsToken(waiting) && !IsWaited(s.deferred, waiting) then s.unnamed + {waiting} else s.unnamed)
  }

  // ----- a new open of an address

  /** One queued event seen by the flush of an address: charged as a closed key's, or kept. */
  function FlushOne(s: State, address: nat, stamp: int, d: Deferred): State {
    if IsEarlier(d, address, stamp) then
      Charged(s, d.a, if IsOpen(d.a.e) then UnnamedBase(s, address, d.a.e.name) else "", true, Flushed(address),
              d.token)
    else s.(deferred := s.deferred + [d])
  }

  function FlushAll(s: State, address: nat, stamp: int, todo: seq<Deferred>): (r: State)
    ensures r == s.(log := r.log, names := r.names, deferred := r.deferred)
    decreases |todo|
  {
    if todo == [] then s else FlushAll(FlushOne(s, address, stamp, todo[0]), address, stamp, todo[1..])
  }

  function FlushStart(s: State, address: nat): State {
    s.(attempts := s.attempts[address := Attempts(MAX_ATTEMPTS, Closed)], deferred := [])
  }

  function FlushedAddress(s: State, address: nat, stamp: int): State {
    if !IsWaited(s.deferred, address) then s else FlushAll(FlushStart(s, address), address, stamp, s.deferred)
  }

  /** The address is a new key's from here on. */
  function Reopened(s: State, address: nat, stamp: int): State {
    if address == 0 then s
    else
      var f := FlushedAddress(s, address, stamp);
      f.(attempts := f.attempts - {address}, pending := f.pending - {address})
  }

  /** A token for an open that has to wait; the operations that follow it wait on the token. */
  function Issued(s: State, a: Arrival): State {
    s.(names := s.names - {a.e.keyObject}, nextToken := s.nextToken + 1,
       issued := s.issued[s.nextToken := a], pending := s.pending[a.e.keyObject := s.nextToken],
       deferred := Retargeted(s.deferred, a.e.keyObject, a.e.stamp, s.nextToken))
  }

  predicate NeedsToken(e: Event) { e.keyObject != 0 && !IsFailure(e.status) }

  function OnOpen(n: Naming, s: State, a: Arrival): State {
    Opened(n, Reopened(s, a.e.keyObject, a.e.stamp), a)
  }

  function Opened(n: Naming, s: State, a: Arrival): State {
    var name := OpenName(n, s, a.e);
    if name.Some? then Charged(s, a, name.value, true, Direct, 0)
    else if GaveUp(s, a.e.baseObject) then
      Charged(s, a, UnnamedBase(s, a.e.baseObject, a.e.name), true, Direct, 0)
    else if NeedsToken(a.e) then Deferring(Issued(s, a), a, a.e.baseObject, s.nextToken)
    else Deferring(s, a, a.e.baseObject, 0)
  }

  function OnOperation(s: State, a: Arrival): State {
    var x := a.e.keyObject;
    if x in s.names then
      Charged(s.(names := s.names[x := s.names[x].(tick := a.tick)]), a, s.names[x].text, true, Direct, 0)
    else if x in s.pending then Deferring(s, a, s.pending[x], 0)
    else if GaveUp(s, x) then Charged(s, a, "", true, Direct, 0)
    else Deferring(s, a, x, 0)
  }

  function OnEvent(n: Naming, s: State, a: Arrival): State {
    if IsIgnored(a.e) then s else if IsOpen(a.e) then OnOpen(n, s, a) else OnOperation(s, a)
  }

  // ----- the resolver's calls

  function Max(a: nat, b: nat): nat { if a < b then b else a }

  function Resume(n: Naming, s: State, d: Deferred): State {
    if IsOpen(d.a.e) then
      var name := OpenName(n, s, d.a.e);
      var text := if name.Some? then name.value else UnnamedBase(s, d.a.e.baseObject, d.a.e.name);
      var x := d.a.e.keyObject;
      TokenNamed(Charged(s, d.a, text, x in s.pending && s.pending[x] == d.token, Resumed(d.waiting), d.token),
                 d.token, x, text, d.a.tick)
    else if d.waiting in s.names then
      var name := s.names[d.waiting];
      Charged(s.(names := s.names[d.waiting := name.(tick := Max(name.tick, d.a.tick))]), d.a, name.text, true,
              Resumed(d.waiting), 0)
    else Charged(s, d.a, "", true, Resumed(d.waiting), 0)
  }

  function ApplyOne(n: Naming, s: State, d: Deferred): State {
    if IsReady(s, d.waiting) then Resume(n, s, d) else s.(deferred := s.deferred + [d])
  }

  function ApplyAll(n: Naming, s: State, todo: seq<Deferred>): (r: State)
    ensures r == s.(log := r.log, names := r.names, deferred := r.deferred, pending := r.pending)
    decreases |todo|
  {
    if todo == [] then s else ApplyAll(n, ApplyOne(n, s, todo[0]), todo[1..])
  }

  function ApplyDeferred(n: Naming, s: State): State {
    var r := ApplyAll(n, s.(deferred := []), s.deferred);
    r.(unnamed := r.unnamed + WaitedAddresses(r.deferred), handed := {})
  }

  function TakeUnnamed(s: State): State { s.(unnamed := {}, handed := s.handed + s.unnamed) }

  function SetName(n: Naming, s: State, address: nat, name: string, tick: nat): State {
    s.(names := s.names[address := Name(n.registryName(name), tick)])
  }

  function NameFailed(s: State, address: nat, why: Why): State {
    var count := if address in s.attempts then s.attempts[address].count else 0;
    s.(attempts := s.attempts[address := Attempts(count + 1, why)])
  }

  // ----- forgetting

  /** tick - since on unsigned 64-bit numbers. */
  function Elapsed(tick: nat, since: nat): nat { (tick - since) % TICKS }

  function RemoveProcess(n: Naming, s: State, pid: nat): State {
    s.(log := s.log + [Forget(set id | id in Rows(n, s.log) && id.pid == pid)])
  }

  function Prune(n: Naming, s: State, tick: nat): State {
    var rows := Rows(n, s.log);
    s.(log := s.log + [Forget(set id | id in rows && Elapsed(tick, rows[id].lastTick) > KEY_IDLE)],
       names := map x | x in s.names && !(Elapsed(tick, s.names[x].tick) > NAME_IDLE) :: s.names[x],
       attempts := map x | x in s.attempts && IsWaited(s.deferred, x) :: s.attempts[x])
  }

  function Clear(n: Naming, s: State): State {
    s.(log := s.log + [Forget(Rows(n, s.log).Keys)], names := map[], deferred := [], unnamed := {},
       attempts := map[], pending := map[])
  }

  // ----- runs

  datatype Call =
    | Traced(a: Arrival) | Take | Named(address: nat, name: string, tick: nat) | Failed(address: nat, why: Why)
    | Apply | Removed(pid: nat) | Pruned(tick: nat) | Cleared

  function Step(n: Naming, s: State, c: Call): State {
    match c
    case Traced(a) => OnEvent(n, s, a)
    case Take => TakeUnnamed(s)
    case Named(address, name, tick) => SetName(n, s, address, name, tick)
    case Failed(address, why) => NameFailed(s, address, why)
    case Apply => ApplyDeferred(n, s)
    case Removed(pid) => RemoveProcess(n, s, pid)
    case Pruned(tick) => Prune(n, s, tick)
    case Cleared => Clear(n, s)
  }

  function Run(n: Naming, s: State, calls: seq<Call>): State {
    if calls == [] then s else Step(n, Run(n, s, calls[..|calls| - 1]), calls[|calls| - 1])
  }

  /** Kernel addresses (and the ones the resolver names) lie outside the token range. */
  predicate OutsideTokens(c: Call) {
    match c
    case Traced(a) => !IsToken(a.e.keyObject) && !IsToken(a.e.baseObject)
    case Named(address, _, _) => !IsToken(address)
    case Failed(address, _) => !IsToken(address)
    case _ => true
  }
}
