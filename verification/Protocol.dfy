// The socket protocol of socket.go, sockets.go and message/pool.go as a transition system: any
// number of threads, one step for each compare-and-swap, atomic add, map operation, channel
// operation and pool operation, in any interleaving.
module Protocol {
  import opened Environment
  import opened Codec
  import opened Lifecycle

  type SockId = nat
  type MsgId = nat
  type Tid = nat

  /** ConnectMaxSize, WriteChanSize, and the threads that call Create. */
  datatype Config = Config(maxSockets: int, writeChan: nat, creators: set<Tid>)

  datatype Event = Up | Down

  const BLANK_PACKET := Packet(BLANK_HEAD, [])

  /** A packet whose write has failed, and how many bytes of its frame got out. */
  datatype Torn = Torn(packet: Packet, bytes: nat)

  /** A socket. Connections and stop channels are numbered per socket from 1; 0 is nil. */
  datatype Sock = Sock(
    dial: bool,              // made by Connect, which will set the address
    lasting: bool,           // a UDP Conn, whose Close leaves the transport open and panics the second time
    client: bool,            // the address is set
    status: Status,
    stop: nat,
    conn: nat,
    live: nat,               // the connection that is still open; 0 when none is
    registered: bool,        // the sync map has an entry
    queue: seq<MsgId>,       // cwrite
    // what has happened so far
    opens: nat,              // stop channels made
    closings: seq<nat>,      // calls of close on a stop channel
    events: seq<Event>,      // EventTypeConnected and EventTypeDisconnect
    releases: nat,           // runs of release
    stuck: bool,             // disconnect has given up because Close of the connection panicked
    log: Log)

  /** What has become of the packets. */
  datatype Log = Log(
    accepted: seq<Packet>,   // packets that Write enqueued
    taken: seq<Packet>,      // packets taken off the queue, by the writer or by release
    inflight: seq<Packet>,   // the packet that the writer has taken and not yet dealt with
    wire: seq<Packet>,       // packets written to the connection
    failed: bool,            // a write on the transport has failed
    torn: Option<Torn>)      // the first packet of which that is so, on a transport that fails for good

  function NewSock(dial: bool, lasting: bool): Sock {
    Sock(dial, lasting, false, Fresh, 0, 0, 0, false, [], 0, [], [], 0, false, Log([], [], [], [], false, None))
  }

  /** Where a thread is. The name tells the step that comes next. */
  datatype Pc =
    | Done
    // SendWithMagic and Write
    | SendStart(k: SockId, safe: bool)
    | SendMarshal(k: SockId, safe: bool, m: MsgId)
    | SendReady(k: SockId, safe: bool, m: MsgId)
    | SendStop(k: SockId, safe: bool, m: MsgId)
    | SendSelect(k: SockId, safe: bool, m: MsgId, g: nat)
    | SendFail(k: SockId, m: MsgId)
    // readMsg
    | ReadTop(k: SockId)
    | ReadConn(k: SockId, m: MsgId)
    | ReadBusy(k: SockId, m: MsgId, g: nat)
    | ReadPut(k: SockId, m: MsgId, again: bool)
    // writeMsg
    | WriteTop(k: SockId)
    | WriteSelect(k: SockId, g: nat)
    | WriteConn(k: SockId, m: MsgId)
    | WriteBusy(k: SockId, m: MsgId, g: nat)
    | WritePut(k: SockId, m: MsgId)
    // disconnect
    | DiscLoad(k: SockId)
    | DiscSwap(k: SockId, seen: Status)
    | DiscStop(k: SockId)
    | DiscClose(k: SockId)
    | DiscNil(k: SockId)
    | DiscEmit(k: SockId)
    | DiscType(k: SockId)
    // release
    | RelStatus(k: SockId)
    | RelCount(k: SockId)
    | RelDelete(k: SockId)
    | RelDrain(k: SockId)
    | RelPut(k: SockId, m: MsgId)
    // tryReconnect
    | Redial(k: SockId)
    // Create and Connect
    | CreIdle
    | CreIndex
    | CreStore(k: SockId)
    | CreCount(k: SockId)
    | CreConnect(k: SockId)
    | SpawnRead(k: SockId, creator: bool)
    | SpawnWrite(k: SockId, creator: bool)
    | SetAddress(k: SockId)

  /** What a step does with a message. */
  datatype MsgOp =
    | Keep
    | Get(m: MsgId)                  // out of the pool
    | Make(m: MsgId)                 // Options.New, when the pool is empty
    | Put(m: MsgId)                  // Release: blank it, back to the pool
    | Lose(m: MsgId)                 // dropped by a panic
    | Fill(m: MsgId, p: Packet)      // its holder writes its contents
    | Enqueue(m: MsgId)
    | Dequeue(m: MsgId)

  datatype State = State(
    socks: map<SockId, Sock>,
    threads: map<Tid, Pc>,
    mem: map<MsgId, Packet>,         // the contents of every message ever made
    pool: multiset<MsgId>,
    count: int,
    index: nat)

  /** The socket that a thread works on. */
  function SockOf(pc: Pc): Option<SockId> {
    if pc.Done? || pc.CreIdle? || pc.CreIndex? then None else Some(pc.k)
  }

  /** The message that a thread holds. */
  function Held(pc: Pc): Option<MsgId> {
    match pc
    case SendMarshal(_, _, m) => Some(m)
    case SendReady(_, _, m) => Some(m)
    case SendStop(_, _, m) => Some(m)
    case SendSelect(_, _, m, _) => Some(m)
    case SendFail(_, m) => Some(m)
    case ReadConn(_, m) => Some(m)
    case ReadBusy(_, m, _) => Some(m)
    case ReadPut(_, m, _) => Some(m)
    case WriteConn(_, m) => Some(m)
    case WriteBusy(_, m, _) => Some(m)
    case WritePut(_, m) => Some(m)
    case RelPut(_, m) => Some(m)
    case _ => None
  }

  // The functions that a thread can be in.

  predicate InSend(pc: Pc) {
    pc.SendStart? || pc.SendMarshal? || pc.SendReady? || pc.SendStop? || pc.SendSelect? || pc.SendFail?
  }

  predicate InRead(pc: Pc) {
    pc.ReadTop? || pc.ReadConn? || pc.ReadBusy? || pc.ReadPut?
  }

  predicate InWrite(pc: Pc) {
    pc.WriteTop? || pc.WriteSelect? || pc.WriteConn? || pc.WriteBusy? || pc.WritePut?
  }

  predicate InDisconnect(pc: Pc) {
    pc.DiscLoad? || pc.DiscSwap? || pc.DiscStop? || pc.DiscClose? || pc.DiscNil? || pc.DiscEmit? || pc.DiscType?
  }

  predicate InRelease(pc: Pc) {
    pc.RelStatus? || pc.RelCount? || pc.RelDelete? || pc.RelDrain? || pc.RelPut?
  }

  // ------------------------------------------------- steps on one socket

  /** What a thread does to itself and its socket: where it goes, the socket after, the message
      operation, the change of the connection count, and a thread it starts. */
  datatype Effect = Effect(pc: Pc, x: Sock, op: MsgOp, d: int, spawn: Option<Pc>)

  function Move(pc: Pc, x: Sock): Effect {
    Effect(pc, x, Keep, 0, None)
  }

  /** SendWithMagic: Require, Marshal, IsReady, and the select of Write. */
  predicate SendStep(cfg: Config, mem: map<MsgId, Packet>, pc: Pc, x: Sock, e: Effect) {
    match pc
    case SendStart(k, safe) =>
      (e.op.Get? || e.op.Make?) && e == Effect(SendMarshal(k, safe, e.op.m), x, e.op, 0, None)
    case SendMarshal(k, safe, m) =>
      e.op.Fill? && e.op.m == m && (e == Effect(SendReady(k, safe, m), x, e.op, 0, None)
                                    || e == Effect(SendFail(k, m), x, e.op, 0, None))
    case SendReady(k, safe, m) =>
      e == Move(if x.status == Connected then SendStop(k, safe, m) else SendFail(k, m), x)
    case SendStop(k, safe, m) => e == Move(SendSelect(k, safe, m, x.stop), x)
    case SendSelect(k, safe, m, g) =>
      || (|x.queue| < cfg.writeChan && m in mem
          && e == Effect(Done, x.(queue := x.queue + [m], log := x.log.(accepted := x.log.accepted + [mem[m]])),
                         Enqueue(m), 0, None))
      || (g in x.closings && e == Move(SendFail(k, m), x))
      || (!safe && |x.queue| >= cfg.writeChan && g !in x.closings && e == Move(SendFail(k, m), x))
    case SendFail(k, m) => e == Effect(Done, x, Put(m), 0, None)
    case _ => false
  }

  /** readMsg. A nil connection panics, and so may ReadMessage; then the message is lost and the
      deferred disconnect runs. Handling a message ends with its release. */
  predicate ReadStep(pc: Pc, x: Sock, e: Effect) {
    match pc
    case ReadTop(k) =>
      || ((e.op.Get? || e.op.Make?) && e == Effect(ReadConn(k, e.op.m), x, e.op, 0, None))
      || e == Move(DiscLoad(k), x)
    case ReadConn(k, m) =>
      if x.conn == 0 then e == Effect(DiscLoad(k), x, Lose(m), 0, None) else e == Move(ReadBusy(k, m, x.conn), x)
    case ReadBusy(k, m, g) =>
      || e == Effect(DiscLoad(k), x, Lose(m), 0, None)
      || ((e.op.Keep? || (e.op.Fill? && e.op.m == m)) && e.pc.ReadPut?
          && e == Effect(ReadPut(k, m, e.pc.again), x, e.op, 0, None))
    case ReadPut(k, m, again) => e == Effect(if again then ReadTop(k) else DiscLoad(k), x, Put(m), 0, None)
    case _ => false
  }

  /** A write fails. A stream takes no more after that; a datagram is sent whole or not at all. */
  predicate Fails(x: Sock, p: Packet, torn: Option<Torn>) {
    if x.log.failed || x.lasting then torn == x.log.torn else torn.Some? && torn.value.packet == p
  }

  /** writeMsg and writeMsgTrue, which touch the queue and the log only. */
  predicate WriteStep(mem: map<MsgId, Packet>, pc: Pc, x: Sock, e: Effect) {
    && e.d == 0 && e.spawn == None
    && e.x == x.(queue := e.x.queue, log := e.x.log)
    && WriterStep(mem, pc, x, e.pc, e.op, e.x.queue, e.x.log)
  }

  /** The next place of the writer, its message operation, and the queue and log after it. A nil
      connection panics, which writeMsgTrue recovers from. */
  predicate WriterStep(mem: map<MsgId, Packet>, pc: Pc, x: Sock, pc': Pc, op: MsgOp, queue: seq<MsgId>, log: Log) {
    match pc
    case WriteTop(k) => pc' == WriteSelect(k, x.stop) && op == Keep && queue == x.queue && log == x.log
    case WriteSelect(k, g) =>
      // the context is done or the stop channel is closed
      || (pc' == DiscLoad(k) && op == Keep && queue == x.queue && log == x.log)
      || (x.queue != [] && x.queue[0] in mem
          && var m := x.queue[0];
             pc' == WriteConn(k, m) && op == Dequeue(m) && queue == x.queue[1..]
             && log == x.log.(taken := x.log.taken + [mem[m]], inflight := [mem[m]]))
    case WriteConn(k, m) =>
      op == Keep && queue == x.queue
      && if x.conn == 0 then pc' == WritePut(k, m) && log == x.log.(inflight := [])
         else pc' == WriteBusy(k, m, x.conn) && log == x.log
    case WriteBusy(k, m, g) =>
      pc' == WritePut(k, m) && op == Keep && queue == x.queue
      && if g == x.live || x.lasting then
           m in mem
           && (|| ((x.log.failed ==> x.lasting || x.dial)
                   && log == x.log.(wire := x.log.wire + [mem[m]], inflight := []))
               || (Fails(x, mem[m], log.torn)
                   && log == x.log.(failed := true, torn := log.torn, inflight := [])))
         else log == x.log.(inflight := [])
    case WritePut(k, m) => pc' == WriteTop(k) && op == Put(m) && queue == x.queue && log == x.log
    case _ => false
  }

  /** disconnect. Closing a nil or closed stop channel panics, and so does closing a UDP Conn that its
      user has closed; disconnect recovers by giving up. */
  predicate DiscStep(pc: Pc, x: Sock, e: Effect) {
    match pc
    case DiscLoad(k) => e == Move(if IsValid(x.status) then DiscSwap(k, x.status) else Done, x)
    case DiscSwap(k, seen) =>
      e == if x.status == seen then Move(DiscStop(k), x.(status := Disconnect)) else Move(Done, x)
    case DiscStop(k) =>
      e == Move(if x.stop == 0 || x.stop in x.closings then Done else DiscClose(k),
                x.(closings := x.closings + [x.stop]))
    case DiscClose(k) =>
      || e == Move(DiscNil(k), if x.conn == 0 then x else x.(live := 0))
      || (x.lasting && x.conn != 0 && e == Move(Done, x.(live := 0, stuck := true)))
    case DiscNil(k) => e == Move(DiscEmit(k), x.(conn := 0))
    case DiscEmit(k) => e == Move(DiscType(k), x.(events := x.events + [Down]))
    case DiscType(k) =>
      e == if x.client then Effect(Done, x.(status := Reconnecting), Keep, 0, Some(Redial(k)))
           else Move(RelStatus(k), x.(status := Disconnected))
    case _ => false
  }

  /** release. */
  predicate RelStep(mem: map<MsgId, Packet>, pc: Pc, x: Sock, e: Effect) {
    match pc
    case RelStatus(k) => e == Move(RelCount(k), x.(status := Released, releases := x.releases + 1))
    case RelCount(k) => e == Effect(RelDelete(k), x, Keep, -1, None)
    case RelDelete(k) => e == Move(RelDrain(k), x.(registered := false))
    case RelDrain(k) =>
      if x.queue == [] then e == Move(Done, x)
      else
        x.queue[0] in mem
        && var m := x.queue[0];
           var log := x.log.(taken := x.log.taken + [mem[m]]);
           e == Effect(RelPut(k, m), x.(queue := x.queue[1..], log := log), Dequeue(m), 0, None)
    case RelPut(k, m) => e == Effect(RelDrain(k), x, Put(m), 0, None)
    case _ => false
  }

  /** connect up to the event. */
  function Connect(x: Sock): Sock {
    var g := x.opens + 1;
    x.(conn := g, live := g, stop := g, opens := g, status := Connected, events := x.events + [Up])
  }

  /** The reconnect goroutine, and Create after the socket is allocated. */
  predicate OpenStep(pc: Pc, x: Sock, e: Effect) {
    match pc
    case Redial(k) => e == Move(SpawnRead(k, false), Connect(x)) || e == Move(RelStatus(k), x)
    case CreStore(k) => e == Move(CreCount(k), x.(registered := true))
    case CreCount(k) => e == Effect(CreConnect(k), x, Keep, 1, None)
    case CreConnect(k) => e == Move(SpawnRead(k, true), Connect(x))
    case SpawnRead(k, creator) => e == Effect(SpawnWrite(k, creator), x, Keep, 0, Some(ReadTop(k)))
    case SpawnWrite(k, creator) =>
      e == Effect(if creator then (if x.dial then SetAddress(k) else CreIdle) else Done, x, Keep, 0, Some(WriteTop(k)))
    case SetAddress(k) => e == Move(CreIdle, x.(client := true))
    case _ => false
  }

  predicate ThreadStep(cfg: Config, mem: map<MsgId, Packet>, pc: Pc, x: Sock, e: Effect) {
    || SendStep(cfg, mem, pc, x, e)
    || ReadStep(pc, x, e)
    || WriteStep(mem, pc, x, e)
    || DiscStep(pc, x, e)
    || RelStep(mem, pc, x, e)
    || OpenStep(pc, x, e)
  }

  // ------------------------------------------------------------ the system

  datatype Step =
    | Run(t: Tid, e: Effect, child: Tid)     // a thread works on its socket
    | Begin(t: Tid, pc: Pc)                  // a sender starts, or the heartbeat times a socket out
    | Check(t: Tid)                          // Create tests the limit
    | Allot(t: Tid, dial: bool, lasting: bool)  // Create makes a socket; Connect dials streams only
    | CloseCall(k: SockId)                   // Close
    | Evict(m: MsgId)                        // the pool lets a message go

  predicate OpEnabled(s: State, op: MsgOp) {
    match op
    case Get(m) => m in s.pool
    case Make(m) => m !in s.mem
    case _ => true
  }

  function MemAfter(mem: map<MsgId, Packet>, op: MsgOp): map<MsgId, Packet> {
    match op
    case Make(m) => mem[m := BLANK_PACKET]
    case Put(m) => mem[m := BLANK_PACKET]
    case Fill(m, p) => mem[m := p]
    case _ => mem
  }

  function PoolAfter(pool: multiset<MsgId>, op: MsgOp): multiset<MsgId> {
    match op
    case Get(m) => pool - multiset{m}
    case Put(m) => pool + multiset{m}
    case _ => pool
  }

  function Spawned(threads: map<Tid, Pc>, child: Tid, spawn: Option<Pc>): map<Tid, Pc> {
    if spawn.Some? then threads[child := spawn.value] else threads
  }

  predicate Enabled(cfg: Config, s: State, step: Step) {
    match step
    case Run(t, e, child) =>
      && t in s.threads
      && SockOf(s.threads[t]).Some? && s.threads[t].k in s.socks
      && ThreadStep(cfg, s.mem, s.threads[t], s.socks[s.threads[t].k], e)
      && OpEnabled(s, e.op)
      && (e.spawn.Some? ==> child !in s.threads)
    case Begin(t, pc) =>
      && t !in s.threads
      && (pc.SendStart? || pc.DiscLoad?) && pc.k in s.socks
      && (pc.DiscLoad? ==> s.socks[pc.k].registered && s.socks[pc.k].status != Fresh)
    case Check(t) => t in s.threads && s.threads[t] == CreIdle
    case Allot(t, dial, lasting) => t in s.threads && s.threads[t] == CreIndex && !(dial && lasting)
    case CloseCall(k) => k in s.socks
    case Evict(m) => m in s.pool
  }

  function Ran(s: State, t: Tid, k: SockId, e: Effect, child: Tid): State {
    State(s.socks[k := e.x], Spawned(s.threads[t := e.pc], child, e.spawn),
          MemAfter(s.mem, e.op), PoolAfter(s.pool, e.op), s.count + e.d, s.index)
  }

  function After(cfg: Config, s: State, step: Step): State
    requires Enabled(cfg, s, step)
  {
    match step
    case Run(t, e, child) => Ran(s, t, s.threads[t].k, e, child)
    case Begin(t, pc) => s.(threads := s.threads[t := pc])
    case Check(t) =>
      if cfg.maxSockets > 0 && s.count >= cfg.maxSockets then s else s.(threads := s.threads[t := CreIndex])
    case Allot(t, dial, lasting) =>
      var k := s.index + 1;
      s.(socks := s.socks[k := NewSock(dial, lasting)], threads := s.threads[t := CreStore(k)], index := k)
    case CloseCall(k) =>
      var x := s.socks[k];
      if x.status == Connected then s.(socks := s.socks[k := x.(status := Closing)]) else s
    case Evict(m) => s.(pool := s.pool - multiset{m})
  }

  function Init(cfg: Config): State {
    State(map[], map t | t in cfg.creators :: CreIdle, map[], multiset{}, 0, 0)
  }

  /** A run of the system from its start. */
  ghost predicate IsRun(cfg: Config, states: seq<State>, steps: seq<Step>) {
    && |states| == |steps| + 1
    && states[0] == Init(cfg)
    && forall i :: 0 <= i < |steps| ==>
        Enabled(cfg, states[i], steps[i]) && states[i + 1] == After(cfg, states[i], steps[i])
  }
}
