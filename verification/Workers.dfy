// The two workers of a socket: that a connected socket has them, how they end, and what the writer can still
// deliver.
module Workers {
  import Codec
  import opened Environment
  import opened Lifecycle
  import opened Protocol
  import opened SocketLaws
  import Ownership
  import opened SystemLaws
  import opened Paths
  import Delivery

  // ------------------------------------------------ a connected socket is served

  /** The thread reads (or writes) for the socket, is about to start who does, or is about to disconnect it. */
  predicate Serves(pc: Pc, k: SockId, read: bool) {
    SockOf(pc) == Some(k)
    && (|| pc.SpawnRead? || (if read then InRead(pc) else InWrite(pc) || pc.SpawnWrite?)
        || pc.DiscLoad? || (pc.DiscSwap? && pc.seen == Connected))
  }

  ghost predicate Served(s: State, k: SockId, read: bool) {
    k in s.socks && s.socks[k].status == Connected ==>
      exists t :: t in s.threads && Serves(s.threads[t], k, read)
  }

  /** Who serves a socket goes on or hands over, as long as it is connected; and who connects it serves it. */
  ghost predicate GoesOn(pc: Pc, x: Sock, e: Effect, k: SockId, read: bool) {
    SockOf(pc) == Some(k) && e.x.status == Connected && (Serves(pc, k, read) || x.status != Connected) ==>
      Serves(e.pc, k, read) || (e.spawn.Some? && Serves(e.spawn.value, k, read))
  }

  lemma ReadWriteGoesOn(mem: map<MsgId, Codec.Packet>, pc: Pc, x: Sock, e: Effect, k: SockId, read: bool)
    requires ReadStep(pc, x, e) || WriteStep(mem, pc, x, e)
    ensures GoesOn(pc, x, e, k, read)
  {}

  lemma OthersGoOn(cfg: Config, mem: map<MsgId, Codec.Packet>, pc: Pc, x: Sock, e: Effect, k: SockId, read: bool)
    requires SendStep(cfg, mem, pc, x, e) || DiscStep(pc, x, e) || RelStep(mem, pc, x, e) || OpenStep(pc, x, e)
    ensures GoesOn(pc, x, e, k, read)
  {
    if OpenStep(pc, x, e) {
      hide SendStep, DiscStep, RelStep;
    } else {
      hide OpenStep;
    }
  }

  lemma AllGoOn(cfg: Config, mem: map<MsgId, Codec.Packet>, pc: Pc, x: Sock, e: Effect, k: SockId, read: bool)
    requires ThreadStep(cfg, mem, pc, x, e)
    ensures GoesOn(pc, x, e, k, read)
  {
    hide SendStep, ReadStep, WriteStep, DiscStep, RelStep, OpenStep, GoesOn;
    if ReadStep(pc, x, e) || WriteStep(mem, pc, x, e) {
      ReadWriteGoesOn(mem, pc, x, e, k, read);
    } else {
      OthersGoOn(cfg, mem, pc, x, e, k, read);
    }
  }

  lemma RunServed(cfg: Config, s: State, t: Tid, e: Effect, child: Tid, k: SockId, read: bool)
    requires Served(s, k, read) && Enabled(cfg, s, Run(t, e, child))
    ensures Served(After(cfg, s, Run(t, e, child)), k, read)
  {
    var s' := After(cfg, s, Run(t, e, child));
    var pc := s.threads[t];
    AllGoOn(cfg, s.mem, pc, s.socks[pc.k], e, k, read);
    Delivery.OthersWhere(cfg, s, t, e, child);
    assert e.spawn.Some? ==> child in s'.threads && s'.threads[child] == e.spawn.value;
    hide ThreadStep, Serves, Enabled, After;
    if k in s'.socks && s'.socks[k].status == Connected && s.socks[k].status == Connected {
      var u :| u in s.threads && Serves(s.threads[u], k, read);
      if u == t {
        ServesHere(s.threads[t], k, read);
      } else {
        assert s'.threads[u] == s.threads[u];
      }
    }
  }

  lemma ServesHere(pc: Pc, k: SockId, read: bool)
    requires Serves(pc, k, read)
    ensures SockOf(pc) == Some(k)
  {}

  lemma OtherServed(cfg: Config, s: State, step: Step, k: SockId, read: bool)
    requires Served(s, k, read) && Enabled(cfg, s, step) && !step.Run?
    ensures Served(After(cfg, s, step), k, read)
  {
    var s' := After(cfg, s, step);
    if k in s'.socks && s'.socks[k].status == Connected {
      var u :| u in s.threads && Serves(s.threads[u], k, read);
      assert u in s'.threads && s'.threads[u] == s.threads[u];
    }
  }

  /** In every reachable state each connected socket has a reader, or one is about to be started, or a thread
      is about to disconnect it; and the same of its writer. */
  lemma {:induction false} ConnectedIsServed(cfg: Config, states: seq<State>, steps: seq<Step>, i: nat, k: SockId,
                                             read: bool)
    requires IsRun(cfg, states, steps) && i < |states|
    ensures Served(states[i], k, read)
  {
    if i > 0 {
      hide Enabled, After, Served;
      ConnectedIsServed(cfg, states, steps, i - 1, k, read);
      if steps[i - 1].Run? {
        RunServed(cfg, states[i - 1], steps[i - 1].t, steps[i - 1].e, steps[i - 1].child, k, read);
      } else {
        OtherServed(cfg, states[i - 1], steps[i - 1], k, read);
      }
    }
  }

  // ------------------------------------------------------ how a worker ends

  /** What becomes of a thread that was a worker of the socket. */
  ghost predicate WasWorker(pc: Pc, k: SockId, status: Status) {
    match pc
    case Done => Stage(status) >= 2
    case DiscSwap(j, seen) => j == k && 1 <= Stage(seen) <= Stage(status)
    case _ => SockOf(pc) == Some(k) && (InRead(pc) || InWrite(pc) || InDisconnect(pc) || InRelease(pc))
  }

  /** The step of such a thread, on an accepted socket. */
  lemma WorkerReads(mem: map<MsgId, Codec.Packet>, pc: Pc, x: Sock, e: Effect, k: SockId)
    requires (ReadStep(pc, x, e) || WriteStep(mem, pc, x, e)) && WasWorker(pc, k, x.status)
    ensures WasWorker(e.pc, k, e.x.status)
  {}

  lemma WorkerDisconnects(mem: map<MsgId, Codec.Packet>, pc: Pc, x: Sock, e: Effect, k: SockId)
    requires (DiscStep(pc, x, e) || RelStep(mem, pc, x, e)) && WasWorker(pc, k, x.status) && Knows(pc, x) && !x.client
    requires x.status != Fresh
    ensures WasWorker(e.pc, k, e.x.status)
  {}

  lemma WorkerSteps(cfg: Config, mem: map<MsgId, Codec.Packet>, pc: Pc, x: Sock, e: Effect, k: SockId)
    requires ThreadStep(cfg, mem, pc, x, e) && WasWorker(pc, k, x.status) && Knows(pc, x)
    requires !x.client && x.status != Fresh
    ensures WasWorker(e.pc, k, e.x.status)
  {
    WorkerPlaces(cfg, mem, pc, x, e, k);
    hide ThreadStep, ReadStep, WriteStep, DiscStep, RelStep, WasWorker, Knows;
    if ReadStep(pc, x, e) || WriteStep(mem, pc, x, e) {
      WorkerReads(mem, pc, x, e, k);
    } else {
      WorkerDisconnects(mem, pc, x, e, k);
    }
  }

  lemma WorkerPlaces(cfg: Config, mem: map<MsgId, Codec.Packet>, pc: Pc, x: Sock, e: Effect, k: SockId)
    requires ThreadStep(cfg, mem, pc, x, e) && WasWorker(pc, k, x.status) && SockOf(pc).Some?
    ensures ReadStep(pc, x, e) || WriteStep(mem, pc, x, e) || DiscStep(pc, x, e) || RelStep(mem, pc, x, e)
  {}

  ghost predicate IsWorkerOf(s: State, t: Tid, k: SockId) {
    t in s.threads && k in s.socks && !s.socks[k].dial && s.socks[k].status != Fresh
    && WasWorker(s.threads[t], k, s.socks[k].status)
  }

  /** On an accepted socket the status only goes forward. */
  lemma Forward(cfg: Config, s: State, step: Step, k: SockId)
    requires Inv(cfg, s) && Enabled(cfg, s, step) && k in s.socks && !s.socks[k].dial
    ensures var s' := After(cfg, s, step);
            && k in s'.socks && !s'.socks[k].dial && Stage(s.socks[k].status) <= Stage(s'.socks[k].status)
  {
    StatusFollowsGraph(cfg, s, step, k);
    NotReconnecting(cfg, s, k);
    hide Inv, Enabled, After;
  }

  lemma OwnWorker(cfg: Config, s: State, t: Tid, e: Effect, child: Tid, k: SockId)
    requires Inv(cfg, s) && Enabled(cfg, s, Run(t, e, child)) && IsWorkerOf(s, t, k)
    ensures IsWorkerOf(After(cfg, s, Run(t, e, child)), t, k)
  {
    Forward(cfg, s, Run(t, e, child), k);
    IsReady(cfg, s, t, e, child);
    NoClient(cfg, s, k);
    WorkerSteps(cfg, s.mem, s.threads[t], s.socks[k], e, k);
    Delivery.OthersWhere(cfg, s, t, e, child);
    hide Inv, Enabled, After, Ready, WasWorker;
  }

  lemma NoClient(cfg: Config, s: State, k: SockId)
    requires Inv(cfg, s) && k in s.socks && !s.socks[k].dial
    ensures !s.socks[k].client
  {}

  lemma OtherWorker(cfg: Config, s: State, step: Step, t: Tid, k: SockId)
    requires Inv(cfg, s) && Enabled(cfg, s, step) && !(step.Run? && step.t == t) && IsWorkerOf(s, t, k)
    ensures IsWorkerOf(After(cfg, s, step), t, k)
  {
    Forward(cfg, s, step, k);
    NotCreator(s.threads[t], k, s.socks[k].status);
    if step.Run? {
      Delivery.OthersWhere(cfg, s, step.t, step.e, step.child);
    } else {
      OtherStays(cfg, s, step, t);
    }
    hide *;
    StaysWorker(s, After(cfg, s, step), t, k);
  }

  lemma StaysWorker(s: State, s': State, t: Tid, k: SockId)
    requires IsWorkerOf(s, t, k) && t in s'.threads && s'.threads[t] == s.threads[t]
    requires k in s'.socks && !s'.socks[k].dial && Stage(s.socks[k].status) <= Stage(s'.socks[k].status)
    ensures IsWorkerOf(s', t, k)
  {}

  lemma NotCreator(pc: Pc, k: SockId, status: Status)
    requires WasWorker(pc, k, status)
    ensures pc != CreIdle && pc != CreIndex
  {}

  lemma OtherStays(cfg: Config, s: State, step: Step, t: Tid)
    requires Enabled(cfg, s, step) && !step.Run? && t in s.threads
    requires s.threads[t] != CreIdle && s.threads[t] != CreIndex
    ensures var s' := After(cfg, s, step); t in s'.threads && s'.threads[t] == s.threads[t]
  {}

  /** A worker of an accepted socket never ends while the socket is connected: it goes on, or disconnects and
      perhaps releases the socket, or another thread does, or Close has been called. */
  lemma {:induction false} WorkerEnds(cfg: Config, states: seq<State>, steps: seq<Step>, i: nat, j: nat, t: Tid,
                                      k: SockId)
    requires IsRun(cfg, states, steps) && i <= j < |states| && k in states[i].socks && !states[i].socks[k].dial
    requires t in states[i].threads && SockOf(states[i].threads[t]) == Some(k)
    requires InRead(states[i].threads[t]) || InWrite(states[i].threads[t])
    ensures IsWorkerOf(states[j], t, k) && k in states[j].socks && t in states[j].threads
    ensures states[j].threads[t] == Done ==> states[j].socks[k].status != Connected
    decreases j
  {
    hide Inv, Enabled, After, IsWorkerOf;
    if i < j {
      WorkerEnds(cfg, states, steps, i, j - 1, t, k);
      Reachable(cfg, states, steps, j - 1);
      if steps[j - 1].Run? && steps[j - 1].t == t {
        OwnWorker(cfg, states[j - 1], t, steps[j - 1].e, steps[j - 1].child, k);
      } else {
        OtherWorker(cfg, states[j - 1], steps[j - 1], t, k);
      }
    } else {
      Reachable(cfg, states, steps, i);
      WorkerStarts(cfg, states[i], t, k);
    }
    DoneAfter(states[j], t, k);
  }

  lemma WorkerStarts(cfg: Config, s: State, t: Tid, k: SockId)
    requires Inv(cfg, s) && k in s.socks && !s.socks[k].dial && t in s.threads && SockOf(s.threads[t]) == Some(k)
    requires InRead(s.threads[t]) || InWrite(s.threads[t])
    ensures IsWorkerOf(s, t, k)
  {
    assert ThreadWell(cfg, s, t);
  }

  lemma DoneAfter(s: State, t: Tid, k: SockId)
    requires IsWorkerOf(s, t, k)
    ensures k in s.socks && t in s.threads && (s.threads[t] == Done ==> s.socks[k].status != Connected)
  {}

  /** The last case comes about: from every state in which a thread is about to disconnect a connected socket,
      a call of Close in between makes the thread give up; its connection and its stop channel stay open. */
  lemma CloseStopsDisconnect(cfg: Config, s: State, k: SockId, t: Tid) returns (s': State)
    requires k in s.socks && s.socks[k].status == Connected && t in s.threads && s.threads[t] == DiscLoad(k)
    ensures CanReach(cfg, s, s') && t in s'.threads && s'.threads[t] == Done
    ensures k in s'.socks && s'.socks[k] == s.socks[k].(status := Status.Closing)
  {
    var x := s.socks[k];
    var x' := x.(status := Status.Closing);
    Stay(cfg, s);
    hide CanReach, OpenStep, RelStep;
    var s1 := GoRun(cfg, s, s, t, DiscLoad(k), x, Move(DiscSwap(k, Connected), x), 0);
    Go(cfg, s, s1, CloseCall(k));
    var s2 := After(cfg, s1, CloseCall(k));
    s' := GivesUp(cfg, s, s2, k, t, x');
  }

  lemma GivesUp(cfg: Config, s0: State, s: State, k: SockId, t: Tid, x: Sock) returns (s': State)
    requires CanReach(cfg, s0, s) && At(s, t, DiscSwap(k, Connected), x) && x.status != Connected
    ensures CanReach(cfg, s0, s') && t in s'.threads && s'.threads[t] == Done && k in s'.socks && s'.socks[k] == x
  {
    var e := Move(Done, x);
    assert DiscStep(DiscSwap(k, Connected), x, e);
    hide CanReach, DiscStep;
    Go(cfg, s0, s, Run(t, e, 0));
    s' := After(cfg, s, Run(t, e, 0));
  }

  // ------------------------------------------------------ what can be delivered

  /** The writer of an accepted socket whose connection is open and has not failed. */
  ghost predicate CanWrite(cfg: Config, s: State, k: SockId, t: Tid) {
    Inv(cfg, s) && k in s.socks && !s.socks[k].dial && !s.socks[k].log.failed
    && (s.socks[k].status == Connected || s.socks[k].status == Status.Closing)
    && t in s.threads && InWrite(s.threads[t]) && s.threads[t].k == k
  }

  /** The writer has moved, and nothing has been accepted or failed since. */
  ghost predicate WroteOn(cfg: Config, s: State, s': State, k: SockId, t: Tid) {
    CanReach(cfg, s, s') && CanWrite(cfg, s, k, t) && CanWrite(cfg, s', k, t)
    && s'.socks[k].log.accepted == s.socks[k].log.accepted && s'.socks[k].status == s.socks[k].status
  }

  lemma GoWrite(cfg: Config, s: State, k: SockId, t: Tid, e: Effect) returns (s': State)
    requires CanWrite(cfg, s, k, t) && WriteStep(s.mem, s.threads[t], s.socks[k], e) && OpEnabled(s, e.op)
    requires InWrite(e.pc) && e.pc.k == k && !e.x.log.failed && e.x.log.accepted == s.socks[k].log.accepted
    ensures WroteOn(cfg, s, s', k, t) && s'.threads[t] == e.pc && s'.socks[k] == e.x
  {
    assert ThreadStep(cfg, s.mem, s.threads[t], s.socks[k], e) by {
      hide WriteStep;
    }
    var step := Run(t, e, 0);
    SameSock(s.mem, s.threads[t], s.socks[k], e);
    hide ThreadStep, WriteStep, Inv;
    StepInv(cfg, s, step);
    Stay(cfg, s);
    hide CanReach;
    Go(cfg, s, s, step);
    s' := After(cfg, s, step);
  }

  lemma SameSock(mem: map<MsgId, Codec.Packet>, pc: Pc, x: Sock, e: Effect)
    requires WriteStep(mem, pc, x, e)
    ensures e.x.dial == x.dial && e.x.status == x.status && e.spawn.None?
  {}

  lemma WroteMore(cfg: Config, s: State, s1: State, s2: State, k: SockId, t: Tid)
    requires WroteOn(cfg, s, s1, k, t) && WroteOn(cfg, s1, s2, k, t)
    ensures WroteOn(cfg, s, s2, k, t)
  {
    hide CanReach, CanWrite;
    ReachOn(cfg, s, s1, s2);
  }

  lemma WriterKnowsConn(cfg: Config, s: State, k: SockId, t: Tid)
    requires CanWrite(cfg, s, k, t)
    ensures s.socks[k].conn != 0 && (s.threads[t].WriteBusy? ==> s.threads[t].g == s.socks[k].live)
    ensures Held(s.threads[t]).Some? ==> Held(s.threads[t]).value in s.mem
    ensures s.socks[k].queue != [] ==> s.socks[k].queue[0] in s.mem
    ensures !s.threads[t].WriteConn? && !s.threads[t].WriteBusy? ==> s.socks[k].log.inflight == []
  {
    assert ThreadWell(cfg, s, t) && SockInv(cfg, s.socks[k]);
    if Held(s.threads[t]).Some? {
      assert Ownership.Copies(s, Ownership.AtThread(t), Held(s.threads[t]).value) > 0;
    }
    if s.socks[k].queue != [] {
      assert Ownership.Copies(s, Ownership.InQueue(k), s.socks[k].queue[0]) > 0;
    }
  }

  /** The writer's steps until the queue is empty and its hand too. */
  function Left(pc: Pc, queue: seq<MsgId>): nat {
    5 * |queue| + match pc
                  case WriteConn(_, _) => 4
                  case WriteBusy(_, _, _) => 3
                  case WritePut(_, _) => 2
                  case WriteTop(_) => 1
                  case _ => 0
  }

  /** The writer's next step, when no write fails and it does not stop. */
  lemma NextWrite(mem: map<MsgId, Codec.Packet>, pc: Pc, x: Sock) returns (e: Effect)
    requires InWrite(pc) && (Held(pc).Some? ==> Held(pc).value in mem) && (x.queue != [] ==> x.queue[0] in mem)
    requires x.conn != 0 && (pc.WriteBusy? ==> pc.g == x.live) && !x.log.failed
    requires pc.WriteSelect? ==> x.queue != []
    ensures WriteStep(mem, pc, x, e) && !e.op.Get? && !e.op.Make? && InWrite(e.pc) && e.pc.k == pc.k
    ensures !e.x.log.failed && e.x.log.accepted == x.log.accepted && Left(e.pc, e.x.queue) < Left(pc, x.queue)
  {
    match pc {
      case WriteTop(k) => e := Move(WriteSelect(k, x.stop), x);
      case WriteSelect(k, _) =>
        var m := x.queue[0];
        var log := x.log.(taken := x.log.taken + [mem[m]], inflight := [mem[m]]);
        e := Effect(WriteConn(k, m), x.(queue := x.queue[1..], log := log), Dequeue(m), 0, None);
      case WriteConn(k, m) => e := Move(WriteBusy(k, m, x.conn), x);
      case WriteBusy(k, m, _) =>
        e := Move(WritePut(k, m), x.(log := x.log.(wire := x.log.wire + [mem[m]], inflight := [])));
      case WritePut(k, m) => e := Effect(WriteTop(k), x, Put(m), 0, None);
    }
  }

  lemma WritesNext(cfg: Config, s: State, k: SockId, t: Tid) returns (s': State)
    requires CanWrite(cfg, s, k, t) && (s.threads[t].WriteSelect? ==> s.socks[k].queue != [])
    ensures WroteOn(cfg, s, s', k, t)
    ensures Left(s'.threads[t], s'.socks[k].queue) < Left(s.threads[t], s.socks[k].queue)
  {
    WriterKnowsConn(cfg, s, k, t);
    hide Inv, WriteStep, WroteOn, Left;
    var e := NextWrite(s.mem, s.threads[t], s.socks[k]);
    s' := GoWrite(cfg, s, k, t, e);
  }

  lemma {:induction false} WritesAll(cfg: Config, s: State, k: SockId, t: Tid) returns (s': State)
    requires CanWrite(cfg, s, k, t)
    ensures WroteOn(cfg, s, s', k, t) && s'.socks[k].queue == [] && s'.socks[k].log.inflight == []
    decreases Left(s.threads[t], s.socks[k].queue)
  {
    Stay(cfg, s);
    var atEnd := s.threads[t].WriteSelect? && s.socks[k].queue == [];
    hide CanReach, CanWrite;
    if atEnd {
      WriterKnowsConn(cfg, s, k, t);
      s' := s;
    } else {
      var s1 := WritesNext(cfg, s, k, t);
      s' := WritesAll(cfg, s1, k, t);
      WroteMore(cfg, s, s1, s', k, t);
    }
  }

  /** As long as an accepted socket is connected or closing, no write has failed and its writer has not left its
      loop, all that Write has accepted can still get onto the wire, in the order accepted. */
  lemma CanDeliver(cfg: Config, s: State, k: SockId, t: Tid) returns (s': State)
    requires CanReach(cfg, Init(cfg), s) && CanWrite(cfg, s, k, t)
    ensures CanReach(cfg, s, s') && k in s'.socks && s'.socks[k].status == s.socks[k].status
    ensures s'.socks[k].log.wire == s'.socks[k].log.accepted == s.socks[k].log.accepted
  {
    hide CanReach, Inv;
    s' := WritesAll(cfg, s, k, t);
    ReachOn(cfg, Init(cfg), s, s');
    ReachedByRun(cfg, s');
    WriterKnowsConn(cfg, s', k, t);
    LiveThen(cfg, s', k, t);
    hide Init;
    var states, steps :| IsRun(cfg, states, steps) && states[|steps|] == s';
    hide IsRun;
    Delivery.InOrder(cfg, states, steps, |steps|, k);
  }

  /** And a write can fail, on a stream with any part of the frame out. */
  lemma CanFail(cfg: Config, s: State, k: SockId, t: Tid, n: nat) returns (s': State)
    requires CanWrite(cfg, s, k, t) && s.threads[t].WriteBusy?
    ensures CanReach(cfg, s, s') && k in s'.socks && s'.socks[k].log.failed
    ensures s'.socks[k].log.wire == s.socks[k].log.wire && s.threads[t].m in s.mem
    ensures !s.socks[k].lasting ==> s'.socks[k].log.torn == Some(Torn(s.mem[s.threads[t].m], n))
  {
    WriterKnowsConn(cfg, s, k, t);
    var pc, x := s.threads[t], s.socks[k];
    var torn := if x.lasting then x.log.torn else Some(Torn(s.mem[pc.m], n));
    var e := Move(WritePut(k, pc.m), x.(log := x.log.(failed := true, torn := torn, inflight := [])));
    assert WriteStep(s.mem, pc, x, e);
    Stay(cfg, s);
    hide CanReach, Inv, WriteStep;
    Go(cfg, s, s, Run(t, e, 0));
    s' := After(cfg, s, Run(t, e, 0));
  }

  lemma LiveThen(cfg: Config, s: State, k: SockId, t: Tid)
    requires CanWrite(cfg, s, k, t)
    ensures Writable(s.socks[k])
  {}

  // ----------------------------------------------------------- what can be read

  lemma GoRead(cfg: Config, s0: State, s: State, t: Tid, pc: Pc, x: Sock, e: Effect) returns (s': State)
    requires CanReach(cfg, s0, s) && At(s, t, pc, x) && ReadStep(pc, x, e)
    requires OpEnabled(s, e.op) && e.spawn.None? && e.x == x
    ensures CanReach(cfg, s0, s') && s'.mem == MemAfter(s.mem, e.op) && s'.pool == PoolAfter(s.pool, e.op)
    ensures s'.socks == s.socks && s'.threads == s.threads[t := e.pc]
  {
    assert ThreadStep(cfg, s.mem, pc, x, e) by {
      hide SendStep, ReadStep, WriteStep, DiscStep, RelStep, OpenStep;
    }
    hide ThreadStep, ReadStep, CanReach;
    Go(cfg, s0, s, Run(t, e, 0));
    s' := After(cfg, s, Run(t, e, 0));
    assert s.socks[pc.k := x] == s.socks;
  }

  /** The steps of a read. */
  lemma ReadPlaces(k: SockId, m: MsgId, x: Sock, p: Codec.Packet, again: bool)
    requires x.conn != 0
    ensures ReadStep(ReadTop(k), x, Effect(ReadConn(k, m), x, Make(m), 0, None))
    ensures ReadStep(ReadConn(k, m), x, Move(ReadBusy(k, m, x.conn), x))
    ensures ReadStep(ReadBusy(k, m, x.conn), x, Effect(ReadPut(k, m, again), x, Fill(m, p), 0, None))
  {}

  lemma ReadsIn(cfg: Config, s: State, k: SockId, t: Tid, p: Codec.Packet, again: bool) returns (s': State, m: MsgId)
    requires t in s.threads && s.threads[t] == ReadTop(k) && k in s.socks && s.socks[k].conn != 0
    ensures CanReach(cfg, s, s') && s'.socks == s.socks && s'.pool == s.pool && m in s'.mem && s'.mem[m] == p
    ensures s'.threads == s.threads[t := ReadPut(k, m, again)]
  {
    var x := s.socks[k];
    m := Above(s.mem.Keys);
    Stay(cfg, s);
    ReadPlaces(k, m, x, p, again);
    hide CanReach, ReadStep;
    var s1 := GoRead(cfg, s, s, t, ReadTop(k), x, Effect(ReadConn(k, m), x, Make(m), 0, None));
    var s2 := GoRead(cfg, s, s1, t, ReadConn(k, m), x, Move(ReadBusy(k, m, x.conn), x));
    s' := GoRead(cfg, s, s2, t, ReadBusy(k, m, x.conn), x, Effect(ReadPut(k, m, again), x, Fill(m, p), 0, None));
  }

  lemma GivesBack(cfg: Config, s0: State, s: State, k: SockId, t: Tid, m: MsgId, again: bool) returns (s': State)
    requires CanReach(cfg, s0, s) && t in s.threads && s.threads[t] == ReadPut(k, m, again) && k in s.socks
    ensures CanReach(cfg, s0, s') && s'.socks == s.socks && s'.pool == s.pool + multiset{m}
    ensures s'.threads == s.threads[t := if again then ReadTop(k) else DiscLoad(k)]
  {
    var x := s.socks[k];
    hide CanReach;
    var next := if again then ReadTop(k) else DiscLoad(k);
    s' := GoRead(cfg, s0, s, t, ReadPut(k, m, again), x, Effect(next, x, Put(m), 0, None));
  }

  /** A reader whose socket has a connection can read any packet into a message, for a handler to see, give
      the message back, and go on, or leave to disconnect. */
  lemma CanRead(cfg: Config, s: State, k: SockId, t: Tid, p: Codec.Packet, again: bool)
    returns (seen: State, s': State, m: MsgId)
    requires t in s.threads && s.threads[t] == ReadTop(k) && k in s.socks && s.socks[k].conn != 0
    ensures CanReach(cfg, s, seen) && seen.socks == s.socks && m in seen.mem && seen.mem[m] == p
    ensures seen.threads == s.threads[t := ReadPut(k, m, again)]
    ensures CanReach(cfg, s, s') && s'.socks == s.socks && s'.pool == s.pool + multiset{m}
    ensures s'.threads == s.threads[t := if again then ReadTop(k) else DiscLoad(k)]
  {
    hide CanReach;
    seen, m := ReadsIn(cfg, s, k, t, p, again);
    s' := GivesBack(cfg, s, seen, k, t, m, again);
  }

  // ------------------------------------------------------- what a panic loses

  lemma LosersRead(cfg: Config, mem: map<MsgId, Codec.Packet>, pc: Pc, x: Sock, e: Effect)
    requires ThreadStep(cfg, mem, pc, x, e) && e.op.Lose?
    ensures (pc.ReadConn? && x.conn == 0) || pc.ReadBusy?
  {
    hide SendStep, WriteStep, DiscStep, RelStep, OpenStep;
    if !ReadStep(pc, x, e) {
      OthersLoseNone(cfg, mem, pc, x, e);
    }
  }

  lemma OthersLoseNone(cfg: Config, mem: map<MsgId, Codec.Packet>, pc: Pc, x: Sock, e: Effect)
    requires SendStep(cfg, mem, pc, x, e) || WriteStep(mem, pc, x, e) || DiscStep(pc, x, e)
             || RelStep(mem, pc, x, e) || OpenStep(pc, x, e)
    ensures !e.op.Lose?
  {
    if SendStep(cfg, mem, pc, x, e) || WriteStep(mem, pc, x, e) {
      hide DiscStep, RelStep, OpenStep;
    } else {
      hide SendStep, WriteStep;
    }
  }

  /** A message on a queue, or in the hand of a sender, a writer or a release, is owned by someone after every
      step: only a reader that panics, on a connection that is gone or in reading, loses one. */
  lemma QueuedKept(cfg: Config, s: State, step: Step, p: Ownership.Place, m: MsgId) returns (q: Ownership.Place)
    requires Inv(cfg, s) && Enabled(cfg, s, step) && Ownership.Copies(s, p, m) > 0 && !p.InPool?
    requires p.AtThread? ==> !InRead(s.threads[p.t])
    ensures Ownership.Copies(After(cfg, s, step), q, m) == 1
  {
    NotLost(cfg, s, step, p, m);
    hide Enabled, After, Ownership.Copies;
    q := Ownership.NoneLost(cfg, s, step, p, m);
  }

  lemma NotLost(cfg: Config, s: State, step: Step, p: Ownership.Place, m: MsgId)
    requires Inv(cfg, s) && Enabled(cfg, s, step) && Ownership.Copies(s, p, m) > 0 && !p.InPool?
    requires p.AtThread? ==> !InRead(s.threads[p.t])
    ensures step != Evict(m) && !(step.Run? && step.e.op == Lose(m))
  {
    if step.Run? && step.e.op.Lose? {
      var pc := s.threads[step.t];
      LosersRead(cfg, s.mem, pc, s.socks[pc.k], step.e);
      Ownership.OpsFit(cfg, s.mem, pc, s.socks[pc.k], step.e);
      assert Ownership.Copies(s, Ownership.AtThread(step.t), step.e.op.m) > 0;
    } else if step.Evict? {
      assert Ownership.Copies(s, Ownership.InPool, step.m) > 0;
    }
    hide ThreadStep, Orderly;
  }
}
