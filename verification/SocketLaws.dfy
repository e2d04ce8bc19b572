// One socket under the steps of one thread: what a socket always satisfies, what a thread knows of
// its socket, and that no step of one thread takes away what another thread knows.
module SocketLaws {
  import opened Environment
  import Codec
  import opened Lifecycle
  import opened Protocol

  /** Connected n times, and so far disconnected all of them or all but the last. */
  ghost predicate Counted(x: Sock, closed: int, downs: int) {
    x.opens >= 1 && |x.closings| == closed && |x.events| == x.opens + downs
  }

  /** Connected and not yet being torn down. */
  ghost predicate IsUp(x: Sock) {
    x.registered && x.opens >= 1 && Counted(x, x.opens - 1, x.opens - 1)
    && x.conn == x.live == x.opens
  }

  ghost predicate IsDown(x: Sock) {
    x.opens >= 1 && Counted(x, x.opens, x.opens) && x.conn == x.live == 0
  }

  /** The stop channels have been closed in the order they were made, each of them once. */
  ghost predicate ClosedOnce(x: Sock) {
    forall i :: 0 <= i < |x.closings| ==> x.closings[i] == i + 1
  }

  /** Connected and Disconnect events take turns. */
  ghost predicate Alternating(x: Sock) {
    forall i :: 0 <= i < |x.events| ==> x.events[i] == if i % 2 == 0 then Up else Down
  }

  /** What has reached the connection of an accepted socket, against what was taken off its queue. */
  ghost predicate WireInOrder(x: Sock) {
    !x.dial ==>
      && (!x.log.failed || !x.lasting ==> x.log.wire <= x.log.taken)
      && (x.log.torn.Some? <==> x.log.failed && !x.lasting)
      && (x.log.torn.Some? ==> x.log.wire + [x.log.torn.value.packet] <= x.log.taken)
      && (Writable(x) && !x.log.failed ==> x.log.taken == x.log.wire + x.log.inflight)
  }

  /** What the writer takes now gets onto the wire, if the write succeeds. */
  predicate Writable(x: Sock) {
    x.conn != 0 && (x.live != 0 || x.lasting)
  }

  ghost predicate SockInv(cfg: Config, x: Sock) {
    && x.stop == x.opens
    && ClosedOnce(x)
    && |x.closings| <= x.opens
    && Alternating(x)
    && (x.status == Fresh ==> x == NewSock(x.dial, x.lasting).(registered := x.registered))
    && (x.status == Connected || x.status == Closing ==> IsUp(x))
    && x.releases == (if x.status == Released then 1 else 0)
    && (x.client ==> x.dial) && (x.lasting ==> !x.dial)
    && (x.status == Reconnecting ==> x.client)
    && (!x.dial ==> x.opens <= 1)
    && x.conn <= x.opens
    && (x.live != 0 ==> x.conn == x.live == x.opens)
    && |x.queue| <= cfg.writeChan
    && WireInOrder(x)
  }

  /** The right to write the status without comparing it: from Create until it connects, and from a
      successful swap in disconnect until the socket is released or connected again. */
  predicate Owns(pc: Pc) {
    pc.CreStore? || pc.CreCount? || pc.CreConnect? || pc.DiscStop? || pc.DiscClose? || pc.DiscNil? || pc.DiscEmit?
    || pc.DiscType? || pc.RelStatus? || pc.RelCount? || pc.RelDelete? || pc.RelDrain? || pc.RelPut? || pc.Redial?
  }

  /** The writer of the socket, or the thread that has yet to start it. */
  predicate Writes(pc: Pc) {
    pc.CreStore? || pc.CreCount? || pc.CreConnect? || pc.SpawnRead? || pc.SpawnWrite?
    || pc.WriteTop? || pc.WriteSelect? || pc.WriteConn? || pc.WriteBusy? || pc.WritePut?
  }

  /** What a thread knows of its socket. */
  ghost predicate Knows(pc: Pc, x: Sock) {
    match pc
    case Done => true
    case CreIdle => true
    case CreIndex => true
    case CreStore(_) => x.status == Fresh && !x.registered
    case CreCount(_) => x.status == Fresh && x.registered
    case CreConnect(_) => x.status == Fresh && x.registered
    case SendStart(_, _) => true
    case SendMarshal(_, _, _) => true
    case SendReady(_, _, _) => true
    case SendFail(_, _) => true
    case DiscSwap(_, seen) => x.status != Fresh && seen != Fresh && IsValid(seen)
    case DiscStop(_) => x.status == Disconnect && IsUp(x)
    case DiscClose(_) => x.status == Disconnect && x.registered && Counted(x, x.opens, x.opens - 1)
    case DiscNil(_) => x.status == Disconnect && x.registered && Counted(x, x.opens, x.opens - 1) && x.live == 0
    case DiscEmit(_) =>
      x.status == Disconnect && x.registered && Counted(x, x.opens, x.opens - 1) && x.live == 0 && x.conn == 0
    case DiscType(_) => x.status == Disconnect && x.registered && IsDown(x)
    case RelStatus(_) => (x.status == Disconnected || x.status == Reconnecting) && x.registered && IsDown(x)
    case RelCount(_) => x.status == Released && x.registered && IsDown(x)
    case RelDelete(_) => x.status == Released && x.registered && IsDown(x)
    case RelDrain(_) => x.status == Released && !x.registered && IsDown(x)
    case RelPut(_, _) => x.status == Released && !x.registered && IsDown(x)
    case Redial(_) => x.status == Reconnecting && x.client && x.registered && IsDown(x)
    case WriteBusy(_, _, g) => x.status != Fresh && 1 <= g <= x.opens
    case SetAddress(_) => x.status != Fresh && x.dial
    case _ => x.status != Fresh
  }

  /** Two threads on one socket: one owner of the status, and on accepted sockets one writer. */
  ghost predicate Compatible(pc1: Pc, pc2: Pc, dial: bool) {
    !(Owns(pc1) && Owns(pc2)) && (dial || !(Writes(pc1) && Writes(pc2)))
  }

  /** What the writer knows of the packet in flight. */
  ghost predicate KnowsInflight(pc: Pc, x: Sock, mem: map<MsgId, Codec.Packet>) {
    !x.dial && Writes(pc) ==>
      if pc.WriteConn? || pc.WriteBusy? then
        && pc.m in mem && x.log.inflight == [mem[pc.m]]
        && (pc.WriteBusy? && x.lasting && !x.log.failed ==> x.log.wire + x.log.inflight <= x.log.taken)
      else x.log.inflight == []
  }

  // ------------------------------------------------------ the acting thread

  ghost predicate StepsWell(cfg: Config, pc: Pc, x: Sock, e: Effect) {
    SockInv(cfg, e.x) && Knows(e.pc, e.x) && (e.spawn.Some? ==> Knows(e.spawn.value, e.x))
    && e.x.dial == x.dial && (e.x.status == x.status || Edge(x.status, e.x.status))
  }

  /** The sockets differ in nothing but the queue, its records and the wire. */
  predicate SameCore(x: Sock, x': Sock) {
    && x'.dial == x.dial && x'.lasting == x.lasting && x'.client == x.client && x'.status == x.status
    && x'.stop == x.stop && x'.conn == x.conn && x'.live == x.live && x'.registered == x.registered
    && x'.opens == x.opens && x'.closings == x.closings && x'.events == x.events && x'.releases == x.releases
    && x'.stuck == x.stuck
  }

  lemma CoreIsKnown(x: Sock, x': Sock, other: Pc)
    requires SameCore(x, x') && Knows(other, x)
    ensures Knows(other, x')
  {}

  lemma CoreKeepsSock(cfg: Config, x: Sock, x': Sock)
    requires SockInv(cfg, x) && x.status != Fresh && SameCore(x, x')
    requires |x'.queue| <= cfg.writeChan && WireInOrder(x')
    ensures SockInv(cfg, x')
  {
    hide WireInOrder;
  }

  lemma SendKeepsSock(cfg: Config, mem: map<MsgId, Codec.Packet>, pc: Pc, x: Sock, e: Effect)
    requires SockInv(cfg, x) && SendStep(cfg, mem, pc, x, e) && Knows(pc, x)
    ensures SockInv(cfg, e.x)
  {}

  lemma SendSteps(cfg: Config, mem: map<MsgId, Codec.Packet>, pc: Pc, x: Sock, e: Effect)
    requires SockInv(cfg, x) && Knows(pc, x) && SendStep(cfg, mem, pc, x, e)
    ensures StepsWell(cfg, pc, x, e)
  {
    SendKeepsSock(cfg, mem, pc, x, e);
    hide SockInv;
  }

  lemma ReadSteps(cfg: Config, pc: Pc, x: Sock, e: Effect)
    requires SockInv(cfg, x) && Knows(pc, x) && ReadStep(pc, x, e)
    ensures StepsWell(cfg, pc, x, e)
  {}

  lemma WriteKeepsSock(cfg: Config, mem: map<MsgId, Codec.Packet>, pc: Pc, x: Sock, e: Effect)
    requires SockInv(cfg, x) && Knows(pc, x) && KnowsInflight(pc, x, mem) && WriteStep(mem, pc, x, e)
    ensures SockInv(cfg, e.x)
  {
    WriterNotFresh(mem, pc, x, e);
    WriteKeepsOrder(mem, pc, x, e);
    WriteOnCore(mem, pc, x, e);
    hide WriteStep, KnowsInflight, WireInOrder, Knows, SameCore;
    CoreKeepsSock(cfg, x, e.x);
  }

  lemma WriteOnCore(mem: map<MsgId, Codec.Packet>, pc: Pc, x: Sock, e: Effect)
    requires WriteStep(mem, pc, x, e)
    ensures SameCore(x, e.x) && |e.x.queue| <= |x.queue|
  {}

  lemma WriterNotFresh(mem: map<MsgId, Codec.Packet>, pc: Pc, x: Sock, e: Effect)
    requires Knows(pc, x) && WriteStep(mem, pc, x, e)
    ensures x.status != Fresh
  {}

  lemma WriteKeepsOrder(mem: map<MsgId, Codec.Packet>, pc: Pc, x: Sock, e: Effect)
    requires WireInOrder(x) && Knows(pc, x) && KnowsInflight(pc, x, mem) && WriteStep(mem, pc, x, e)
    requires (x.live != 0 ==> x.conn == x.live == x.opens) && (!x.dial ==> x.opens <= 1)
    ensures WireInOrder(e.x)
  {}

  lemma WriteKnows(mem: map<MsgId, Codec.Packet>, pc: Pc, x: Sock, e: Effect)
    requires Knows(pc, x) && WriteStep(mem, pc, x, e) && x.conn <= x.opens
    ensures Knows(e.pc, e.x) && e.spawn.None? && e.x.dial == x.dial && e.x.status == x.status
  {}

  lemma WriteSteps(cfg: Config, mem: map<MsgId, Codec.Packet>, pc: Pc, x: Sock, e: Effect)
    requires SockInv(cfg, x) && Knows(pc, x) && KnowsInflight(pc, x, mem) && WriteStep(mem, pc, x, e)
    ensures StepsWell(cfg, pc, x, e)
  {
    WriteKeepsSock(cfg, mem, pc, x, e);
    ConnNumber(cfg, x);
    hide SockInv, KnowsInflight, WriteStep, Knows;
    WriteKnows(mem, pc, x, e);
  }

  lemma ConnNumber(cfg: Config, x: Sock)
    requires SockInv(cfg, x)
    ensures x.conn <= x.opens
  {}

  lemma DiscSwaps(cfg: Config, pc: Pc, x: Sock, e: Effect)
    requires SockInv(cfg, x) && Knows(pc, x) && DiscStep(pc, x, e) && (pc.DiscLoad? || pc.DiscSwap? || pc.DiscStop?)
    ensures StepsWell(cfg, pc, x, e)
  {}

  lemma DiscCloses(cfg: Config, pc: Pc, x: Sock, e: Effect)
    requires SockInv(cfg, x) && Knows(pc, x) && DiscStep(pc, x, e) && pc.DiscClose?
    ensures StepsWell(cfg, pc, x, e)
  {}

  lemma DiscEmits(cfg: Config, pc: Pc, x: Sock, e: Effect)
    requires SockInv(cfg, x) && Knows(pc, x) && DiscStep(pc, x, e) && (pc.DiscNil? || pc.DiscEmit?)
    ensures StepsWell(cfg, pc, x, e)
  {}

  lemma DiscEnds(cfg: Config, pc: Pc, x: Sock, e: Effect)
    requires SockInv(cfg, x) && Knows(pc, x) && DiscStep(pc, x, e) && pc.DiscType?
    ensures StepsWell(cfg, pc, x, e)
  {}

  lemma DiscSteps(cfg: Config, pc: Pc, x: Sock, e: Effect)
    requires SockInv(cfg, x) && Knows(pc, x) && DiscStep(pc, x, e)
    ensures StepsWell(cfg, pc, x, e)
  {
    DiscPlaces(pc, x, e);
    hide SockInv, Knows, DiscStep, StepsWell;
    if pc.DiscLoad? || pc.DiscSwap? || pc.DiscStop? {
      DiscSwaps(cfg, pc, x, e);
    } else if pc.DiscClose? {
      DiscCloses(cfg, pc, x, e);
    } else if pc.DiscType? {
      DiscEnds(cfg, pc, x, e);
    } else {
      DiscEmits(cfg, pc, x, e);
    }
  }

  lemma DiscPlaces(pc: Pc, x: Sock, e: Effect)
    requires DiscStep(pc, x, e)
    ensures pc.DiscLoad? || pc.DiscSwap? || pc.DiscStop? || pc.DiscClose? || pc.DiscNil? || pc.DiscEmit? || pc.DiscType?
  {}

  lemma RelKeepsSock(cfg: Config, mem: map<MsgId, Codec.Packet>, pc: Pc, x: Sock, e: Effect)
    requires SockInv(cfg, x) && Knows(pc, x) && RelStep(mem, pc, x, e)
    ensures SockInv(cfg, e.x)
  {}

  lemma RelKnows(mem: map<MsgId, Codec.Packet>, pc: Pc, x: Sock, e: Effect)
    requires Knows(pc, x) && RelStep(mem, pc, x, e)
    ensures Knows(e.pc, e.x) && e.spawn.None?
    ensures e.x.dial == x.dial && (e.x.status == x.status || Edge(x.status, e.x.status))
  {}

  lemma RelSteps(cfg: Config, mem: map<MsgId, Codec.Packet>, pc: Pc, x: Sock, e: Effect)
    requires SockInv(cfg, x) && Knows(pc, x) && RelStep(mem, pc, x, e)
    ensures StepsWell(cfg, pc, x, e)
  {
    RelKeepsSock(cfg, mem, pc, x, e);
    RelKnows(mem, pc, x, e);
    hide SockInv, Knows, RelStep;
  }

  /** Opening the first or the next connection of a socket that is down. */
  lemma ConnectKeepsSock(cfg: Config, x: Sock)
    requires SockInv(cfg, x)
    requires (x.status == Fresh && x.registered) || (x.status == Reconnecting && x.client && x.registered && IsDown(x))
    ensures SockInv(cfg, Connect(x))
  {}

  lemma OpenKeepsSock(cfg: Config, pc: Pc, x: Sock, e: Effect)
    requires SockInv(cfg, x) && Knows(pc, x) && OpenStep(pc, x, e) && !pc.CreConnect?
    requires pc.Redial? ==> e.pc.RelStatus?
    ensures SockInv(cfg, e.x)
  {}

  lemma OpenSteps(cfg: Config, pc: Pc, x: Sock, e: Effect)
    requires SockInv(cfg, x) && Knows(pc, x) && OpenStep(pc, x, e)
    ensures StepsWell(cfg, pc, x, e)
  {
    OpenKnows(pc, x, e);
    hide SockInv, StepsWell;
    if (pc.CreConnect? || pc.Redial?) && !e.pc.RelStatus? {
      ConnectKeepsSock(cfg, x);
    } else {
      OpenKeepsSock(cfg, pc, x, e);
    }
    OpenIsWell(cfg, pc, x, e);
  }

  lemma OpenKnows(pc: Pc, x: Sock, e: Effect)
    requires Knows(pc, x) && OpenStep(pc, x, e)
    ensures Knows(e.pc, e.x) && (e.spawn.Some? ==> Knows(e.spawn.value, e.x))
    ensures e.x.dial == x.dial && (e.x.status == x.status || Edge(x.status, e.x.status))
  {}

  lemma OpenIsWell(cfg: Config, pc: Pc, x: Sock, e: Effect)
    requires SockInv(cfg, e.x) && Knows(e.pc, e.x) && (e.spawn.Some? ==> Knows(e.spawn.value, e.x))
    requires e.x.dial == x.dial && (e.x.status == x.status || Edge(x.status, e.x.status))
    ensures StepsWell(cfg, pc, x, e)
  {}

  lemma ThreadSteps(cfg: Config, mem: map<MsgId, Codec.Packet>, pc: Pc, x: Sock, e: Effect)
    requires SockInv(cfg, x) && Knows(pc, x) && KnowsInflight(pc, x, mem) && ThreadStep(cfg, mem, pc, x, e)
    ensures StepsWell(cfg, pc, x, e)
  {
    hide SendStep, ReadStep, WriteStep, DiscStep, RelStep, OpenStep, SockInv, Knows, KnowsInflight, StepsWell;
    if SendStep(cfg, mem, pc, x, e) {
      SendSteps(cfg, mem, pc, x, e);
    } else if ReadStep(pc, x, e) {
      ReadSteps(cfg, pc, x, e);
    } else if WriteStep(mem, pc, x, e) {
      WriteSteps(cfg, mem, pc, x, e);
    } else if DiscStep(pc, x, e) {
      DiscSteps(cfg, pc, x, e);
    } else if RelStep(mem, pc, x, e) {
      RelSteps(cfg, mem, pc, x, e);
    } else {
      OpenSteps(cfg, pc, x, e);
    }
  }

  predicate IsCreator(pc: Pc) {
    pc.CreIdle? || pc.CreIndex? || pc.CreStore? || pc.CreCount? || pc.CreConnect? || pc.SetAddress?
    || (pc.SpawnRead? && pc.creator) || (pc.SpawnWrite? && pc.creator)
  }

  /** The two rights are only ever handed on, but for a successful swap, which finds no owner; a thread
      stays on its socket and in its role; and the writer changes no contents while it has a packet. */
  ghost predicate HandsOn(mem: map<MsgId, Codec.Packet>, pc: Pc, x: Sock, e: Effect) {
    && (Owns(e.pc) ==> Owns(pc) || x.status == Connected || x.status == Closing)
    && (!x.dial && Writes(e.pc) ==> Writes(pc))
    && (SockOf(e.pc) == SockOf(pc) || SockOf(e.pc) == None)
    && (IsCreator(e.pc) ==> IsCreator(pc))
    && (e.pc.WriteConn? || e.pc.WriteBusy? ==> MemAfter(mem, e.op) == mem)
    && (e.spawn.Some? ==> HandsOver(pc, x, e.pc, e.spawn.value))
  }

  ghost predicate HandsOver(pc: Pc, x: Sock, pc': Pc, child: Pc) {
    && (Owns(child) ==> Owns(pc) && !Owns(pc'))
    && (!x.dial && Writes(child) ==> Writes(pc) && !Writes(pc'))
    && SockOf(child) == SockOf(pc)
    && !IsCreator(child) && !child.WriteConn? && !child.WriteBusy?
  }

  lemma RightsSend(cfg: Config, mem: map<MsgId, Codec.Packet>, pc: Pc, x: Sock, e: Effect)
    requires SendStep(cfg, mem, pc, x, e)
    ensures HandsOn(mem, pc, x, e)
  {}

  lemma RightsRead(mem: map<MsgId, Codec.Packet>, pc: Pc, x: Sock, e: Effect)
    requires ReadStep(pc, x, e)
    ensures HandsOn(mem, pc, x, e)
  {}

  lemma RightsWrite(mem: map<MsgId, Codec.Packet>, pc: Pc, x: Sock, e: Effect)
    requires WriteStep(mem, pc, x, e)
    ensures HandsOn(mem, pc, x, e)
  {}

  lemma RightsDisc(mem: map<MsgId, Codec.Packet>, pc: Pc, x: Sock, e: Effect)
    requires Knows(pc, x) && DiscStep(pc, x, e)
    ensures HandsOn(mem, pc, x, e)
  {}

  lemma RightsRel(mem: map<MsgId, Codec.Packet>, pc: Pc, x: Sock, e: Effect)
    requires RelStep(mem, pc, x, e)
    ensures HandsOn(mem, pc, x, e)
  {}

  lemma RightsOpen(mem: map<MsgId, Codec.Packet>, pc: Pc, x: Sock, e: Effect)
    requires Knows(pc, x) && OpenStep(pc, x, e) && (x.client ==> x.dial)
    ensures HandsOn(mem, pc, x, e)
  {}

  lemma Rights(cfg: Config, mem: map<MsgId, Codec.Packet>, pc: Pc, x: Sock, e: Effect)
    requires SockInv(cfg, x) && Knows(pc, x) && ThreadStep(cfg, mem, pc, x, e)
    ensures HandsOn(mem, pc, x, e)
  {
    assert x.client ==> x.dial;
    hide SendStep, ReadStep, WriteStep, DiscStep, RelStep, OpenStep, SockInv, Knows, HandsOn;
    if SendStep(cfg, mem, pc, x, e) {
      RightsSend(cfg, mem, pc, x, e);
    } else if ReadStep(pc, x, e) {
      RightsRead(mem, pc, x, e);
    } else if WriteStep(mem, pc, x, e) {
      RightsWrite(mem, pc, x, e);
    } else if DiscStep(pc, x, e) {
      RightsDisc(mem, pc, x, e);
    } else if RelStep(mem, pc, x, e) {
      RightsRel(mem, pc, x, e);
    } else {
      RightsOpen(mem, pc, x, e);
    }
  }

  lemma WriterIsOne(mem: map<MsgId, Codec.Packet>, pc: Pc, x: Sock, e: Effect)
    requires WriteStep(mem, pc, x, e)
    ensures Writes(pc) && e.x.dial == x.dial
  {}

  /** Nothing is written, and what was taken off the queue is not forgotten. */
  ghost predicate SameWire(x: Sock, x': Sock) {
    && x'.dial == x.dial && x'.lasting == x.lasting
    && x'.log.inflight == x.log.inflight && x'.log.wire == x.log.wire
    && x'.log.failed == x.log.failed && x'.log.torn == x.log.torn
    && x.log.taken <= x'.log.taken
  }

  lemma NoInflightBySendRead(cfg: Config, mem: map<MsgId, Codec.Packet>, pc: Pc, x: Sock, e: Effect)
    requires SendStep(cfg, mem, pc, x, e) || ReadStep(pc, x, e)
    ensures SameWire(x, e.x)
  {}

  lemma NoInflightByDiscRel(mem: map<MsgId, Codec.Packet>, pc: Pc, x: Sock, e: Effect)
    requires DiscStep(pc, x, e) || RelStep(mem, pc, x, e)
    ensures SameWire(x, e.x)
  {}

  lemma NoInflightByOpen(pc: Pc, x: Sock, e: Effect)
    requires OpenStep(pc, x, e)
    ensures SameWire(x, e.x)
  {}

  lemma InflightByWriter(cfg: Config, mem: map<MsgId, Codec.Packet>, pc: Pc, x: Sock, e: Effect)
    requires ThreadStep(cfg, mem, pc, x, e)
    ensures e.x.dial == x.dial && (Writes(pc) || SameWire(x, e.x))
  {
    hide SendStep, ReadStep, WriteStep, DiscStep, RelStep, OpenStep, Writes;
    if WriteStep(mem, pc, x, e) {
      WriterIsOne(mem, pc, x, e);
    } else if SendStep(cfg, mem, pc, x, e) || ReadStep(pc, x, e) {
      NoInflightBySendRead(cfg, mem, pc, x, e);
    } else if OpenStep(pc, x, e) {
      NoInflightByOpen(pc, x, e);
    } else {
      NoInflightByDiscRel(mem, pc, x, e);
    }
  }

  lemma WriterWrites(cfg: Config, mem: map<MsgId, Codec.Packet>, pc: Pc, x: Sock, e: Effect)
    requires WireInOrder(x) && KnowsInflight(pc, x, mem) && WriteStep(mem, pc, x, e)
    ensures KnowsInflight(e.pc, e.x, mem)
  {}

  lemma WriterStarts(cfg: Config, mem: map<MsgId, Codec.Packet>, pc: Pc, x: Sock, e: Effect)
    requires Writes(pc) && KnowsInflight(pc, x, mem) && OpenStep(pc, x, e)
    ensures KnowsInflight(e.pc, e.x, mem) && (e.spawn.Some? ==> KnowsInflight(e.spawn.value, e.x, mem))
  {}

  /** The writer goes on knowing its packet; the thread that starts a writer hands over an empty hand. */
  lemma WriterKnows(cfg: Config, mem: map<MsgId, Codec.Packet>, pc: Pc, x: Sock, e: Effect)
    requires SockInv(cfg, x) && Knows(pc, x) && KnowsInflight(pc, x, mem) && ThreadStep(cfg, mem, pc, x, e)
    ensures KnowsInflight(e.pc, e.x, mem) && (e.spawn.Some? ==> KnowsInflight(e.spawn.value, e.x, mem))
  {
    Rights(cfg, mem, pc, x, e);
    InflightByWriter(cfg, mem, pc, x, e);
    hide SendStep, ReadStep, WriteStep, DiscStep, RelStep, OpenStep, SockInv, Knows;
    if Writes(pc) {
      WriterSteps(cfg, mem, pc, x, e);
      if WriteStep(mem, pc, x, e) {
        WriterWrites(cfg, mem, pc, x, e);
      } else {
        WriterStarts(cfg, mem, pc, x, e);
      }
    }
  }

  lemma WriterSteps(cfg: Config, mem: map<MsgId, Codec.Packet>, pc: Pc, x: Sock, e: Effect)
    requires Writes(pc) && ThreadStep(cfg, mem, pc, x, e)
    ensures (WriteStep(mem, pc, x, e) && e.spawn.None?) || OpenStep(pc, x, e)
  {}

  // ------------------------------------------------------ the other threads

  lemma SendOnCore(cfg: Config, mem: map<MsgId, Codec.Packet>, pc: Pc, x: Sock, e: Effect)
    requires SendStep(cfg, mem, pc, x, e)
    ensures SameCore(x, e.x)
  {}

  lemma OthersSend(cfg: Config, mem: map<MsgId, Codec.Packet>, pc: Pc, x: Sock, e: Effect, other: Pc)
    requires SendStep(cfg, mem, pc, x, e) && Knows(other, x)
    ensures Knows(other, e.x)
  {
    hide Knows;
    SendOnCore(cfg, mem, pc, x, e);
    hide SendStep, SameCore;
    CoreIsKnown(x, e.x, other);
  }

  lemma OthersWrite(mem: map<MsgId, Codec.Packet>, pc: Pc, x: Sock, e: Effect, other: Pc)
    requires WriteStep(mem, pc, x, e) && Knows(other, x)
    ensures Knows(other, e.x)
  {
    hide Knows;
    WriteOnCore(mem, pc, x, e);
    hide WriteStep, SameCore;
    CoreIsKnown(x, e.x, other);
  }

  lemma OthersDisc(cfg: Config, pc: Pc, x: Sock, e: Effect, other: Pc)
    requires SockInv(cfg, x) && Knows(pc, x) && DiscStep(pc, x, e) && Knows(other, x) && !(Owns(pc) && Owns(other))
    ensures Knows(other, e.x)
  {}

  lemma OthersRel(mem: map<MsgId, Codec.Packet>, pc: Pc, x: Sock, e: Effect, other: Pc)
    requires Knows(pc, x) && RelStep(mem, pc, x, e) && Knows(other, x) && !(Owns(pc) && Owns(other))
    ensures Knows(other, e.x)
  {}

  lemma OthersOpen(pc: Pc, x: Sock, e: Effect, other: Pc)
    requires Knows(pc, x) && OpenStep(pc, x, e) && Knows(other, x) && !(Owns(pc) && Owns(other))
    ensures Knows(other, e.x)
  {}

  /** No step of one thread takes away what another one knows. */
  lemma OthersKnow(cfg: Config, mem: map<MsgId, Codec.Packet>, pc: Pc, x: Sock, e: Effect, other: Pc)
    requires SockInv(cfg, x) && Knows(pc, x) && ThreadStep(cfg, mem, pc, x, e)
    requires Knows(other, x) && Compatible(pc, other, x.dial)
    ensures Knows(other, e.x)
  {
    hide SendStep, WriteStep, DiscStep, RelStep, OpenStep, SockInv, Knows, Owns, Writes;
    if SendStep(cfg, mem, pc, x, e) {
      OthersSend(cfg, mem, pc, x, e, other);
    } else if ReadStep(pc, x, e) {
      assert e.x == x;
    } else if WriteStep(mem, pc, x, e) {
      OthersWrite(mem, pc, x, e, other);
    } else if DiscStep(pc, x, e) {
      OthersDisc(cfg, pc, x, e, other);
    } else if RelStep(mem, pc, x, e) {
      OthersRel(mem, pc, x, e, other);
    } else {
      OthersOpen(pc, x, e, other);
    }
  }

  lemma OthersInflight(cfg: Config, mem: map<MsgId, Codec.Packet>, pc: Pc, x: Sock, e: Effect, other: Pc)
    requires ThreadStep(cfg, mem, pc, x, e) && KnowsInflight(other, x, mem) && Compatible(pc, other, x.dial)
    ensures KnowsInflight(other, e.x, mem)
  {
    hide ThreadStep;
    InflightByWriter(cfg, mem, pc, x, e);
  }

  /** A thread that is compatible with the actor is compatible with what the actor becomes and starts. */
  lemma StayCompatible(mem: map<MsgId, Codec.Packet>, pc: Pc, x: Sock, e: Effect, other: Pc)
    requires HandsOn(mem, pc, x, e) && Knows(other, x) && Compatible(pc, other, x.dial)
    ensures Compatible(e.pc, other, x.dial) && (e.spawn.Some? ==> Compatible(e.spawn.value, other, x.dial))
  {}

  /** Close, by any thread at any time. */
  lemma CloseWell(cfg: Config, x: Sock, other: Pc)
    requires SockInv(cfg, x) && x.status == Connected && Knows(other, x)
    ensures SockInv(cfg, x.(status := Closing)) && Knows(other, x.(status := Closing))
  {}
}
