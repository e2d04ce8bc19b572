// Sends from their start to their end: which threads can be kept waiting, and why a message was accepted
// or given back.
module Sends {
  import Codec
  import opened Environment
  import opened Lifecycle
  import opened Protocol
  import opened SocketLaws
  import Ownership
  import opened SystemLaws
  import opened Paths
  import Delivery

  // --------------------------------------------------------- who can wait

  /** A sender in safe mode whose queue is full and whose stop channel is open. */
  predicate Waits(cfg: Config, s: State, t: Tid) {
    t in s.threads
    && var pc := s.threads[t];
       pc.SendSelect? && pc.safe && pc.k in s.socks
       && |s.socks[pc.k].queue| >= cfg.writeChan && pc.g !in s.socks[pc.k].closings
  }

  /** The thread has a step. */
  ghost predicate CanMove(cfg: Config, s: State, t: Tid) {
    (exists e, child :: Enabled(cfg, s, Run(t, e, child)))
    || Enabled(cfg, s, Check(t)) || Enabled(cfg, s, Allot(t, false, false))
  }

  lemma SendMoves(cfg: Config, mem: map<MsgId, Codec.Packet>, pc: Pc, x: Sock, spare: MsgId) returns (e: Effect)
    requires InSend(pc) && (Held(pc).Some? ==> Held(pc).value in mem)
    requires pc.SendSelect? ==> !pc.safe || |x.queue| < cfg.writeChan || pc.g in x.closings
    ensures SendStep(cfg, mem, pc, x, e) && (e.op.Get? || e.op.Make? ==> e.op == Make(spare)) && e.spawn.None?
  {
    match pc {
      case SendStart(k, safe) => e := Effect(SendMarshal(k, safe, spare), x, Make(spare), 0, None);
      case SendMarshal(k, safe, m) => e := Effect(SendReady(k, safe, m), x, Fill(m, BLANK_PACKET), 0, None);
      case SendReady(k, safe, m) =>
        e := Move(if x.status == Connected then SendStop(k, safe, m) else SendFail(k, m), x);
      case SendStop(k, safe, m) => e := Move(SendSelect(k, safe, m, x.stop), x);
      case SendSelect(k, safe, m, g) =>
        if |x.queue| < cfg.writeChan {
          var log := x.log.(accepted := x.log.accepted + [mem[m]]);
          e := Effect(Done, x.(queue := x.queue + [m], log := log), Enqueue(m), 0, None);
        } else {
          e := Move(SendFail(k, m), x);
        }
      case SendFail(k, m) => e := Effect(Done, x, Put(m), 0, None);
    }
  }

  lemma ReadMoves(pc: Pc, x: Sock) returns (e: Effect)
    requires InRead(pc)
    ensures ReadStep(pc, x, e) && OpEnabledAlways(e.op) && e.spawn.None?
  {
    match pc {
      case ReadTop(k) => e := Move(DiscLoad(k), x);
      case ReadConn(k, m) =>
        e := if x.conn == 0 then Effect(DiscLoad(k), x, Lose(m), 0, None) else Move(ReadBusy(k, m, x.conn), x);
      case ReadBusy(k, m, g) => e := Effect(ReadPut(k, m, true), x, Keep, 0, None);
      case ReadPut(k, m, again) => e := Effect(if again then ReadTop(k) else DiscLoad(k), x, Put(m), 0, None);
    }
  }

  predicate OpEnabledAlways(op: MsgOp) {
    !op.Get? && !op.Make?
  }

  lemma WriteMoves(mem: map<MsgId, Codec.Packet>, pc: Pc, x: Sock) returns (e: Effect)
    requires InWrite(pc) && (Held(pc).Some? ==> Held(pc).value in mem)
    ensures WriteStep(mem, pc, x, e) && OpEnabledAlways(e.op) && e.spawn.None?
  {
    match pc {
      case WriteTop(k) => e := Move(WriteSelect(k, x.stop), x);
      case WriteSelect(k, g) => e := Move(DiscLoad(k), x);
      case WriteConn(k, m) =>
        e := if x.conn == 0 then Move(WritePut(k, m), x.(log := x.log.(inflight := [])))
             else Move(WriteBusy(k, m, x.conn), x);
      case WriteBusy(k, m, g) =>
        var torn := if x.log.failed || x.lasting then x.log.torn else Some(Torn(mem[m], 0));
        var log := if g == x.live || x.lasting then x.log.(failed := true, torn := torn) else x.log;
        e := Move(WritePut(k, m), x.(log := log.(inflight := [])));
      case WritePut(k, m) => e := Effect(WriteTop(k), x, Put(m), 0, None);
    }
  }

  lemma CloseMoves(pc: Pc, x: Sock) returns (e: Effect)
    requires InDisconnect(pc)
    ensures DiscStep(pc, x, e) && OpEnabledAlways(e.op)
  {
    match pc {
      case DiscLoad(k) => e := Move(if IsValid(x.status) then DiscSwap(k, x.status) else Done, x);
      case DiscSwap(k, seen) =>
        e := if x.status == seen then Move(DiscStop(k), x.(status := Disconnect)) else Move(Done, x);
      case DiscStop(k) =>
        e := Move(if x.stop == 0 || x.stop in x.closings then Done else DiscClose(k),
                  x.(closings := x.closings + [x.stop]));
      case DiscClose(k) => e := Move(DiscNil(k), if x.conn == 0 then x else x.(live := 0));
      case DiscNil(k) => e := Move(DiscEmit(k), x.(conn := 0));
      case DiscEmit(k) => e := Move(DiscType(k), x.(events := x.events + [Down]));
      case DiscType(k) =>
        e := if x.client then Effect(Done, x.(status := Reconnecting), Keep, 0, Some(Redial(k)))
             else Move(RelStatus(k), x.(status := Disconnected));
    }
  }

  lemma ReleaseMoves(mem: map<MsgId, Codec.Packet>, pc: Pc, x: Sock) returns (e: Effect)
    requires InRelease(pc) && (x.queue != [] ==> x.queue[0] in mem)
    ensures RelStep(mem, pc, x, e) && OpEnabledAlways(e.op) && e.spawn.None?
  {
    match pc {
      case RelStatus(k) => e := Move(RelCount(k), x.(status := Released, releases := x.releases + 1));
      case RelCount(k) => e := Effect(RelDelete(k), x, Keep, -1, None);
      case RelDelete(k) => e := Move(RelDrain(k), x.(registered := false));
      case RelDrain(k) =>
        if x.queue == [] {
          e := Move(Done, x);
        } else {
          var m := x.queue[0];
          var log := x.log.(taken := x.log.taken + [mem[m]]);
          e := Effect(RelPut(k, m), x.(queue := x.queue[1..], log := log), Dequeue(m), 0, None);
        }
      case RelPut(k, m) => e := Effect(RelDrain(k), x, Put(m), 0, None);
    }
  }

  lemma OpenMoves(pc: Pc, x: Sock) returns (e: Effect)
    requires SockOf(pc).Some? && !InSend(pc) && !InRead(pc) && !InWrite(pc) && !InDisconnect(pc) && !InRelease(pc)
    ensures OpenStep(pc, x, e) && OpEnabledAlways(e.op)
  {
    match pc {
      case Redial(k) => e := Move(RelStatus(k), x);
      case CreStore(k) => e := Move(CreCount(k), x.(registered := true));
      case CreCount(k) => e := Effect(CreConnect(k), x, Keep, 1, None);
      case CreConnect(k) => e := Move(SpawnRead(k, true), Connect(x));
      case SpawnRead(k, creator) => e := Effect(SpawnWrite(k, creator), x, Keep, 0, Some(ReadTop(k)));
      case SpawnWrite(k, creator) =>
        var next := if creator then (if x.dial then SetAddress(k) else CreIdle) else Done;
        e := Effect(next, x, Keep, 0, Some(WriteTop(k)));
      case SetAddress(k) => e := Move(CreIdle, x.(client := true));
    }
  }

  /** A step of a thread that is on a socket, and not one of the senders that wait. */
  lemma Moves(cfg: Config, mem: map<MsgId, Codec.Packet>, pc: Pc, x: Sock, spare: MsgId) returns (e: Effect)
    requires SockOf(pc).Some? && (Held(pc).Some? ==> Held(pc).value in mem) && (x.queue != [] ==> x.queue[0] in mem)
    requires pc.SendSelect? ==> !pc.safe || |x.queue| < cfg.writeChan || pc.g in x.closings
    ensures ThreadStep(cfg, mem, pc, x, e) && (OpEnabledAlways(e.op) || e.op == Make(spare))
  {
    hide SendStep, ReadStep, WriteStep, DiscStep, RelStep, OpenStep;
    if InSend(pc) {
      e := SendMoves(cfg, mem, pc, x, spare);
    } else if InRead(pc) {
      e := ReadMoves(pc, x);
    } else if InWrite(pc) {
      e := WriteMoves(mem, pc, x);
    } else if InDisconnect(pc) {
      e := CloseMoves(pc, x);
    } else if InRelease(pc) {
      e := ReleaseMoves(mem, pc, x);
    } else {
      e := OpenMoves(pc, x);
    }
  }

  lemma InMemory(cfg: Config, s: State, t: Tid)
    requires Inv(cfg, s) && t in s.threads
    ensures Held(s.threads[t]).Some? ==> Held(s.threads[t]).value in s.mem
    ensures SockOf(s.threads[t]).Some? ==>
              var k := s.threads[t].k;
              k in s.socks && (s.socks[k].queue != [] ==> s.socks[k].queue[0] in s.mem)
  {
    if m :| Held(s.threads[t]) == Some(m) {
      assert Ownership.Copies(s, Ownership.AtThread(t), m) > 0;
    }
    if SockOf(s.threads[t]).Some? {
      assert ThreadWell(cfg, s, t);
      var k := s.threads[t].k;
      if s.socks[k].queue != [] {
        assert Ownership.Copies(s, Ownership.InQueue(k), s.socks[k].queue[0]) > 0;
      }
    }
  }

  lemma Stuck(cfg: Config, mem: map<MsgId, Codec.Packet>, pc: Pc, x: Sock, e: Effect)
    requires pc.SendSelect? && pc.safe && |x.queue| >= cfg.writeChan && pc.g !in x.closings
    ensures !ThreadStep(cfg, mem, pc, x, e)
  {}

  /** In every state that satisfies the invariant, so in every reachable one, each thread that is not at its
      end has a step, but for a sender in safe mode whose queue is full and whose stop channel is open. */
  lemma NoneBlocked(cfg: Config, s: State, t: Tid)
    requires Inv(cfg, s) && t in s.threads
    ensures CanMove(cfg, s, t) <==> s.threads[t] != Done && !Waits(cfg, s, t)
  {
    var pc := s.threads[t];
    InMemory(cfg, s, t);
    hide Inv, ThreadStep;
    if Waits(cfg, s, t) {
      forall e, child
        ensures !Enabled(cfg, s, Run(t, e, child))
      {
        Stuck(cfg, s.mem, pc, s.socks[pc.k], e);
      }
    } else if SockOf(pc).Some? {
      var spare := Above(s.mem.Keys);
      var child := Above(s.threads.Keys);
      var e := Moves(cfg, s.mem, pc, s.socks[pc.k], spare);
      assert Enabled(cfg, s, Run(t, e, child));
    }
  }

  // ------------------------------------------------- what became of a send

  ghost predicate By(steps: seq<Step>, j: nat, t: Tid) {
    j < |steps| && steps[j].Run? && steps[j].t == t
  }

  /** Before step i the thread has marshalled into its message what is in it. */
  ghost predicate HasFilled(states: seq<State>, steps: seq<Step>, i: nat, t: Tid, m: MsgId)
    requires i < |states|
  {
    m in states[i].mem && exists a :: 0 <= a < i && By(steps, a, t) && steps[a].e.op == Fill(m, states[i].mem[m])
  }

  ghost predicate Passes(s: State, t: Tid, k: SockId) {
    t in s.threads && s.threads[t].SendReady? && s.threads[t].k == k && k in s.socks && s.socks[k].status == Connected
  }

  /** It has found the socket connected. */
  ghost predicate HasPassed(states: seq<State>, steps: seq<Step>, i: nat, t: Tid, k: SockId)
    requires i < |states|
  {
    exists b :: 0 <= b < i && By(steps, b, t) && Passes(states[b], t, k)
  }

  ghost predicate Looks(s: State, t: Tid, k: SockId, g: nat) {
    t in s.threads && s.threads[t].SendStop? && s.threads[t].k == k && k in s.socks && s.socks[k].stop == g
  }

  /** And then the stop channel g was the socket's. */
  ghost predicate HasLooked(states: seq<State>, steps: seq<Step>, i: nat, t: Tid, k: SockId, g: nat)
    requires i < |states|
  {
    exists c :: 0 <= c < i && By(steps, c, t) && Looks(states[c], t, k, g)
  }

  /** Why a send can fail: the encoder or the transform fails; the socket is not connected; or, later, its
      stop channel is closed, or its queue is full and the mode is not the safe one. */
  predicate Refuses(cfg: Config, pc: Pc, x: Sock) {
    || pc.SendMarshal?
    || (pc.SendReady? && x.status != Connected)
    || (pc.SendSelect? && (pc.g in x.closings || (!pc.safe && |x.queue| >= cfg.writeChan)))
  }

  ghost predicate HasFailed(cfg: Config, states: seq<State>, steps: seq<Step>, i: nat, t: Tid, k: SockId)
    requires i < |states|
  {
    exists j :: 0 <= j < i && By(steps, j, t) && FailsAt(cfg, states, steps, j, t, k)
  }

  ghost predicate FailsAt(cfg: Config, states: seq<State>, steps: seq<Step>, j: nat, t: Tid, k: SockId)
    requires j < |states|
  {
    t in states[j].threads && k in states[j].socks
    && var pc := states[j].threads[t];
       && SockOf(pc) == Some(k) && Refuses(cfg, pc, states[j].socks[k])
       && (pc.SendSelect? ==> HasPassed(states, steps, j, t, k) && HasLooked(states, steps, j, t, k, pc.g))
  }

  /** What the place of a sender tells of its past. */
  ghost predicate Past(cfg: Config, states: seq<State>, steps: seq<Step>, i: nat, t: Tid)
    requires i < |states|
  {
    t in states[i].threads ==>
      match states[i].threads[t]
      case SendReady(k, _, m) => HasFilled(states, steps, i, t, m)
      case SendStop(k, _, m) => HasFilled(states, steps, i, t, m) && HasPassed(states, steps, i, t, k)
      case SendSelect(k, _, m, g) =>
        HasFilled(states, steps, i, t, m) && HasPassed(states, steps, i, t, k) && HasLooked(states, steps, i, t, k, g)
      case SendFail(k, _) => HasFailed(cfg, states, steps, i, t, k)
      case _ => true
  }

  /** How a sender comes to each of its places. */
  ghost predicate Advances(cfg: Config, pc: Pc, x: Sock, e: Effect) {
    match e.pc
    case SendReady(k, safe, m) => pc == SendMarshal(k, safe, m) && e.op.Fill? && e.op.m == m
    case SendStop(k, safe, m) => pc == SendReady(k, safe, m) && x.status == Connected && e.op.Keep?
    case SendSelect(k, safe, m, g) => pc == SendStop(k, safe, m) && g == x.stop && e.op.Keep?
    case SendFail(k, _) => SockOf(pc) == Some(k) && Refuses(cfg, pc, x)
    case _ => true
  }

  lemma SendAdvances(cfg: Config, mem: map<MsgId, Codec.Packet>, pc: Pc, x: Sock, e: Effect)
    requires SendStep(cfg, mem, pc, x, e)
    ensures Advances(cfg, pc, x, e)
  {}

  lemma OthersAdvance(cfg: Config, mem: map<MsgId, Codec.Packet>, pc: Pc, x: Sock, e: Effect)
    requires ReadStep(pc, x, e) || WriteStep(mem, pc, x, e) || DiscStep(pc, x, e)
             || RelStep(mem, pc, x, e) || OpenStep(pc, x, e)
    ensures !InSend(e.pc) && (e.spawn.Some? ==> !InSend(e.spawn.value))
  {
    if ReadStep(pc, x, e) || WriteStep(mem, pc, x, e) {
      hide DiscStep, RelStep, OpenStep;
    } else {
      hide ReadStep, WriteStep;
    }
  }

  lemma ThreadAdvances(cfg: Config, mem: map<MsgId, Codec.Packet>, pc: Pc, x: Sock, e: Effect)
    requires ThreadStep(cfg, mem, pc, x, e)
    ensures Advances(cfg, pc, x, e) && (e.spawn.Some? ==> !InSend(e.spawn.value))
  {
    hide SendStep, ReadStep, WriteStep, DiscStep, RelStep, OpenStep, Refuses;
    if SendStep(cfg, mem, pc, x, e) {
      SendAdvances(cfg, mem, pc, x, e);
      SendsAlone(cfg, mem, pc, x, e);
    } else {
      OthersAdvance(cfg, mem, pc, x, e);
    }
  }

  lemma SendsAlone(cfg: Config, mem: map<MsgId, Codec.Packet>, pc: Pc, x: Sock, e: Effect)
    requires SendStep(cfg, mem, pc, x, e)
    ensures e.spawn.None?
  {}

  lemma OwnPast(cfg: Config, states: seq<State>, steps: seq<Step>, i: nat, t: Tid)
    requires IsRun(cfg, states, steps) && i < |steps| && By(steps, i, t) && Past(cfg, states, steps, i, t)
    ensures Past(cfg, states, steps, i + 1, t)
  {
    var s, e := states[i], steps[i].e;
    assert Enabled(cfg, s, steps[i]) && states[i + 1] == After(cfg, s, steps[i]);
    ThreadAdvances(cfg, s.mem, s.threads[t], s.socks[s.threads[t].k], e);
    hide ThreadStep, Advances, Refuses, IsRun, PoolAfter, Past;
    Advanced(cfg, states, steps, i, t);
  }

  /** The step of a sender is the next thing that its place tells. */
  lemma Advanced(cfg: Config, states: seq<State>, steps: seq<Step>, i: nat, t: Tid)
    requires i + 1 < |states| && By(steps, i, t) && Past(cfg, states, steps, i, t)
    requires t in states[i].threads && SockOf(states[i].threads[t]).Some?
    requires var s, s', e := states[i], states[i + 1], steps[i].e;
             var pc := s.threads[t];
             && pc.k in s.socks && Advances(cfg, pc, s.socks[pc.k], e)
             && t in s'.threads && s'.threads[t] == e.pc
             && (e.op.Keep? ==> s'.mem == s.mem) && (e.op.Fill? ==> s'.mem == s.mem[e.op.m := e.op.p])
    ensures Past(cfg, states, steps, i + 1, t)
  {
    var s, e := states[i], steps[i].e;
    var pc := s.threads[t];
    hide Refuses;
    if e.pc.SendStop? {
      assert Passes(s, t, pc.k);
    } else if e.pc.SendSelect? {
      assert Looks(s, t, pc.k, e.pc.g);
    } else if e.pc.SendFail? {
      assert FailsAt(cfg, states, steps, i, t, pc.k);
    }
  }

  /** The contents of a message in a thread's hand stay through the steps of the others. */
  lemma HandStays(cfg: Config, s: State, step: Step, t: Tid, m: MsgId)
    requires Inv(cfg, s) && Enabled(cfg, s, step) && !(step.Run? && step.t == t)
    requires t in s.threads && Held(s.threads[t]) == Some(m) && m in s.mem
    ensures var s' := After(cfg, s, step); m in s'.mem && s'.mem[m] == s.mem[m]
  {
    if step.Run? {
      assert Ownership.Copies(s, Ownership.AtThread(t), m) > 0;
      Ownership.ContentsStay(cfg, s, step.t, step.e, step.child, Ownership.AtThread(t), m);
    }
    hide ThreadStep, MemAfter, Inv, Held;
  }

  /** Another thread's step leaves a thread where it is; and a thread that starts has yet to fill a message. */
  lemma OthersPlace(cfg: Config, s: State, step: Step, t: Tid)
    requires Enabled(cfg, s, step) && !(step.Run? && step.t == t) && t in After(cfg, s, step).threads
    ensures var pc := After(cfg, s, step).threads[t];
            (t in s.threads && s.threads[t] == pc) || !InSend(pc) || pc.SendStart?
  {
    if step.Run? {
      ThreadAdvances(cfg, s.mem, s.threads[step.t], s.socks[s.threads[step.t].k], step.e);
    }
    hide ThreadStep, MemAfter, PoolAfter;
  }

  lemma OtherPast(cfg: Config, states: seq<State>, steps: seq<Step>, i: nat, t: Tid)
    requires IsRun(cfg, states, steps) && i < |steps| && !By(steps, i, t) && Past(cfg, states, steps, i, t)
    requires Inv(cfg, states[i])
    ensures Past(cfg, states, steps, i + 1, t)
  {
    var s, s' := states[i], states[i + 1];
    assert Enabled(cfg, s, steps[i]) && s' == After(cfg, s, steps[i]);
    hide IsRun, Inv, Enabled, After, Passes, Looks, FailsAt;
    if t in s'.threads && InSend(s'.threads[t]) && !s'.threads[t].SendStart? {
      OthersPlace(cfg, s, steps[i], t);
      var pc := s.threads[t];
      if Held(pc).Some? && Held(pc).value in s.mem {
        HandStays(cfg, s, steps[i], t, Held(pc).value);
      }
    }
  }

  lemma {:induction false} PastAlong(cfg: Config, states: seq<State>, steps: seq<Step>, i: nat, t: Tid)
    requires IsRun(cfg, states, steps) && i < |states|
    ensures Past(cfg, states, steps, i, t)
  {
    Delivery.RunStarts(cfg, states, steps);
    hide *;
    if i == 0 {
      PastStart(cfg, states, steps, t);
    } else {
      PastAlong(cfg, states, steps, i - 1, t);
      NextPast(cfg, states, steps, i - 1, t);
    }
  }

  lemma NextPast(cfg: Config, states: seq<State>, steps: seq<Step>, i: nat, t: Tid)
    requires IsRun(cfg, states, steps) && i < |steps| && Past(cfg, states, steps, i, t)
    ensures Past(cfg, states, steps, i + 1, t)
  {
    Delivery.RunStarts(cfg, states, steps);
    hide *;
    Reachable(cfg, states, steps, i);
    if By(steps, i, t) {
      OwnPast(cfg, states, steps, i, t);
    } else {
      OtherPast(cfg, states, steps, i, t);
    }
  }

  lemma PastStart(cfg: Config, states: seq<State>, steps: seq<Step>, t: Tid)
    requires |states| > 0 && states[0] == Init(cfg)
    ensures Past(cfg, states, steps, 0, t)
  {}

  /** A message is only ever accepted while there is room, by a sender that found the socket connected
      before; and what is accepted is what that sender marshalled. */
  lemma WhyAccepted(cfg: Config, states: seq<State>, steps: seq<Step>, i: nat, m: MsgId)
    requires IsRun(cfg, states, steps) && i < |steps| && steps[i].Run? && steps[i].e.op == Enqueue(m)
    ensures var s, t := states[i], steps[i].t;
            var k := s.threads[t].k;
            && |s.socks[k].queue| < cfg.writeChan && m in s.mem
            && states[i + 1].socks[k].log.accepted == s.socks[k].log.accepted + [s.mem[m]]
            && HasFilled(states, steps, i, t, m) && HasPassed(states, steps, i, t, k)
  {
    PastAlong(cfg, states, steps, i, steps[i].t);
    var s, t := states[i], steps[i].t;
    Enqueued(cfg, s.mem, s.threads[t], s.socks[s.threads[t].k], steps[i].e);
    hide ThreadStep, PoolAfter;
  }

  lemma Enqueued(cfg: Config, mem: map<MsgId, Codec.Packet>, pc: Pc, x: Sock, e: Effect)
    requires ThreadStep(cfg, mem, pc, x, e) && e.op.Enqueue?
    ensures pc.SendSelect? && e.op.m == pc.m && |x.queue| < cfg.writeChan && pc.m in mem
    ensures e.x.log.accepted == x.log.accepted + [mem[pc.m]]
  {
    hide ReadStep, WriteStep, DiscStep, RelStep, OpenStep;
    if !SendStep(cfg, mem, pc, x, e) {
      OthersEnqueueNone(cfg, mem, pc, x, e);
    }
  }

  lemma OthersEnqueueNone(cfg: Config, mem: map<MsgId, Codec.Packet>, pc: Pc, x: Sock, e: Effect)
    requires ReadStep(pc, x, e) || WriteStep(mem, pc, x, e) || DiscStep(pc, x, e)
             || RelStep(mem, pc, x, e) || OpenStep(pc, x, e)
    ensures !e.op.Enqueue?
  {
    if ReadStep(pc, x, e) || WriteStep(mem, pc, x, e) {
      hide DiscStep, RelStep, OpenStep;
    } else {
      hide ReadStep, WriteStep;
    }
  }

  /** A sender gives its message back to the pool only after it has been refused: its encoder failed, or the
      socket was not connected; and once it has found the socket connected, only after the stop channel
      that it then read was closed, or, in the mode that does not wait, because the queue was full. */
  lemma WhyReturned(cfg: Config, states: seq<State>, steps: seq<Step>, i: nat, m: MsgId)
    requires IsRun(cfg, states, steps) && i < |steps| && steps[i].Run? && steps[i].e.op == Put(m)
    requires InSend(states[i].threads[steps[i].t])
    ensures HasFailed(cfg, states, steps, i, steps[i].t, states[i].threads[steps[i].t].k)
  {
    PastAlong(cfg, states, steps, i, steps[i].t);
    var s, t := states[i], steps[i].t;
    Returned(cfg, s.mem, s.threads[t], s.socks[s.threads[t].k], steps[i].e);
    hide ThreadStep, PoolAfter;
  }

  lemma Returned(cfg: Config, mem: map<MsgId, Codec.Packet>, pc: Pc, x: Sock, e: Effect)
    requires ThreadStep(cfg, mem, pc, x, e) && e.op.Put? && InSend(pc)
    ensures pc.SendFail?
  {}

  // ------------------------------------------------------ a send as a path

  lemma GoSend(cfg: Config, s0: State, s: State, t: Tid, pc: Pc, x: Sock, e: Effect) returns (s': State)
    requires CanReach(cfg, s0, s) && At(s, t, pc, x) && SendStep(cfg, s.mem, pc, x, e)
    requires OpEnabled(s, e.op) && e.spawn.None?
    ensures CanReach(cfg, s0, s') && s'.mem == MemAfter(s.mem, e.op) && s'.pool == PoolAfter(s.pool, e.op)
    ensures s'.socks == s.socks[pc.k := e.x] && s'.threads == s.threads[t := e.pc]
  {
    assert ThreadStep(cfg, s.mem, pc, x, e) by {
      hide SendStep, ReadStep, WriteStep, DiscStep, RelStep, OpenStep;
    }
    hide ThreadStep, SendStep, CanReach;
    Go(cfg, s0, s, Run(t, e, 0));
    s' := After(cfg, s, Run(t, e, 0));
  }

  /** The steps of a send that do not depend on the queue. */
  lemma SendPlaces(cfg: Config, mem: map<MsgId, Codec.Packet>, k: SockId, safe: bool, m: MsgId, x: Sock,
                   p: Codec.Packet)
    ensures SendStep(cfg, mem, SendStart(k, safe), x, Effect(SendMarshal(k, safe, m), x, Make(m), 0, None))
    ensures SendStep(cfg, mem, SendMarshal(k, safe, m), x, Effect(SendReady(k, safe, m), x, Fill(m, p), 0, None))
    ensures SendStep(cfg, mem, SendMarshal(k, safe, m), x, Effect(SendFail(k, m), x, Fill(m, p), 0, None))
    ensures x.status == Connected ==>
              SendStep(cfg, mem, SendReady(k, safe, m), x, Move(SendStop(k, safe, m), x))
    ensures SendStep(cfg, mem, SendStop(k, safe, m), x, Move(SendSelect(k, safe, m, x.stop), x))
    ensures SendStep(cfg, mem, SendFail(k, m), x, Effect(Done, x, Put(m), 0, None))
  {}

  /** A sender starts, and takes a new message. */
  lemma Starts(cfg: Config, s: State, k: SockId, safe: bool) returns (s': State, t: Tid, m: MsgId)
    requires k in s.socks
    ensures CanReach(cfg, s, s') && At(s', t, SendMarshal(k, safe, m), s.socks[k])
    ensures s'.socks == s.socks && s'.pool == s.pool && m !in s.mem && s'.mem == s.mem[m := BLANK_PACKET]
  {
    t := Above(s.threads.Keys);
    m := Above(s.mem.Keys);
    var x := s.socks[k];
    SendPlaces(cfg, s.mem, k, safe, m, x, BLANK_PACKET);
    hide SendStep;
    Stay(cfg, s);
    Go(cfg, s, s, Begin(t, SendStart(k, safe)));
    var s1 := After(cfg, s, Begin(t, SendStart(k, safe)));
    hide CanReach, Enabled;
    s' := GoSend(cfg, s, s1, t, SendStart(k, safe), x, Effect(SendMarshal(k, safe, m), x, Make(m), 0, None));
    assert s.socks[k := x] == s.socks;
  }

  /** It marshals a packet into it, finds the socket connected, and looks at the stop channel. */
  lemma GetsThrough(cfg: Config, s: State, k: SockId, safe: bool, p: Codec.Packet) returns (s': State, t: Tid, m: MsgId)
    requires k in s.socks && s.socks[k].status == Connected
    ensures CanReach(cfg, s, s') && At(s', t, SendSelect(k, safe, m, s.socks[k].stop), s.socks[k])
    ensures s'.socks == s.socks && m in s'.mem && s'.mem[m] == p
  {
    var s1;
    s1, t, m := Starts(cfg, s, k, safe);
    var x := s.socks[k];
    forall mem
      ensures SendStep(cfg, mem, SendMarshal(k, safe, m), x, Effect(SendReady(k, safe, m), x, Fill(m, p), 0, None))
      ensures SendStep(cfg, mem, SendReady(k, safe, m), x, Move(SendStop(k, safe, m), x))
      ensures SendStep(cfg, mem, SendStop(k, safe, m), x, Move(SendSelect(k, safe, m, x.stop), x))
    {
      SendPlaces(cfg, mem, k, safe, m, x, p);
    }
    hide CanReach, SendStep;
    var s2 := GoSend(cfg, s, s1, t, SendMarshal(k, safe, m), x, Effect(SendReady(k, safe, m), x, Fill(m, p), 0, None));
    var s3 := GoSend(cfg, s, s2, t, SendReady(k, safe, m), x, Move(SendStop(k, safe, m), x));
    s' := GoSend(cfg, s, s3, t, SendStop(k, safe, m), x, Move(SendSelect(k, safe, m, x.stop), x));
    assert s.socks[k := x] == s.socks;
  }

  /** Wherever a socket is connected and its queue has room, any packet can be sent, in either mode. */
  lemma CanSend(cfg: Config, s: State, k: SockId, safe: bool, p: Codec.Packet) returns (s': State)
    requires k in s.socks && s.socks[k].status == Connected && |s.socks[k].queue| < cfg.writeChan
    ensures CanReach(cfg, s, s') && k in s'.socks && s'.socks[k].status == Connected
    ensures |s'.socks[k].queue| == |s.socks[k].queue| + 1
    ensures s'.socks[k].log == s.socks[k].log.(accepted := s.socks[k].log.accepted + [p])
  {
    var x := s.socks[k];
    var s1, t, m := GetsThrough(cfg, s, k, safe, p);
    var x' := x.(queue := x.queue + [m], log := x.log.(accepted := x.log.accepted + [p]));
    var e := Effect(Done, x', Enqueue(m), 0, None);
    assert SendStep(cfg, s1.mem, SendSelect(k, safe, m, x.stop), x, e);
    hide CanReach, SendStep;
    s' := GoSend(cfg, s, s1, t, SendSelect(k, safe, m, x.stop), x, e);
  }

  /** And a send to any socket can fail, by its encoder; then its message is in the pool and nothing is accepted. */
  lemma CanRefuse(cfg: Config, s: State, k: SockId, safe: bool) returns (s': State, m: MsgId)
    requires k in s.socks
    ensures CanReach(cfg, s, s') && s'.socks == s.socks && s'.pool == s.pool + multiset{m} && m !in s.mem
  {
    var s1, t;
    s1, t, m := Starts(cfg, s, k, safe);
    var x := s.socks[k];
    var failed := Effect(SendFail(k, m), x, Fill(m, BLANK_PACKET), 0, None);
    SendPlaces(cfg, s1.mem, k, safe, m, x, BLANK_PACKET);
    SendPlaces(cfg, MemAfter(s1.mem, failed.op), k, safe, m, x, BLANK_PACKET);
    hide CanReach, SendStep;
    var s2 := GoSend(cfg, s, s1, t, SendMarshal(k, safe, m), x, failed);
    s' := GoSend(cfg, s, s2, t, SendFail(k, m), x, Effect(Done, x, Put(m), 0, None));
    assert s.socks[k := x] == s.socks;
  }
}
