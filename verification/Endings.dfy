// How a socket ends: disconnecting it as a path, and whether a closed socket can be connected again.
module Endings {
  import Environment
  import opened Lifecycle
  import opened Protocol
  import opened SocketLaws
  import opened SystemLaws
  import opened Paths
  import Codec

  // --------------------------------------------------- disconnect as a path

  /** The parts of a socket that disconnect leaves alone. */
  predicate Kept(x: Sock, x': Sock) {
    && x'.dial == x.dial && x'.lasting == x.lasting && x'.client == x.client && x'.opens == x.opens
    && x'.queue == x.queue && x'.log.accepted == x.log.accepted
    && x'.log.inflight == x.log.inflight && x'.log.wire == x.log.wire && x'.log.failed == x.log.failed
  }

  /** The status is swapped. */
  lemma Swapped(cfg: Config, s0: State, s: State, k: SockId, t: Tid, x: Sock) returns (s': State, x': Sock)
    requires CanReach(cfg, s0, s) && At(s, t, DiscLoad(k), x) && IsValid(x.status)
    ensures CanReach(cfg, s0, s') && At(s', t, DiscStop(k), x') && Beside(s, s', t)
    ensures x' == x.(status := Disconnect)
  {
    hide CanReach, At, OpenStep, RelStep;
    var s1 := GoRun(cfg, s0, s, t, DiscLoad(k), x, Move(DiscSwap(k, x.status), x), 0);
    x' := x.(status := Disconnect);
    s' := GoRun(cfg, s0, s1, t, DiscSwap(k, x.status), x, Move(DiscStop(k), x'), 0);
  }

  /** The stop channel and the connection are closed. */
  lemma CutOff(cfg: Config, s0: State, s: State, k: SockId, t: Tid, x: Sock) returns (s': State, x': Sock)
    requires CanReach(cfg, s0, s) && At(s, t, DiscStop(k), x) && x.stop != 0 && x.stop !in x.closings && x.conn != 0
    ensures CanReach(cfg, s0, s') && At(s', t, DiscNil(k), x') && Beside(s, s', t)
    ensures Kept(x, x') && x'.live == 0
  {
    hide CanReach, At, OpenStep, RelStep;
    var x1 := x.(closings := x.closings + [x.stop]);
    var s1 := GoRun(cfg, s0, s, t, DiscStop(k), x, Move(DiscClose(k), x1), 0);
    x' := x1.(live := 0);
    s' := GoRun(cfg, s0, s1, t, DiscClose(k), x1, Move(DiscNil(k), x'), 0);
  }

  /** The connection field is cleared and the event emitted. */
  lemma Emitted(cfg: Config, s0: State, s: State, k: SockId, t: Tid, x: Sock) returns (s': State, x': Sock)
    requires CanReach(cfg, s0, s) && At(s, t, DiscNil(k), x)
    ensures CanReach(cfg, s0, s') && At(s', t, DiscType(k), x') && Beside(s, s', t)
    ensures Kept(x, x') && x'.live == x.live && x'.conn == 0
  {
    hide CanReach, At, OpenStep, RelStep;
    var x1 := x.(conn := 0);
    var s1 := GoRun(cfg, s0, s, t, DiscNil(k), x, Move(DiscEmit(k), x1), 0);
    x' := x1.(events := x1.events + [Down]);
    s' := GoRun(cfg, s0, s1, t, DiscEmit(k), x1, Move(DiscType(k), x'), 0);
  }

  lemma Disconnects(cfg: Config, s0: State, s: State, k: SockId, t: Tid, x: Sock) returns (s': State, x': Sock)
    requires CanReach(cfg, s0, s) && At(s, t, DiscLoad(k), x) && IsValid(x.status)
    requires x.stop != 0 && x.stop !in x.closings && x.conn != 0
    ensures CanReach(cfg, s0, s') && At(s', t, DiscType(k), x') && Beside(s, s', t)
    ensures Kept(x, x') && x'.live == x'.conn == 0
  {
    hide CanReach, At;
    var s1, x1 := Swapped(cfg, s0, s, k, t, x);
    var s2, x2 := CutOff(cfg, s0, s1, k, t, x1);
    s', x' := Emitted(cfg, s0, s2, k, t, x2);
  }

  ghost predicate CanTimeOut(s: State, k: SockId, u: Tid) {
    k in s.socks && u !in s.threads && (s.socks[k].status == Connected || s.socks[k].status == Closing)
  }

  /** The heartbeat starts to disconnect the socket. */
  lemma TimeoutStarts(cfg: Config, s0: State, s: State, k: SockId, u: Tid) returns (s': State)
    requires Inv(cfg, s) && CanReach(cfg, s0, s) && CanTimeOut(s, k, u)
    ensures CanReach(cfg, s0, s') && At(s', u, DiscLoad(k), s.socks[k]) && s' == s.(threads := s'.threads)
    ensures s'.threads == s.threads[u := DiscLoad(k)]
    ensures var x := s.socks[k]; x.stop != 0 && x.stop !in x.closings && x.conn != 0
  {
    assert SockInv(cfg, s.socks[k]);
    hide CanReach, Inv, SockInv;
    Go(cfg, s0, s, Begin(u, DiscLoad(k)));
    s' := After(cfg, s, Begin(u, DiscLoad(k)));
  }

  lemma Timely(status: Status)
    requires status == Connected || status == Closing
    ensures IsValid(status)
  {}

  /** From any reachable state with a connected or closing socket, the heartbeat can disconnect it. */
  lemma TimedOut(cfg: Config, s0: State, s: State, k: SockId, u: Tid) returns (s': State, x': Sock)
    requires Inv(cfg, s) && CanReach(cfg, s0, s) && CanTimeOut(s, k, u)
    ensures CanReach(cfg, s0, s') && At(s', u, DiscType(k), x') && s'.mem == s.mem
    ensures s'.threads.Keys == s.threads.Keys + {u} && forall t :: t in s.threads ==> s'.threads[t] == s.threads[t]
    ensures Kept(s.socks[k], x') && x'.live == x'.conn == 0
  {
    hide CanReach, Inv;
    var s1 := TimeoutStarts(cfg, s0, s, k, u);
    hide At, SockInv, DiscStep, IsValid;
    assert IsValid(s.socks[k].status) by {
      Timely(s.socks[k].status);
    }
    s', x' := Disconnects(cfg, s0, s1, k, u, s.socks[k]);
  }

  // -------------------------------------------------------- coming back

  lemma Redialled(cfg: Config, s0: State, s: State, k: SockId, t: Tid, child: Tid, x: Sock) returns (s': State)
    requires CanReach(cfg, s0, s) && At(s, t, DiscType(k), x) && x.client && child !in s.threads && child != t
    ensures CanReach(cfg, s0, s') && k in s'.socks && s'.socks[k].status == Connected
  {
    hide CanReach;
    var x1 := x.(status := Reconnecting);
    var s1 := GoRun(cfg, s0, s, t, DiscType(k), x, Effect(Done, x1, Keep, 0, Environment.Some(Redial(k))), child);
    s' := GoRun(cfg, s0, s1, child, Redial(k), x1, Move(SpawnRead(k, false), Connect(x1)), 0);
  }

  lemma ClientReturns(cfg: Config, s0: State, s: State, k: SockId, u: Tid) returns (s': State)
    requires Inv(cfg, s) && CanReach(cfg, s0, s) && CanTimeOut(s, k, u) && s.socks[k].client
    ensures CanReach(cfg, s0, s') && k in s'.socks && s'.socks[k].status == Connected
  {
    hide CanReach, Inv;
    var s1, x1 := TimedOut(cfg, s0, s, k, u);
    var child := Above(s1.threads.Keys);
    s' := Redialled(cfg, s0, s1, k, u, child, x1);
  }

  /** Close does not stop a client from coming back: from every reachable state in which a client
      socket is closing, the heartbeat can time it out and the redial can connect it again. */
  lemma ClosedClientReturns(cfg: Config, s: State, k: SockId) returns (s': State)
    requires CanReach(cfg, Init(cfg), s) && k in s.socks && s.socks[k].client && s.socks[k].status == Closing
    ensures CanReach(cfg, s, s') && k in s'.socks && s'.socks[k].status == Connected
  {
    InvReached(cfg, s);
    Stay(cfg, s);
    hide Inv, CanReach;
    var u := Above(s.threads.Keys);
    s' := ClientReturns(cfg, s, s, k, u);
  }

  /** The caller of Connect, from the moment it has made the socket until it has set its address. */
  predicate Addresses(pc: Pc, k: SockId) {
    (pc.CreStore? || pc.CreCount? || pc.CreConnect? || pc.SetAddress?
     || (pc.SpawnRead? && pc.creator) || (pc.SpawnWrite? && pc.creator))
    && pc.k == k
  }

  /** A dialled socket without an address is still in the hands of the thread that will set it. */
  ghost predicate OnItsWay(s: State, k: SockId) {
    k in s.socks && s.socks[k].dial && !s.socks[k].client ==>
      exists t :: t in s.threads && Addresses(s.threads[t], k)
  }

  /** A step keeps the kind of socket, does not unset the address, and keeps its thread on the way or sets it. */
  ghost predicate StaysOnWay(pc: Pc, x: Sock, e: Effect, k: SockId) {
    && e.x.dial == x.dial && (x.client ==> e.x.client)
    && (Addresses(pc, k) ==> Addresses(e.pc, k) || (x.dial ==> e.x.client))
  }

  lemma WayOpen(pc: Pc, x: Sock, e: Effect, k: SockId)
    requires OpenStep(pc, x, e)
    ensures StaysOnWay(pc, x, e, k)
  {}

  lemma WaySendRead(cfg: Config, mem: map<MsgId, Codec.Packet>, pc: Pc, x: Sock, e: Effect, k: SockId)
    requires SendStep(cfg, mem, pc, x, e) || ReadStep(pc, x, e)
    ensures StaysOnWay(pc, x, e, k)
  {}

  lemma WayWrite(mem: map<MsgId, Codec.Packet>, pc: Pc, x: Sock, e: Effect, k: SockId)
    requires WriteStep(mem, pc, x, e)
    ensures StaysOnWay(pc, x, e, k)
  {}

  lemma WayDiscRel(mem: map<MsgId, Codec.Packet>, pc: Pc, x: Sock, e: Effect, k: SockId)
    requires DiscStep(pc, x, e) || RelStep(mem, pc, x, e)
    ensures StaysOnWay(pc, x, e, k)
  {}

  lemma ThreadOnWay(cfg: Config, mem: map<MsgId, Codec.Packet>, pc: Pc, x: Sock, e: Effect, k: SockId)
    requires ThreadStep(cfg, mem, pc, x, e)
    ensures StaysOnWay(pc, x, e, k)
  {
    hide SendStep, ReadStep, WriteStep, DiscStep, RelStep, OpenStep, StaysOnWay;
    if OpenStep(pc, x, e) {
      WayOpen(pc, x, e, k);
    } else if SendStep(cfg, mem, pc, x, e) || ReadStep(pc, x, e) {
      WaySendRead(cfg, mem, pc, x, e, k);
    } else if WriteStep(mem, pc, x, e) {
      WayWrite(mem, pc, x, e, k);
    } else {
      WayDiscRel(mem, pc, x, e, k);
    }
  }

  lemma RunOnWay(cfg: Config, s: State, t: Tid, e: Effect, child: Tid, k: SockId)
    requires OnItsWay(s, k) && Enabled(cfg, s, Run(t, e, child))
    ensures OnItsWay(After(cfg, s, Run(t, e, child)), k)
  {
    var s' := After(cfg, s, Run(t, e, child));
    var pc := s.threads[t];
    ThreadOnWay(cfg, s.mem, pc, s.socks[pc.k], e, k);
    hide ThreadStep, MemAfter, PoolAfter, Addresses;
    if k in s'.socks && s'.socks[k].dial && !s'.socks[k].client {
      var u :| u in s.threads && Addresses(s.threads[u], k);
      assert u in s'.threads && s'.threads[u] == if u == t then e.pc else s.threads[u];
    }
  }

  lemma OtherOnWay(cfg: Config, s: State, step: Step, k: SockId)
    requires OnItsWay(s, k) && Enabled(cfg, s, step) && !step.Run?
    ensures OnItsWay(After(cfg, s, step), k)
  {
    var s' := After(cfg, s, step);
    if step.Allot? && k == s.index + 1 {
      assert s'.threads[step.t] == CreStore(k);
    } else if k in s'.socks && s'.socks[k].dial && !s'.socks[k].client {
      assert k in s.socks && s.socks[k].dial && !s.socks[k].client;
      var u :| u in s.threads && Addresses(s.threads[u], k);
      AddresserStays(cfg, s, step, k, u);
    }
    hide Enabled, After, Addresses;
  }

  lemma AddresserStays(cfg: Config, s: State, step: Step, k: SockId, u: Tid)
    requires Enabled(cfg, s, step) && !step.Run? && u in s.threads && Addresses(s.threads[u], k)
    ensures u in After(cfg, s, step).threads && After(cfg, s, step).threads[u] == s.threads[u]
  {}

  lemma {:induction false} WayAlong(cfg: Config, states: seq<State>, steps: seq<Step>, i: nat, k: SockId)
    requires IsPath(cfg, states, steps) && i < |states| && OnItsWay(states[0], k)
    ensures OnItsWay(states[i], k)
  {
    hide Enabled, After, OnItsWay;
    if i > 0 {
      WayAlong(cfg, states, steps, i - 1, k);
      if steps[i - 1].Run? {
        RunOnWay(cfg, states[i - 1], steps[i - 1].t, steps[i - 1].e, steps[i - 1].child, k);
      } else {
        OtherOnWay(cfg, states[i - 1], steps[i - 1], k);
      }
    }
  }

  /** The caller of Connect goes on to set the address, while the socket is closing. */
  lemma AddressSet(cfg: Config, s: State, k: SockId, t: Tid) returns (s': State)
    requires Inv(cfg, s) && k in s.socks && s.socks[k].dial && s.socks[k].status == Closing
    requires t in s.threads && Addresses(s.threads[t], k)
    ensures CanReach(cfg, s, s') && k in s'.socks && s'.socks[k] == s.socks[k].(client := true)
  {
    StillToSet(cfg, s, k, t);
    Stay(cfg, s);
    hide Inv, CanReach, OpenStep;
    var s1 := s;
    if s.threads[t] == SpawnRead(k, true) {
      s1 := StartWorkers(cfg, s, s, t, k);
    } else if s.threads[t] == SpawnWrite(k, true) {
      s1 := StartWriter(cfg, s, s, t, k);
    }
    s' := SetsAddress(cfg, s, s1, t, k);
  }

  /** By then it has connected the socket. */
  lemma StillToSet(cfg: Config, s: State, k: SockId, t: Tid)
    requires Inv(cfg, s) && k in s.socks && s.socks[k].status == Closing
    requires t in s.threads && Addresses(s.threads[t], k)
    ensures var pc := s.threads[t]; pc == SpawnRead(k, true) || pc == SpawnWrite(k, true) || pc == SetAddress(k)
  {
    assert ThreadWell(cfg, s, t);
  }

  lemma SetsAddress(cfg: Config, s0: State, s: State, t: Tid, k: SockId) returns (s': State)
    requires CanReach(cfg, s0, s) && t in s.threads && s.threads[t] == SetAddress(k) && k in s.socks
    ensures CanReach(cfg, s0, s') && s'.socks == s.socks[k := s.socks[k].(client := true)]
  {
    hide CanReach;
    s' := GoOpen(cfg, s0, s, t, Move(CreIdle, s.socks[k].(client := true)), 0);
  }

  lemma {:induction false} ForwardAlong(cfg: Config, states: seq<State>, steps: seq<Step>, i: nat, k: SockId)
    requires IsPath(cfg, states, steps) && i < |states| && Inv(cfg, states[0])
    requires k in states[0].socks && !states[0].socks[k].dial
    ensures k in states[i].socks && !states[i].socks[k].dial
    ensures SystemLaws.Stage(states[0].socks[k].status) <= SystemLaws.Stage(states[i].socks[k].status)
  {
    hide Inv, Enabled, After;
    if i > 0 {
      ForwardAlong(cfg, states, steps, i - 1, k);
      InvAlong(cfg, states, steps, i - 1);
      StatusFollowsGraph(cfg, states[i - 1], steps[i - 1], k);
      NotReconnecting(cfg, states[i - 1], k);
    }
  }

  lemma AcceptedStays(cfg: Config, s: State, s': State, k: SockId)
    requires CanReach(cfg, Init(cfg), s) && CanReach(cfg, s, s')
    requires k in s.socks && !s.socks[k].dial && SystemLaws.Stage(s.socks[k].status) >= 2
    ensures k in s'.socks && s'.socks[k].status != Connected
  {
    InvReached(cfg, s);
    hide Inv, Enabled, After;
    var states, steps :| IsPath(cfg, states, steps) && states[0] == s && states[|steps|] == s';
    ForwardAlong(cfg, states, steps, |steps|, k);
  }

  lemma ReachedOnWay(cfg: Config, s: State, k: SockId)
    requires CanReach(cfg, Init(cfg), s)
    ensures OnItsWay(s, k)
  {
    assert OnItsWay(Init(cfg), k);
    hide Enabled, After, OnItsWay, Init;
    var states, steps :| IsPath(cfg, states, steps) && states[0] == Init(cfg) && states[|steps|] == s;
    WayAlong(cfg, states, steps, |steps|, k);
  }

  lemma DialledReturns(cfg: Config, s: State, k: SockId) returns (s': State)
    requires CanReach(cfg, Init(cfg), s) && k in s.socks && s.socks[k].status == Closing && s.socks[k].dial
    ensures CanReach(cfg, s, s') && k in s'.socks && s'.socks[k].status == Connected
  {
    if s.socks[k].client {
      s' := ClosedClientReturns(cfg, s, k);
    } else {
      InvReached(cfg, s);
      ReachedOnWay(cfg, s, k);
      hide Inv, CanReach;
      var t :| t in s.threads && Addresses(s.threads[t], k);
      var s1 := AddressSet(cfg, s, k, t);
      InvKept(cfg, s, s1);
      var u := Above(s1.threads.Keys);
      s' := ClientReturns(cfg, s, s1, k, u);
    }
  }

  /** A socket on which Close has been called can be connected again exactly when it was dialled. */
  lemma ComesBack(cfg: Config, s: State, k: SockId)
    requires CanReach(cfg, Init(cfg), s) && k in s.socks && s.socks[k].status == Closing
    ensures (exists s' :: CanReach(cfg, s, s') && k in s'.socks && s'.socks[k].status == Connected)
            <==> s.socks[k].dial
  {
    hide CanReach;
    if s.socks[k].dial {
      var s' := DialledReturns(cfg, s, k);
    } else {
      forall s' | CanReach(cfg, s, s')
        ensures k in s'.socks && s'.socks[k].status != Connected
      {
        AcceptedStays(cfg, s, s', k);
      }
    }
  }
}
