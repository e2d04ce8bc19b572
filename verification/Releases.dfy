// The release of a socket: what it leaves, and what becomes of the messages that were on the queue.
module Releases {
  import Codec
  import opened Environment
  import opened Lifecycle
  import opened Protocol
  import opened SocketLaws
  import opened Ownership
  import opened SystemLaws
  import opened Paths
  import Delivery
  import Endings

  // --------------------------------------------------- the queue of a socket

  ghost predicate PutBack(steps: seq<Step>, l: nat, m: MsgId) {
    l < |steps| && steps[l].Run? && steps[l].e.op == Put(m)
  }

  /** A thread in the writer or in release holds the message. */
  predicate TakesOut(pc: Pc, k: SockId, m: MsgId) {
    (InWrite(pc) || InRelease(pc)) && pc.k == k && Held(pc) == Some(m)
  }

  /** The message is on the queue, or has been taken off it and is not yet put back. */
  ghost predicate Underway(s: State, k: SockId, m: MsgId) {
    k in s.socks && (m in s.socks[k].queue || exists u :: u in s.threads && TakesOut(s.threads[u], k, m))
  }

  /** A holder keeps the message until it puts it back; and who takes a message off a queue holds it. */
  ghost predicate KeepsOut(pc: Pc, x: Sock, e: Effect) {
    && (forall k, m :: TakesOut(pc, k, m) ==> TakesOut(e.pc, k, m) || e.op == Put(m))
    && (e.op.Dequeue? ==> SockOf(pc).Some? && TakesOut(e.pc, pc.k, e.op.m))
  }

  lemma WriteKeepsOut(mem: map<MsgId, Codec.Packet>, pc: Pc, x: Sock, e: Effect)
    requires WriteStep(mem, pc, x, e)
    ensures KeepsOut(pc, x, e)
  {}

  lemma OthersKeepOut(cfg: Config, mem: map<MsgId, Codec.Packet>, pc: Pc, x: Sock, e: Effect)
    requires SockOf(pc).Some?
    requires SendStep(cfg, mem, pc, x, e) || ReadStep(pc, x, e) || DiscStep(pc, x, e)
             || RelStep(mem, pc, x, e) || OpenStep(pc, x, e)
    ensures KeepsOut(pc, x, e)
  {
    if RelStep(mem, pc, x, e) {
      hide SendStep, ReadStep, DiscStep, OpenStep;
    } else {
      hide RelStep;
    }
  }

  lemma AllKeepOut(cfg: Config, mem: map<MsgId, Codec.Packet>, pc: Pc, x: Sock, e: Effect)
    requires ThreadStep(cfg, mem, pc, x, e) && SockOf(pc).Some?
    ensures KeepsOut(pc, x, e)
  {
    hide SendStep, ReadStep, WriteStep, DiscStep, RelStep, OpenStep, KeepsOut;
    if WriteStep(mem, pc, x, e) {
      WriteKeepsOut(mem, pc, x, e);
    } else {
      OthersKeepOut(cfg, mem, pc, x, e);
    }
  }

  lemma RunUnderway(cfg: Config, s: State, t: Tid, e: Effect, child: Tid, k: SockId, m: MsgId)
    requires Enabled(cfg, s, Run(t, e, child)) && Underway(s, k, m) && e.op != Put(m)
    ensures Underway(After(cfg, s, Run(t, e, child)), k, m)
  {
    var pc := s.threads[t];
    AllKeepOut(cfg, s.mem, pc, s.socks[pc.k], e);
    OpsFit(cfg, s.mem, pc, s.socks[pc.k], e);
    Delivery.OthersWhere(cfg, s, t, e, child);
    hide ThreadStep, MemAfter, PoolAfter, KeepsOut, OpFits, Underway;
    RanUnderway(s, After(cfg, s, Run(t, e, child)), t, e, k, m);
  }

  lemma RanUnderway(s: State, s': State, t: Tid, e: Effect, k: SockId, m: MsgId)
    requires t in s.threads && SockOf(s.threads[t]).Some? && s.threads[t].k in s.socks
    requires OpFits(s.threads[t], s.socks[s.threads[t].k], e) && KeepsOut(s.threads[t], s.socks[s.threads[t].k], e)
    requires s'.socks == s.socks[s.threads[t].k := e.x] && t in s'.threads && s'.threads[t] == e.pc
    requires forall u :: u in s.threads && u != t ==> u in s'.threads && s'.threads[u] == s.threads[u]
    requires Underway(s, k, m) && e.op != Put(m)
    ensures Underway(s', k, m)
  {
    var pc := s.threads[t];
    if m in s.socks[k].queue {
      if pc.k == k {
        StillQueued(pc, s.socks[k], e, m);
      }
      hide OpFits, TakesOut;
    } else {
      var u :| u in s.threads && TakesOut(s.threads[u], k, m);
      hide OpFits, TakesOut;
      assert u in s'.threads;
    }
  }

  lemma StillQueued(pc: Pc, x: Sock, e: Effect, m: MsgId)
    requires OpFits(pc, x, e) && m in x.queue
    ensures m in e.x.queue || e.op == Dequeue(m)
  {}

  lemma OtherUnderway(cfg: Config, s: State, step: Step, k: SockId, m: MsgId)
    requires Indexed(s) && Enabled(cfg, s, step) && !step.Run? && Underway(s, k, m)
    ensures Underway(After(cfg, s, step), k, m)
  {
    var s' := After(cfg, s, step);
    if m !in s.socks[k].queue {
      var u :| u in s.threads && TakesOut(s.threads[u], k, m);
      assert u in s'.threads && s'.threads[u] == s.threads[u];
    }
  }

  lemma {:induction false} UnderwayAlong(cfg: Config, states: seq<State>, steps: seq<Step>, i: nat, j: nat,
                                         k: SockId, m: MsgId)
    requires IsRun(cfg, states, steps) && i <= j < |states| && Underway(states[i], k, m)
    ensures Underway(states[j], k, m) || exists l :: i <= l < j && PutBack(steps, l, m)
    decreases j
  {
    hide Inv, Enabled, After, Underway;
    if i < j {
      UnderwayAlong(cfg, states, steps, i, j - 1, k, m);
      if Underway(states[j - 1], k, m) && !PutBack(steps, j - 1, m) {
        StepUnderway(cfg, states, steps, j - 1, k, m);
      }
    }
  }

  lemma StepUnderway(cfg: Config, states: seq<State>, steps: seq<Step>, j: nat, k: SockId, m: MsgId)
    requires IsRun(cfg, states, steps) && j < |steps| && Underway(states[j], k, m) && !PutBack(steps, j, m)
    ensures Underway(states[j + 1], k, m)
  {
    hide Underway, Enabled, After;
    Reachable(cfg, states, steps, j);
    assert Indexed(states[j]);
    hide Inv;
    if steps[j].Run? {
      RunUnderway(cfg, states[j], steps[j].t, steps[j].e, steps[j].child, k, m);
    } else {
      OtherUnderway(cfg, states[j], steps[j], k, m);
    }
  }

  lemma LastLook(cfg: Config, mem: map<MsgId, Codec.Packet>, pc: Pc, x: Sock, e: Effect)
    requires ThreadStep(cfg, mem, pc, x, e) && pc.RelDrain? && e.pc == Done
    ensures x.queue == [] && e.x == x
  {}

  ghost predicate WithWriter(s: State, k: SockId, m: MsgId) {
    exists u :: u in s.threads && InWrite(s.threads[u]) && s.threads[u].k == k && Held(s.threads[u]) == Some(m)
  }

  /** A release that ends leaves the queue empty, and every message that was on it when the release set the
      status has been put back into the pool in between, or is in the hand of the writer. */
  lemma QueueReturned(cfg: Config, states: seq<State>, steps: seq<Step>, i: nat, j: nat, t: Tid, k: SockId)
    requires IsRun(cfg, states, steps) && i < j < |steps|
    requires t in states[i].threads && states[i].threads[t] == RelStatus(k)
    requires t in states[j].threads && states[j].threads[t] == RelDrain(k)
    requires steps[j].Run? && steps[j].t == t && steps[j].e.pc == Done
    ensures k in states[i].socks && k in states[j + 1].socks && states[j + 1].socks[k].queue == []
    ensures forall m :: m in states[i].socks[k].queue ==>
              WithWriter(states[j + 1], k, m) || exists l :: i <= l < j && PutBack(steps, l, m)
  {
    Reachable(cfg, states, steps, i);
    Reachable(cfg, states, steps, j);
    var s := states[j];
    assert ThreadWell(cfg, states[i], t) && Enabled(cfg, s, steps[j]) && states[j + 1] == After(cfg, s, steps[j]);
    Emptied(cfg, s, t, steps[j].e, steps[j].child, k);
    hide Inv, IsRun, Enabled, After, Underway, WithWriter;
    forall m | m in states[i].socks[k].queue
      ensures WithWriter(states[j + 1], k, m) || exists l :: i <= l < j && PutBack(steps, l, m)
    {
      OnQueue(states[i], k, m);
      UnderwayAlong(cfg, states, steps, i, j, k, m);
    }
  }

  lemma OnQueue(s: State, k: SockId, m: MsgId)
    requires k in s.socks && m in s.socks[k].queue
    ensures Underway(s, k, m)
  {}

  /** The last step of a release: the queue is empty, and what was taken off it is with the writer. */
  lemma Emptied(cfg: Config, s: State, t: Tid, e: Effect, child: Tid, k: SockId)
    requires Inv(cfg, s) && Enabled(cfg, s, Run(t, e, child)) && s.threads[t] == RelDrain(k) && e.pc == Done
    ensures var s' := After(cfg, s, Run(t, e, child));
            && k in s'.socks && s'.socks[k].queue == [] && s'.socks[k] == s.socks[k]
            && forall m :: Underway(s, k, m) ==> WithWriter(s', k, m)
  {
    var s' := After(cfg, s, Run(t, e, child));
    LastLook(cfg, s.mem, s.threads[t], s.socks[k], e);
    hide ThreadStep, MemAfter, PoolAfter;
    forall m | Underway(s, k, m)
      ensures WithWriter(s', k, m)
    {
      var u :| u in s.threads && TakesOut(s.threads[u], k, m);
      OneRelease(cfg, s, t, u, k, m);
      assert s'.threads[u] == s.threads[u];
    }
    hide Inv;
  }

  lemma OneRelease(cfg: Config, s: State, t: Tid, u: Tid, k: SockId, m: MsgId)
    requires Inv(cfg, s) && t in s.threads && s.threads[t] == RelDrain(k)
    requires u in s.threads && TakesOut(s.threads[u], k, m)
    ensures u != t && InWrite(s.threads[u])
  {
    assert PairWell(s, t, u) && ThreadWell(cfg, s, t);
  }

  // ------------------------------------------------------- blank messages

  ghost predicate PoolBlank(s: State) {
    forall m :: m in s.pool ==> m in s.mem && s.mem[m] == BLANK_PACKET
  }

  lemma OpKeepsBlank(s: State, t: Tid, k: SockId, op: MsgOp)
    requires Exclusive(s) && PoolBlank(s) && OpEnabled(s, op)
    requires op.Fill? ==> Copies(s, AtThread(t), op.m) > 0
    ensures forall m :: m in PoolAfter(s.pool, op) ==>
                m in MemAfter(s.mem, op) && MemAfter(s.mem, op)[m] == BLANK_PACKET
  {
    if op.Fill? {
      assert Copies(s, InPool, op.m) == 0;
      assert s.pool[op.m] == 0;
    }
    hide Copies;
  }

  lemma StepPoolBlank(cfg: Config, s: State, step: Step)
    requires Inv(cfg, s) && PoolBlank(s) && Enabled(cfg, s, step)
    ensures PoolBlank(After(cfg, s, step))
  {
    if step.Run? {
      var pc := s.threads[step.t];
      OpsFit(cfg, s.mem, pc, s.socks[pc.k], step.e);
      HandHasIt(s, step.t, pc.k, step.e);
      hide ThreadStep, OpFits, MemAfter, PoolAfter, Copies;
      OpKeepsBlank(s, step.t, pc.k, step.e.op);
    }
    hide Inv, ThreadStep;
  }

  lemma {:induction false} PoolBlankAlong(cfg: Config, states: seq<State>, steps: seq<Step>, i: nat)
    requires IsRun(cfg, states, steps) && i < |states|
    ensures PoolBlank(states[i])
  {
    if i > 0 {
      hide Inv, Enabled, After, PoolBlank;
      PoolBlankAlong(cfg, states, steps, i - 1);
      Reachable(cfg, states, steps, i - 1);
      StepPoolBlank(cfg, states[i - 1], steps[i - 1]);
    }
  }

  /** Whatever a message was used for before, who takes one from the pool gets it blank, as a new one is. */
  lemma TakenBlank(cfg: Config, states: seq<State>, steps: seq<Step>, i: nat, m: MsgId)
    requires IsRun(cfg, states, steps) && i < |steps| && steps[i].Run?
    requires steps[i].e.op == Get(m) || steps[i].e.op == Make(m)
    ensures m in states[i + 1].mem && states[i + 1].mem[m] == BLANK_PACKET
  {
    PoolBlankAlong(cfg, states, steps, i);
    hide ThreadStep, PoolAfter;
  }

  // --------------------------------------------------- release as a path

  /** The status is set and the socket counted down. */
  lemma ReleaseStarts(cfg: Config, s0: State, s: State, k: SockId, t: Tid, x: Sock) returns (s': State, x': Sock)
    requires CanReach(cfg, s0, s) && At(s, t, RelStatus(k), x)
    ensures CanReach(cfg, s0, s') && At(s', t, RelDelete(k), x') && Beside(s, s', t)
    ensures x'.queue == x.queue && x'.status == Released
  {
    hide CanReach, At, OpenStep, DiscStep;
    x' := x.(status := Released, releases := x.releases + 1);
    var s1 := GoRun(cfg, s0, s, t, RelStatus(k), x, Move(RelCount(k), x'), 0);
    s' := GoRun(cfg, s0, s1, t, RelCount(k), x', Effect(RelDelete(k), x', Keep, -1, None), 0);
  }

  /** release after a disconnect, up to its first look at the queue. */
  lemma ReleaseRuns(cfg: Config, s0: State, s: State, k: SockId, t: Tid, x: Sock) returns (s': State, x': Sock)
    requires CanReach(cfg, s0, s) && At(s, t, DiscType(k), x) && !x.client
    ensures CanReach(cfg, s0, s') && At(s', t, RelDrain(k), x') && Beside(s, s', t)
    ensures x'.queue == x.queue && x'.status == Released
  {
    hide CanReach, At, OpenStep;
    var x1 := x.(status := Disconnected);
    var s1 := GoRun(cfg, s0, s, t, DiscType(k), x, Move(RelStatus(k), x1), 0);
    var s2, x2 := ReleaseStarts(cfg, s0, s1, k, t, x1);
    s', x' := Deletes(cfg, s0, s2, k, t, x2);
  }


  lemma Takes(cfg: Config, s0: State, s: State, k: SockId, t: Tid) returns (s': State)
    requires Inv(cfg, s) && CanReach(cfg, s0, s) && t in s.threads && s.threads[t] == RelDrain(k)
    requires k in s.socks && s.socks[k].queue != []
    ensures CanReach(cfg, s0, s') && s'.threads == s.threads[t := RelDrain(k)] && s'.mem.Keys == s.mem.Keys
    ensures s'.pool == s.pool + multiset{s.socks[k].queue[0]} && k in s'.socks
    ensures s'.socks[k].queue == s.socks[k].queue[1..] && s'.socks[k].status == s.socks[k].status
  {
    assert Copies(s, InQueue(k), s.socks[k].queue[0]) > 0;
    assert s.socks[k].queue[0] in s.mem;
    hide Inv, CanReach, Copies;
    var s1 := TakesOff(cfg, s0, s, k, t);
    s' := PutsBack(cfg, s0, s1, k, t, s.socks[k].queue[0]);
  }

  lemma TakesOff(cfg: Config, s0: State, s: State, k: SockId, t: Tid) returns (s': State)
    requires CanReach(cfg, s0, s) && t in s.threads && s.threads[t] == RelDrain(k)
    requires k in s.socks && s.socks[k].queue != [] && s.socks[k].queue[0] in s.mem
    ensures CanReach(cfg, s0, s') && s'.threads == s.threads[t := RelPut(k, s.socks[k].queue[0])]
    ensures s'.mem == s.mem && s'.pool == s.pool && k in s'.socks
    ensures s'.socks[k].queue == s.socks[k].queue[1..] && s'.socks[k].status == s.socks[k].status
  {
    var x := s.socks[k];
    var m := x.queue[0];
    var x' := x.(queue := x.queue[1..], log := x.log.(taken := x.log.taken + [s.mem[m]]));
    var e := Effect(RelPut(k, m), x', Dequeue(m), 0, None);
    assert RelStep(s.mem, RelDrain(k), x, e);
    hide CanReach, RelStep;
    Go(cfg, s0, s, Run(t, e, 0));
    s' := After(cfg, s, Run(t, e, 0));
  }

  lemma PutsBack(cfg: Config, s0: State, s: State, k: SockId, t: Tid, m: MsgId) returns (s': State)
    requires CanReach(cfg, s0, s) && t in s.threads && s.threads[t] == RelPut(k, m) && k in s.socks && m in s.mem
    ensures CanReach(cfg, s0, s') && s'.threads == s.threads[t := RelDrain(k)] && s'.mem.Keys == s.mem.Keys
    ensures s'.pool == s.pool + multiset{m} && s'.socks == s.socks
  {
    var e := Effect(RelDrain(k), s.socks[k], Put(m), 0, None);
    assert RelStep(s.mem, RelPut(k, m), s.socks[k], e);
    hide CanReach, RelStep;
    Go(cfg, s0, s, Run(t, e, 0));
    s' := After(cfg, s, Run(t, e, 0));
  }

  lemma Ends(cfg: Config, s0: State, s: State, k: SockId, t: Tid) returns (s': State)
    requires CanReach(cfg, s0, s) && t in s.threads && s.threads[t] == RelDrain(k)
    requires k in s.socks && s.socks[k].queue == []
    ensures CanReach(cfg, s0, s') && s' == s.(threads := s.threads[t := Done])
  {
    var end := Move(Done, s.socks[k]);
    assert RelStep(s.mem, RelDrain(k), s.socks[k], end);
    hide CanReach, RelStep;
    Go(cfg, s0, s, Run(t, end, 0));
    s' := After(cfg, s, Run(t, end, 0));
    assert s'.socks == s.socks;
  }

  /** From its first look on, release can run to its end; then all that was queued is back in the pool. */
  lemma {:induction false} Drains(cfg: Config, s: State, k: SockId, t: Tid) returns (s': State)
    requires Inv(cfg, s) && t in s.threads && s.threads[t] == RelDrain(k) && k in s.socks
    ensures CanReach(cfg, s, s') && s'.threads == s.threads[t := Done] && s'.mem.Keys == s.mem.Keys
    ensures s'.pool == s.pool + multiset(s.socks[k].queue)
    ensures k in s'.socks && s'.socks[k].queue == [] && s'.socks[k].status == s.socks[k].status
    decreases |s.socks[k].queue|
  {
    Stay(cfg, s);
    hide Inv, CanReach;
    var q := s.socks[k].queue;
    if q == [] {
      s' := Ends(cfg, s, s, k, t);
    } else {
      var s1 := Takes(cfg, s, s, k, t);
      InvKept(cfg, s, s1);
      s' := Drains(cfg, s1, k, t);
      ReachOn(cfg, s, s1, s');
      assert q == [q[0]] + q[1..];
    }
  }

  /** The whole of a timeout on an accepted socket: disconnect and release. */
  lemma TimedOutAndReleased(cfg: Config, s: State, k: SockId, u: Tid) returns (s': State)
    requires Inv(cfg, s) && Endings.CanTimeOut(s, k, u) && !s.socks[k].client
    ensures CanReach(cfg, s, s') && k in s'.socks && s'.socks[k].status == Released && s'.socks[k].queue == []
    ensures s'.mem.Keys == s.mem.Keys && forall t :: t in s.threads ==> t in s'.threads && s'.threads[t] == s.threads[t]
  {
    Stay(cfg, s);
    hide Inv, CanReach, At;
    var s1, x1 := Endings.TimedOut(cfg, s, s, k, u);
    var s2, x2 := ReleaseRuns(cfg, s, s1, k, u, x1);
    s' := DrainsAfter(cfg, s, s2, k, u, x2);
  }

  lemma DrainsAfter(cfg: Config, s0: State, s: State, k: SockId, t: Tid, x: Sock) returns (s': State)
    requires Inv(cfg, s0) && CanReach(cfg, s0, s) && At(s, t, RelDrain(k), x)
    ensures CanReach(cfg, s0, s') && s'.threads == s.threads[t := Done] && s'.mem.Keys == s.mem.Keys
    ensures k in s'.socks && s'.socks[k].queue == [] && s'.socks[k].status == x.status
  {
    hide Inv, CanReach;
    InvKept(cfg, s0, s);
    s' := Drains(cfg, s, k, t);
    ReachOn(cfg, s0, s, s');
  }

  /** A client whose redial fails is released like any other: from every state in which it is connected or
      closing there is such a run. */
  lemma ClientGivesUp(cfg: Config, s: State, k: SockId) returns (s': State)
    requires Inv(cfg, s) && k in s.socks && s.socks[k].client
    requires s.socks[k].status == Connected || s.socks[k].status == Closing
    ensures CanReach(cfg, s, s') && k in s'.socks && s'.socks[k].status == Released && s'.socks[k].queue == []
  {
    Stay(cfg, s);
    hide Inv, CanReach, At;
    var u := Above(s.threads.Keys);
    var s1, x1 := Endings.TimedOut(cfg, s, s, k, u);
    var child := Above(s1.threads.Keys);
    var s2, x2 := RedialFails(cfg, s, s1, k, u, child, x1);
    var s3, x3 := ReleaseStarts(cfg, s, s2, k, child, x2);
    var s4, x4 := Deletes(cfg, s, s3, k, child, x3);
    s' := DrainsAfter(cfg, s, s4, k, child, x4);
  }

  lemma RedialFails(cfg: Config, s0: State, s: State, k: SockId, t: Tid, child: Tid, x: Sock)
    returns (s': State, x': Sock)
    requires CanReach(cfg, s0, s) && At(s, t, DiscType(k), x) && x.client && child !in s.threads && child != t
    ensures CanReach(cfg, s0, s') && At(s', child, RelStatus(k), x')
  {
    hide CanReach;
    x' := x.(status := Reconnecting);
    var s1 := GoRun(cfg, s0, s, t, DiscType(k), x, Effect(Done, x', Keep, 0, Some(Redial(k))), child);
    s' := GoRun(cfg, s0, s1, child, Redial(k), x', Move(RelStatus(k), x'), 0);
  }

  lemma Deletes(cfg: Config, s0: State, s: State, k: SockId, t: Tid, x: Sock) returns (s': State, x': Sock)
    requires CanReach(cfg, s0, s) && At(s, t, RelDelete(k), x)
    ensures CanReach(cfg, s0, s') && At(s', t, RelDrain(k), x') && Beside(s, s', t)
    ensures x'.queue == x.queue && x'.status == x.status
  {
    hide CanReach, At, OpenStep, DiscStep;
    x' := x.(registered := false);
    s' := GoRun(cfg, s0, s, t, RelDelete(k), x, Move(RelDrain(k), x'), 0);
  }
}
