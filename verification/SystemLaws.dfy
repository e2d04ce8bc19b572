// What every socket satisfies and every thread knows, in all interleavings.
module SystemLaws {
  import opened Environment
  import Codec
  import opened Lifecycle
  import opened Protocol
  import opened SocketLaws
  import opened Ownership

  ghost predicate SocksWell(cfg: Config, s: State) {
    forall k :: k in s.socks ==> SockInv(cfg, s.socks[k])
  }

  ghost predicate ThreadWell(cfg: Config, s: State, t: Tid) {
    t in s.threads ==>
      var pc := s.threads[t];
      && (IsCreator(pc) ==> t in cfg.creators)
      && (SockOf(pc).Some? ==> pc.k in s.socks && Knows(pc, s.socks[pc.k]) && KnowsInflight(pc, s.socks[pc.k], s.mem))
  }

  ghost predicate PairWell(s: State, t1: Tid, t2: Tid) {
    t1 in s.threads && t2 in s.threads && t1 != t2 ==>
      var pc1, pc2 := s.threads[t1], s.threads[t2];
      SockOf(pc1).Some? && SockOf(pc1) == SockOf(pc2) && pc1.k in s.socks ==> Compatible(pc1, pc2, s.socks[pc1.k].dial)
  }

  ghost predicate Orderly(cfg: Config, s: State) {
    && Indexed(s)
    && SocksWell(cfg, s)
    && (forall t :: ThreadWell(cfg, s, t))
    && (forall t1, t2 :: PairWell(s, t1, t2))
  }

  ghost predicate Inv(cfg: Config, s: State) {
    Exclusive(s) && Orderly(cfg, s)
  }

  // ------------------------------------------------- a thread on its socket

  /** The actor and its socket satisfy what the local laws ask for. */
  ghost predicate Ready(cfg: Config, s: State, t: Tid, k: SockId, e: Effect) {
    && t in s.threads && SockOf(s.threads[t]) == Some(k) && k in s.socks
    && SockInv(cfg, s.socks[k]) && Knows(s.threads[t], s.socks[k])
    && KnowsInflight(s.threads[t], s.socks[k], s.mem)
    && ThreadStep(cfg, s.mem, s.threads[t], s.socks[k], e)
  }

  lemma IsReady(cfg: Config, s: State, t: Tid, e: Effect, child: Tid)
    requires Inv(cfg, s) && Enabled(cfg, s, Run(t, e, child))
    ensures Ready(cfg, s, t, s.threads[t].k, e)
  {
    assert ThreadWell(cfg, s, t);
  }

  /** The thread itself and the one it starts, over the contents that the step leaves. */
  lemma ActorWell(cfg: Config, s: State, t: Tid, e: Effect, child: Tid)
    requires Inv(cfg, s) && Enabled(cfg, s, Run(t, e, child))
    ensures var s', k := After(cfg, s, Run(t, e, child)), s.threads[t].k;
            && StepsWell(cfg, s.threads[t], s.socks[k], e)
            && ThreadWell(cfg, s', t) && (e.spawn.Some? ==> ThreadWell(cfg, s', child))
  {
    hide ThreadStep, SockInv, Knows, KnowsInflight, IsCreator, MemAfter, PoolAfter, Owns, Writes, Copies;
    var pc := s.threads[t];
    var x := s.socks[pc.k];
    IsReady(cfg, s, t, e, child);
    ThreadSteps(cfg, s.mem, pc, x, e);
    Rights(cfg, s.mem, pc, x, e);
    WriterKnows(cfg, s.mem, pc, x, e);
    InflightOverOp(cfg, s.mem, pc, x, e);
    assert ThreadWell(cfg, s, t);
  }

  lemma InflightOverOp(cfg: Config, mem: map<MsgId, Codec.Packet>, pc: Pc, x: Sock, e: Effect)
    requires HandsOn(mem, pc, x, e)
    ensures KnowsInflight(e.pc, e.x, mem) ==> KnowsInflight(e.pc, e.x, MemAfter(mem, e.op))
    ensures e.spawn.Some? && KnowsInflight(e.spawn.value, e.x, mem) ==>
            KnowsInflight(e.spawn.value, e.x, MemAfter(mem, e.op))
  {}

  /** A bystander on the same socket. */
  lemma OtherWell(cfg: Config, s: State, t: Tid, e: Effect, child: Tid, t2: Tid)
    requires Inv(cfg, s) && Enabled(cfg, s, Run(t, e, child))
    requires t2 != t && t2 in s.threads
    ensures ThreadWell(cfg, After(cfg, s, Run(t, e, child)), t2)
  {
    hide ThreadStep, SockInv, Knows, KnowsInflight, IsCreator, MemAfter, PoolAfter, Owns, Writes, Copies;
    var pc, other := s.threads[t], s.threads[t2];
    var k := pc.k;
    IsReady(cfg, s, t, e, child);
    assert ThreadWell(cfg, s, t2) && PairWell(s, t, t2);
    if SockOf(other).Some? {
      var mem' := MemAfter(s.mem, e.op);
      InflightBystander(cfg, s, t, e, child, t2);
      if other.k == k {
        OthersKnow(cfg, s.mem, pc, s.socks[k], e, other);
        OthersInflight(cfg, s.mem, pc, s.socks[k], e, other);
        InflightSameMem(other, e.x, s.mem, mem');
      } else {
        InflightSameMem(other, s.socks[other.k], s.mem, mem');
      }
    }
  }

  lemma InflightBystander(cfg: Config, s: State, t: Tid, e: Effect, child: Tid, t2: Tid)
    requires Exclusive(s) && Enabled(cfg, s, Run(t, e, child)) && t2 != t && t2 in s.threads
    ensures var other, mem' := s.threads[t2], MemAfter(s.mem, e.op);
            other.WriteConn? || other.WriteBusy? ==>
                other.m in s.mem && other.m in mem' && mem'[other.m] == s.mem[other.m]
  {
    var other := s.threads[t2];
    if other.WriteConn? || other.WriteBusy? {
      assert Copies(s, AtThread(t2), other.m) > 0;
      ContentsStay(cfg, s, t, e, child, AtThread(t2), other.m);
    }
  }

  lemma InflightSameMem(pc: Pc, x: Sock, mem: map<MsgId, Codec.Packet>, mem': map<MsgId, Codec.Packet>)
    requires KnowsInflight(pc, x, mem)
    requires pc.WriteConn? || pc.WriteBusy? ==> pc.m in mem && pc.m in mem' && mem'[pc.m] == mem[pc.m]
    ensures KnowsInflight(pc, x, mem')
  {}

  /** Two threads after a step of the first or of neither. */
  lemma PairKept(cfg: Config, s: State, t: Tid, e: Effect, child: Tid, t1: Tid, t2: Tid)
    requires Inv(cfg, s) && Enabled(cfg, s, Run(t, e, child))
    ensures PairWell(After(cfg, s, Run(t, e, child)), t1, t2)
  {
    var s' := After(cfg, s, Run(t, e, child));
    var pc := s.threads[t];
    var x := s.socks[pc.k];
    IsReady(cfg, s, t, e, child);
    ThreadSteps(cfg, s.mem, pc, x, e);
    Rights(cfg, s.mem, pc, x, e);
    assert e.x.dial == x.dial;
    forall other | other in {t1, t2} && other != t && other in s.threads && SockOf(s.threads[other]) == SockOf(pc)
      ensures Compatible(e.pc, s.threads[other], x.dial)
      ensures e.spawn.Some? ==> Compatible(e.spawn.value, s.threads[other], x.dial)
    {
      assert ThreadWell(cfg, s, other) && PairWell(s, t, other);
      StayCompatible(s.mem, pc, x, e, s.threads[other]);
    }
    assert PairWell(s, t1, t2);
    PairCases(s, s', t, e, child, t1, t2);
  }

  /** Another thread on the same socket. */
  ghost predicate IsOther(s: State, t: Tid, other: Tid) {
    t in s.threads && other != t && other in s.threads && SockOf(s.threads[other]) == SockOf(s.threads[t])
  }

  /** The pairs that a step can form: old ones, the actor or its child with an old thread, and the two. */
  lemma PairCases(s: State, s': State, t: Tid, e: Effect, child: Tid, t1: Tid, t2: Tid)
    requires t in s.threads && SockOf(s.threads[t]).Some? && s.threads[t].k in s.socks
    requires s' == Ran(s, t, s.threads[t].k, e, child) && (e.spawn.Some? ==> child !in s.threads)
    requires e.x.dial == s.socks[s.threads[t].k].dial && HandsOn(s.mem, s.threads[t], s.socks[s.threads[t].k], e)
    requires PairWell(s, t1, t2)
    requires forall other :: other in {t1, t2} && IsOther(s, t, other)
               ==> Compatible(e.pc, s.threads[other], e.x.dial)
                   && (e.spawn.Some? ==> Compatible(e.spawn.value, s.threads[other], e.x.dial))
    ensures PairWell(s', t1, t2)
  {}

  // -------------------------------------------------------- the invariant

  lemma RunOrderly(cfg: Config, s: State, t: Tid, e: Effect, child: Tid)
    requires Inv(cfg, s) && Enabled(cfg, s, Run(t, e, child))
    ensures Orderly(cfg, After(cfg, s, Run(t, e, child)))
  {
    var s' := After(cfg, s, Run(t, e, child));
    ActorWell(cfg, s, t, e, child);
    forall t2
      ensures ThreadWell(cfg, s', t2)
    {
      if t2 != t && t2 in s.threads {
        OtherWell(cfg, s, t, e, child, t2);
      }
    }
    forall t1, t2
      ensures PairWell(s', t1, t2)
    {
      PairKept(cfg, s, t, e, child, t1, t2);
    }
    hide ThreadStep, SockInv, Knows, KnowsInflight, IsCreator, MemAfter, PoolAfter, Owns, Writes;
  }

  lemma BeginOrderly(cfg: Config, s: State, t: Tid, pc: Pc)
    requires Inv(cfg, s) && Enabled(cfg, s, Begin(t, pc))
    ensures Orderly(cfg, After(cfg, s, Begin(t, pc)))
  {
    var s' := After(cfg, s, Begin(t, pc));
    BeginsWell(cfg, s, t, pc);
    hide SockInv, Exclusive, Knows, KnowsInflight, IsCreator, Owns, Writes;
    forall t2
      ensures ThreadWell(cfg, s', t2)
    {
      assert ThreadWell(cfg, s, t2);
    }
    forall t1, t2
      ensures PairWell(s', t1, t2)
    {
      assert PairWell(s, t1, t2);
    }
  }

  /** A sender or a heartbeat timeout that starts owns nothing and writes nothing. */
  lemma BeginsWell(cfg: Config, s: State, t: Tid, pc: Pc)
    requires Enabled(cfg, s, Begin(t, pc))
    ensures ThreadWell(cfg, After(cfg, s, Begin(t, pc)), t) && !Owns(pc) && !Writes(pc)
  {}

  lemma CheckOrderly(cfg: Config, s: State, t: Tid)
    requires Inv(cfg, s) && Enabled(cfg, s, Check(t))
    ensures Orderly(cfg, After(cfg, s, Check(t)))
  {
    var s' := After(cfg, s, Check(t));
    hide SockInv;
    forall t2
      ensures ThreadWell(cfg, s', t2)
    {
      assert ThreadWell(cfg, s, t2);
    }
    forall t1, t2
      ensures PairWell(s', t1, t2)
    {
      assert PairWell(s, t1, t2);
    }
  }

  lemma AllotOrderly(cfg: Config, s: State, t: Tid, dial: bool, lasting: bool)
    requires Inv(cfg, s) && Enabled(cfg, s, Allot(t, dial, lasting))
    ensures Orderly(cfg, After(cfg, s, Allot(t, dial, lasting)))
  {
    var s' := After(cfg, s, Allot(t, dial, lasting));
    NewSockWell(cfg, dial, lasting);
    assert ThreadWell(cfg, s, t);
    AllottedWell(cfg, s, t, dial, lasting);
    hide SockInv, NewSock, Knows, KnowsInflight, IsCreator, Exclusive;
    forall t2
      ensures ThreadWell(cfg, s', t2)
    {
      assert ThreadWell(cfg, s, t2);
    }
    forall t1, t2
      ensures PairWell(s', t1, t2)
    {
      AllotPairs(cfg, s, t, dial, lasting, t1, t2);
    }
  }

  lemma NewSockWell(cfg: Config, dial: bool, lasting: bool)
    requires !(dial && lasting)
    ensures SockInv(cfg, NewSock(dial, lasting))
  {}

  lemma AllottedWell(cfg: Config, s: State, t: Tid, dial: bool, lasting: bool)
    requires ThreadWell(cfg, s, t) && Enabled(cfg, s, Allot(t, dial, lasting))
    ensures ThreadWell(cfg, After(cfg, s, Allot(t, dial, lasting)), t)
  {}

  /** No other thread is on the new socket. */
  lemma AllotPairs(cfg: Config, s: State, t: Tid, dial: bool, lasting: bool, t1: Tid, t2: Tid)
    requires Inv(cfg, s) && Enabled(cfg, s, Allot(t, dial, lasting))
    ensures PairWell(After(cfg, s, Allot(t, dial, lasting)), t1, t2)
  {
    assert PairWell(s, t1, t2);
    assert ThreadWell(cfg, s, t1) && ThreadWell(cfg, s, t2);
    hide SockInv, NewSock, Knows, KnowsInflight, IsCreator, Exclusive, Owns, Writes;
  }

  lemma CloseOrderly(cfg: Config, s: State, k: SockId)
    requires Inv(cfg, s) && Enabled(cfg, s, CloseCall(k))
    ensures Orderly(cfg, After(cfg, s, CloseCall(k)))
  {
    var s' := After(cfg, s, CloseCall(k));
    if s.socks[k].status == Connected {
      CloseWell(cfg, s.socks[k], Done);
      forall t2
        ensures ThreadWell(cfg, s', t2)
      {
        assert ThreadWell(cfg, s, t2);
        if t2 in s.threads && SockOf(s.threads[t2]) == Some(k) {
          CloseWell(cfg, s.socks[k], s.threads[t2]);
        }
      }
      forall t1, t2
        ensures PairWell(s', t1, t2)
      {
        assert PairWell(s, t1, t2);
      }
    }
  }

  lemma StepInv(cfg: Config, s: State, step: Step)
    requires Inv(cfg, s) && Enabled(cfg, s, step)
    ensures Inv(cfg, After(cfg, s, step))
  {
    StepExclusive(cfg, s, step);
    match step {
      case Run(t, e, child) => RunOrderly(cfg, s, t, e, child);
      case Begin(t, pc) => BeginOrderly(cfg, s, t, pc);
      case Check(t) => CheckOrderly(cfg, s, t);
      case Allot(t, dial, lasting) => AllotOrderly(cfg, s, t, dial, lasting);
      case CloseCall(k) => CloseOrderly(cfg, s, k);
      case Evict(m) =>
        forall t
          ensures ThreadWell(cfg, After(cfg, s, step), t)
        {
          assert ThreadWell(cfg, s, t);
        }
        forall t1, t2
          ensures PairWell(After(cfg, s, step), t1, t2)
        {
          assert PairWell(s, t1, t2);
        }
    }
  }

  /** Every state of every run satisfies the invariant. */
  lemma {:induction false} Reachable(cfg: Config, states: seq<State>, steps: seq<Step>, i: nat)
    requires IsRun(cfg, states, steps) && i < |states|
    ensures Inv(cfg, states[i])
    decreases i
  {
    if i > 0 {
      Reachable(cfg, states, steps, i - 1);
      StepInv(cfg, states[i - 1], steps[i - 1]);
    }
  }

  // ------------------------------------------------------------------ laws

  /** At every moment a message has at most one owner among the pool, the queues and the threads,
      however the senders, readers, writers and releases interleave. */
  lemma OneOwner(cfg: Config, states: seq<State>, steps: seq<Step>, i: nat, p: Place, q: Place, m: MsgId)
    requires IsRun(cfg, states, steps) && i < |states|
    ensures Copies(states[i], p, m) <= 1
    ensures Copies(states[i], p, m) > 0 && Copies(states[i], q, m) > 0 ==> p == q
  {
    Reachable(cfg, states, steps, i);
  }

  /** Each stop channel is closed at most once, although any number of threads may race into
      disconnect; the two connection events take turns, Connected first; and release runs at most
      once, over all reconnects. */
  lemma TornDownOnce(cfg: Config, states: seq<State>, steps: seq<Step>, i: nat, k: SockId)
    requires IsRun(cfg, states, steps) && i < |states| && k in states[i].socks
    ensures var x := states[i].socks[k];
            && (forall a, b :: 0 <= a < b < |x.closings| ==> x.closings[a] != x.closings[b])
            && Alternating(x)
            && x.releases <= 1 && (x.releases == 1 <==> x.status == Released)
            && |x.queue| <= cfg.writeChan
  {
    Reachable(cfg, states, steps, i);
    assert SockInv(cfg, states[i].socks[k]);
  }

  /** Every change of status follows the documented graph. */
  lemma StatusFollowsGraph(cfg: Config, s: State, step: Step, k: SockId)
    requires Inv(cfg, s) && Enabled(cfg, s, step) && k in s.socks
    ensures var s' := After(cfg, s, step);
            && k in s'.socks && s'.socks[k].dial == s.socks[k].dial
            && (s'.socks[k].status == s.socks[k].status || Edge(s.socks[k].status, s'.socks[k].status))
  {
    if step.Run? {
      ActorWell(cfg, s, step.t, step.e, step.child);
    } else {
      OtherStatus(cfg, s, step, k);
    }
    hide Inv, ThreadStep, MemAfter, PoolAfter, SockInv, Knows, KnowsInflight, ThreadWell, Edge;
  }

  lemma OtherStatus(cfg: Config, s: State, step: Step, k: SockId)
    requires Indexed(s) && Enabled(cfg, s, step) && k in s.socks && !step.Run?
    ensures var s' := After(cfg, s, step);
            && k in s'.socks && s'.socks[k].dial == s.socks[k].dial
            && (s'.socks[k].status == s.socks[k].status || Edge(s.socks[k].status, s'.socks[k].status))
  {}

  lemma {:induction false} ReleasedForever(cfg: Config, states: seq<State>, steps: seq<Step>, i: nat, j: nat, k: SockId)
    requires IsRun(cfg, states, steps) && i <= j < |states| && k in states[i].socks
             && states[i].socks[k].status == Released
    ensures k in states[j].socks && states[j].socks[k].status == Released
    decreases j
  {
    hide Inv, Enabled, After;
    if i < j {
      ReleasedForever(cfg, states, steps, i, j - 1, k);
      Reachable(cfg, states, steps, j - 1);
      StatusFollowsGraph(cfg, states[j - 1], steps[j - 1], k);
    }
  }

  /** How far a socket has come; only reconnecting leads back. */
  function Stage(s: Status): nat {
    match s
    case Fresh => 0
    case Connected => 1
    case Closing => 2
    case Disconnect => 3
    case Disconnected => 4
    case Reconnecting => 4
    case Released => 5
  }

  /** Close is final on an accepted socket: from Closing on it only ever goes forward, is never
      reconnecting, and is never connected again. */
  lemma {:induction false} AcceptedNeverReturns(cfg: Config, states: seq<State>, steps: seq<Step>, i: nat, j: nat,
                                                k: SockId)
    requires IsRun(cfg, states, steps) && i <= j < |states| && k in states[i].socks && !states[i].socks[k].dial
    ensures k in states[j].socks && !states[j].socks[k].dial && states[j].socks[k].status != Reconnecting
    ensures Stage(states[i].socks[k].status) <= Stage(states[j].socks[k].status)
    decreases j
  {
    hide Inv, Enabled, After;
    if i < j {
      AcceptedNeverReturns(cfg, states, steps, i, j - 1, k);
      Reachable(cfg, states, steps, j - 1);
      StatusFollowsGraph(cfg, states[j - 1], steps[j - 1], k);
    }
    Reachable(cfg, states, steps, j);
    NotReconnecting(cfg, states[j], k);
  }

  lemma NotReconnecting(cfg: Config, s: State, k: SockId)
    requires Inv(cfg, s) && k in s.socks && !s.socks[k].dial
    ensures s.socks[k].status != Reconnecting
  {}
}
