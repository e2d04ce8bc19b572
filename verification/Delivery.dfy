// From Write to the peer: the queue, the writer and the bytes on the connection.
module Delivery {
  import CodecLaws
  import Flags
  import Words
  import opened Environment
  import opened Codec
  import opened Protocol
  import SocketLaws
  import opened Ownership
  import opened SystemLaws
  import Framing
  import opened Stream
  import opened Subsequences

  // ----------------------------------------------------------- the queue

  ghost predicate AllIn(mem: map<MsgId, Packet>, q: seq<MsgId>) {
    forall i :: 0 <= i < |q| ==> q[i] in mem
  }

  /** The packets that the queued messages hold now. */
  function Contents(mem: map<MsgId, Packet>, q: seq<MsgId>): (ps: seq<Packet>)
    requires AllIn(mem, q)
    ensures |ps| == |q|
  {
    seq(|q|, i requires 0 <= i < |q| => mem[q[i]])
  }

  ghost predicate LedgerOf(s: State, k: SockId) {
    k in s.socks ==>
      var x := s.socks[k];
      AllIn(s.mem, x.queue) && x.log.accepted == x.log.taken + Contents(s.mem, x.queue)
  }

  ghost predicate Ledger(s: State) {
    forall k :: LedgerOf(s, k)
  }

  /** What a step does to the queue and to the two records of it. */
  ghost predicate Recorded(mem: map<MsgId, Packet>, x: Sock, e: Effect) {
    match e.op
    case Enqueue(m) =>
      m in mem && e.x.queue == x.queue + [m]
      && e.x.log.accepted == x.log.accepted + [mem[m]] && e.x.log.taken == x.log.taken
    case Dequeue(m) =>
      m in mem && x.queue == [m] + e.x.queue
      && e.x.log.taken == x.log.taken + [mem[m]] && e.x.log.accepted == x.log.accepted
    case _ => e.x.queue == x.queue && e.x.log.accepted == x.log.accepted && e.x.log.taken == x.log.taken
  }

  lemma RecordedSendRead(cfg: Config, mem: map<MsgId, Packet>, pc: Pc, x: Sock, e: Effect)
    requires SendStep(cfg, mem, pc, x, e) || ReadStep(pc, x, e)
    ensures Recorded(mem, x, e)
  {}

  lemma RecordedWriteRel(mem: map<MsgId, Packet>, pc: Pc, x: Sock, e: Effect)
    requires WriteStep(mem, pc, x, e) || RelStep(mem, pc, x, e)
    ensures Recorded(mem, x, e)
  {}

  lemma RecordedDiscOpen(mem: map<MsgId, Packet>, pc: Pc, x: Sock, e: Effect)
    requires DiscStep(pc, x, e) || OpenStep(pc, x, e)
    ensures Recorded(mem, x, e)
  {}

  lemma IsRecorded(cfg: Config, mem: map<MsgId, Packet>, pc: Pc, x: Sock, e: Effect)
    requires ThreadStep(cfg, mem, pc, x, e)
    ensures Recorded(mem, x, e)
  {
    hide SendStep, ReadStep, WriteStep, DiscStep, RelStep, OpenStep, Recorded;
    if SendStep(cfg, mem, pc, x, e) || ReadStep(pc, x, e) {
      RecordedSendRead(cfg, mem, pc, x, e);
    } else if WriteStep(mem, pc, x, e) || RelStep(mem, pc, x, e) {
      RecordedWriteRel(mem, pc, x, e);
    } else {
      RecordedDiscOpen(mem, pc, x, e);
    }
  }

  /** No step changes the contents of a queued message. */
  lemma QueueContents(cfg: Config, s: State, t: Tid, e: Effect, child: Tid, k: SockId)
    requires Exclusive(s) && Enabled(cfg, s, Run(t, e, child)) && k in s.socks && AllIn(s.mem, s.socks[k].queue)
    ensures var q, mem' := s.socks[k].queue, MemAfter(s.mem, e.op);
            AllIn(mem', q) && Contents(mem', q) == Contents(s.mem, q)
  {
    var q := s.socks[k].queue;
    forall i | 0 <= i < |q|
      ensures q[i] in MemAfter(s.mem, e.op) && MemAfter(s.mem, e.op)[q[i]] == s.mem[q[i]]
    {
      assert Copies(s, InQueue(k), q[i]) > 0;
      ContentsStay(cfg, s, t, e, child, InQueue(k), q[i]);
    }
  }

  lemma LedgerEntry(mem: map<MsgId, Packet>, mem': map<MsgId, Packet>, x: Sock, e: Effect)
    requires AllIn(mem, x.queue) && x.log.accepted == x.log.taken + Contents(mem, x.queue) && Recorded(mem, x, e)
    requires AllIn(mem', x.queue) && Contents(mem', x.queue) == Contents(mem, x.queue)
    requires e.op.Enqueue? || e.op.Dequeue? ==> mem' == mem
    ensures AllIn(mem', e.x.queue) && e.x.log.accepted == e.x.log.taken + Contents(mem', e.x.queue)
  {
    match e.op {
      case Enqueue(m) =>
        assert Contents(mem, e.x.queue) == Contents(mem, x.queue) + [mem[m]];
      case Dequeue(m) =>
        assert x.queue[0] == m && x.queue[1..] == e.x.queue;
        assert AllIn(mem, e.x.queue) by {
          assert forall i :: 0 <= i < |e.x.queue| ==> e.x.queue[i] == x.queue[i + 1];
        }
        assert Contents(mem, x.queue) == [mem[m]] + Contents(mem, e.x.queue);
      case _ =>
    }
  }

  lemma RunLedger(cfg: Config, s: State, t: Tid, e: Effect, child: Tid)
    requires Exclusive(s) && Ledger(s) && Enabled(cfg, s, Run(t, e, child))
    ensures Ledger(After(cfg, s, Run(t, e, child)))
  {
    var pc := s.threads[t];
    IsRecorded(cfg, s.mem, pc, s.socks[pc.k], e);
    hide ThreadStep, Recorded, Exclusive;
    forall k
      ensures LedgerOf(After(cfg, s, Run(t, e, child)), k)
    {
      if k in s.socks {
        assert LedgerOf(s, k);
        QueueContents(cfg, s, t, e, child, k);
        if k == pc.k {
          LedgerEntry(s.mem, MemAfter(s.mem, e.op), s.socks[k], e);
        }
      }
    }
  }

  lemma StepLedger(cfg: Config, s: State, step: Step)
    requires Inv(cfg, s) && Ledger(s) && Enabled(cfg, s, step)
    ensures Ledger(After(cfg, s, step))
  {
    if step.Run? {
      RunLedger(cfg, s, step.t, step.e, step.child);
    } else {
      hide Inv;
      forall k
        ensures LedgerOf(After(cfg, s, step), k)
      {
        assert LedgerOf(s, k);
      }
    }
  }

  /** What Write has accepted is what was taken off the queue followed by what is on it, in order,
      in every reachable state and for every socket. */
  lemma {:induction false} QueueInOrder(cfg: Config, states: seq<State>, steps: seq<Step>, i: nat)
    requires IsRun(cfg, states, steps) && i < |states|
    ensures Ledger(states[i])
    decreases i
  {
    if i == 0 {
      assert states[0].socks == map[];
    } else {
      hide Inv, Enabled, After, Ledger;
      QueueInOrder(cfg, states, steps, i - 1);
      Reachable(cfg, states, steps, i - 1);
      StepLedger(cfg, states[i - 1], steps[i - 1]);
    }
  }

  // -------------------------------------------------- the packet in flight

  predicate Carries(pc: Pc, k: SockId) {
    (pc.WriteConn? || pc.WriteBusy?) && pc.k == k
  }

  /** A packet in flight of an accepted socket is in the hand of its writer. */
  ghost predicate Carried(s: State, k: SockId) {
    k in s.socks && !s.socks[k].dial && s.socks[k].log.inflight != [] ==>
      exists t :: t in s.threads && Carries(s.threads[t], k)
  }

  lemma RunCarried(cfg: Config, s: State, t: Tid, e: Effect, child: Tid, k: SockId)
    requires Inv(cfg, s) && Carried(s, k) && Enabled(cfg, s, Run(t, e, child))
    ensures Carried(After(cfg, s, Run(t, e, child)), k)
  {
    var s' := After(cfg, s, Run(t, e, child));
    var pc := s.threads[t];
    CarryStep(cfg, s.mem, pc, s.socks[pc.k], e);
    OthersWhere(cfg, s, t, e, child);
    hide ThreadStep, Inv, MemAfter, PoolAfter, Enabled, After;
    if k in s.socks && !s'.socks[k].dial && s'.socks[k].log.inflight != [] {
      if pc.k == k && Carries(e.pc, k) {
        assert s'.threads[t] == e.pc;
      } else {
        var u :| u in s.threads && Carries(s.threads[u], k);
        assert u != t && s'.threads[u] == s.threads[u];
      }
    }
  }

  /** After a step of a thread it is at its new place, and the others are where they were. */
  lemma OthersWhere(cfg: Config, s: State, t: Tid, e: Effect, child: Tid)
    requires Enabled(cfg, s, Run(t, e, child))
    ensures var s' := After(cfg, s, Run(t, e, child));
            && t in s.threads && SockOf(s.threads[t]).Some? && s.threads[t].k in s.socks
            && s'.socks == s.socks[s.threads[t].k := e.x] && t in s'.threads && s'.threads[t] == e.pc
            && forall u :: u in s.threads && u != t ==> u in s'.threads && s'.threads[u] == s.threads[u]
  {
    hide ThreadStep, MemAfter, PoolAfter;
  }

  /** A step that leaves a packet in flight either has its thread carry it or has not touched it. */
  lemma CarryStep(cfg: Config, mem: map<MsgId, Packet>, pc: Pc, x: Sock, e: Effect)
    requires ThreadStep(cfg, mem, pc, x, e) && SockOf(pc).Some?
    ensures e.x.log.inflight == [] || Carries(e.pc, pc.k) || (e.x.log.inflight == x.log.inflight && !Carries(pc, pc.k))
    ensures e.x.dial == x.dial
  {
    SocketLaws.InflightByWriter(cfg, mem, pc, x, e);
    if SocketLaws.Writes(pc) {
      SocketLaws.WriterSteps(cfg, mem, pc, x, e);
      hide ThreadStep;
      if WriteStep(mem, pc, x, e) {
        CarryWrite(mem, pc, x, e);
      } else {
        CarryOpen(pc, x, e);
      }
    } else {
      hide ThreadStep;
    }
  }

  lemma CarryWrite(mem: map<MsgId, Packet>, pc: Pc, x: Sock, e: Effect)
    requires WriteStep(mem, pc, x, e)
    ensures e.x.log.inflight == [] || Carries(e.pc, pc.k) || (e.x.log.inflight == x.log.inflight && !Carries(pc, pc.k))
    ensures e.x.dial == x.dial
  {}

  lemma CarryOpen(pc: Pc, x: Sock, e: Effect)
    requires OpenStep(pc, x, e)
    ensures e.x.log.inflight == x.log.inflight && e.x.dial == x.dial && !Carries(pc, pc.k)
  {
    SocketLaws.NoInflightByOpen(pc, x, e);
    assert !pc.WriteConn? && !pc.WriteBusy?;
    hide OpenStep;
  }

  lemma {:induction false} InflightCarried(cfg: Config, states: seq<State>, steps: seq<Step>, i: nat, k: SockId)
    requires IsRun(cfg, states, steps) && i < |states|
    ensures Carried(states[i], k)
    decreases i
  {
    hide Inv, Enabled, After;
    if i > 0 {
      InflightCarried(cfg, states, steps, i - 1, k);
      Reachable(cfg, states, steps, i - 1);
      StepCarried(cfg, states[i - 1], steps[i - 1], k);
    }
  }

  lemma StepCarried(cfg: Config, s: State, step: Step, k: SockId)
    requires Inv(cfg, s) && Carried(s, k) && Enabled(cfg, s, step)
    ensures Carried(After(cfg, s, step), k)
  {
    hide Inv, Carried;
    if step.Run? {
      RunCarried(cfg, s, step.t, step.e, step.child, k);
    } else {
      OtherCarried(cfg, s, step, k);
    }
  }

  lemma OtherCarried(cfg: Config, s: State, step: Step, k: SockId)
    requires Carried(s, k) && Enabled(cfg, s, step) && !step.Run?
    ensures Carried(After(cfg, s, step), k)
  {
    var s' := After(cfg, s, step);
    if k in s.socks && !s.socks[k].dial && s.socks[k].log.inflight != [] {
      var u :| u in s.threads && Carries(s.threads[u], k);
      assert u in s'.threads && s'.threads[u] == s.threads[u];
    }
  }

  // -------------------------------------------------------------- delivery

  /** The packets written, and the one in the writer's hand, are taken off the queue in this order. */
  ghost predicate Picked(x: Sock) {
    !x.dial ==> Sub(x.log.wire + x.log.inflight, x.log.taken)
  }

  lemma PickedWrite(mem: map<MsgId, Packet>, pc: Pc, x: Sock, e: Effect)
    requires WriteStep(mem, pc, x, e) && SocketLaws.KnowsInflight(pc, x, mem) && Picked(x)
    ensures Picked(e.x)
  {
    if !x.dial {
      assert x.log.wire + [] == x.log.wire;
      if e.op.Dequeue? {
        assert x.log.inflight == [];
        SubGrows(x.log.wire, x.log.taken, mem[e.op.m]);
      } else if e.x.log.wire == x.log.wire && e.x.log.inflight == [] {
        SubPart(x.log.wire + x.log.inflight, x.log.taken, 0, |x.log.wire|);
        assert (x.log.wire + x.log.inflight)[0..|x.log.wire|] == x.log.wire;
      } else {
        assert e.x.log.wire + e.x.log.inflight == x.log.wire + x.log.inflight;
      }
    }
  }

  lemma PickedSame(x: Sock, x': Sock)
    requires SocketLaws.SameWire(x, x') && Picked(x)
    ensures Picked(x')
  {
    if !x.dial {
      SubLonger(x.log.wire + x.log.inflight, x.log.taken, x'.log.taken);
    }
  }

  lemma PickedStep(cfg: Config, mem: map<MsgId, Packet>, pc: Pc, x: Sock, e: Effect)
    requires ThreadStep(cfg, mem, pc, x, e) && SocketLaws.KnowsInflight(pc, x, mem) && Picked(x)
    ensures Picked(e.x)
  {
    SocketLaws.InflightByWriter(cfg, mem, pc, x, e);
    hide Picked, SocketLaws.SameWire, SocketLaws.KnowsInflight;
    if SocketLaws.Writes(pc) {
      SocketLaws.WriterSteps(cfg, mem, pc, x, e);
      hide ThreadStep, WriteStep, OpenStep;
      if WriteStep(mem, pc, x, e) {
        PickedWrite(mem, pc, x, e);
      } else {
        SocketLaws.NoInflightByOpen(pc, x, e);
        PickedSame(x, e.x);
      }
    } else {
      PickedSame(x, e.x);
    }
  }

  ghost predicate AllPicked(s: State) {
    forall k :: k in s.socks ==> Picked(s.socks[k])
  }

  lemma StepPicked(cfg: Config, s: State, step: Step)
    requires Inv(cfg, s) && AllPicked(s) && Enabled(cfg, s, step)
    ensures AllPicked(After(cfg, s, step))
  {
    if step.Run? {
      IsReady(cfg, s, step.t, step.e, step.child);
      hide Inv, Picked, ThreadStep, SocketLaws.KnowsInflight, SocketLaws.SockInv, SocketLaws.Knows;
      var pc := s.threads[step.t];
      PickedStep(cfg, s.mem, pc, s.socks[pc.k], step.e);
    } else {
      OtherPicked(cfg, s, step);
    }
  }

  lemma OtherPicked(cfg: Config, s: State, step: Step)
    requires AllPicked(s) && Enabled(cfg, s, step) && !step.Run?
    ensures AllPicked(After(cfg, s, step))
  {
    assert Picked(NewSock(false, false)) && Picked(NewSock(false, true));
    hide Sub;
  }

  /** Whatever fails, what an accepted socket writes, and what its writer holds, is taken from the
      queue in order, nothing twice. */
  lemma {:induction false} WrittenInOrder(cfg: Config, states: seq<State>, steps: seq<Step>, i: nat)
    requires IsRun(cfg, states, steps) && i < |states|
    ensures AllPicked(states[i])
    decreases i
  {
    RunStarts(cfg, states, steps);
    hide *;
    if i == 0 {
      NonePicked(cfg);
    } else {
      WrittenInOrder(cfg, states, steps, i - 1);
      NextPicked(cfg, states, steps, i - 1);
    }
  }

  lemma RunStarts(cfg: Config, states: seq<State>, steps: seq<Step>)
    requires IsRun(cfg, states, steps)
    ensures |states| == |steps| + 1 && states[0] == Init(cfg)
  {}

  lemma NonePicked(cfg: Config)
    ensures AllPicked(Init(cfg))
  {}

  lemma NextPicked(cfg: Config, states: seq<State>, steps: seq<Step>, i: nat)
    requires IsRun(cfg, states, steps) && i < |steps| && AllPicked(states[i])
    ensures AllPicked(states[i + 1])
  {
    assert Enabled(cfg, states[i], steps[i]) && states[i + 1] == After(cfg, states[i], steps[i]);
    hide *;
    Reachable(cfg, states, steps, i);
    StepPicked(cfg, states[i], steps[i]);
  }

  /** What is on the wire of an accepted socket, against what Write accepted. */
  ghost predicate Delivered(mem: map<MsgId, Packet>, x: Sock)
    requires AllIn(mem, x.queue)
  {
    && Sub(x.log.wire, x.log.accepted)
    // a prefix, unless a datagram has failed
    && (!x.log.failed || !x.lasting ==> x.log.wire <= x.log.accepted)
    // and the packet that failed on a stream is the next one
    && (x.log.torn.Some? <==> x.log.failed && !x.lasting)
    && (x.log.torn.Some? ==> x.log.wire + [x.log.torn.value.packet] <= x.log.accepted)
    // while writing goes on, the rest is with the writer and on the queue
    && (SocketLaws.Writable(x) && !x.log.failed ==>
          x.log.accepted == x.log.wire + x.log.inflight + Contents(mem, x.queue))
  }

  /** On an accepted socket, in every reachable state: what is on the wire is a subsequence of what Write
      accepted, and a prefix of it unless a datagram has failed; the packet that failed on a stream is
      the next one; and while the connection is open and nothing has failed, the rest is the packet in
      the writer's hand and then the queue. */
  lemma InOrder(cfg: Config, states: seq<State>, steps: seq<Step>, i: nat, k: SockId)
    requires IsRun(cfg, states, steps) && i < |states| && k in states[i].socks && !states[i].socks[k].dial
    ensures var s := states[i]; var x := s.socks[k];
            && AllIn(s.mem, x.queue) && |x.queue| <= cfg.writeChan && Delivered(s.mem, x)
            && (x.log.inflight != [] ==> exists t :: t in s.threads && Carries(s.threads[t], k)
                                               && s.threads[t].m in s.mem && x.log.inflight == [s.mem[s.threads[t].m]])
  {
    Reachable(cfg, states, steps, i);
    QueueInOrder(cfg, states, steps, i);
    InflightCarried(cfg, states, steps, i, k);
    WrittenInOrder(cfg, states, steps, i);
    var s := states[i];
    var x := s.socks[k];
    assert SocketLaws.SockInv(cfg, x) && LedgerOf(s, k) && Picked(x);
    assert SocketLaws.WireInOrder(x) && |x.queue| <= cfg.writeChan;
    if x.log.inflight != [] {
      var t :| t in s.threads && Carries(s.threads[t], k);
      assert ThreadWell(cfg, s, t);
    }
    hide Inv, SocketLaws.SockInv, ThreadWell, Sub;
    IsDelivered(s.mem, x);
  }

  lemma IsDelivered(mem: map<MsgId, Packet>, x: Sock)
    requires !x.dial && AllIn(mem, x.queue) && x.log.accepted == x.log.taken + Contents(mem, x.queue)
    requires SocketLaws.WireInOrder(x) && Picked(x)
    ensures Delivered(mem, x)
  {
    hide Sub;
    SubPart(x.log.wire + x.log.inflight, x.log.taken, 0, |x.log.wire|);
    assert (x.log.wire + x.log.inflight)[0..|x.log.wire|] == x.log.wire;
    SubLonger(x.log.wire, x.log.taken, x.log.accepted);
  }

  // ------------------------------------------------------------ end to end

  /** The bytes that a stream has put out: whole frames, and the part of one whose write failed. */
  function BytesOut(env: Env, x: Sock): Words.Bytes
    requires AllPlain(env, x.log.wire) && (x.log.torn.Some? ==> Plain(env, x.log.torn.value.packet))
  {
    Framing.Joined(OnWire(env, x.log.wire))
    + if x.log.torn.Some? then Taken(x.log.torn.value.bytes, Frame(env, x.log.torn.value.packet)) else []
  }

  lemma PlainParts(env: Env, x: Sock)
    requires AllPlain(env, x.log.accepted) && x.log.wire <= x.log.accepted
    requires x.log.torn.Some? ==> x.log.wire + [x.log.torn.value.packet] <= x.log.accepted
    ensures AllPlain(env, x.log.wire) && (x.log.torn.Some? ==> Plain(env, x.log.torn.value.packet))
  {
    assert forall j :: 0 <= j < |x.log.wire| ==> x.log.wire[j] == x.log.accepted[j];
    if x.log.torn.Some? {
      assert x.log.accepted[|x.log.wire|] == (x.log.wire + [x.log.torn.value.packet])[|x.log.wire|];
    }
  }

  /** End to end over a stream: whatever the interleaving and wherever a write fails, the peer that reads
      the bytes gets packets that Write accepted, in order, from the first on, all that were written
      among them, and then an error; if no write has failed it gets exactly those and a clean end. */
  lemma EndToEnd(cfg: Config, env: Env, cells: Words.Bytes, states: seq<State>, steps: seq<Step>, i: nat, k: SockId)
    requires IsRun(cfg, states, steps) && i < |states| && k in states[i].socks
    requires !states[i].socks[k].dial && !states[i].socks[k].lasting
    requires AllPlain(env, states[i].socks[k].log.accepted)
    ensures var x := states[i].socks[k];
            && AllPlain(env, x.log.wire) && (x.log.torn.Some? ==> Plain(env, x.log.torn.value.packet))
            && var (qs, e) := Framing.DecodeAll(Reading(env, cells), BytesOut(env, x));
               && x.log.wire <= qs <= x.log.accepted && e.Err?
               && (!x.log.failed ==> qs == x.log.wire && e == Err(Eof))
  {
    InOrder(cfg, states, steps, i, k);
    var x := states[i].socks[k];
    PlainParts(env, x);
    hide Plain, Inv, Framing.DecodeAll, Frame, Framing.Joined, OnWire, Sub;
    if x.log.torn.Some? {
      TornIsRead(env, cells, x.log.wire, x.log.torn.value.packet, x.log.torn.value.bytes);
    } else {
      assert BytesOut(env, x) == Framing.Joined(OnWire(env, x.log.wire));
      StreamRoundTrip(env, cells, x.log.wire);
    }
  }

  /** A packet that a transport with message boundaries carries, compressed on the way or not. */
  predicate Boxed(env: Env, p: Packet) {
    p.head.magic in env.magics && 4 <= p.head.size == |p.data| <= env.opts.maxDataSize
    && !Flags.Has(p.head.flag, Flags.COMPRESSED)
  }

  /** Reset on the message that was made of the packet gives the packet, whatever the message held before
      and whatever lies behind it in its array. */
  ghost predicate Restores(env: Env, p: Packet, m0: Msg, slack: Words.Bytes) {
    p.head.magic in env.magics
    && var f := Frame(env, p);
       var (m, r) := ResetTo(env, m0, f + slack, |f|);
       r == Ok(()) && PacketOf(m) == p && m.code == m0.code
  }

  lemma BoxedReads(env: Env, p: Packet, m0: Msg, slack: Words.Bytes)
    requires Boxed(env, p) && GzipInverse(env)
    ensures Restores(env, p, m0, slack)
  {
    var sent := RawMsg(p.head, 0, p.data, |p.data|);
    assert PacketOf(sent) == p;
    CodecLaws.DatagramRoundTrip(env, sent, m0, slack);
  }

  /** End to end over a transport that keeps message boundaries, where compression is allowed: each
      message that the peer gets restores the packet it was made of, and these are packets that Write
      accepted, in order, from the first on unless a datagram has failed. */
  lemma EndToEndMessages(cfg: Config, env: Env, states: seq<State>, steps: seq<Step>, i: nat, k: SockId)
    requires IsRun(cfg, states, steps) && i < |states| && k in states[i].socks && !states[i].socks[k].dial
    requires GzipInverse(env) && forall p :: p in states[i].socks[k].log.accepted ==> Boxed(env, p)
    ensures var x := states[i].socks[k];
            && Sub(x.log.wire, x.log.accepted) && (!x.log.failed || !x.lasting ==> x.log.wire <= x.log.accepted)
            && forall j, m0, slack :: 0 <= j < |x.log.wire| ==> Restores(env, x.log.wire[j], m0, slack)
  {
    InOrder(cfg, states, steps, i, k);
    var x := states[i].socks[k];
    hide Sub, Boxed, Restores;
    forall j, m0, slack | 0 <= j < |x.log.wire|
      ensures Restores(env, x.log.wire[j], m0, slack)
    {
      SubIn(x.log.wire, x.log.accepted, j);
      BoxedReads(env, x.log.wire[j], m0, slack);
    }
  }

  /** What the reader makes of the stream has no code cached yet. */
  lemma ReceivedFresh(env: Env, cells: Words.Bytes, stream: Words.Bytes)
    ensures ReceiveInto(env, CodecLaws.Pooled(cells), stream).0.code == 0
  {}

  /** Two messages of the same packet, neither looked at yet, show the same. */
  lemma SamePacketSameViews(env: Env, m1: Msg, m2: Msg)
    requires PacketOf(m1) == PacketOf(m2) && m1.code == m2.code == 0 && m1.len >= 4
    ensures CodecLaws.Observe(env, m1) == CodecLaws.Observe(env, m2)
  {
    assert |Data(m1)| == m1.len && |Data(m2)| == m2.len;
    CodecLaws.SameDataSameViews(env, m1, m2);
  }

  /** End to end for the users of the messages: whatever the peer asks the i-th message it reads, it
      gets the answer that the i-th message given to Write would have given. */
  lemma EndToEndViews(cfg: Config, env: Env, cells: Words.Bytes, states: seq<State>, steps: seq<Step>, i: nat,
                      k: SockId, sent: seq<Msg>)
    requires IsRun(cfg, states, steps) && i < |states| && k in states[i].socks
    requires !states[i].socks[k].dial && !states[i].socks[k].lasting
    requires var accepted := states[i].socks[k].log.accepted;
             && AllPlain(env, accepted) && |sent| == |accepted|
             && forall j :: 0 <= j < |sent| ==>
                 PacketOf(sent[j]) == accepted[j] && sent[j].code == 0 && sent[j].len >= 4
    ensures var x := states[i].socks[k];
            && AllPlain(env, x.log.wire) && (x.log.torn.Some? ==> Plain(env, x.log.torn.value.packet))
            && var got := Framing.DecodeAll(Reading(env, cells), BytesOut(env, x)).0;
               && |x.log.wire| <= |got| <= |sent|
               && forall j, m: Msg :: 0 <= j < |got| && PacketOf(m) == got[j] && m.code == 0 ==>
                    CodecLaws.Observe(env, m) == CodecLaws.Observe(env, sent[j])
  {
    hide Plain, Frame, Framing.Joined, Inv, CodecLaws.Observe, BytesOut, Framing.DecodeAll;
    EndToEnd(cfg, env, cells, states, steps, i, k);
    var x := states[i].socks[k];
    var got := Framing.DecodeAll(Reading(env, cells), BytesOut(env, x)).0;
    forall j, m: Msg | 0 <= j < |got| && PacketOf(m) == got[j] && m.code == 0
      ensures CodecLaws.Observe(env, m) == CodecLaws.Observe(env, sent[j])
    {
      assert got[j] == x.log.accepted[j];
      SamePacketSameViews(env, sent[j], m);
    }
  }

  /** In path mode: magic, flag, index, path and body of what is read are those given to Marshal. */
  lemma ReceivedAsMarshalled(env: Env, m: Msg, got: Msg, magic: Words.Byte, flag: Flags.Flag, index: Words.I32,
                             path: Words.Bytes, body: Words.Bytes)
    requires Usable(env) && magic in env.magics && env.magics[magic].mode.PathMode? && m.code == got.code == 0
    requires path != [] && 4 + |path| + |body| < Words.TWO_31
    requires PacketOf(got) == PacketOf(Marshalled(env, m, magic, flag, index, Name(path), Some(body)).0)
    ensures got.head == Head(magic, flag, 4 + |path| + |body|, index)
    ensures PathOf(env, got) == Ok(Cut(path)) && BodyOf(env, got) == Ok(body)
  {
    hide Marshalled, PathOf, BodyOf, Cut;
    CodecLaws.PathModeViews(env, m, magic, flag, index, path, body);
    MarshalledOk(env, m, magic, flag, index, Name(path), body);
    SamePacketSameViews(env, Marshalled(env, m, magic, flag, index, Name(path), Some(body)).0, got);
  }

  /** In code mode the same, through a transform that knows the path. */
  lemma ReceivedAsCoded(env: Env, m: Msg, got: Msg, magic: Words.Byte, flag: Flags.Flag, index: Words.I32,
                        path: Words.Bytes, body: Words.Bytes)
    requires Usable(env) && magic in env.magics && env.magics[magic].mode.CodeMode? && m.code == got.code == 0
    requires TransformInverse(env, path) && 4 + |body| < Words.TWO_31
    requires PacketOf(got) == PacketOf(Marshalled(env, m, magic, flag, index, Name(path), Some(body)).0)
    ensures got.head == Head(magic, flag, 4 + |body|, index)
    ensures PathOf(env, got) == Ok((path, [])) && BodyOf(env, got) == Ok(body)
  {
    hide Marshalled, PathOf, BodyOf, Cut;
    CodecLaws.CodeModeViews(env, m, magic, flag, index, path, body);
    MarshalledOk(env, m, magic, flag, index, Name(path), body);
    SamePacketSameViews(env, Marshalled(env, m, magic, flag, index, Name(path), Some(body)).0, got);
  }

  lemma SendEnds(cfg: Config, mem: map<MsgId, Packet>, pc: Pc, x: Sock, e: Effect, m: MsgId)
    requires SendStep(cfg, mem, pc, x, e) && Held(pc) == Some(m)
    ensures || ((e.op.Keep? || e.op.Fill?) && e.x.log.accepted == x.log.accepted)
            || (e.pc == Done && e.op == Enqueue(m) && m in mem && e.x.log.accepted == x.log.accepted + [mem[m]])
            || (e.pc == Done && e.op == Put(m) && e.x.log.accepted == x.log.accepted)
  {}

  lemma HeldOnce(cfg: Config, s: State, t: Tid, k: SockId, m: MsgId)
    requires Inv(cfg, s) && t in s.threads && Held(s.threads[t]) == Some(m)
    ensures Copies(s, AtThread(t), m) == 1 && Copies(s, InPool, m) == 0 && Copies(s, InQueue(k), m) == 0
  {
    assert Copies(s, AtThread(t), m) == 1;
    hide Held;
  }

  /** SendWithMagic ends in one of two ways: its message is on the queue and accepted, or it is back
      in the pool; never both, and until then it stays in the sender's hand. */
  lemma SendFate(cfg: Config, s: State, t: Tid, e: Effect, child: Tid, m: MsgId)
    requires Inv(cfg, s) && Enabled(cfg, s, Run(t, e, child)) && Held(s.threads[t]) == Some(m)
    requires SendStep(cfg, s.mem, s.threads[t], s.socks[s.threads[t].k], e)
    ensures var s', k := After(cfg, s, Run(t, e, child)), s.threads[t].k;
            || (Copies(s', AtThread(t), m) == 1 && e.x.log.accepted == s.socks[k].log.accepted)
            || (e.pc == Done && Copies(s', InQueue(k), m) == 1 && Copies(s', InPool, m) == 0
                && e.x.log.accepted == s.socks[k].log.accepted + [s.mem[m]])
            || (e.pc == Done && Copies(s', InPool, m) == 1 && Copies(s', InQueue(k), m) == 0
                && e.x.log.accepted == s.socks[k].log.accepted)
  {
    var k := s.threads[t].k;
    SendEnds(cfg, s.mem, s.threads[t], s.socks[k], e, m);
    HeldOnce(cfg, s, t, k, m);
    RunCopies(cfg, s, t, e, child, AtThread(t), m);
    RunCopies(cfg, s, t, e, child, InQueue(k), m);
    RunCopies(cfg, s, t, e, child, InPool, m);
    hide SendStep, ThreadStep, Copies, Inv, Held, Enabled, After;
  }
}
