// What becomes of the messages that are not yet on the wire when a connection is closed.
module Unsent {
  import Codec
  import opened Lifecycle
  import opened Protocol
  import opened SocketLaws
  import opened SystemLaws
  import opened Paths
  import Delivery
  import Endings

  // ------------------------------------------------------ the end of writing

  /** An accepted socket whose connection was opened, and is closed; on a transport that Close leaves
      open, the socket has let go of it too. */
  predicate Ended(x: Sock) {
    !x.dial && x.opens > 0 && !Writable(x)
  }

  /** A writer has taken such a transport before the socket let go of it. */
  ghost predicate Busy(s: State, k: SockId) {
    k in s.socks && s.socks[k].lasting && exists t :: BusyAt(s, t, k)
  }

  ghost predicate BusyAt(s: State, t: Tid, k: SockId) {
    t in s.threads && s.threads[t].WriteBusy? && s.threads[t].k == k
  }

  /** After the end only that writer writes, and what it has in hand; nobody else becomes busy. */
  ghost predicate EndsWell(pc: Pc, x: Sock, e: Effect) {
    && Ended(e.x) && e.x.lasting == x.lasting
    && (e.x.log.wire == x.log.wire || (x.lasting && pc.WriteBusy? && e.x.log.wire == x.log.wire + x.log.inflight))
    && (x.lasting ==> !e.pc.WriteBusy?)
  }

  lemma EndsByWrite(mem: map<MsgId, Codec.Packet>, pc: Pc, x: Sock, e: Effect)
    requires WriteStep(mem, pc, x, e) && Knows(pc, x) && KnowsInflight(pc, x, mem) && Ended(x)
    requires x.live != 0 ==> x.conn == x.live
    ensures EndsWell(pc, x, e)
  {}

  lemma EndsByOpen(cfg: Config, pc: Pc, x: Sock, e: Effect)
    requires OpenStep(pc, x, e) && Knows(pc, x) && SockInv(cfg, x) && Ended(x)
    ensures EndsWell(pc, x, e)
  {}

  lemma EndsBySendRead(cfg: Config, mem: map<MsgId, Codec.Packet>, pc: Pc, x: Sock, e: Effect)
    requires (SendStep(cfg, mem, pc, x, e) || ReadStep(pc, x, e)) && Ended(x)
    ensures EndsWell(pc, x, e)
  {}

  lemma EndsByDiscRel(mem: map<MsgId, Codec.Packet>, pc: Pc, x: Sock, e: Effect)
    requires (DiscStep(pc, x, e) || RelStep(mem, pc, x, e)) && Ended(x)
    ensures EndsWell(pc, x, e)
  {}

  lemma EndsLocally(cfg: Config, mem: map<MsgId, Codec.Packet>, pc: Pc, x: Sock, e: Effect)
    requires ThreadStep(cfg, mem, pc, x, e) && Knows(pc, x) && KnowsInflight(pc, x, mem) && SockInv(cfg, x) && Ended(x)
    ensures EndsWell(pc, x, e)
  {
    assert x.live != 0 ==> x.conn == x.live;
    hide SendStep, ReadStep, WriteStep, DiscStep, RelStep, OpenStep, EndsWell, Knows, SockInv, KnowsInflight, Ended;
    if WriteStep(mem, pc, x, e) {
      EndsByWrite(mem, pc, x, e);
    } else if OpenStep(pc, x, e) {
      EndsByOpen(cfg, pc, x, e);
    } else if SendStep(cfg, mem, pc, x, e) || ReadStep(pc, x, e) {
      EndsBySendRead(cfg, mem, pc, x, e);
    } else {
      EndsByDiscRel(mem, pc, x, e);
    }
  }

  /** The wire has ended with `wire`, or will with the packets `last` in the hand of a busy writer. */
  ghost predicate EndsWith(s: State, k: SockId, wire: seq<Codec.Packet>, last: seq<Codec.Packet>) {
    k in s.socks
    && var x := s.socks[k];
       && Ended(x)
       && (x.log.wire == wire || x.log.wire == wire + last)
       && (Busy(s, k) ==> x.log.wire == wire && x.log.inflight == last)
  }

  /** A thread on the same accepted socket as a busy writer writes nothing. */
  lemma BusyIsAlone(cfg: Config, s: State, t: Tid, u: Tid, k: SockId)
    requires Inv(cfg, s) && k in s.socks && !s.socks[k].dial && BusyAt(s, u, k) && t != u
    requires t in s.threads && SockOf(s.threads[t]).Some? && s.threads[t].k == k
    ensures !Writes(s.threads[t])
  {
    assert PairWell(s, t, u);
  }

  /** A busy writer was so before, unless it is the one that acts. */
  lemma BusyBefore(cfg: Config, s: State, t: Tid, e: Effect, child: Tid, k: SockId, u: Tid)
    requires Inv(cfg, s) && Enabled(cfg, s, Run(t, e, child)) && k in s.socks && s.socks[k].lasting
    requires BusyAt(After(cfg, s, Run(t, e, child)), u, k)
    requires s.threads[t].k == k ==> EndsWell(s.threads[t], s.socks[k], e)
    requires HandsOn(s.mem, s.threads[t], s.socks[s.threads[t].k], e)
    ensures u != t && BusyAt(s, u, k)
    ensures s.threads[t].k == k ==> !Writes(s.threads[t])
  {
    hide ThreadStep, MemAfter, PoolAfter, Writes, Inv;
    assert u != t && BusyAt(s, u, k);
    hide EndsWell;
    if s.threads[t].k == k {
      assert !s.socks[k].dial by {
        LastingIsAccepted(cfg, s, k);
      }
      BusyIsAlone(cfg, s, t, u, k);
    }
  }

  lemma BusyKept(cfg: Config, s: State, t: Tid, e: Effect, child: Tid, k: SockId)
    requires Inv(cfg, s) && Enabled(cfg, s, Run(t, e, child)) && k in s.socks
    requires s.threads[t].k == k ==> EndsWell(s.threads[t], s.socks[k], e)
    requires HandsOn(s.mem, s.threads[t], s.socks[s.threads[t].k], e)
    ensures Busy(After(cfg, s, Run(t, e, child)), k) ==> Busy(s, k) && (s.threads[t].k == k ==> !Writes(s.threads[t]))
  {
    hide Inv, HandsOn, ThreadStep, MemAfter, PoolAfter, Writes, BusyAt, Ended;
    var s' := After(cfg, s, Run(t, e, child));
    if Busy(s', k) {
      var u :| BusyAt(s', u, k);
      BusyBefore(cfg, s, t, e, child, k, u);
    }
  }

  lemma RunEnds(cfg: Config, s: State, t: Tid, e: Effect, child: Tid, k: SockId, wire: seq<Codec.Packet>,
                last: seq<Codec.Packet>)
    requires Inv(cfg, s) && EndsWith(s, k, wire, last) && Enabled(cfg, s, Run(t, e, child))
    ensures EndsWith(After(cfg, s, Run(t, e, child)), k, wire, last)
  {
    var pc := s.threads[t];
    IsReady(cfg, s, t, e, child);
    Rights(cfg, s.mem, pc, s.socks[pc.k], e);
    hide Inv, ThreadStep, Knows, KnowsInflight, SockInv, MemAfter, PoolAfter, Writes, HandsOn, Ended, EndsWell, Busy;
    if pc.k == k {
      EndsLocally(cfg, s.mem, pc, s.socks[k], e);
      InflightByWriter(cfg, s.mem, pc, s.socks[k], e);
      WriterWasBusy(s, t, k);
    }
    BusyKept(cfg, s, t, e, child, k);
    RanEnds(s, After(cfg, s, Run(t, e, child)), t, e, k, wire, last);
  }

  lemma RanEnds(s: State, s': State, t: Tid, e: Effect, k: SockId, wire: seq<Codec.Packet>, last: seq<Codec.Packet>)
    requires EndsWith(s, k, wire, last) && t in s.threads && SockOf(s.threads[t]).Some?
    requires s'.socks == s.socks[s.threads[t].k := e.x]
    requires Busy(s', k) ==> Busy(s, k) && (s.threads[t].k == k ==> !Writes(s.threads[t]))
    requires s.threads[t].k == k ==>
               && EndsWell(s.threads[t], s.socks[k], e)
               && (Writes(s.threads[t]) || SameWire(s.socks[k], e.x))
               && (s.socks[k].lasting && s.threads[t].WriteBusy? ==> Busy(s, k))
    ensures EndsWith(s', k, wire, last)
  {
    hide Writes, Ended, Busy;
  }

  lemma WriterWasBusy(s: State, t: Tid, k: SockId)
    requires k in s.socks && t in s.threads && SockOf(s.threads[t]).Some? && s.threads[t].k == k
    ensures s.socks[k].lasting && s.threads[t].WriteBusy? ==> Busy(s, k)
  {
    if s.threads[t].WriteBusy? {
      assert BusyAt(s, t, k);
    }
  }

  lemma LastingIsAccepted(cfg: Config, s: State, k: SockId)
    requires Inv(cfg, s) && k in s.socks && s.socks[k].lasting
    ensures !s.socks[k].dial
  {
    assert SockInv(cfg, s.socks[k]);
  }

  /** The steps that are not of a thread on its socket leave what was written and the writers alone. */
  lemma OtherSame(cfg: Config, s: State, step: Step, k: SockId)
    requires k in s.socks && k <= s.index && Enabled(cfg, s, step) && !step.Run?
    ensures var s' := After(cfg, s, step);
            k in s'.socks && SameWire(s.socks[k], s'.socks[k]) && (Ended(s'.socks[k]) <==> Ended(s.socks[k]))
  {}

  lemma OtherBusy(cfg: Config, s: State, step: Step, k: SockId, u: Tid)
    requires Enabled(cfg, s, step) && !step.Run?
    ensures BusyAt(After(cfg, s, step), u, k) <==> BusyAt(s, u, k)
  {}

  lemma OtherEnds(cfg: Config, s: State, step: Step, k: SockId, wire: seq<Codec.Packet>, last: seq<Codec.Packet>)
    requires Inv(cfg, s) && EndsWith(s, k, wire, last) && Enabled(cfg, s, step) && !step.Run?
    ensures EndsWith(After(cfg, s, step), k, wire, last)
  {
    assert k <= s.index;
    OtherSame(cfg, s, step, k);
    forall u
      ensures BusyAt(After(cfg, s, step), u, k) <==> BusyAt(s, u, k)
    {
      OtherBusy(cfg, s, step, k, u);
    }
    hide Inv, Ended, Enabled, After, BusyAt;
  }

  lemma {:induction false} EndsAlong(cfg: Config, states: seq<State>, steps: seq<Step>, i: nat, k: SockId,
                                     wire: seq<Codec.Packet>, last: seq<Codec.Packet>)
    requires IsPath(cfg, states, steps) && i < |states| && Inv(cfg, states[0]) && EndsWith(states[0], k, wire, last)
    ensures EndsWith(states[i], k, wire, last)
  {
    hide Inv, Enabled, After, EndsWith;
    if i > 0 {
      EndsAlong(cfg, states, steps, i - 1, k, wire, last);
      InvAlong(cfg, states, steps, i - 1);
      if steps[i - 1].Run? {
        RunEnds(cfg, states[i - 1], steps[i - 1].t, steps[i - 1].e, steps[i - 1].child, k, wire, last);
      } else {
        OtherEnds(cfg, states[i - 1], steps[i - 1], k, wire, last);
      }
    }
  }

  /** What may still be added to the wire of a socket that has ended. */
  ghost function Last(s: State, k: SockId): seq<Codec.Packet> {
    if Busy(s, k) then s.socks[k].log.inflight else []
  }

  /** After the end nothing gets onto the wire but the packet in the hand of a busy writer. */
  lemma LastPacket(cfg: Config, s: State, s': State, k: SockId)
    requires Inv(cfg, s) && CanReach(cfg, s, s') && k in s.socks && Ended(s.socks[k])
    ensures k in s'.socks && Ended(s'.socks[k])
    ensures s'.socks[k].log.wire == s.socks[k].log.wire || s'.socks[k].log.wire == s.socks[k].log.wire + Last(s, k)
  {
    assert EndsWith(s, k, s.socks[k].log.wire, Last(s, k));
    assert EndsWith(s', k, s.socks[k].log.wire, Last(s, k)) by {
      hide Inv, Enabled, After, EndsWith;
      var states, steps :| IsPath(cfg, states, steps) && states[0] == s && states[|steps|] == s';
      EndsAlong(cfg, states, steps, |steps|, k, s.socks[k].log.wire, Last(s, k));
    }
  }

  /** A busy writer can still write. */
  lemma BusyWrites(cfg: Config, s: State, k: SockId, t: Tid) returns (s': State)
    requires Inv(cfg, s) && k in s.socks && s.socks[k].lasting && BusyAt(s, t, k)
    ensures CanReach(cfg, s, s') && k in s'.socks && s.socks[k].log.inflight != []
    ensures s'.socks[k].log.wire == s.socks[k].log.wire + s.socks[k].log.inflight
    ensures s'.socks[k].log.failed == s.socks[k].log.failed
  {
    var pc, x := s.threads[t], s.socks[k];
    assert ThreadWell(cfg, s, t);
    LastingIsAccepted(cfg, s, k);
    hide Inv, ThreadWell;
    var e := Move(WritePut(k, pc.m), x.(log := x.log.(wire := x.log.wire + [s.mem[pc.m]], inflight := [])));
    assert WriteStep(s.mem, pc, x, e);
    hide CanReach, WriteStep;
    Stay(cfg, s);
    Go(cfg, s, s, Run(t, e, 0));
    s' := After(cfg, s, Run(t, e, 0));
  }

  /** When the connection of an accepted socket is closed, its wire is final; on a transport that Close
      leaves open, exactly unless a writer took it before the socket let go of it. */
  lemma WireIsFinal(cfg: Config, s: State, k: SockId)
    requires Inv(cfg, s) && k in s.socks && Ended(s.socks[k])
    ensures (forall s' :: CanReach(cfg, s, s') ==> k in s'.socks && s'.socks[k].log.wire == s.socks[k].log.wire)
            <==> !Busy(s, k)
  {
    hide Inv, CanReach, Ended;
    if Busy(s, k) {
      var t :| BusyAt(s, t, k);
      var s' := BusyWrites(cfg, s, k, t);
    } else {
      forall s' | CanReach(cfg, s, s')
        ensures k in s'.socks && s'.socks[k].log.wire == s.socks[k].log.wire
      {
        LastPacket(cfg, s, s', k);
        assert s.socks[k].log.wire + [] == s.socks[k].log.wire;
      }
    }
  }

  // ----------------------------------------------------- what Close leaves

  /** A packet that Write accepted is on the queue, or in the hand of a writer who will find the
      connection closed if it is closed now. */
  ghost predicate AtRisk(s: State, k: SockId)
    requires k in s.socks
  {
    || s.socks[k].queue != []
    || (if s.socks[k].lasting then exists t :: WaitsAt(s, t, k) else s.socks[k].log.inflight != [])
  }

  ghost predicate WaitsAt(s: State, t: Tid, k: SockId) {
    t in s.threads && s.threads[t].WriteConn? && s.threads[t].k == k
  }

  /** No continuation puts all of `accepted` on the wire. */
  ghost predicate NeverAll(cfg: Config, s: State, k: SockId, accepted: seq<Codec.Packet>) {
    forall s' :: CanReach(cfg, s, s') ==> !(k in s'.socks && accepted <= s'.socks[k].log.wire)
  }

  ghost predicate ClosingNow(cfg: Config, s: State, k: SockId) {
    CanReach(cfg, Init(cfg), s) && k in s.socks && !s.socks[k].dial
    && s.socks[k].status == Closing && !s.socks[k].log.failed
  }

  /** What is known of a closing socket: its connection is open, so that all that was accepted is on the
      wire, in the writer's hand and on the queue. */
  lemma AllAccounted(cfg: Config, s: State, k: SockId)
    requires ClosingNow(cfg, s, k)
    ensures Inv(cfg, s) && Delivery.AllIn(s.mem, s.socks[k].queue)
    ensures var x := s.socks[k]; x.log.accepted == x.log.wire + x.log.inflight + Delivery.Contents(s.mem, x.queue)
    ensures s.socks[k].log.inflight != [] ==> exists t :: WaitsAt(s, t, k) || BusyAt(s, t, k)
    ensures s.socks[k].opens > 0
  {
    InvReached(cfg, s);
    assert SockInv(cfg, s.socks[k]) && Writable(s.socks[k]) && s.socks[k].opens > 0;
    ReachedByRun(cfg, s);
    hide Inv, SockInv;
    var states, steps :| IsRun(cfg, states, steps) && states[|steps|] == s;
    Delivery.InOrder(cfg, states, steps, |steps|, k);
    if s.socks[k].log.inflight != [] {
      var t :| t in s.threads && Delivery.Carries(s.threads[t], k);
      assert WaitsAt(s, t, k) || BusyAt(s, t, k);
    }
  }

  /** A waiting writer has a packet, and is the only writer. */
  lemma Waiting(cfg: Config, s: State, t: Tid, k: SockId)
    requires Inv(cfg, s) && k in s.socks && !s.socks[k].dial && WaitsAt(s, t, k)
    ensures s.socks[k].log.inflight != [] && !Busy(s, k)
  {
    assert ThreadWell(cfg, s, t);
    forall u
      ensures !BusyAt(s, u, k)
    {
      assert PairWell(s, t, u);
    }
  }

  /** The heartbeat closes the connection now, and that was all. */
  lemma ClosedNow(cfg: Config, s: State, k: SockId) returns (s': State)
    requires ClosingNow(cfg, s, k) && AtRisk(s, k)
    ensures CanReach(cfg, s, s') && k in s'.socks && !s'.socks[k].log.failed
    ensures NeverAll(cfg, s', k, s.socks[k].log.accepted)
  {
    AllAccounted(cfg, s, k);
    Stay(cfg, s);
    hide CanReach, Inv, Delivery.AllIn;
    var u := Above(s.threads.Keys);
    var x';
    s', x' := Endings.TimedOut(cfg, s, s, k, u);
    InvKept(cfg, s, s');
    BusyStays(s, s', k, u);
    if t :| WaitsAt(s, t, k) {
      Waiting(cfg, s, t, k);
    }
    var x := s.socks[k];
    assert |x.log.wire + Last(s', k)| < |x.log.accepted|;
    forall s'' | CanReach(cfg, s', s'')
      ensures !(k in s''.socks && x.log.accepted <= s''.socks[k].log.wire)
    {
      LastPacket(cfg, s', s'', k);
    }
  }

  lemma BusyStays(s: State, s': State, k: SockId, u: Tid)
    requires k in s.socks && k in s'.socks && s'.socks[k].lasting == s.socks[k].lasting
    requires s'.threads.Keys == s.threads.Keys + {u} && forall t :: t in s.threads ==> s'.threads[t] == s.threads[t]
    requires u !in s.threads && u in s'.threads && s'.threads[u].DiscType?
    ensures Busy(s', k) <==> Busy(s, k)
  {
    if t :| BusyAt(s, t, k) {
      assert BusyAt(s', t, k);
    }
    if t :| BusyAt(s', t, k) {
      assert BusyAt(s, t, k);
    }
  }

  /** All of `accepted` is on the wire, or a busy writer has the rest, or a write has failed. */
  ghost predicate Coming(s: State, k: SockId, accepted: seq<Codec.Packet>) {
    k in s.socks && !s.socks[k].dial
    && var x := s.socks[k];
       accepted <= x.log.wire || x.log.failed || (Busy(s, k) && x.log.wire + x.log.inflight == accepted)
  }

  /** The wire only grows, and a failure is not forgotten. */
  ghost predicate Grows(x: Sock, e: Effect) {
    x.log.wire <= e.x.log.wire && (x.log.failed ==> e.x.log.failed)
  }

  lemma WriteGrows(mem: map<MsgId, Codec.Packet>, pc: Pc, x: Sock, e: Effect)
    requires WriteStep(mem, pc, x, e)
    ensures Grows(x, e)
  {}

  lemma AllGrow(cfg: Config, mem: map<MsgId, Codec.Packet>, pc: Pc, x: Sock, e: Effect)
    requires ThreadStep(cfg, mem, pc, x, e)
    ensures Grows(x, e) && e.x.dial == x.dial
  {
    InflightByWriter(cfg, mem, pc, x, e);
    if Writes(pc) {
      WriterSteps(cfg, mem, pc, x, e);
      hide ThreadStep, WriteStep, OpenStep;
      if WriteStep(mem, pc, x, e) {
        WriteGrows(mem, pc, x, e);
      } else {
        NoInflightByOpen(pc, x, e);
      }
    }
    hide ThreadStep;
  }

  /** A busy writer's step ends its packet: on the wire, or failed. */
  lemma BusyEnds(mem: map<MsgId, Codec.Packet>, pc: Pc, x: Sock, e: Effect)
    requires WriteStep(mem, pc, x, e) && pc.WriteBusy? && x.lasting && !x.dial && KnowsInflight(pc, x, mem)
    ensures e.x.log.wire == x.log.wire + x.log.inflight || e.x.log.failed
  {}

  lemma RunComes(cfg: Config, s: State, t: Tid, e: Effect, child: Tid, k: SockId, accepted: seq<Codec.Packet>)
    requires Inv(cfg, s) && Coming(s, k, accepted) && Enabled(cfg, s, Run(t, e, child))
    ensures Coming(After(cfg, s, Run(t, e, child)), k, accepted)
  {
    var x := s.socks[k];
    hide Inv, ThreadStep;
    if accepted <= x.log.wire || x.log.failed {
      RunGrows(cfg, s, t, e, child, k);
    } else {
      var u :| BusyAt(s, u, k);
      if u == t {
        IsReady(cfg, s, t, e, child);
        LastBusy(cfg, s, t, e, k);
      } else {
        RunBeside(cfg, s, t, e, child, k, u);
      }
    }
    hide Ready, BusyAt, MemAfter, PoolAfter, Spawned;
  }

  lemma RunGrows(cfg: Config, s: State, t: Tid, e: Effect, child: Tid, k: SockId)
    requires Enabled(cfg, s, Run(t, e, child)) && k in s.socks
    ensures var s' := After(cfg, s, Run(t, e, child));
            k in s'.socks && s'.socks[k].dial == s.socks[k].dial
            && s.socks[k].log.wire <= s'.socks[k].log.wire && (s.socks[k].log.failed ==> s'.socks[k].log.failed)
  {
    AllGrow(cfg, s.mem, s.threads[t], s.socks[s.threads[t].k], e);
    hide ThreadStep, MemAfter, PoolAfter, Spawned;
  }

  /** A thread beside a busy writer leaves the wire and the writer alone. */
  lemma RunBeside(cfg: Config, s: State, t: Tid, e: Effect, child: Tid, k: SockId, u: Tid)
    requires Inv(cfg, s) && Enabled(cfg, s, Run(t, e, child)) && k in s.socks && !s.socks[k].dial
    requires BusyAt(s, u, k) && u != t
    ensures var s' := After(cfg, s, Run(t, e, child));
            k in s'.socks && SameWire(s.socks[k], s'.socks[k]) && BusyAt(s', u, k)
  {
    hide Inv, ThreadStep, MemAfter, PoolAfter, Writes;
    Delivery.OthersWhere(cfg, s, t, e, child);
    if s.threads[t].k == k {
      BusyIsAlone(cfg, s, t, u, k);
      InflightByWriter(cfg, s.mem, s.threads[t], s.socks[k], e);
    }
    hide Enabled, After;
  }

  lemma LastBusy(cfg: Config, s: State, t: Tid, e: Effect, k: SockId)
    requires BusyAt(s, t, k) && Ready(cfg, s, t, k, e) && s.socks[k].lasting && !s.socks[k].dial
    ensures e.x.log.wire == s.socks[k].log.wire + s.socks[k].log.inflight || e.x.log.failed
  {
    WriterSteps(cfg, s.mem, s.threads[t], s.socks[k], e);
    BusyEnds(s.mem, s.threads[t], s.socks[k], e);
  }

  lemma OtherComes(cfg: Config, s: State, step: Step, k: SockId, accepted: seq<Codec.Packet>)
    requires Inv(cfg, s) && Coming(s, k, accepted) && Enabled(cfg, s, step) && !step.Run?
    ensures Coming(After(cfg, s, step), k, accepted)
  {
    assert k <= s.index;
    OtherSame(cfg, s, step, k);
    hide Inv, Ended, Enabled, After, BusyAt;
    if u :| BusyAt(s, u, k) {
      OtherBusy(cfg, s, step, k, u);
    }
  }

  lemma {:induction false} ComesAlong(cfg: Config, states: seq<State>, steps: seq<Step>, i: nat, k: SockId,
                                      accepted: seq<Codec.Packet>)
    requires IsPath(cfg, states, steps) && i < |states| && Inv(cfg, states[0]) && Coming(states[0], k, accepted)
    ensures Coming(states[i], k, accepted)
  {
    hide Inv, Enabled, After, Coming;
    if i > 0 {
      ComesAlong(cfg, states, steps, i - 1, k, accepted);
      InvAlong(cfg, states, steps, i - 1);
      if steps[i - 1].Run? {
        RunComes(cfg, states[i - 1], steps[i - 1].t, steps[i - 1].e, steps[i - 1].child, k, accepted);
      } else {
        OtherComes(cfg, states[i - 1], steps[i - 1], k, accepted);
      }
    }
  }

  lemma StillComing(cfg: Config, s: State, s': State, k: SockId, accepted: seq<Codec.Packet>)
    requires Inv(cfg, s) && CanReach(cfg, s, s') && Coming(s, k, accepted)
    ensures Coming(s', k, accepted)
  {
    hide Inv, Enabled, After, Coming;
    var states, steps :| IsPath(cfg, states, steps) && states[0] == s && states[|steps|] == s';
    ComesAlong(cfg, states, steps, |steps|, k, accepted);
  }

  /** From wherever no write has failed, a continuation has all of it on the wire. */
  lemma CanComplete(cfg: Config, s: State, k: SockId, accepted: seq<Codec.Packet>)
    requires Inv(cfg, s) && Coming(s, k, accepted) && !s.socks[k].log.failed
    ensures !NeverAll(cfg, s, k, accepted)
  {
    hide Inv, CanReach;
    Stay(cfg, s);
    if !(accepted <= s.socks[k].log.wire) {
      var t :| BusyAt(s, t, k);
      var s' := BusyWrites(cfg, s, k, t);
    }
  }

  lemma NothingAtRisk(cfg: Config, s: State, k: SockId)
    requires ClosingNow(cfg, s, k) && !AtRisk(s, k)
    ensures Inv(cfg, s) && Coming(s, k, s.socks[k].log.accepted)
  {
    AllAccounted(cfg, s, k);
    var x := s.socks[k];
    hide Inv, CanReach;
    assert x.log.accepted == x.log.wire + x.log.inflight;
    if x.log.inflight == [] {
      assert x.log.accepted == x.log.wire;
    } else {
      var t :| WaitsAt(s, t, k) || BusyAt(s, t, k);
      assert !WaitsAt(s, t, k) || !x.lasting;
    }
  }

  /** Messages that Write accepted before Close can be lost without any write failing, exactly when one is
      on the queue, or in the hand of a writer: of any writer, if closing ends the transport, else of one
      that has yet to take the connection. */
  lemma QueuedLost(cfg: Config, s: State, k: SockId)
    requires CanReach(cfg, Init(cfg), s) && k in s.socks && !s.socks[k].dial
    requires s.socks[k].status == Closing && !s.socks[k].log.failed
    ensures (exists s' :: CanReach(cfg, s, s') && k in s'.socks && !s'.socks[k].log.failed
                          && NeverAll(cfg, s', k, s.socks[k].log.accepted))
            <==> AtRisk(s, k)
  {
    hide CanReach, AtRisk, NeverAll;
    if AtRisk(s, k) {
      var s' := ClosedNow(cfg, s, k);
    } else {
      NothingAtRisk(cfg, s, k);
      hide Inv, Coming;
      forall s' | CanReach(cfg, s, s') && k in s'.socks && !s'.socks[k].log.failed
        ensures !NeverAll(cfg, s', k, s.socks[k].log.accepted)
      {
        StillComing(cfg, s, s', k, s.socks[k].log.accepted);
        InvKept(cfg, s, s');
        CanComplete(cfg, s', k, s.socks[k].log.accepted);
      }
    }
  }
}
