// Senders that overlap the release of their socket.
module LateSends {
  import Codec
  import opened Environment
  import opened Lifecycle
  import opened Protocol
  import Ownership
  import opened SystemLaws
  import opened Paths
  import Endings
  import Releases

  /** A sender has found the socket ready and has yet to choose between its queue and its stop channel. */
  predicate PastCheck(pc: Pc, k: SockId) {
    (pc.SendStop? || pc.SendSelect?) && pc.k == k
  }

  /** Released, emptied, and no sender past its check. */
  ghost predicate Drained(s: State, k: SockId) {
    && k in s.socks && s.socks[k].status == Released && s.socks[k].queue == []
    && forall t :: t in s.threads ==> !PastCheck(s.threads[t], k)
  }

  /** Nobody gets past the check of a socket but by finding it connected, or fills its queue but from there. */
  ghost predicate NotLate(pc: Pc, x: Sock, e: Effect, k: SockId)
    requires SockOf(pc).Some?
  {
    && (PastCheck(e.pc, k) ==> PastCheck(pc, k) || (pc.k == k && x.status == Connected))
    && (e.spawn.Some? ==> !PastCheck(e.spawn.value, k))
    && (x.queue == [] && !PastCheck(pc, pc.k) ==> e.x.queue == [])
  }

  lemma LateBySend(cfg: Config, mem: map<MsgId, Codec.Packet>, pc: Pc, x: Sock, e: Effect, k: SockId)
    requires SockOf(pc).Some? && SendStep(cfg, mem, pc, x, e)
    ensures NotLate(pc, x, e, k)
  {}

  lemma LateByReadWrite(mem: map<MsgId, Codec.Packet>, pc: Pc, x: Sock, e: Effect, k: SockId)
    requires SockOf(pc).Some? && (ReadStep(pc, x, e) || WriteStep(mem, pc, x, e))
    ensures NotLate(pc, x, e, k)
  {}

  lemma LateByOthers(mem: map<MsgId, Codec.Packet>, pc: Pc, x: Sock, e: Effect, k: SockId)
    requires SockOf(pc).Some? && (DiscStep(pc, x, e) || RelStep(mem, pc, x, e) || OpenStep(pc, x, e))
    ensures NotLate(pc, x, e, k)
  {}

  lemma LateBySenders(cfg: Config, mem: map<MsgId, Codec.Packet>, pc: Pc, x: Sock, e: Effect, k: SockId)
    requires ThreadStep(cfg, mem, pc, x, e) && SockOf(pc).Some?
    ensures NotLate(pc, x, e, k)
  {
    hide SendStep, ReadStep, WriteStep, DiscStep, RelStep, OpenStep, NotLate;
    if SendStep(cfg, mem, pc, x, e) {
      LateBySend(cfg, mem, pc, x, e, k);
    } else if ReadStep(pc, x, e) || WriteStep(mem, pc, x, e) {
      LateByReadWrite(mem, pc, x, e, k);
    } else {
      LateByOthers(mem, pc, x, e, k);
    }
  }

  lemma RunDrained(cfg: Config, s: State, t: Tid, e: Effect, child: Tid, k: SockId)
    requires Drained(s, k) && Enabled(cfg, s, Run(t, e, child))
    requires After(cfg, s, Run(t, e, child)).socks[k].status == Released
    ensures Drained(After(cfg, s, Run(t, e, child)), k)
  {
    var pc := s.threads[t];
    LateBySenders(cfg, s.mem, pc, s.socks[pc.k], e, k);
    hide ThreadStep, MemAfter, PoolAfter;
  }

  lemma StepDrained(cfg: Config, s: State, step: Step, k: SockId)
    requires Inv(cfg, s) && Drained(s, k) && Enabled(cfg, s, step)
    ensures Drained(After(cfg, s, step), k)
  {
    StatusFollowsGraph(cfg, s, step, k);
    hide Inv, Drained;
    if step.Run? {
      hide After, Enabled;
      RunDrained(cfg, s, step.t, step.e, step.child, k);
    } else {
      OtherDrained(cfg, s, step, k);
    }
  }

  lemma OtherDrained(cfg: Config, s: State, step: Step, k: SockId)
    requires Drained(s, k) && Enabled(cfg, s, step) && !step.Run?
    requires After(cfg, s, step).socks[k].status == Released
    ensures Drained(After(cfg, s, step), k)
  {}

  lemma {:induction false} DrainedAlong(cfg: Config, states: seq<State>, steps: seq<Step>, i: nat, k: SockId)
    requires IsPath(cfg, states, steps) && i < |states| && Inv(cfg, states[0]) && Drained(states[0], k)
    ensures Drained(states[i], k)
  {
    hide Inv, Enabled, After, Drained;
    if i > 0 {
      DrainedAlong(cfg, states, steps, i - 1, k);
      InvAlong(cfg, states, steps, i - 1);
      StepDrained(cfg, states[i - 1], steps[i - 1], k);
    }
  }

  /** Once release has emptied the queue, it stays empty for good if no sender is past its check. */
  lemma DrainedForever(cfg: Config, s: State, s': State, k: SockId)
    requires Inv(cfg, s) && CanReach(cfg, s, s') && Drained(s, k)
    ensures Drained(s', k)
  {
    hide Inv, Enabled, After, Drained;
    var states, steps :| IsPath(cfg, states, steps) && states[0] == s && states[|steps|] == s';
    DrainedAlong(cfg, states, steps, |steps|, k);
  }

  lemma Enqueues(cfg: Config, s0: State, s: State, k: SockId, t: Tid) returns (s': State)
    requires CanReach(cfg, s0, s) && t in s.threads && s.threads[t].SendSelect? && s.threads[t].k == k && k in s.socks
    requires s.socks[k].queue == [] && cfg.writeChan > 0 && s.threads[t].m in s.mem
    ensures CanReach(cfg, s0, s') && s'.threads == s.threads[t := Done]
    ensures k in s'.socks && s'.socks[k].queue == [s.threads[t].m] && s'.socks[k].status == s.socks[k].status
  {
    var pc, x := s.threads[t], s.socks[k];
    var x' := x.(queue := x.queue + [pc.m], log := x.log.(accepted := x.log.accepted + [s.mem[pc.m]]));
    var late := Effect(Done, x', Enqueue(pc.m), 0, None);
    assert SendStep(cfg, s.mem, pc, x, late);
    hide CanReach, SendStep;
    Go(cfg, s0, s, Run(t, late, 0));
    s' := After(cfg, s, Run(t, late, 0));
  }

  /** The step from the check to the choice. */
  lemma Chooses(cfg: Config, s0: State, s: State, k: SockId, t: Tid) returns (s': State)
    requires CanReach(cfg, s0, s) && t in s.threads && s.threads[t].SendStop? && s.threads[t].k == k && k in s.socks
    ensures CanReach(cfg, s0, s') && s'.socks == s.socks && s'.mem == s.mem
    ensures s'.threads.Keys == s.threads.Keys && s'.threads[t].SendSelect? && s'.threads[t].k == k
    ensures s'.threads[t].m == s.threads[t].m
  {
    var pc, x := s.threads[t], s.socks[k];
    var e := Move(SendSelect(k, pc.safe, pc.m, x.stop), x);
    assert SendStep(cfg, s.mem, pc, x, e);
    hide CanReach, SendStep;
    Go(cfg, s0, s, Run(t, e, 0));
    s' := After(cfg, s, Run(t, e, 0));
  }

  lemma HeldInMemory(cfg: Config, s: State, t: Tid)
    requires Inv(cfg, s) && t in s.threads && Held(s.threads[t]).Some?
    ensures Held(s.threads[t]).value in s.mem
  {
    assert Ownership.Copies(s, Ownership.AtThread(t), Held(s.threads[t]).value) > 0;
  }

  /** A sender past its check can put its message on the queue, whatever has become of the socket. */
  lemma LateEnqueue(cfg: Config, s: State, k: SockId, t: Tid) returns (s': State)
    requires Inv(cfg, s) && k in s.socks && s.socks[k].queue == [] && cfg.writeChan > 0
    requires t in s.threads && PastCheck(s.threads[t], k)
    ensures CanReach(cfg, s, s') && k in s'.socks && s'.socks[k].queue == [s.threads[t].m]
    ensures s'.socks[k].status == s.socks[k].status
  {
    HeldInMemory(cfg, s, t);
    Stay(cfg, s);
    hide Inv, CanReach;
    var s1 := s;
    if s.threads[t].SendStop? {
      s1 := Chooses(cfg, s, s, k, t);
    }
    s' := Enqueues(cfg, s, s1, k, t);
  }

  /** The emptied queue of a released socket can fill again exactly when a sender is past its check. */
  lemma RefillExact(cfg: Config, s: State, k: SockId)
    requires Inv(cfg, s) && cfg.writeChan > 0
    requires k in s.socks && s.socks[k].status == Released && s.socks[k].queue == []
    ensures (exists s' :: CanReach(cfg, s, s') && k in s'.socks && s'.socks[k].queue != [])
            <==> exists t :: t in s.threads && PastCheck(s.threads[t], k)
  {
    hide Inv, CanReach;
    if t :| t in s.threads && PastCheck(s.threads[t], k) {
      var s' := LateEnqueue(cfg, s, k, t);
    } else {
      forall s' | CanReach(cfg, s, s')
        ensures k in s'.socks && s'.socks[k].queue == []
      {
        DrainedForever(cfg, s, s', k);
      }
    }
  }

  /** Such states come about: from every state with a connected accepted socket and a sender past its
      check, a whole release can run before the sender's message is put on the queue. */
  lemma LateSend(cfg: Config, s: State, k: SockId, t: Tid) returns (s': State)
    requires Inv(cfg, s) && k in s.socks && s.socks[k].status == Connected && !s.socks[k].client
    requires cfg.writeChan > 0 && t in s.threads && PastCheck(s.threads[t], k)
    ensures CanReach(cfg, s, s') && k in s'.socks && s'.socks[k].status == Released
    ensures s'.socks[k].queue == [s.threads[t].m]
  {
    HeldInMemory(cfg, s, t);
    hide Inv, CanReach;
    var u := Above(s.threads.Keys);
    var s3 := Releases.TimedOutAndReleased(cfg, s, k, u);
    if s3.threads[t].SendStop? {
      s3 := Chooses(cfg, s, s3, k, t);
    }
    s' := Enqueues(cfg, s, s3, k, t);
  }
}
