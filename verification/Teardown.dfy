// That a teardown, once begun, is in the hands of a thread until it is done.
module Teardown {
  import Codec
  import opened Environment
  import opened Lifecycle
  import opened Protocol
  import opened SocketLaws
  import opened SystemLaws
  import Ownership
  import opened Paths
  import Endings

  /** The states of a socket in which some thread has yet to do its part: to connect it for the first
      time, or to bring a disconnect to its end, which is a new connection or the socket's release. */
  predicate Pending(x: Sock) {
    x.status == Fresh || x.status == Disconnect || x.status == Disconnected || x.status == Reconnecting
    || (x.status == Released && x.registered)
  }

  ghost predicate OwnedBy(s: State, t: Tid, k: SockId) {
    t in s.threads && Owns(s.threads[t]) && s.threads[t].k == k
  }

  /** The owner goes on, hands over, or is done; or Close of the connection has panicked. */
  ghost predicate OwnerGoesOn(x: Sock, e: Effect) {
    || (Owns(e.pc) && e.x.stuck == x.stuck)
    || (e.spawn.Some? && Owns(e.spawn.value) && e.x.stuck == x.stuck)
    || (!Pending(e.x) && e.x.stuck == x.stuck)
    || (!Owns(e.pc) && e.spawn.None? && e.x.stuck && e.x.lasting && e.x.status == Disconnect && e.x.registered)
  }

  /** Another thread leaves the socket in its state, or becomes its owner by disconnecting it. */
  ghost predicate BystanderLeaves(x: Sock, e: Effect) {
    && e.x.stuck == x.stuck && e.x.lasting == x.lasting
    && (e.spawn.Some? ==> !Owns(e.spawn.value))
    && (if Owns(e.pc) then x.status == Connected || x.status == Closing
        else e.x.status == x.status && e.x.registered == x.registered)
  }

  lemma OwnerDisconnects(cfg: Config, pc: Pc, x: Sock, e: Effect)
    requires DiscStep(pc, x, e) && Knows(pc, x) && SockInv(cfg, x) && Owns(pc)
    ensures OwnerGoesOn(x, e)
  {}

  lemma OwnerReleases(mem: map<MsgId, Codec.Packet>, pc: Pc, x: Sock, e: Effect)
    requires RelStep(mem, pc, x, e) && Knows(pc, x)
    ensures OwnerGoesOn(x, e)
  {}

  lemma OwnerOpens(pc: Pc, x: Sock, e: Effect)
    requires OpenStep(pc, x, e) && Owns(pc)
    ensures OwnerGoesOn(x, e)
  {}

  lemma OwnerActs(cfg: Config, mem: map<MsgId, Codec.Packet>, pc: Pc, x: Sock, e: Effect)
    requires ThreadStep(cfg, mem, pc, x, e) && Knows(pc, x) && SockInv(cfg, x) && Owns(pc)
    ensures OwnerGoesOn(x, e)
  {
    OwnerSteps(cfg, mem, pc, x, e);
    hide ThreadStep, DiscStep, RelStep, OpenStep, OwnerGoesOn, Knows, SockInv, Owns;
    if DiscStep(pc, x, e) {
      OwnerDisconnects(cfg, pc, x, e);
    } else if RelStep(mem, pc, x, e) {
      OwnerReleases(mem, pc, x, e);
    } else {
      OwnerOpens(pc, x, e);
    }
  }

  lemma OwnerSteps(cfg: Config, mem: map<MsgId, Codec.Packet>, pc: Pc, x: Sock, e: Effect)
    requires ThreadStep(cfg, mem, pc, x, e) && Owns(pc)
    ensures DiscStep(pc, x, e) || RelStep(mem, pc, x, e) || OpenStep(pc, x, e)
  {}

  lemma SendReadLeaves(cfg: Config, mem: map<MsgId, Codec.Packet>, pc: Pc, x: Sock, e: Effect)
    requires SendStep(cfg, mem, pc, x, e) || ReadStep(pc, x, e)
    ensures BystanderLeaves(x, e)
  {}

  lemma WriteLeaves(mem: map<MsgId, Codec.Packet>, pc: Pc, x: Sock, e: Effect)
    requires WriteStep(mem, pc, x, e)
    ensures BystanderLeaves(x, e)
  {}

  lemma OthersLeave(mem: map<MsgId, Codec.Packet>, pc: Pc, x: Sock, e: Effect)
    requires (DiscStep(pc, x, e) || RelStep(mem, pc, x, e) || OpenStep(pc, x, e)) && Knows(pc, x) && !Owns(pc)
    ensures BystanderLeaves(x, e)
  {}

  lemma BystanderActs(cfg: Config, mem: map<MsgId, Codec.Packet>, pc: Pc, x: Sock, e: Effect)
    requires ThreadStep(cfg, mem, pc, x, e) && Knows(pc, x) && !Owns(pc)
    ensures BystanderLeaves(x, e)
  {
    hide SendStep, ReadStep, WriteStep, DiscStep, RelStep, OpenStep, BystanderLeaves, Knows, Owns;
    if SendStep(cfg, mem, pc, x, e) || ReadStep(pc, x, e) {
      SendReadLeaves(cfg, mem, pc, x, e);
    } else if WriteStep(mem, pc, x, e) {
      WriteLeaves(mem, pc, x, e);
    } else {
      OthersLeave(mem, pc, x, e);
    }
  }

  /** A pending socket has an owner, unless its teardown is stuck; then it has none, and is still registered. */
  ghost predicate Attended(s: State, k: SockId) {
    k in s.socks ==>
      var x := s.socks[k];
      && (x.stuck ==> x.lasting && x.status == Disconnect && x.registered && forall t :: !OwnedBy(s, t, k))
      && (Pending(x) && !x.stuck ==> exists t :: OwnedBy(s, t, k))
  }

  lemma OwnersBefore(cfg: Config, s: State, t: Tid, e: Effect, child: Tid, k: SockId, u: Tid)
    requires Inv(cfg, s) && Enabled(cfg, s, Run(t, e, child)) && k in s.socks
    requires OwnedBy(After(cfg, s, Run(t, e, child)), u, k)
    requires HandsOn(s.mem, s.threads[t], s.socks[s.threads[t].k], e)
    ensures || OwnedBy(s, u, k)
            || (s.threads[t].k == k && u == t && Owns(e.pc))
            || (s.threads[t].k == k && e.spawn.Some? && Owns(e.spawn.value))
  {
    if u == t {
      OwnerHasSock(e.pc);
    }
    if e.spawn.Some? && Owns(e.spawn.value) {
      OwnerHasSock(e.spawn.value);
    }
    hide Inv, ThreadStep, MemAfter, PoolAfter, Owns;
  }

  lemma OwnerHasSock(pc: Pc)
    requires Owns(pc)
    ensures SockOf(pc) == Some(pc.k)
  {}

  lemma OwnerAfter(cfg: Config, s: State, t: Tid, e: Effect, child: Tid, k: SockId, u: Tid)
    requires Enabled(cfg, s, Run(t, e, child)) && OwnedBy(s, u, k) && u != t
    ensures OwnedBy(After(cfg, s, Run(t, e, child)), u, k)
  {
    hide ThreadStep, MemAfter, PoolAfter, Owns;
  }

  lemma OneTeardown(cfg: Config, s: State, t: Tid, u: Tid, k: SockId)
    requires Inv(cfg, s) && k in s.socks && OwnedBy(s, t, k) && OwnedBy(s, u, k)
    ensures t == u
  {
    assert PairWell(s, t, u);
  }

  /** The acting thread owned the socket. */
  lemma OwnerRuns(cfg: Config, s: State, t: Tid, e: Effect, child: Tid, k: SockId)
    requires Inv(cfg, s) && Attended(s, k) && Enabled(cfg, s, Run(t, e, child))
    requires OwnedBy(s, t, k)
    ensures Attended(After(cfg, s, Run(t, e, child)), k)
  {
    var s' := After(cfg, s, Run(t, e, child));
    var pc := s.threads[t];
    IsReady(cfg, s, t, e, child);
    Rights(cfg, s.mem, pc, s.socks[k], e);
    OwnerActs(cfg, s.mem, pc, s.socks[k], e);
    assert Owns(e.pc) ==> OwnedBy(s', t, k);
    hide Inv, ThreadStep, Knows, KnowsInflight, SockInv, MemAfter, PoolAfter, Owns, Pending;
    assert !s.socks[k].stuck;
    if e.x.stuck {
      forall u
        ensures !OwnedBy(s', u, k)
      {
        if OwnedBy(s', u, k) {
          OwnersBefore(cfg, s, t, e, child, k, u);
          OneTeardown(cfg, s, t, u, k);
        }
      }
    } else if Owns(e.pc) {
      assert OwnedBy(s', t, k);
    } else if e.spawn.Some? && Owns(e.spawn.value) {
      assert OwnedBy(s', child, k);
    }
  }

  /** The acting thread did not. */
  lemma BystanderRuns(cfg: Config, s: State, t: Tid, e: Effect, child: Tid, k: SockId)
    requires Inv(cfg, s) && Attended(s, k) && Enabled(cfg, s, Run(t, e, child)) && k in s.socks
    requires !OwnedBy(s, t, k)
    ensures Attended(After(cfg, s, Run(t, e, child)), k)
  {
    var s' := After(cfg, s, Run(t, e, child));
    var pc := s.threads[t];
    var x := s.socks[k];
    IsReady(cfg, s, t, e, child);
    Rights(cfg, s.mem, pc, s.socks[pc.k], e);
    if pc.k == k {
      BystanderActs(cfg, s.mem, pc, x, e);
    }
    BystanderOwners(cfg, s, t, e, child, k);
    hide Inv, ThreadStep, Knows, KnowsInflight, SockInv, MemAfter, PoolAfter, Owns, OwnedBy, HandsOn, Pending;
    forall u | OwnedBy(s, u, k)
      ensures OwnedBy(s', u, k)
    {
      OwnerAfter(cfg, s, t, e, child, k, u);
    }
    hide BystanderLeaves, Attended;
    RanAttended(s, s', t, e, k);
  }

  lemma RanAttended(s: State, s': State, t: Tid, e: Effect, k: SockId)
    requires k in s.socks && Attended(s, k) && t in s.threads && SockOf(s.threads[t]).Some?
    requires s'.socks == s.socks[s.threads[t].k := e.x]
    requires s.threads[t].k == k ==> BystanderLeaves(s.socks[k], e) && (Owns(e.pc) ==> OwnedBy(s', t, k))
    requires forall u :: OwnedBy(s', u, k) ==> OwnedBy(s, u, k) || (s.threads[t].k == k && Owns(e.pc))
    requires forall u :: OwnedBy(s, u, k) ==> OwnedBy(s', u, k)
    ensures Attended(s', k)
  {
    hide Owns, OwnedBy;
  }

  lemma BystanderOwners(cfg: Config, s: State, t: Tid, e: Effect, child: Tid, k: SockId)
    requires Inv(cfg, s) && Enabled(cfg, s, Run(t, e, child)) && k in s.socks && !OwnedBy(s, t, k)
    requires HandsOn(s.mem, s.threads[t], s.socks[s.threads[t].k], e)
    requires s.threads[t].k == k ==> BystanderLeaves(s.socks[k], e)
    ensures var s' := After(cfg, s, Run(t, e, child));
            && (s.threads[t].k == k && Owns(e.pc) ==> OwnedBy(s', t, k))
            && forall u :: OwnedBy(s', u, k) ==> OwnedBy(s, u, k) || (s.threads[t].k == k && Owns(e.pc))
  {
    var s' := After(cfg, s, Run(t, e, child));
    forall u | OwnedBy(s', u, k)
      ensures OwnedBy(s, u, k) || (s.threads[t].k == k && Owns(e.pc))
    {
      OwnersBefore(cfg, s, t, e, child, k, u);
    }
    hide Inv, ThreadStep, MemAfter, PoolAfter;
  }

  lemma OtherAttended(cfg: Config, s: State, step: Step, k: SockId)
    requires Attended(s, k) && Ownership.Indexed(s) && Enabled(cfg, s, step) && !step.Run?
    ensures Attended(After(cfg, s, step), k)
  {
    var s' := After(cfg, s, step);
    OwnersStay(cfg, s, step, k);
    if step.Allot? && k == s.index + 1 {
      assert OwnedBy(s', step.t, k);
    } else if k in s.socks {
      assert s'.socks[k] == s.socks[k] || s'.socks[k] == s.socks[k].(status := Closing);
      hide Enabled, After, OwnedBy;
      if Pending(s'.socks[k]) && !s'.socks[k].stuck {
        var u :| OwnedBy(s, u, k);
        assert OwnedBy(s', u, k);
      }
    }
  }

  lemma OwnersStay(cfg: Config, s: State, step: Step, k: SockId)
    requires Enabled(cfg, s, step) && !step.Run?
    ensures forall u :: !(step.Allot? && u == step.t) ==>
                (OwnedBy(After(cfg, s, step), u, k) <==> OwnedBy(s, u, k))
    ensures step.Allot? && k != s.index + 1 ==>
                !OwnedBy(After(cfg, s, step), step.t, k) && !OwnedBy(s, step.t, k)
  {}

  lemma StepAttended(cfg: Config, s: State, step: Step, k: SockId)
    requires Inv(cfg, s) && Attended(s, k) && Enabled(cfg, s, step)
    ensures Attended(After(cfg, s, step), k)
  {
    if step.Run? {
      if OwnedBy(s, step.t, k) {
        assert ThreadWell(cfg, s, step.t);
        OwnerRuns(cfg, s, step.t, step.e, step.child, k);
      } else if k in s.socks {
        BystanderRuns(cfg, s, step.t, step.e, step.child, k);
      }
    } else {
      OtherAttended(cfg, s, step, k);
    }
    hide Inv, ThreadStep;
  }

  lemma {:induction false} AttendedAlong(cfg: Config, states: seq<State>, steps: seq<Step>, i: nat, k: SockId)
    requires IsRun(cfg, states, steps) && i < |states|
    ensures Attended(states[i], k)
  {
    if i > 0 {
      hide Inv, Enabled, After, Attended;
      AttendedAlong(cfg, states, steps, i - 1, k);
      Reachable(cfg, states, steps, i - 1);
      StepAttended(cfg, states[i - 1], steps[i - 1], k);
    }
  }

  /** No teardown is abandoned, and none has two owners: in every reachable state, a socket that waits to
      be connected, or whose disconnect has begun and not come to its end, has one thread that will do
      the next step, exactly unless Close of its connection has panicked, as only a UDP Conn's does. */
  lemma NotAbandoned(cfg: Config, states: seq<State>, steps: seq<Step>, i: nat, k: SockId)
    requires IsRun(cfg, states, steps) && i < |states| && k in states[i].socks && Pending(states[i].socks[k])
    ensures (exists t :: OwnedBy(states[i], t, k)) <==> !states[i].socks[k].stuck
    ensures states[i].socks[k].stuck ==> states[i].socks[k].lasting
    ensures forall t, u :: OwnedBy(states[i], t, k) && OwnedBy(states[i], u, k) ==> t == u
  {
    AttendedAlong(cfg, states, steps, i, k);
    Reachable(cfg, states, steps, i);
    hide Inv, Enabled, After, OwnedBy;
    forall t, u | OwnedBy(states[i], t, k) && OwnedBy(states[i], u, k)
      ensures t == u
    {
      OneTeardown(cfg, states[i], t, u, k);
    }
  }

  lemma StepStuck(cfg: Config, s: State, step: Step, k: SockId)
    requires Inv(cfg, s) && Attended(s, k) && Enabled(cfg, s, step) && k in s.socks && s.socks[k].stuck
    ensures var s' := After(cfg, s, step); k in s'.socks && s'.socks[k].stuck
  {
    if step.Run? && s.threads[step.t].k == k {
      IsReady(cfg, s, step.t, step.e, step.child);
      assert !OwnedBy(s, step.t, k);
      BystanderActs(cfg, s.mem, s.threads[step.t], s.socks[k], step.e);
    }
    assert k <= s.index;
    hide Inv, ThreadStep, Knows, KnowsInflight, SockInv, MemAfter, PoolAfter, Attended, OwnedBy;
  }

  /** A teardown that is stuck stays so: the socket is never released, and stays in the map and in the
      count, in every continuation. */
  lemma {:induction false} StuckForever(cfg: Config, states: seq<State>, steps: seq<Step>, i: nat, j: nat, k: SockId)
    requires IsRun(cfg, states, steps) && i <= j < |states| && k in states[i].socks && states[i].socks[k].stuck
    ensures k in states[j].socks && states[j].socks[k].stuck
    ensures states[j].socks[k].status == Disconnect && states[j].socks[k].registered
    decreases j
  {
    hide Inv, Enabled, After;
    AttendedAlong(cfg, states, steps, j, k);
    if i < j {
      StuckForever(cfg, states, steps, i, j - 1, k);
      Reachable(cfg, states, steps, j - 1);
      AttendedAlong(cfg, states, steps, j - 1, k);
      StepStuck(cfg, states[j - 1], steps[j - 1], k);
    }
  }

  /** It comes to that from every state in which such a socket is connected or closing: its user closes the
      Conn, and the heartbeat or a worker, disconnecting it, closes it again. */
  lemma CanStick(cfg: Config, s: State, k: SockId) returns (s': State)
    requires Inv(cfg, s) && k in s.socks && s.socks[k].lasting
    requires s.socks[k].status == Connected || s.socks[k].status == Closing
    ensures CanReach(cfg, s, s') && k in s'.socks && s'.socks[k].stuck
  {
    Stay(cfg, s);
    hide CanReach, Inv;
    var u := Above(s.threads.Keys);
    var s1 := Endings.TimeoutStarts(cfg, s, s, k, u);
    var s2, x := Endings.Swapped(cfg, s, s1, k, u, s.socks[k]);
    s' := Sticks(cfg, s, s2, k, u, x);
  }

  lemma Sticks(cfg: Config, s0: State, s: State, k: SockId, t: Tid, x: Sock) returns (s': State)
    requires CanReach(cfg, s0, s) && At(s, t, DiscStop(k), x)
    requires x.lasting && x.stop != 0 && x.stop !in x.closings && x.conn != 0
    ensures CanReach(cfg, s0, s') && k in s'.socks && s'.socks[k].stuck
  {
    hide CanReach, OpenStep, RelStep;
    var x1 := x.(closings := x.closings + [x.stop]);
    var s1 := GoRun(cfg, s0, s, t, DiscStop(k), x, Move(DiscClose(k), x1), 0);
    var panic := Move(Done, x1.(live := 0, stuck := true));
    assert DiscStep(DiscClose(k), x1, panic);
    hide DiscStep;
    Go(cfg, s0, s1, Run(t, panic, 0));
    s' := After(cfg, s1, Run(t, panic, 0));
  }
}
