// Paths of the protocol from any state, for the statements about what can and cannot come next.
module Paths {
  import Codec
  import opened Environment
  import opened Protocol
  import opened SystemLaws

  ghost predicate IsPath(cfg: Config, states: seq<State>, steps: seq<Step>) {
    && |states| == |steps| + 1
    && forall i :: 0 <= i < |steps| ==>
        Enabled(cfg, states[i], steps[i]) && states[i + 1] == After(cfg, states[i], steps[i])
  }

  ghost predicate CanReach(cfg: Config, s: State, s': State) {
    exists states, steps :: IsPath(cfg, states, steps) && states[0] == s && states[|steps|] == s'
  }

  lemma Stay(cfg: Config, s: State)
    ensures CanReach(cfg, s, s)
  {
    assert IsPath(cfg, [s], []);
  }

  lemma Go(cfg: Config, s0: State, s: State, step: Step)
    requires CanReach(cfg, s0, s) && Enabled(cfg, s, step)
    ensures CanReach(cfg, s0, After(cfg, s, step))
  {
    hide Enabled, After;
    var states, steps :| IsPath(cfg, states, steps) && states[0] == s0 && states[|steps|] == s;
    var states', steps' := states + [After(cfg, s, step)], steps + [step];
    assert IsPath(cfg, states', steps');
    assert states'[0] == s0 && states'[|steps'|] == After(cfg, s, step);
  }

  lemma {:induction false} Follow(cfg: Config, s0: State, states: seq<State>, steps: seq<Step>, i: nat)
    requires IsPath(cfg, states, steps) && i < |states| && CanReach(cfg, s0, states[0])
    ensures CanReach(cfg, s0, states[i])
  {
    hide Enabled, After, CanReach;
    if i > 0 {
      Follow(cfg, s0, states, steps, i - 1);
      Go(cfg, s0, states[i - 1], steps[i - 1]);
    }
  }

  lemma ReachOn(cfg: Config, s0: State, s: State, s': State)
    requires CanReach(cfg, s0, s) && CanReach(cfg, s, s')
    ensures CanReach(cfg, s0, s')
  {
    hide Enabled, After;
    var states, steps :| IsPath(cfg, states, steps) && states[0] == s && states[|steps|] == s';
    Follow(cfg, s0, states, steps, |steps|);
  }

  /** Being reached from the start is being a state of a run. */
  lemma ReachedByRun(cfg: Config, s: State)
    ensures CanReach(cfg, Init(cfg), s)
            <==> exists states, steps :: IsRun(cfg, states, steps) && states[|steps|] == s
  {
    hide Enabled, After;
    if CanReach(cfg, Init(cfg), s) {
      var states, steps :| IsPath(cfg, states, steps) && states[0] == Init(cfg) && states[|steps|] == s;
      assert IsRun(cfg, states, steps);
    }
    if exists states, steps :: IsRun(cfg, states, steps) && states[|steps|] == s {
      var states, steps :| IsRun(cfg, states, steps) && states[|steps|] == s;
      assert IsPath(cfg, states, steps);
    }
  }

  lemma {:induction false} InvAlong(cfg: Config, states: seq<State>, steps: seq<Step>, i: nat)
    requires IsPath(cfg, states, steps) && i < |states| && Inv(cfg, states[0])
    ensures Inv(cfg, states[i])
  {
    hide Inv, Enabled, After;
    if i > 0 {
      InvAlong(cfg, states, steps, i - 1);
      StepInv(cfg, states[i - 1], steps[i - 1]);
    }
  }

  lemma InvKept(cfg: Config, s: State, s': State)
    requires Inv(cfg, s) && CanReach(cfg, s, s')
    ensures Inv(cfg, s')
  {
    hide Inv, Enabled, After;
    var states, steps :| IsPath(cfg, states, steps) && states[0] == s && states[|steps|] == s';
    InvAlong(cfg, states, steps, |steps|);
  }

  lemma InvReached(cfg: Config, s: State)
    requires CanReach(cfg, Init(cfg), s)
    ensures Inv(cfg, s)
  {
    assert IsRun(cfg, [Init(cfg)], []);
    Reachable(cfg, [Init(cfg)], [], 0);
    InvKept(cfg, Init(cfg), s);
  }

  /** A thread that is not there yet. */
  lemma {:induction false} Above(ts: set<Tid>) returns (n: nat)
    ensures forall t :: t in ts ==> t < n
    decreases |ts|
  {
    if ts == {} {
      n := 0;
    } else {
      var t :| t in ts;
      var m := Above(ts - {t});
      assert forall u :: u in ts ==> u == t || u in ts - {t};
      n := if m <= t then t + 1 else m;
    }
  }

  // ------------------------------------------------- one step on a socket

  ghost predicate At(s: State, t: Tid, pc: Pc, x: Sock) {
    t in s.threads && s.threads[t] == pc && SockOf(pc).Some? && pc.k in s.socks && s.socks[pc.k] == x
  }

  /** Only this thread has moved, and no message has changed. */
  ghost predicate Beside(s: State, s': State, t: Tid) {
    s'.threads.Keys == s.threads.Keys && s'.mem == s.mem
    && forall u :: u in s.threads && u != t ==> s'.threads[u] == s.threads[u]
  }

  /** The steps that leave messages alone. */
  ghost predicate Quiet(mem: map<MsgId, Codec.Packet>, pc: Pc, x: Sock, e: Effect) {
    (DiscStep(pc, x, e) || OpenStep(pc, x, e) || RelStep(mem, pc, x, e)) && e.op.Keep?
  }

  lemma QuietStep(cfg: Config, mem: map<MsgId, Codec.Packet>, pc: Pc, x: Sock, e: Effect)
    requires Quiet(mem, pc, x, e)
    ensures ThreadStep(cfg, mem, pc, x, e)
  {
    hide DiscStep, OpenStep, RelStep;
  }

  /** One step of a thread at pc on socket x. */
  lemma GoRun(cfg: Config, s0: State, s: State, t: Tid, pc: Pc, x: Sock, e: Effect, child: Tid) returns (s': State)
    requires CanReach(cfg, s0, s) && At(s, t, pc, x) && Quiet(s.mem, pc, x, e)
    requires e.spawn.Some? ==> child !in s.threads && child != t && SockOf(e.spawn.value) == SockOf(pc)
    requires SockOf(e.pc) == SockOf(pc) || e.spawn.Some?
    ensures CanReach(cfg, s0, s')
    ensures e.spawn.None? ==> At(s', t, e.pc, e.x) && Beside(s, s', t)
    ensures e.spawn.Some? ==> At(s', child, e.spawn.value, e.x)
  {
    QuietStep(cfg, s.mem, pc, x, e);
    hide Quiet, ThreadStep;
    Go(cfg, s0, s, Run(t, e, child));
    s' := After(cfg, s, Run(t, e, child));
  }

  /** The other threads stand where they stood. */
  ghost predicate OthersStay(s: State, s': State, t: Tid) {
    forall u :: u in s.threads && u != t ==> u in s'.threads && s'.threads[u] == s.threads[u]
  }

  /** One step of a creator or of a redialing thread, for the threads beside it and the count. */
  lemma GoOpen(cfg: Config, s0: State, s: State, t: Tid, e: Effect, child: Tid) returns (s': State)
    requires CanReach(cfg, s0, s) && t in s.threads && SockOf(s.threads[t]).Some? && s.threads[t].k in s.socks
    requires OpenStep(s.threads[t], s.socks[s.threads[t].k], e) && e.op.Keep?
    requires e.spawn.Some? ==> child !in s.threads
    ensures CanReach(cfg, s0, s') && s'.count == s.count + e.d && s'.socks == s.socks[s.threads[t].k := e.x]
    ensures t in s'.threads && s'.threads[t] == e.pc && OthersStay(s, s', t)
  {
    QuietStep(cfg, s.mem, s.threads[t], s.socks[s.threads[t].k], e);
    hide OpenStep, ThreadStep;
    Go(cfg, s0, s, Run(t, e, child));
    s' := After(cfg, s, Run(t, e, child));
  }

  /** The creator of a socket starts its two workers. */
  lemma StartWorkers(cfg: Config, s0: State, s: State, t: Tid, k: SockId) returns (s': State)
    requires CanReach(cfg, s0, s) && t in s.threads && s.threads[t] == SpawnRead(k, true) && k in s.socks
    ensures CanReach(cfg, s0, s') && s'.count == s.count && s'.socks == s.socks && OthersStay(s, s', t)
    ensures t in s'.threads && s'.threads[t] == if s.socks[k].dial then SetAddress(k) else CreIdle
  {
    hide CanReach;
    var x := s.socks[k];
    var c1 := Above(s.threads.Keys);
    var s1 := GoOpen(cfg, s0, s, t, Effect(SpawnWrite(k, true), x, Keep, 0, Some(ReadTop(k))), c1);
    s' := StartWriter(cfg, s0, s1, t, k);
  }

  lemma StartWriter(cfg: Config, s0: State, s: State, t: Tid, k: SockId) returns (s': State)
    requires CanReach(cfg, s0, s) && t in s.threads && s.threads[t] == SpawnWrite(k, true) && k in s.socks
    ensures CanReach(cfg, s0, s') && s'.count == s.count && s'.socks == s.socks && OthersStay(s, s', t)
    ensures t in s'.threads && s'.threads[t] == if s.socks[k].dial then SetAddress(k) else CreIdle
  {
    hide CanReach;
    var x := s.socks[k];
    var c := Above(s.threads.Keys);
    s' := GoOpen(cfg, s0, s, t, Effect(if x.dial then SetAddress(k) else CreIdle, x, Keep, 0, Some(WriteTop(k))), c);
  }
}
