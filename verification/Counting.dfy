// The connection count of sockets.go against its map of sockets, and the limit on connections.
module Counting {
  import opened Environment
  import Codec
  import opened Protocol
  import Ownership
  import opened SystemLaws

  /** The entries of the map. */
  function Registered(s: State): set<SockId> {
    set k | k in s.socks && s.socks[k].registered
  }

  /** The threads at a certain place. */
  function Where(threads: map<Tid, Pc>, at: Pc -> bool): set<Tid> {
    set t | t in threads && at(threads[t])
  }

  /** Inside Create, a socket stored and not yet counted. */
  predicate Uncounted(pc: Pc) {
    pc.CreCount?
  }

  /** Inside release, a socket counted down and not yet deleted. */
  predicate Undeleted(pc: Pc) {
    pc.RelDelete?
  }

  /** Past the check of Create and not yet counted. */
  predicate Pending(pc: Pc) {
    pc.CreIndex? || pc.CreStore? || pc.CreCount?
  }

  ghost predicate Balanced(s: State) {
    |Registered(s)| == s.count + |Where(s.threads, Uncounted)| + |Where(s.threads, Undeleted)|
  }

  function One(b: bool): nat {
    if b then 1 else 0
  }

  lemma WhereAfter(threads: map<Tid, Pc>, at: Pc -> bool, t: Tid, pc: Pc, child: Tid, spawn: Option<Pc>)
    requires t in threads && (spawn.Some? ==> child !in threads && !at(spawn.value))
    ensures |Where(Spawned(threads[t := pc], child, spawn), at)|
            == |Where(threads, at)| + One(at(pc)) - One(at(threads[t]))
  {
    var old', new' := Where(threads, at), Where(Spawned(threads[t := pc], child, spawn), at);
    assert new' == if at(pc) then old' + {t} else old' - {t};
  }

  lemma RegisteredAfter(s: State, k: SockId, x: Sock)
    requires k in s.socks
    ensures |Registered(s.(socks := s.socks[k := x]))|
            == |Registered(s)| + One(x.registered) - One(s.socks[k].registered)
  {
    var old', new' := Registered(s), Registered(s.(socks := s.socks[k := x]));
    assert new' == if x.registered then old' + {k} else old' - {k};
  }

  /** What a step does to the socket's entry and to the count, by where the thread was and is. */
  ghost predicate CountsRight(pc: Pc, x: Sock, e: Effect) {
    && e.x.registered == (if pc.CreStore? then true else if pc.RelDelete? then false else x.registered)
    && e.d == (if pc.CreCount? then 1 else if pc.RelCount? then -1 else 0)
    && (Uncounted(e.pc) <==> pc.CreStore?)
    && (Undeleted(e.pc) <==> pc.RelCount?)
    && (Pending(e.pc) ==> Pending(pc))
    && (pc.CreCount? ==> !Pending(e.pc))
    && (e.spawn.Some? ==> !Uncounted(e.spawn.value) && !Undeleted(e.spawn.value) && !Pending(e.spawn.value))
  }

  lemma CountOpenRel(mem: map<MsgId, Codec.Packet>, pc: Pc, x: Sock, e: Effect)
    requires OpenStep(pc, x, e) || RelStep(mem, pc, x, e)
    ensures CountsRight(pc, x, e)
  {}

  lemma CountSendDisc(cfg: Config, mem: map<MsgId, Codec.Packet>, pc: Pc, x: Sock, e: Effect)
    requires SendStep(cfg, mem, pc, x, e) || DiscStep(pc, x, e)
    ensures CountsRight(pc, x, e)
  {}

  lemma CountReadWrite(mem: map<MsgId, Codec.Packet>, pc: Pc, x: Sock, e: Effect)
    requires ReadStep(pc, x, e) || WriteStep(mem, pc, x, e)
    ensures CountsRight(pc, x, e)
  {}

  lemma CountEffect(cfg: Config, mem: map<MsgId, Codec.Packet>, pc: Pc, x: Sock, e: Effect)
    requires ThreadStep(cfg, mem, pc, x, e)
    ensures CountsRight(pc, x, e)
  {
    hide SendStep, ReadStep, WriteStep, DiscStep, RelStep, OpenStep, CountsRight;
    if OpenStep(pc, x, e) || RelStep(mem, pc, x, e) {
      CountOpenRel(mem, pc, x, e);
    } else if SendStep(cfg, mem, pc, x, e) || DiscStep(pc, x, e) {
      CountSendDisc(cfg, mem, pc, x, e);
    } else {
      CountReadWrite(mem, pc, x, e);
    }
  }

  /** A thread about to store its socket finds no entry, and one about to delete it finds the entry. */
  lemma EntryKnown(cfg: Config, s: State, t: Tid)
    requires Inv(cfg, s) && t in s.threads && SockOf(s.threads[t]).Some?
    ensures var pc := s.threads[t];
            && pc.k in s.socks
            && (pc.CreStore? ==> !s.socks[pc.k].registered)
            && (pc.RelDelete? ==> s.socks[pc.k].registered)
  {
    assert ThreadWell(cfg, s, t);
  }

  lemma RunBalanced(cfg: Config, s: State, t: Tid, e: Effect, child: Tid)
    requires Inv(cfg, s) && Balanced(s) && Enabled(cfg, s, Run(t, e, child))
    ensures Balanced(After(cfg, s, Run(t, e, child)))
  {
    var pc := s.threads[t];
    CountEffect(cfg, s.mem, pc, s.socks[pc.k], e);
    EntryKnown(cfg, s, t);
    hide ThreadStep, Inv, CountsRight, Balanced, Ran;
    RanBalanced(s, t, pc.k, e, child);
  }

  lemma RanBalanced(s: State, t: Tid, k: SockId, e: Effect, child: Tid)
    requires Balanced(s) && t in s.threads && k in s.socks && CountsRight(s.threads[t], s.socks[k], e)
    requires s.threads[t].CreStore? ==> !s.socks[k].registered
    requires s.threads[t].RelDelete? ==> s.socks[k].registered
    requires e.spawn.Some? ==> child !in s.threads
    ensures Balanced(Ran(s, t, k, e, child))
  {
    hide MemAfter, PoolAfter, Registered, Where, Spawned;
    RegisteredAfter(s, k, e.x);
    RegisteredSocks(s.(socks := s.socks[k := e.x]), Ran(s, t, k, e, child));
    WhereAfter(s.threads, Uncounted, t, e.pc, child, e.spawn);
    WhereAfter(s.threads, Undeleted, t, e.pc, child, e.spawn);
  }

  lemma RegisteredSocks(s: State, s': State)
    requires s.socks == s'.socks
    ensures Registered(s) == Registered(s')
  {}

  lemma StepBalanced(cfg: Config, s: State, step: Step)
    requires Inv(cfg, s) && Balanced(s) && Enabled(cfg, s, step)
    ensures Balanced(After(cfg, s, step))
  {
    if step.Run? {
      RunBalanced(cfg, s, step.t, step.e, step.child);
    } else {
      OtherBalanced(cfg, s, step);
    }
  }

  lemma OtherBalanced(cfg: Config, s: State, step: Step)
    requires Ownership.Indexed(s) && Balanced(s) && Enabled(cfg, s, step) && !step.Run?
    ensures Balanced(After(cfg, s, step))
  {
    OtherEntries(cfg, s, step);
    OtherPlaces(cfg, s, step);
    hide After, Enabled, Registered, Where;
  }

  lemma OtherEntries(cfg: Config, s: State, step: Step)
    requires Ownership.Indexed(s) && Enabled(cfg, s, step) && !step.Run?
    ensures Registered(After(cfg, s, step)) == Registered(s) && After(cfg, s, step).count == s.count
  {}

  lemma OtherPlaces(cfg: Config, s: State, step: Step)
    requires Enabled(cfg, s, step) && !step.Run?
    ensures Where(After(cfg, s, step).threads, Uncounted) == Where(s.threads, Uncounted)
    ensures Where(After(cfg, s, step).threads, Undeleted) == Where(s.threads, Undeleted)
  {}

  /** In every reachable state the map has as many entries as the count says, plus the sockets stored
      but not yet counted, plus those counted down but not yet deleted. */
  lemma {:induction false} CountConserved(cfg: Config, states: seq<State>, steps: seq<Step>, i: nat)
    requires IsRun(cfg, states, steps) && i < |states|
    ensures var s := states[i];
            |Registered(s)| == s.count + |Where(s.threads, Uncounted)| + |Where(s.threads, Undeleted)|
    decreases i
  {
    if i > 0 {
      CountConserved(cfg, states, steps, i - 1);
      Reachable(cfg, states, steps, i - 1);
      StepBalanced(cfg, states[i - 1], steps[i - 1]);
    } else {
      var s := Init(cfg);
      assert Registered(s) == {} && Where(s.threads, Uncounted) == {} && Where(s.threads, Undeleted) == {};
    }
  }

  // ------------------------------------------------------------- the limit

  ghost predicate Limited(cfg: Config, s: State) {
    cfg.maxSockets > 0 ==> s.count + |Where(s.threads, Pending)| <= cfg.maxSockets + |cfg.creators| - 1
  }

  lemma PendingAreCreators(cfg: Config, s: State)
    requires Inv(cfg, s)
    ensures Where(s.threads, Pending) <= cfg.creators && |Where(s.threads, Pending)| <= |cfg.creators|
  {
    forall t | t in Where(s.threads, Pending)
      ensures t in cfg.creators
    {
      assert ThreadWell(cfg, s, t);
    }
    SubsetSize(Where(s.threads, Pending), cfg.creators);
  }

  lemma SubsetSize<T>(a: set<T>, b: set<T>)
    requires a <= b
    ensures |a| <= |b|
  {
    assert b == a + (b - a);
  }

  lemma RunLimited(cfg: Config, s: State, t: Tid, e: Effect, child: Tid)
    requires Inv(cfg, s) && Limited(cfg, s) && Enabled(cfg, s, Run(t, e, child))
    ensures Limited(cfg, After(cfg, s, Run(t, e, child)))
  {
    var pc := s.threads[t];
    CountEffect(cfg, s.mem, pc, s.socks[pc.k], e);
    hide ThreadStep, Inv, MemAfter, PoolAfter, Where, Spawned;
    WhereAfter(s.threads, Pending, t, e.pc, child, e.spawn);
  }

  lemma StepLimited(cfg: Config, s: State, step: Step)
    requires Inv(cfg, s) && Limited(cfg, s) && Enabled(cfg, s, step)
    ensures Limited(cfg, After(cfg, s, step))
  {
    var s' := After(cfg, s, step);
    hide Inv, ThreadStep;
    if step.Run? {
      RunLimited(cfg, s, step.t, step.e, step.child);
    } else if step.Check? {
      StepInv(cfg, s, step);
      PendingAreCreators(cfg, s');
    } else {
      assert Where(s'.threads, Pending) == Where(s.threads, Pending);
    }
  }

  /** With n threads calling Create, the connections counted and those about to be counted never
      exceed the limit by more than n - 1; so a single creator keeps the limit exactly. */
  lemma {:induction false} LimitKept(cfg: Config, states: seq<State>, steps: seq<Step>, i: nat)
    requires IsRun(cfg, states, steps) && i < |states| && cfg.maxSockets > 0
    ensures states[i].count + |Where(states[i].threads, Pending)| <= cfg.maxSockets + |cfg.creators| - 1
    ensures |cfg.creators| == 1 ==> states[i].count <= cfg.maxSockets
    decreases i
  {
    hide Inv, Enabled, After;
    if i > 0 {
      LimitKept(cfg, states, steps, i - 1);
      Reachable(cfg, states, steps, i - 1);
      StepLimited(cfg, states[i - 1], steps[i - 1]);
    } else {
      assert Where(Init(cfg).threads, Pending) == {};
    }
  }
}
