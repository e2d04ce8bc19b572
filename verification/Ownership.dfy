// Who owns which message: the hand-over points of message/pool.go and of socket.go.
module Ownership {
  import opened Environment
  import Codec
  import opened Protocol

  /** Where a message can be. */
  datatype Place = InPool | InQueue(k: SockId) | AtThread(t: Tid)

  /** How often a message is there. */
  function Copies(s: State, p: Place, m: MsgId): nat {
    match p
    case InPool => s.pool[m]
    case InQueue(k) => if k in s.socks then multiset(s.socks[k].queue)[m] else 0
    case AtThread(t) => if t in s.threads && Held(s.threads[t]) == Some(m) then 1 else 0
  }

  /** No message is in two places, or twice in one; so none is put into the pool twice. */
  ghost predicate Exclusive(s: State) {
    && (forall p, m :: Copies(s, p, m) <= 1)
    && (forall p, q, m :: Copies(s, p, m) > 0 && Copies(s, q, m) > 0 ==> p == q)
    && (forall p, m :: Copies(s, p, m) > 0 ==> m in s.mem)
  }

  function Source(t: Tid, k: SockId, op: MsgOp): Option<Place> {
    match op
    case Get(_) => Some(InPool)
    case Put(_) => Some(AtThread(t))
    case Lose(_) => Some(AtThread(t))
    case Enqueue(_) => Some(AtThread(t))
    case Dequeue(_) => Some(InQueue(k))
    case _ => None
  }

  function Target(t: Tid, k: SockId, op: MsgOp): Option<Place> {
    match op
    case Get(_) => Some(AtThread(t))
    case Make(_) => Some(AtThread(t))
    case Put(_) => Some(InPool)
    case Enqueue(_) => Some(InQueue(k))
    case Dequeue(_) => Some(AtThread(t))
    case _ => None
  }

  /** The operation is what the thread's hand and the queue show. */
  ghost predicate OpFits(pc: Pc, x: Sock, e: Effect) {
    && (e.spawn.Some? ==> Held(e.spawn.value).None?)
    && match e.op
       case Keep => Held(e.pc) == Held(pc) && e.x.queue == x.queue
       case Fill(m, _) => Held(pc) == Held(e.pc) == Some(m) && e.x.queue == x.queue
       case Get(m) => Held(pc).None? && Held(e.pc) == Some(m) && e.x.queue == x.queue
       case Make(m) => Held(pc).None? && Held(e.pc) == Some(m) && e.x.queue == x.queue
       case Put(m) => Held(pc) == Some(m) && Held(e.pc).None? && e.x.queue == x.queue
       case Lose(m) => Held(pc) == Some(m) && Held(e.pc).None? && e.x.queue == x.queue
       case Enqueue(m) => Held(pc) == Some(m) && Held(e.pc).None? && e.x.queue == x.queue + [m]
       case Dequeue(m) => Held(pc).None? && Held(e.pc) == Some(m) && x.queue == [m] + e.x.queue
  }

  lemma OpsFit(cfg: Config, mem: map<MsgId, Codec.Packet>, pc: Pc, x: Sock, e: Effect)
    requires ThreadStep(cfg, mem, pc, x, e)
    ensures OpFits(pc, x, e)
  {
    hide OpFits, SendStep, ReadStep, WriteStep, DiscStep, RelStep, OpenStep;
    if SendStep(cfg, mem, pc, x, e) {
      SendFits(cfg, mem, pc, x, e);
    } else if ReadStep(pc, x, e) {
      ReadFits(pc, x, e);
    } else if WriteStep(mem, pc, x, e) {
      WriteFits(mem, pc, x, e);
    } else if OpenStep(pc, x, e) {
      OpenFits(pc, x, e);
    } else {
      DiscRelFits(mem, pc, x, e);
    }
  }

  lemma SendFits(cfg: Config, mem: map<MsgId, Codec.Packet>, pc: Pc, x: Sock, e: Effect)
    requires SendStep(cfg, mem, pc, x, e)
    ensures OpFits(pc, x, e)
  {}

  lemma ReadFits(pc: Pc, x: Sock, e: Effect)
    requires ReadStep(pc, x, e)
    ensures OpFits(pc, x, e)
  {}

  lemma WriteFits(mem: map<MsgId, Codec.Packet>, pc: Pc, x: Sock, e: Effect)
    requires WriteStep(mem, pc, x, e)
    ensures OpFits(pc, x, e)
  {}

  lemma DiscRelFits(mem: map<MsgId, Codec.Packet>, pc: Pc, x: Sock, e: Effect)
    requires DiscStep(pc, x, e) || RelStep(mem, pc, x, e)
    ensures OpFits(pc, x, e)
  {}

  lemma OpenFits(pc: Pc, x: Sock, e: Effect)
    requires OpenStep(pc, x, e)
    ensures OpFits(pc, x, e)
  {}

  function IsThere(p: Option<Place>, q: Place): nat {
    if p == Some(q) then 1 else 0
  }

  /** The change in the number of copies at one place. */
  function Change(t: Tid, k: SockId, op: MsgOp, p: Place, m: MsgId): int {
    if !op.Keep? && m == op.m then IsThere(Target(t, k, op), p) - IsThere(Source(t, k, op), p) else 0
  }

  lemma PoolChange(pool: multiset<MsgId>, t: Tid, k: SockId, op: MsgOp, m: MsgId)
    requires op.Get? ==> op.m in pool
    ensures PoolAfter(pool, op)[m] == pool[m] + Change(t, k, op, InPool, m)
  {}

  lemma QueueChange(pc: Pc, x: Sock, t: Tid, k: SockId, e: Effect, m: MsgId)
    requires OpFits(pc, x, e)
    ensures multiset(e.x.queue)[m] == multiset(x.queue)[m] + Change(t, k, e.op, InQueue(k), m)
  {}

  lemma HandChange(pc: Pc, x: Sock, t: Tid, k: SockId, e: Effect, m: MsgId)
    requires OpFits(pc, x, e)
    ensures (if Held(e.pc) == Some(m) then 1 else 0)
            == (if Held(pc) == Some(m) then 1 else 0) + Change(t, k, e.op, AtThread(t), m)
  {}

  /** A step moves its message from the source to the target and touches no other message. */
  lemma RunCopies(cfg: Config, s: State, t: Tid, e: Effect, child: Tid, p: Place, m: MsgId)
    requires Enabled(cfg, s, Run(t, e, child))
    ensures Copies(After(cfg, s, Run(t, e, child)), p, m) == Copies(s, p, m) + Change(t, s.threads[t].k, e.op, p, m)
  {
    var pc := s.threads[t];
    var k := pc.k;
    OpsFit(cfg, s.mem, pc, s.socks[k], e);
    RanCopies(s, t, k, e, child, p, m);
  }

  lemma RanCopies(s: State, t: Tid, k: SockId, e: Effect, child: Tid, p: Place, m: MsgId)
    requires t in s.threads && k in s.socks && OpFits(s.threads[t], s.socks[k], e)
    requires (e.op.Get? ==> e.op.m in s.pool) && (e.spawn.Some? ==> child !in s.threads)
    ensures Copies(Ran(s, t, k, e, child), p, m) == Copies(s, p, m) + Change(t, k, e.op, p, m)
  {
    var pc := s.threads[t];
    PoolChange(s.pool, t, k, e.op, m);
    QueueChange(pc, s.socks[k], t, k, e, m);
    HandChange(pc, s.socks[k], t, k, e, m);
    assert e.spawn.Some? ==> Held(e.spawn.value).None?;
    hide OpFits, Held, PoolAfter, MemAfter, Change;
    match p {
      case InPool =>
      case InQueue(k') => if k' != k { NoChange(t, k, e.op, p, m); }
      case AtThread(t') => if t' != t { NoChange(t, k, e.op, p, m); }
    }
  }

  lemma NoChange(t: Tid, k: SockId, op: MsgOp, p: Place, m: MsgId)
    requires (p.InQueue? && p.k != k) || (p.AtThread? && p.t != t)
    ensures Change(t, k, op, p, m) == 0
  {}

  /** The socket ids in use come from the index. */
  ghost predicate Indexed(s: State) {
    forall k :: k in s.socks ==> k <= s.index
  }

  lemma FewerCopies(s: State, s': State)
    requires Exclusive(s) && s'.mem == s.mem
    requires forall p, m :: Copies(s', p, m) <= Copies(s, p, m)
    ensures Exclusive(s')
  {}

  /** Ownership is exclusive after a step of a thread: its message leaves one place for another. */
  lemma RunExclusive(cfg: Config, s: State, t: Tid, e: Effect, child: Tid)
    requires Exclusive(s) && Enabled(cfg, s, Run(t, e, child))
    ensures Exclusive(After(cfg, s, Run(t, e, child)))
  {
    var k := s.threads[t].k;
    var s' := After(cfg, s, Run(t, e, child));
    OpsFit(cfg, s.mem, s.threads[t], s.socks[k], e);
    SourceHasIt(s, t, k, e);
    forall p, m
      ensures Copies(s', p, m) == Copies(s, p, m) + Change(t, k, e.op, p, m)
    {
      RunCopies(cfg, s, t, e, child, p, m);
    }
    MoveExclusive(s, s', t, k, e.op);
  }

  lemma SourceHasIt(s: State, t: Tid, k: SockId, e: Effect)
    requires t in s.threads && k in s.socks && OpFits(s.threads[t], s.socks[k], e) && OpEnabled(s, e.op)
    ensures Source(t, k, e.op).Some? ==> Copies(s, Source(t, k, e.op).value, e.op.m) > 0
  {}

  lemma MoveExclusive(s: State, s': State, t: Tid, k: SockId, op: MsgOp)
    requires Exclusive(s) && s'.mem == MemAfter(s.mem, op) && (op.Make? ==> op.m !in s.mem)
    requires Source(t, k, op).Some? ==> Copies(s, Source(t, k, op).value, op.m) > 0
    requires forall p, m :: Copies(s', p, m) == Copies(s, p, m) + Change(t, k, op, p, m)
    ensures Exclusive(s')
  {}

  lemma StepExclusive(cfg: Config, s: State, step: Step)
    requires Exclusive(s) && Indexed(s) && Enabled(cfg, s, step)
    ensures Exclusive(After(cfg, s, step))
  {
    if step.Run? {
      RunExclusive(cfg, s, step.t, step.e, step.child);
    } else {
      var s' := After(cfg, s, step);
      forall p, m
        ensures Copies(s', p, m) <= Copies(s, p, m)
      {
        OtherCopies(cfg, s, step, p, m);
      }
      hide Copies, Exclusive;
      FewerCopies(s, s');
    }
  }

  lemma OtherCopies(cfg: Config, s: State, step: Step, p: Place, m: MsgId)
    requires Indexed(s) && Enabled(cfg, s, step) && !step.Run?
    ensures Copies(After(cfg, s, step), p, m) <= Copies(s, p, m)
  {
    OtherHands(cfg, s, step, if p.AtThread? then p.t else 0);
    hide Held;
  }

  lemma OtherHands(cfg: Config, s: State, step: Step, t: Tid)
    requires Enabled(cfg, s, step) && !step.Run?
    ensures var s' := After(cfg, s, step);
            t in s'.threads && Held(s'.threads[t]).Some? ==> t in s.threads && s'.threads[t] == s.threads[t]
  {}

  // ----------------------------------------- what ownership gives the others

  /** The contents of a message change only under the hand that holds it, or in no hand at all. */
  lemma ContentsStay(cfg: Config, s: State, t: Tid, e: Effect, child: Tid, p: Place, m: MsgId)
    requires Exclusive(s) && Enabled(cfg, s, Run(t, e, child))
    requires p != AtThread(t) && p != InPool && Copies(s, p, m) > 0
    ensures m in s.mem && m in MemAfter(s.mem, e.op) && MemAfter(s.mem, e.op)[m] == s.mem[m]
  {
    OpsFit(cfg, s.mem, s.threads[t], s.socks[s.threads[t].k], e);
    HandHasIt(s, t, s.threads[t].k, e);
    hide ThreadStep, OpFits, Copies, Exclusive, MemAfter, PoolAfter;
    NotActedOn(s, t, e.op, p, m);
  }

  lemma HandHasIt(s: State, t: Tid, k: SockId, e: Effect)
    requires t in s.threads && k in s.socks && OpFits(s.threads[t], s.socks[k], e)
    ensures e.op.Fill? || e.op.Put? ==> Copies(s, AtThread(t), e.op.m) > 0
  {}

  lemma NotActedOn(s: State, t: Tid, op: MsgOp, p: Place, m: MsgId)
    requires Exclusive(s) && OpEnabled(s, op) && p != AtThread(t) && Copies(s, p, m) > 0
    requires op.Fill? || op.Put? ==> Copies(s, AtThread(t), op.m) > 0
    ensures m in s.mem && m in MemAfter(s.mem, op) && MemAfter(s.mem, op)[m] == s.mem[m]
  {
    hide Copies;
  }

  /** Every step keeps an owned message owned, but for a panic that loses it and the pool's own clearing. */
  lemma NoneLost(cfg: Config, s: State, step: Step, p: Place, m: MsgId) returns (q: Place)
    requires Exclusive(s) && Indexed(s) && Enabled(cfg, s, step) && Copies(s, p, m) > 0
    requires step != Evict(m) && !(step.Run? && step.e.op == Lose(m))
    ensures Copies(After(cfg, s, step), q, m) == 1
  {
    StepExclusive(cfg, s, step);
    if step.Run? {
      q := NextPlace(cfg, s, step.t, step.e, step.child, p, m);
    } else {
      q := p;
    }
  }

  lemma NextPlace(cfg: Config, s: State, t: Tid, e: Effect, child: Tid, p: Place, m: MsgId) returns (q: Place)
    requires Exclusive(s) && Enabled(cfg, s, Run(t, e, child)) && Copies(s, p, m) > 0 && e.op != Lose(m)
    ensures Copies(After(cfg, s, Run(t, e, child)), q, m) >= 1
  {
    var k := s.threads[t].k;
    OpsFit(cfg, s.mem, s.threads[t], s.socks[k], e);
    SourceHasIt(s, t, k, e);
    q := MovedTo(s, t, k, e.op, p, m);
    hide ThreadStep, OpFits, Copies, Exclusive, Change;
    RunCopies(cfg, s, t, e, child, q, m);
  }

  /** Where a message is once the operation is done. */
  lemma MovedTo(s: State, t: Tid, k: SockId, op: MsgOp, p: Place, m: MsgId) returns (q: Place)
    requires Exclusive(s) && Copies(s, p, m) > 0 && op != Lose(m)
    requires Source(t, k, op).Some? ==> Copies(s, Source(t, k, op).value, op.m) > 0
    ensures Copies(s, q, m) + Change(t, k, op, q, m) >= 1
  {
    hide Copies;
    var source, target := Source(t, k, op), Target(t, k, op);
    q := if source == Some(p) && m == op.m then target.value else p;
    assert Copies(s, q, m) >= 0;
  }
}
