// The heartbeat counter of socket.go: Close, KeepAlive and Heartbeat, each taken as one step.
module Clock {
  import opened Words
  import opened Environment
  import Arith
  import opened Lifecycle

  datatype State = State(status: Status, heartbeat: I32)

  datatype Op = Tick | Alive | Shut(delay: Option<I32>)

  /** One call; `limit` is SocketConnectTime, and a timeout leads into disconnect. */
  function Apply(limit: I32, v: I32, s: State, op: Op): State {
    match op
    case Tick =>
      if !IsValid(s.status) then s
      else
        var h := WrapI32(s.heartbeat + v);
        State(if limit > 0 && h > limit then Disconnect else s.status, h)
    case Alive => if s.status == Connected then State(Connected, 0) else s
    case Shut(delay) =>
      if s.status != Connected then s
      else State(Closing, if delay.None? then limit else WrapI32(limit - delay.value))
  }

  class Socket {
    var status: Status
    var heartbeat: I32
    const limit: I32

    ghost function Now(): State
      reads this
    {
      State(status, heartbeat)
    }

    /** The fields that connect sets. */
    constructor (limit: I32)
      ensures this.limit == limit && Now() == State(Connected, 0)
    {
      this.limit := limit;
      status, heartbeat := Connected, 0;
    }

    method Close(delay: Option<I32>)
      modifies this
      ensures Now() == Apply(limit, 0, old(Now()), Shut(delay))
    {
      if status != Connected {
        return;
      }
      status := Closing;
      heartbeat := limit;
      if delay.Some? {
        heartbeat := WrapI32(heartbeat - delay.value);
      }
    }

    method KeepAlive()
      modifies this
      ensures Now() == Apply(limit, 0, old(Now()), Alive)
    {
      if status == Connected {
        heartbeat := 0;
      }
    }

    method Heartbeat(v: I32) returns (h: I32)
      modifies this
      ensures Now() == Apply(limit, v, old(Now()), Tick) && h == heartbeat
    {
      if !IsValid(status) {
        return heartbeat;
      }
      heartbeat := WrapI32(heartbeat + v);
      if limit > 0 && heartbeat > limit {
        status := Disconnect;
      }
      return heartbeat;
    }
  }

  function Run(limit: I32, v: I32, s: State, ops: seq<Op>): State
    decreases |ops|
  {
    if ops == [] then s else Run(limit, v, Apply(limit, v, s, ops[0]), ops[1..])
  }

  function Ticks(ops: seq<Op>): nat {
    if ops == [] then 0 else (if ops[0].Tick? then 1 else 0) + Ticks(ops[1..])
  }

  /** The counter has room for one more increment. */
  ghost predicate Sane(limit: I32, v: I32) {
    limit > 0 && v > 0 && limit + v < TWO_31
  }

  lemma {:induction false} ClosingRun(limit: I32, v: I32, s: State, ops: seq<Op>)
    requires Sane(limit, v) && s.status == Closing && s.heartbeat + v < TWO_31
    ensures var left := limit - s.heartbeat;
            Run(limit, v, s, ops).status
            == if Ticks(ops) >= 1 && Ticks(ops) * v > left then Disconnect else Closing
    decreases |ops|
  {
    if ops != [] {
      var s' := Apply(limit, v, s, ops[0]);
      var n := Ticks(ops[1..]);
      assert (n + 1) * v == n * v + v;
      if s'.status == Closing {
        ClosingRun(limit, v, s', ops[1..]);
      } else {
        assert n * v >= 0;
        DownRun(limit, v, s', ops[1..]);
      }
    }
  }

  /** A socket that is being torn down, or is, is left alone by every call. */
  lemma {:induction false} DownRun(limit: I32, v: I32, s: State, ops: seq<Op>)
    requires s.status in {Disconnect, Disconnected, Reconnecting, Released}
    ensures Run(limit, v, s, ops) == s
    decreases |ops|
  {
    if ops != [] {
      DownRun(limit, v, s, ops[1..]);
    }
  }

  lemma FirstTickOver(n: nat, v: nat, d: nat)
    requires v > 0
    ensures n * v > d <==> n >= d / v + 1
  {
    var q := d / v;
    Arith.QuotientBounds(d, v);
    if n >= q + 1 {
      Arith.MulMonotone(v, q + 1, n);
    } else {
      Arith.MulMonotone(v, n, q);
    }
  }

  /** The delay as the counter has it: a negative one whose counter, or the first increment of it, does
      not fit 32 bits wraps round to a very long one. */
  function Effective(limit: I32, v: I32, d: I32): (e: int)
    ensures 0 <= d ==> limit + v < TWO_31 && v > 0 ==> e == d
  {
    if limit - d + v < TWO_31 then d else d + TWO_32
  }

  /** A socket closed with delay d is disconnected by tick d/v + 1 and not before, whatever else is
      called on it meanwhile, further Close and KeepAlive calls included; with a negative delay it is
      the next tick, unless the counter wraps. */
  lemma CloseDeadline(limit: I32, v: I32, s: State, d: I32, ops: seq<Op>)
    requires Sane(limit, v) && s.status == Connected
    ensures var e := Effective(limit, v, d);
            Run(limit, v, s, [Shut(Some(d))] + ops).status
            == if Ticks(ops) >= (if e < 0 then 1 else e / v + 1) then Disconnect else Closing
  {
    var all := [Shut(Some(d))] + ops;
    assert all[1..] == ops;
    var s' := Apply(limit, v, s, all[0]);
    var e := Effective(limit, v, d);
    if s'.heartbeat + v < TWO_31 {
      ClosingRun(limit, v, s', ops);
    } else {
      WrappingRun(limit, v, s', ops);
    }
    if e >= 0 {
      FirstTickOver(Ticks(ops), v, e);
    }
  }

  /** A closing socket whose next increment wraps. */
  lemma {:induction false} WrappingRun(limit: I32, v: I32, s: State, ops: seq<Op>)
    requires Sane(limit, v) && s.status == Closing && s.heartbeat + v >= TWO_31
    ensures Run(limit, v, s, ops).status
            == if Ticks(ops) * v > limit - (s.heartbeat - TWO_32) then Disconnect else Closing
    decreases |ops|
  {
    if ops != [] {
      var s' := Apply(limit, v, s, ops[0]);
      var n := Ticks(ops[1..]);
      assert (n + 1) * v == n * v + v;
      if ops[0].Tick? {
        assert s'.heartbeat == s.heartbeat + v - TWO_32;
        ClosingRun(limit, v, s', ops[1..]);
        assert n >= 0 && (n == 0 ==> n * v == 0);
      } else {
        WrappingRun(limit, v, s', ops[1..]);
      }
    }
  }

  /** Without a delay it is the next tick. */
  lemma CloseNow(limit: I32, v: I32, s: State, ops: seq<Op>)
    requires Sane(limit, v) && s.status == Connected
    ensures Run(limit, v, s, [Shut(None)] + ops).status == if Ticks(ops) >= 1 then Disconnect else Closing
  {
    var all := [Shut(None)] + ops;
    assert all[1..] == ops;
    ClosingRun(limit, v, Apply(limit, v, s, all[0]), ops);
    FirstTickOver(Ticks(ops), v, 0);
  }

  /** n ticks on a socket that is not down: it times out when they exceed the limit, and until then the
      counter counts them. */
  lemma {:induction false} IdleRun(limit: I32, v: I32, s: State, n: nat)
    requires Sane(limit, v) && s.status in {Fresh, Connected, Closing} && s.heartbeat <= limit
    ensures var s' := Run(limit, v, s, Idle(n));
            if n * v > limit - s.heartbeat then s'.status == Disconnect
            else s' == State(s.status, s.heartbeat + n * v)
    decreases n
  {
    if n > 0 {
      var s' := Apply(limit, v, s, Tick);
      assert Idle(n)[1..] == Idle(n - 1);
      assert n * v == (n - 1) * v + v;
      if s'.status == s.status {
        IdleRun(limit, v, s', n - 1);
      } else {
        assert (n - 1) * v >= 0;
        DownRun(limit, v, s', Idle(n - 1));
      }
    }
  }

  /** n ticks and nothing else. */
  function Idle(n: nat): (ops: seq<Op>)
    ensures |ops| == n
  {
    seq(n, _ => Tick)
  }

  /** After its last KeepAlive a connected socket times out at tick limit/v + 1 exactly. */
  lemma IdleTimeout(limit: I32, v: I32, s: State, n: nat)
    requires Sane(limit, v) && s.status == Connected
    ensures Run(limit, v, s, [Alive] + Idle(n)).status == if n >= limit / v + 1 then Disconnect else Connected
  {
    assert ([Alive] + Idle(n))[1..] == Idle(n);
    IdleRun(limit, v, State(Connected, 0), n);
    FirstTickOver(n, v, limit);
  }

  /** Close and KeepAlive do nothing to a socket that is not connected: of all calls only the ticks count. */
  lemma {:induction false} OnlyTicksCount(limit: I32, v: I32, s: State, ops: seq<Op>)
    requires s.status != Connected
    ensures Run(limit, v, s, ops) == Run(limit, v, s, Idle(Ticks(ops)))
    decreases |ops|
  {
    if ops != [] {
      OnlyTicksCount(limit, v, Apply(limit, v, s, ops[0]), ops[1..]);
      if ops[0].Tick? {
        assert Idle(Ticks(ops))[1..] == Idle(Ticks(ops[1..]));
      }
    }
  }

  /** Without a limit nothing is ever timed out, and only Close on a connected socket changes the status. */
  lemma {:induction false} NoTimeout(limit: I32, v: I32, s: State, ops: seq<Op>)
    requires limit <= 0
    ensures Run(limit, v, s, ops).status
            == if s.status == Connected && exists i :: 0 <= i < |ops| && ops[i].Shut? then Closing else s.status
    decreases |ops|
  {
    if ops != [] {
      NoTimeout(limit, v, Apply(limit, v, s, ops[0]), ops[1..]);
      assert forall i :: 0 < i < |ops| ==> ops[i] == ops[1..][i - 1];
    }
  }

  /** The counter stays within one increment of the limit in every run, or of what a Close with a
      negative delay asks for; it never gets above that by wrapping. */
  lemma {:induction false} HeartbeatBound(limit: I32, v: I32, s: State, ops: seq<Op>, top: int)
    requires Sane(limit, v) && limit <= top
    requires if IsValid(s.status) then s.heartbeat <= top else s.heartbeat <= top + v
    requires forall i :: 0 <= i < |ops| && ops[i].Shut? && ops[i].delay.Some? ==> limit - ops[i].delay.value <= top
    ensures Run(limit, v, s, ops).heartbeat <= top + v
    decreases |ops|
  {
    if ops != [] {
      HeartbeatBound(limit, v, Apply(limit, v, s, ops[0]), ops[1..], top);
    }
  }
}
