// The limit on connections: how far the callers of Create can go past it.
module Limits {
  import Environment
  import opened Protocol
  import Counting
  import opened Paths

  /** Create lets its caller pass: there is no limit, or it is not reached. */
  predicate HasRoom(cfg: Config, s: State) {
    cfg.maxSockets <= 0 || s.count < cfg.maxSockets
  }

  lemma DoCheck(cfg: Config, s0: State, s: State, t: Tid) returns (s': State)
    requires CanReach(cfg, s0, s) && t in s.threads && s.threads[t] == CreIdle && HasRoom(cfg, s)
    ensures CanReach(cfg, s0, s') && s'.count == s.count && OthersStay(s, s', t)
    ensures t in s'.threads && s'.threads[t] == CreIndex
  {
    hide CanReach;
    Go(cfg, s0, s, Check(t));
    s' := After(cfg, s, Check(t));
  }

  lemma DoAllot(cfg: Config, s0: State, s: State, t: Tid) returns (s': State, k: SockId)
    requires CanReach(cfg, s0, s) && t in s.threads && s.threads[t] == CreIndex
    ensures CanReach(cfg, s0, s') && s'.count == s.count && OthersStay(s, s', t)
    ensures t in s'.threads && s'.threads[t] == CreStore(k) && k in s'.socks && !s'.socks[k].dial
  {
    hide CanReach;
    Go(cfg, s0, s, Allot(t, false, false));
    s' := After(cfg, s, Allot(t, false, false));
    k := s'.index;
  }

  /** A creator past the check makes, stores and counts its socket. */
  lemma CreateOne(cfg: Config, s0: State, s: State, t: Tid) returns (s': State, k: SockId)
    requires CanReach(cfg, s0, s) && t in s.threads && s.threads[t] == CreIndex
    ensures CanReach(cfg, s0, s') && s'.count == s.count + 1 && OthersStay(s, s', t)
    ensures t in s'.threads && s'.threads[t] == CreConnect(k) && k in s'.socks && !s'.socks[k].dial
  {
    hide CanReach;
    var s1;
    s1, k := DoAllot(cfg, s0, s, t);
    s' := StoreAndCount(cfg, s0, s1, t, k);
  }

  lemma StoreAndCount(cfg: Config, s0: State, s: State, t: Tid, k: SockId) returns (s': State)
    requires CanReach(cfg, s0, s) && t in s.threads && s.threads[t] == CreStore(k) && k in s.socks && !s.socks[k].dial
    ensures CanReach(cfg, s0, s') && s'.count == s.count + 1 && OthersStay(s, s', t)
    ensures t in s'.threads && s'.threads[t] == CreConnect(k) && k in s'.socks && !s'.socks[k].dial
  {
    hide CanReach;
    var x := s.socks[k].(registered := true);
    var s1 := GoOpen(cfg, s0, s, t, Move(CreCount(k), x), 0);
    s' := CountOne(cfg, s0, s1, t, k);
  }

  lemma CountOne(cfg: Config, s0: State, s: State, t: Tid, k: SockId) returns (s': State)
    requires CanReach(cfg, s0, s) && t in s.threads && s.threads[t] == CreCount(k) && k in s.socks
    ensures CanReach(cfg, s0, s') && s'.count == s.count + 1 && s'.socks == s.socks && OthersStay(s, s', t)
    ensures t in s'.threads && s'.threads[t] == CreConnect(k)
  {
    hide CanReach;
    s' := GoOpen(cfg, s0, s, t, Effect(CreConnect(k), s.socks[k], Keep, 1, Environment.None), 0);
  }

  /** It connects, starts the two workers, and is ready to create again. */
  lemma FinishOne(cfg: Config, s0: State, s: State, t: Tid, k: SockId) returns (s': State)
    requires CanReach(cfg, s0, s) && t in s.threads && s.threads[t] == CreConnect(k) && k in s.socks && !s.socks[k].dial
    ensures CanReach(cfg, s0, s') && s'.count == s.count && OthersStay(s, s', t)
    ensures t in s'.threads && s'.threads[t] == CreIdle
  {
    hide CanReach;
    var x := Connect(s.socks[k]);
    var s1 := GoOpen(cfg, s0, s, t, Move(SpawnRead(k, true), x), 0);
    s' := StartWorkers(cfg, s0, s1, t, k);
  }

  ghost predicate AllAt(s: State, ts: set<Tid>, pc: Pc) {
    forall t :: t in ts ==> t in s.threads && s.threads[t] == pc
  }

  /** One creator alone makes n connections, as long as they are within the limit if there is one. */
  lemma {:induction false} FillUp(cfg: Config, t: Tid, n: nat) returns (s: State)
    requires t in cfg.creators && (cfg.maxSockets <= 0 || n <= cfg.maxSockets)
    ensures CanReach(cfg, Init(cfg), s) && s.count == n && AllAt(s, cfg.creators, CreIdle)
  {
    if n == 0 {
      s := Init(cfg);
      Stay(cfg, s);
    } else {
      hide CanReach, Init;
      var s1 := FillUp(cfg, t, n - 1);
      s := CreateAgain(cfg, Init(cfg), s1, t);
    }
  }

  /** The whole of Create, from the check until its caller can call it again. */
  lemma CreateAgain(cfg: Config, s0: State, s: State, t: Tid) returns (s': State)
    requires CanReach(cfg, s0, s) && t in s.threads && s.threads[t] == CreIdle && HasRoom(cfg, s)
    ensures CanReach(cfg, s0, s') && s'.count == s.count + 1 && OthersStay(s, s', t)
    ensures t in s'.threads && s'.threads[t] == CreIdle
  {
    hide CanReach;
    var s1 := DoCheck(cfg, s0, s, t);
    var s2, k := CreateOne(cfg, s0, s1, t);
    s' := FinishOne(cfg, s0, s2, t, k);
  }

  /** With a place left, all creators can pass the check before any of them counts its connection. */
  lemma {:induction false} CheckAll(cfg: Config, s0: State, s: State, ts: set<Tid>) returns (s': State)
    requires CanReach(cfg, s0, s) && HasRoom(cfg, s) && AllAt(s, ts, CreIdle)
    ensures CanReach(cfg, s0, s') && s'.count == s.count && AllAt(s', ts, CreIndex)
    ensures forall u :: u in s.threads && u !in ts ==> u in s'.threads && s'.threads[u] == s.threads[u]
    decreases |ts|
  {
    s' := s;
    if ts != {} {
      var t :| t in ts;
      hide CanReach;
      var s1 := DoCheck(cfg, s0, s, t);
      s' := CheckAll(cfg, s0, s1, ts - {t});
    }
  }

  lemma {:induction false} CreateAll(cfg: Config, s0: State, s: State, ts: set<Tid>) returns (s': State)
    requires CanReach(cfg, s0, s) && AllAt(s, ts, CreIndex)
    ensures CanReach(cfg, s0, s') && s'.count == s.count + |ts|
    decreases |ts|
  {
    s' := s;
    if ts != {} {
      var t :| t in ts;
      hide CanReach;
      var s1, _ := CreateOne(cfg, s0, s, t);
      s' := CreateAll(cfg, s0, s1, ts - {t});
    }
  }

  lemma {:induction false} Part<T>(ts: set<T>, n: nat) returns (part: set<T>)
    requires n <= |ts|
    ensures part <= ts && |part| == n
  {
    part := {};
    if n > 0 {
      var t :| t in ts;
      var rest := Part(ts - {t}, n - 1);
      part := rest + {t};
    }
  }

  lemma ReachCount(cfg: Config, n: nat) returns (s: State)
    requires cfg.creators != {} && (cfg.maxSockets <= 0 || n <= cfg.maxSockets + |cfg.creators| - 1)
    ensures CanReach(cfg, Init(cfg), s) && s.count == n
  {
    var t :| t in cfg.creators;
    hide CanReach, Init;
    if cfg.maxSockets <= 0 || n <= cfg.maxSockets {
      s := FillUp(cfg, t, n);
    } else {
      var ts := Part(cfg.creators, n - cfg.maxSockets + 1);
      var s1 := FillUp(cfg, t, cfg.maxSockets - 1);
      var s2 := CheckAll(cfg, Init(cfg), s1, ts);
      s := CreateAll(cfg, Init(cfg), s2, ts);
    }
  }

  /** With n >= 1 creators the limit can be exceeded by n - 1, for every n and every limit. */
  lemma LimitReached(cfg: Config) returns (s: State)
    requires cfg.maxSockets > 0 && cfg.creators != {}
    ensures CanReach(cfg, Init(cfg), s) && s.count == cfg.maxSockets + |cfg.creators| - 1
  {
    s := ReachCount(cfg, cfg.maxSockets + |cfg.creators| - 1);
  }

  /** Nothing begins but with a call of Create. */
  lemma NothingStarts(cfg: Config, step: Step)
    requires cfg.creators == {}
    ensures !Enabled(cfg, Init(cfg), step)
  {
    assert Init(cfg).threads.Keys == {};
  }

  /** The numbers of connections that come about in some run: with a limit exactly those up to the limit
      and one less than the number of callers beyond it, and without one all. */
  lemma CountExact(cfg: Config, n: nat)
    ensures (exists s :: CanReach(cfg, Init(cfg), s) && s.count == n)
            <==> n == 0 || (cfg.creators != {} && (cfg.maxSockets <= 0 || n <= cfg.maxSockets + |cfg.creators| - 1))
  {
    if n == 0 {
      Stay(cfg, Init(cfg));
    } else if cfg.creators != {} && (cfg.maxSockets <= 0 || n <= cfg.maxSockets + |cfg.creators| - 1) {
      var s := ReachCount(cfg, n);
    } else {
      forall s | CanReach(cfg, Init(cfg), s)
        ensures s.count != n
      {
        CountBound(cfg, s);
      }
    }
  }

  lemma CountBound(cfg: Config, s: State)
    requires CanReach(cfg, Init(cfg), s)
    ensures cfg.creators == {} ==> s.count == 0
    ensures cfg.maxSockets > 0 ==> s.count <= cfg.maxSockets + |cfg.creators| - 1
  {
    hide CanReach;
    ReachedByRun(cfg, s);
    var states, steps :| IsRun(cfg, states, steps) && states[|steps|] == s;
    if cfg.creators == {} && steps != [] {
      assert Enabled(cfg, states[0], steps[0]);
      NothingStarts(cfg, steps[0]);
    }
    if cfg.maxSockets > 0 {
      Counting.LimitKept(cfg, states, steps, |steps|);
    }
  }

  /** Some run exceeds the limit exactly when two or more threads call Create. */
  lemma LimitExact(cfg: Config)
    requires cfg.maxSockets > 0
    ensures (exists s :: CanReach(cfg, Init(cfg), s) && s.count > cfg.maxSockets) <==> |cfg.creators| >= 2
  {
    hide CanReach, IsRun;
    if |cfg.creators| >= 2 {
      var s := LimitReached(cfg);
    }
    forall s | CanReach(cfg, Init(cfg), s)
      ensures s.count <= cfg.maxSockets + |cfg.creators| - 1
    {
      CountBound(cfg, s);
    }
  }
}
