// What Close does, and that it is final on an accepted socket that was connected.
module Closing {
  import opened Lifecycle
  import opened Protocol
  import opened SocketLaws
  import opened SystemLaws
  import opened Paths
  import Endings
  import Limits
  import Teardown

  /** A call of Close can come at any moment. It sets a connected socket closing, so that a sender that checks
      from then on is refused, and leaves its queue, its log and all else as they are; on any other
      socket it does nothing. */
  lemma CloseEffect(cfg: Config, s: State, k: SockId)
    requires k in s.socks
    ensures var s' := After(cfg, s, CloseCall(k));
            && CanReach(cfg, s, s') && s' == s.(socks := s'.socks) && s'.socks.Keys == s.socks.Keys
            && (forall j :: j in s.socks && j != k ==> s'.socks[j] == s.socks[j])
            && (s.socks[k].status == Connected ==> s'.socks[k] == s.socks[k].(status := Closing))
            && (s.socks[k].status != Connected ==> s' == s)
            && s'.socks[k].status != Connected
  {
    Stay(cfg, s);
    Go(cfg, s, s, CloseCall(k));
  }

  /** The creator of a socket that is not yet connected can go on to connect it. */
  lemma Connects(cfg: Config, s: State, k: SockId, t: Tid) returns (s': State)
    requires Inv(cfg, s) && k in s.socks && s.socks[k].status == Fresh && !s.socks[k].dial
    requires Teardown.OwnedBy(s, t, k)
    ensures CanReach(cfg, s, s') && k in s'.socks && s'.socks[k].status == Connected
  {
    CreatorPlace(cfg, s, k, t);
    Stay(cfg, s);
    hide CanReach, Inv, Teardown.OwnedBy;
    s' := s;
    if s.threads[t].CreStore? {
      s' := Limits.StoreAndCount(cfg, s, s, t, k);
    } else if s.threads[t].CreCount? {
      s' := Limits.CountOne(cfg, s, s, t, k);
    }
    s' := LastStep(cfg, s, s', k, t);
  }

  lemma CreatorPlace(cfg: Config, s: State, k: SockId, t: Tid)
    requires Inv(cfg, s) && k in s.socks && s.socks[k].status == Fresh && Teardown.OwnedBy(s, t, k)
    ensures t in s.threads && s.threads[t] in {CreStore(k), CreCount(k), CreConnect(k)}
  {
    assert ThreadWell(cfg, s, t);
  }

  lemma LastStep(cfg: Config, s0: State, s: State, k: SockId, t: Tid) returns (s': State)
    requires CanReach(cfg, s0, s) && t in s.threads && s.threads[t] == CreConnect(k) && k in s.socks
    ensures CanReach(cfg, s0, s') && k in s'.socks && s'.socks[k].status == Connected
  {
    hide CanReach;
    s' := GoOpen(cfg, s0, s, t, Move(SpawnRead(k, true), Connect(s.socks[k])), 0);
  }

  lemma CreatorWaits(cfg: Config, s: State, k: SockId) returns (t: Tid)
    requires CanReach(cfg, Init(cfg), s) && k in s.socks && s.socks[k].status == Fresh
    ensures Teardown.OwnedBy(s, t, k)
  {
    ReachedByRun(cfg, s);
    hide CanReach, Teardown.OwnedBy;
    var states, steps :| IsRun(cfg, states, steps) && states[|steps|] == s;
    hide IsRun;
    Teardown.AttendedAlong(cfg, states, steps, |steps|, k);
    t :| Teardown.OwnedBy(s, t, k);
  }

  /** In every reachable state: after Close an accepted socket can still be, or become, connected exactly when
      it had not been connected before the call, which then did nothing. */
  lemma CloseFinal(cfg: Config, s: State, k: SockId)
    requires CanReach(cfg, Init(cfg), s) && k in s.socks && !s.socks[k].dial
    ensures var closed := After(cfg, s, CloseCall(k));
            (exists s' :: CanReach(cfg, closed, s') && k in s'.socks && s'.socks[k].status == Connected)
            <==> s.socks[k].status == Fresh
  {
    var closed := After(cfg, s, CloseCall(k));
    CloseEffect(cfg, s, k);
    ReachOn(cfg, Init(cfg), s, closed);
    hide CanReach, Enabled, After;
    if s.socks[k].status == Fresh {
      InvReached(cfg, s);
      var t := CreatorWaits(cfg, s, k);
      var s' := Connects(cfg, s, k, t);
    } else {
      InvReached(cfg, closed);
      NotReconnecting(cfg, closed, k);
      hide Inv, Init;
      forall s' | CanReach(cfg, closed, s')
        ensures k in s'.socks && s'.socks[k].status != Connected
      {
        Endings.AcceptedStays(cfg, closed, s', k);
      }
    }
  }
}
