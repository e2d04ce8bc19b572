// sockets.go: tryConnect, the dialing loop of clients.
module Retry {
  import opened Words
  import opened Arith

  datatype Config = Config(max: I32, time: I32, cap: I32)

  /** How one dial ends, and whether the context is cancelled while waiting after a refusal. */
  datatype Attempt = Accepted | Refused(cancelled: bool)

  datatype End = Connection | MaxRetry | Cancelled | StillDialing

  datatype Outcome = Outcome(dials: nat, delays: seq<I32>, end: End)

  /** The wait in milliseconds after the try with this number, in 32-bit arithmetic. */
  function Delay(c: Config, tryCount: I32): I32 {
    var d := WrapI32(c.time * WrapI32(tryCount + 1));
    if c.cap > 0 && d > c.cap then c.cap else d
  }

  function TryConnect(c: Config, attempts: seq<Attempt>, tryCount: I32): Outcome
    decreases |attempts|
  {
    if c.max > 0 && tryCount >= c.max then Outcome(0, [], MaxRetry)
    else if attempts == [] then Outcome(0, [], StillDialing)
    else if attempts[0].Accepted? then Outcome(1, [], Connection)
    else if attempts[0].cancelled then Outcome(1, [Delay(c, tryCount)], Cancelled)
    else
      var o := TryConnect(c, attempts[1..], WrapI32(tryCount + 1));
      Outcome(1 + o.dials, [Delay(c, tryCount)] + o.delays, o.end)
  }

  /** The wait that is meant: linear, up to a cap if there is one. */
  function Intended(c: Config, i: nat): int {
    var d := c.time * (i + 1);
    if c.cap > 0 && d > c.cap then c.cap else d
  }

  /** The delays of the first n tries are the intended ones exactly when no product leaves 32 bits;
      with or without a cap, and with or without a limit on the tries. */
  lemma DelaysExact(c: Config, n: nat)
    requires n < TWO_31
    ensures (forall i :: 0 <= i < n ==> Delay(c, i) == Intended(c, i)) <==> -TWO_31 <= c.time * n < TWO_31
  {
    if -TWO_31 <= c.time * n < TWO_31 {
      forall i | 0 <= i < n
        ensures Delay(c, i) == Intended(c, i)
      {
        DelayIntended(c, i, n);
      }
    } else {
      var i := FirstOutside(c.time, n);
      DelayWraps(c, i);
    }
  }

  lemma DelayIntended(c: Config, i: nat, n: nat)
    requires i < n < TWO_31 && -TWO_31 <= c.time * n < TWO_31
    ensures Delay(c, i) == Intended(c, i)
  {
    hide WrapI32;
    ProductFits(c.time, i + 1, n);
    var product := c.time * (i + 1);
    assert WrapI32(product) == product;
    assert WrapI32(i + 1) == i + 1;
  }

  lemma ProductFits(time: I32, k: nat, n: nat)
    requires k <= n && -TWO_31 <= time * n < TWO_31
    ensures -TWO_31 <= time * k < TWO_31
  {
    if time >= 0 {
      MulMonotone(time, k, n);
    } else {
      MulAntitone(time, k, n);
    }
  }

  /** The first product outside 32 bits comes back with the other sign. */
  lemma DelayWraps(c: Config, i: nat)
    requires i + 1 < TWO_31 && -TWO_31 <= c.time * i < TWO_31 && !(-TWO_31 <= c.time * (i + 1) < TWO_31)
    ensures Delay(c, i) != Intended(c, i)
  {
    var product := c.time * (i + 1);
    NextProduct(c.time, i);
    assert WrapI32(i + 1) == i + 1;
    assert WrapI32(product) == if c.time > 0 then product - TWO_32 else product + TWO_32;
    hide WrapI32;
  }

  lemma NextProduct(time: I32, i: nat)
    ensures time * (i + 1) == time * i + time
  {}

  lemma FirstOutside(time: I32, n: nat) returns (i: nat)
    requires !(-TWO_31 <= time * n < TWO_31)
    ensures i < n && -TWO_31 <= time * i < TWO_31 && !(-TWO_31 <= time * (i + 1) < TWO_31)
  {
    i := n - 1;
    while !(-TWO_31 <= time * i < TWO_31)
      invariant 0 <= i < n && !(-TWO_31 <= time * (i + 1) < TWO_31)
      decreases i
    {
      assert i > 0;
      i := i - 1;
    }
  }

  /** Whatever the network does: at most `max` dials, a delay after each refusal, and the end of
      retrying only after the last of them. */
  lemma {:induction false} RetryBound(c: Config, attempts: seq<Attempt>, tryCount: nat)
    requires c.max > 0 && tryCount <= c.max
    ensures var o := TryConnect(c, attempts, tryCount);
            && o.dials <= c.max - tryCount
            && |o.delays| <= o.dials
            && (forall i :: 0 <= i < |o.delays| ==> o.delays[i] == Delay(c, tryCount + i))
            && (o.end == MaxRetry ==> o.dials == c.max - tryCount == |o.delays|)
    decreases |attempts|
  {
    hide Delay;
    if tryCount < c.max && attempts != [] && attempts[0].Refused? && !attempts[0].cancelled {
      RetryBound(c, attempts[1..], tryCount + 1);
    }
  }

  /** Without a limit there is a dial for every refusal that is not cancelled, and no end but a
      connection or a cancellation. */
  lemma {:induction false} RetryUnlimited(c: Config, attempts: seq<Attempt>, tryCount: I32)
    requires c.max <= 0
    ensures var o := TryConnect(c, attempts, tryCount);
            && o.end != MaxRetry
            && (o.end == StillDialing <==> forall i :: 0 <= i < |attempts| ==> attempts[i] == Refused(false))
            && (o.end == StillDialing ==> o.dials == |attempts|)
    decreases |attempts|
  {
    hide Delay;
    if attempts != [] && attempts[0] == Refused(false) {
      RetryUnlimited(c, attempts[1..], WrapI32(tryCount + 1));
      assert forall i :: 0 < i < |attempts| ==> attempts[i] == attempts[1..][i - 1];
    }
  }

  /** How many dials in a row are refused, and waited out, from the first on. */
  function Refusals(attempts: seq<Attempt>): (n: nat)
    ensures n <= |attempts| && (forall i :: 0 <= i < n ==> attempts[i] == Refused(false))
    ensures n < |attempts| ==> attempts[n] != Refused(false)
  {
    if attempts == [] || attempts[0] != Refused(false) then 0 else 1 + Refusals(attempts[1..])
  }

  /** How it ends, for every configuration and whatever the network does: with the limit, when the refusals
      reach it; else with the connection of the first dial that is accepted, or with the cancellation of
      the first wait that is cancelled. With it the number of dials and of delays. */
  lemma {:induction false} EndsExactly(c: Config, attempts: seq<Attempt>, tryCount: I32)
    ensures var o, n := TryConnect(c, attempts, tryCount), Refusals(attempts);
            && (o.end == MaxRetry <==> 0 < c.max <= tryCount + n)
            && (o.end == StillDialing <==> o.end != MaxRetry && n == |attempts|)
            && (o.end == Connection <==> o.end != MaxRetry && n < |attempts| && attempts[n].Accepted?)
            && (o.end == Cancelled <==> o.end != MaxRetry && n < |attempts| && attempts[n] == Refused(true))
            && o.dials == (match o.end
                           case MaxRetry => if tryCount >= c.max then 0 else c.max - tryCount
                           case StillDialing => n
                           case Connection => n + 1
                           case Cancelled => n + 1)
            && |o.delays| == (if o.end == Connection then n else o.dials)
    decreases |attempts|
  {
    NextTry(tryCount, WrapI32(tryCount + 1), 0);
    hide Delay, WrapI32, Later;
    if !(c.max > 0 && tryCount >= c.max) && attempts != [] && attempts[0] == Refused(false) {
      EndsExactly(c, attempts[1..], WrapI32(tryCount + 1));
    }
  }

  /** The number of the try that is i tries later. */
  function Later(tryCount: I32, i: nat): I32 {
    WrapI32(tryCount + i)
  }

  /** The i-th delay is that of the try numbered so, with or without a limit. */
  lemma {:induction false} DelayNumbers(c: Config, attempts: seq<Attempt>, tryCount: I32)
    ensures var ds := TryConnect(c, attempts, tryCount).delays;
            forall i :: 0 <= i < |ds| ==> ds[i] == Delay(c, Later(tryCount, i))
    decreases |attempts|
  {
    var next := WrapI32(tryCount + 1);
    NextTry(tryCount, next, |TryConnect(c, attempts, tryCount).delays|);
    hide Delay, WrapI32, Later;
    if !(c.max > 0 && tryCount >= c.max) && attempts != [] && attempts[0] == Refused(false) {
      DelayNumbers(c, attempts[1..], next);
    }
  }

  lemma NextTry(tryCount: I32, next: I32, n: nat)
    requires next == WrapI32(tryCount + 1)
    ensures Later(tryCount, 0) == tryCount && (tryCount < TWO_31 - 1 ==> next == tryCount + 1)
    ensures forall i :: 0 <= i < n ==> Later(next, i) == Later(tryCount, i + 1)
  {
    forall i | 0 <= i < n
      ensures Later(next, i) == Later(tryCount, i + 1)
    {
      WrapTwice(tryCount + 1, i);
    }
  }

  lemma WrapTwice(a: int, b: int)
    ensures WrapI32(WrapI32(a) + b) == WrapI32(a + b)
  {
    assert (WrapI32(a) + b) % TWO_32 == (a + b) % TWO_32;
  }

  ghost predicate Bounded(c: Config) {
    c.max > 0 && c.time > 0 && c.time * c.max < TWO_31
  }

  lemma DelaysGrow(c: Config, attempts: seq<Attempt>)
    requires Bounded(c)
    ensures var ds := TryConnect(c, attempts, 0).delays;
            forall i, j :: 0 <= i <= j < |ds| ==> 0 < ds[i] <= ds[j] && (c.cap > 0 ==> ds[j] <= c.cap)
  {
    assert c.max > 0;
    hide Delay, TryConnect, Bounded;
    RetryBound(c, attempts, 0);
    var ds := TryConnect(c, attempts, 0).delays;
    forall i, j | 0 <= i <= j < |ds|
      ensures 0 < ds[i] <= ds[j] && (c.cap > 0 ==> ds[j] <= c.cap)
    {
      assert ds[i] == Delay(c, i) && ds[j] == Delay(c, j);
      DelayPair(c, i, j);
    }
  }

  lemma DelayPair(c: Config, i: nat, j: nat)
    requires Bounded(c) && i <= j < c.max
    ensures 0 < Delay(c, i) <= Delay(c, j) && (c.cap > 0 ==> Delay(c, j) <= c.cap)
  {
    hide Delay, Intended;
    DelayIntended(c, i, c.max);
    DelayIntended(c, j, c.max);
    IntendedGrows(c, i, j);
  }

  lemma IntendedGrows(c: Config, i: nat, j: nat)
    requires c.time > 0 && i <= j
    ensures 0 < Intended(c, i) <= Intended(c, j) && (c.cap > 0 ==> Intended(c, j) <= c.cap)
  {
    MulMonotone(c.time, i + 1, j + 1);
    MulMonotone(c.time, 1, i + 1);
  }

  function Total(ds: seq<I32>): int {
    if ds == [] then 0 else ds[0] + Total(ds[1..])
  }

  /** The waits from the try numbered t on, when every dial is refused. */
  function Waits(c: Config, t: nat): int
    requires c.max > 0 && t <= c.max
    decreases c.max - t
  {
    if t == c.max then 0 else Intended(c, t) + Waits(c, t + 1)
  }

  lemma {:induction false} RefusedTotal(c: Config, attempts: seq<Attempt>, t: nat)
    requires Bounded(c) && t <= c.max && |attempts| >= c.max - t
    requires forall i :: 0 <= i < |attempts| ==> attempts[i] == Refused(false)
    ensures var o := TryConnect(c, attempts, t);
            o.end == MaxRetry && o.dials == c.max - t && Total(o.delays) == Waits(c, t)
    decreases |attempts|
  {
    if t < c.max {
      DelayIntended(c, t, c.max);
      hide Delay, Intended;
      RefusedTotal(c, attempts[1..], t + 1);
      var o := TryConnect(c, attempts[1..], t + 1);
      assert ([Delay(c, t)] + o.delays)[1..] == o.delays;
    }
  }

  /** T + 2T + ... + mT up to the cap, then the cap: twice the waits before the try numbered t. */
  function TwiceWaited(c: Config, t: nat): int
    requires c.time > 0
  {
    var m := if c.cap > 0 then Min(t, c.cap / c.time) else t;
    c.time * (m * (m + 1)) + 2 * ((t - m) * c.cap)
  }

  lemma TwiceWaitedZero(c: Config)
    requires c.time > 0
    ensures TwiceWaited(c, 0) == 0
  {}

  lemma TwiceWaitedStep(c: Config, t: nat)
    requires c.time > 0 && t > 0
    ensures TwiceWaited(c, t) == TwiceWaited(c, t - 1) + 2 * Intended(c, t - 1)
  {
    if c.cap <= 0 {
      TriangleStep(c.time, t);
    } else {
      CappedStep(c, t);
    }
  }

  lemma CappedStep(c: Config, t: nat)
    requires c.time > 0 && t > 0 && c.cap > 0
    ensures TwiceWaited(c, t) == TwiceWaited(c, t - 1) + 2 * Intended(c, t - 1)
  {
    QuotientBounds(c.cap, c.time);
    if t <= c.cap / c.time {
      MulMonotone(c.time, t, c.cap / c.time);
      TriangleStep(c.time, t);
    } else {
      BeyondCap(c, t);
    }
  }

  lemma BeyondCap(c: Config, t: nat)
    requires c.time > 0 && c.cap > 0 && t > c.cap / c.time
    ensures TwiceWaited(c, t) == TwiceWaited(c, t - 1) + 2 * Intended(c, t - 1)
  {
    var k := c.cap / c.time;
    QuotientBounds(c.cap, c.time);
    MulMonotone(c.time, k + 1, t);
    MulDistributes(c.cap, t - 1 - k, 1);
  }

  lemma {:induction false} WaitsClosedForm(c: Config, t: nat)
    requires c.max > 0 && c.time > 0 && t <= c.max
    ensures 2 * (Waits(c, 0) - Waits(c, t)) == TwiceWaited(c, t)
  {
    hide TwiceWaited, Intended;
    if t == 0 {
      TwiceWaitedZero(c);
    } else {
      WaitsClosedForm(c, t - 1);
      TwiceWaitedStep(c, t);
      assert Waits(c, t - 1) == Intended(c, t - 1) + Waits(c, t);
    }
  }

  /** When every dial is refused: `max` dials, and T + 2T + ... + mT, then the cap, is the whole wait. */
  lemma AllRefused(c: Config, attempts: seq<Attempt>)
    requires Bounded(c) && |attempts| >= c.max
    requires forall i :: 0 <= i < |attempts| ==> attempts[i] == Refused(false)
    ensures var o := TryConnect(c, attempts, 0);
            o.end == MaxRetry && o.dials == c.max && 2 * Total(o.delays) == TwiceWaited(c, c.max)
  {
    RefusedTotal(c, attempts, 0);
    WaitsClosedForm(c, c.max);
  }
}
