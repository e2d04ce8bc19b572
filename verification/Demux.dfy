// The UDP listener of udp/listener.go as a transition system: one step for each region under the
// mutex, each channel operation and each way a Conn leaves the table.
module Demux {
  import opened Words
  import opened Environment

  datatype Stage = Open | Leaving | Shut

  /** A Conn: what its reader has taken from its channel, and what is still in it. */
  datatype Peer = Peer(key: Bytes, stage: Stage, read: seq<Bytes>, queue: seq<Bytes>)

  /** The datagram that readLoop has looked up a Conn for and not yet put on its channel. */
  datatype Held = Held(id: nat, data: Bytes)

  /** A Conn is known by its place in the order of creation. */
  datatype Table = Table(
    peers: seq<Peer>,
    conns: map<Bytes, nat>,
    pending: seq<nat>,
    accepted: seq<nat>,
    held: Option<Held>)

  datatype Sizes = Sizes(connChan: nat, msgChan: nat)

  datatype Step =
    | Arrive(key: Bytes, data: Bytes)
    | Dispatch
    | Accept
    | Receive(id: nat)
    | Forget(id: nat)
    | Leave(id: nat)
    | Close(id: nat)
    | Again(id: nat)

  const EMPTY := Table([], map[], [], [], None)

  ghost predicate Enabled(s: Table, step: Step) {
    match step
    case Arrive(_, _) => s.held.None?
    // sending on a closed channel panics
    case Dispatch => s.held.Some? && s.held.value.id < |s.peers| && s.peers[s.held.value.id].stage != Shut
    case Accept => s.pending != []
    case Receive(id) => id in s.accepted && id < |s.peers| && s.peers[id].queue != []
    case Forget(id) => id in s.accepted && id < |s.peers|
    case Leave(id) => id in s.accepted && id < |s.peers| && s.peers[id].stage == Open
    case Close(id) => id in s.accepted && id < |s.peers| && s.peers[id].stage == Leaving
    case Again(id) => id in s.accepted && id < |s.peers| && s.peers[id].stage != Open
  }

  function NewConn(s: Table, key: Bytes, data: Bytes): Table {
    var id := |s.peers|;
    Table(s.peers + [Peer(key, Open, [], [])], s.conns[key := id], s.pending + [id], s.accepted, Some(Held(id, data)))
  }

  function Put(p: Peer, data: Bytes): Peer {
    p.(queue := p.queue + [data])
  }

  function Take(p: Peer): Peer
    requires p.queue != []
  {
    p.(read := p.read + [p.queue[0]], queue := p.queue[1..])
  }

  function After(z: Sizes, s: Table, step: Step): Table
    requires Enabled(s, step)
  {
    match step
    case Arrive(key, data) =>
      if data == [] then s
      else if key in s.conns then s.(held := Some(Held(s.conns[key], data)))
      else if |s.pending| >= z.connChan then s
      else NewConn(s, key, data)
    case Dispatch =>
      var Held(id, data) := s.held.value;
      if |s.peers[id].queue| >= z.msgChan then s.(held := None)
      else s.(peers := s.peers[id := Put(s.peers[id], data)], held := None)
    case Accept => s.(pending := s.pending[1..], accepted := s.accepted + [s.pending[0]])
    case Receive(id) => s.(peers := s.peers[id := Take(s.peers[id])])
    // Conn.Write, called directly, unregisters the address when it fails and leaves the Conn open
    case Forget(id) => s.(conns := s.conns - {s.peers[id].key})
    case Leave(id) =>
      s.(peers := s.peers[id := s.peers[id].(stage := Leaving)], conns := s.conns - {s.peers[id].key})
    case Close(id) => s.(peers := s.peers[id := s.peers[id].(stage := Shut)])
    // a further call of Conn.Close unregisters the address before it panics
    case Again(id) => s.(conns := s.conns - {s.peers[id].key})
  }

  ghost predicate IsRun(z: Sizes, states: seq<Table>, steps: seq<Step>) {
    && |states| == |steps| + 1
    && states[0] == EMPTY
    && forall i :: 0 <= i < |steps| ==> Enabled(states[i], steps[i]) && states[i + 1] == After(z, states[i], steps[i])
  }

  function Arrival(step: Step, key: Bytes): seq<Bytes> {
    if step.Arrive? && step.key == key && step.data != [] then [step.data] else []
  }

  /** The datagrams that readLoop has read from the address `key`, in order. */
  function From(steps: seq<Step>, key: Bytes): seq<Bytes> {
    if steps == [] then [] else From(steps[..|steps| - 1], key) + Arrival(steps[|steps| - 1], key)
  }

  function History(p: Peer): seq<Bytes> {
    p.read + p.queue
  }

  /** All that ever reached the channels of the Conns for `key`, Conn after Conn. */
  function Sent(peers: seq<Peer>, key: Bytes): seq<Bytes> {
    if peers == [] then []
    else
      var last := peers[|peers| - 1];
      Sent(peers[..|peers| - 1], key) + if last.key == key then History(last) else []
  }

  /** The datagram under way, when it is from `key`. */
  function InHand(s: Table, key: Bytes): seq<Bytes> {
    if s.held.Some? && s.held.value.id < |s.peers| && s.peers[s.held.value.id].key == key then [s.held.value.data]
    else []
  }

  function Got(s: Table, key: Bytes): seq<Bytes> {
    Sent(s.peers, key) + InHand(s, key)
  }

  /** The step throws away a datagram from `key`: one of the two channels is full. */
  ghost predicate Drops(z: Sizes, s: Table, step: Step, key: Bytes)
    requires Enabled(s, step)
  {
    match step
    case Arrive(k, data) => k == key && data != [] && key !in s.conns && |s.pending| >= z.connChan
    case Dispatch => s.peers[s.held.value.id].key == key && |s.peers[s.held.value.id].queue| >= z.msgChan
    case _ => false
  }

  ghost function Dropped(z: Sizes, states: seq<Table>, steps: seq<Step>, key: Bytes): nat
    requires |states| > |steps|
    requires forall i :: 0 <= i < |steps| ==> Enabled(states[i], steps[i])
  {
    if steps == [] then 0
    else
      var n := |steps| - 1;
      Dropped(z, states, steps[..n], key) + if Drops(z, states[n], steps[n], key) then 1 else 0
  }
}

// What holds over every run of the UDP listener.
module DemuxLaws {
  import opened Words
  import Flags
  import opened Environment
  import opened Codec
  import CodecLaws
  import opened Subsequences
  import opened Demux

  // ------------------------------------------------------------- the table

  /** No Conn made after `id` has its address. */
  ghost predicate Latest(peers: seq<Peer>, id: nat) {
    id < |peers| && forall i :: id < i < |peers| ==> peers[i].key != peers[id].key
  }

  function UpTo(n: nat): (s: seq<nat>)
    ensures |s| == n
  {
    seq(n, i requires 0 <= i => i)
  }

  ghost predicate Inv(z: Sizes, s: Table) {
    && (forall k :: k in s.conns ==> Latest(s.peers, s.conns[k]) && s.peers[s.conns[k]].key == k
                                     && s.peers[s.conns[k]].stage == Open)
    && (s.held.Some? ==> Latest(s.peers, s.held.value.id) && s.held.value.data != [])
    && s.accepted + s.pending == UpTo(|s.peers|)
    && |s.pending| <= z.connChan
    && forall i :: 0 <= i < |s.peers| ==> |s.peers[i].queue| <= z.msgChan
  }

  lemma StepInv(z: Sizes, s: Table, step: Step)
    requires Inv(z, s) && Enabled(s, step)
    ensures Inv(z, After(z, s, step))
  {
    if step.Arrive? {
      ArriveInv(z, s, step.key, step.data);
    } else if step.Accept? {
      AcceptInv(z, s);
    } else if step.Dispatch? || step.Receive? {
      QueueInv(z, s, step);
    } else {
      LeaveInv(z, s, step);
    }
    hide Inv, Enabled, After;
  }

  lemma AcceptInv(z: Sizes, s: Table)
    requires Inv(z, s) && Enabled(s, Accept)
    ensures Inv(z, After(z, s, Accept))
  {
    var t := After(z, s, Accept);
    assert t.accepted + t.pending == s.accepted + s.pending;
  }

  lemma QueueInv(z: Sizes, s: Table, step: Step)
    requires Inv(z, s) && Enabled(s, step) && (step.Dispatch? || step.Receive?)
    ensures Inv(z, After(z, s, step))
  {}

  lemma LeaveInv(z: Sizes, s: Table, step: Step)
    requires Inv(z, s) && Enabled(s, step)
    requires !step.Arrive? && !step.Accept? && !step.Dispatch? && !step.Receive?
    ensures Inv(z, After(z, s, step))
  {}

  lemma ArriveInv(z: Sizes, s: Table, key: Bytes, data: Bytes)
    requires Inv(z, s) && s.held.None?
    ensures Inv(z, After(z, s, Arrive(key, data)))
  {
    var t := After(z, s, Arrive(key, data));
    if |t.peers| > |s.peers| {
      assert t.accepted + t.pending == s.accepted + s.pending + [|s.peers|];
    }
  }

  lemma Extend(z: Sizes, states: seq<Table>, steps: seq<Step>, step: Step)
    requires IsRun(z, states, steps) && Enabled(states[|steps|], step)
    ensures IsRun(z, states + [After(z, states[|steps|], step)], steps + [step])
    ensures forall key :: From(steps + [step], key) == From(steps, key) + Arrival(step, key)
  {
    hide Enabled, After, Arrival, From;
    forall key
      ensures From(steps + [step], key) == From(steps, key) + Arrival(step, key)
    {
      FromGrows(steps, step, key);
    }
  }

  lemma FromGrows(steps: seq<Step>, step: Step, key: Bytes)
    ensures From(steps + [step], key) == From(steps, key) + Arrival(step, key)
  {
    assert (steps + [step])[..|steps|] == steps;
  }

  /** In every reachable state the table knows at most one Conn for an address, the newest one and
      open, and every Conn made has been put on the accept channel once, in the order made. */
  lemma {:induction false} Reachable(z: Sizes, states: seq<Table>, steps: seq<Step>, i: nat)
    requires IsRun(z, states, steps) && i < |states|
    ensures Inv(z, states[i])
    ensures states[i].accepted + states[i].pending == UpTo(|states[i].peers|)
  {
    if i > 0 {
      Reachable(z, states, steps, i - 1);
      StepInv(z, states[i - 1], steps[i - 1]);
    }
  }

  // ---------------------------------------------------------------- order

  lemma {:induction false} SentSame(ps: seq<Peer>, qs: seq<Peer>, key: Bytes)
    requires |ps| == |qs|
    requires forall i :: 0 <= i < |ps| ==> ps[i].key == qs[i].key && History(ps[i]) == History(qs[i])
    ensures Sent(ps, key) == Sent(qs, key)
  {
    if ps != [] {
      SentSame(ps[..|ps| - 1], qs[..|qs| - 1], key);
    }
  }

  /** What goes to the newest Conn of an address comes last in the address's history. */
  lemma {:induction false} SentPut(peers: seq<Peer>, id: nat, data: Bytes, key: Bytes)
    requires Latest(peers, id)
    ensures Sent(peers[id := Put(peers[id], data)], key)
            == Sent(peers, key) + if peers[id].key == key then [data] else []
  {
    var n := |peers| - 1;
    var qs := peers[id := Put(peers[id], data)];
    if id == n {
      assert qs[..n] == peers[..n];
      assert History(qs[n]) == History(peers[n]) + [data];
    } else {
      SentPut(peers[..n], id, data, key);
      assert qs[..n] == peers[..n][id := Put(peers[id], data)];
    }
  }

  lemma TakeKeepsHistory(p: Peer)
    requires p.queue != []
    ensures History(Take(p)) == History(p)
  {}

  lemma SentNew(peers: seq<Peer>, p: Peer, key: Bytes)
    requires History(p) == []
    ensures Sent(peers + [p], key) == Sent(peers, key)
  {}

  /** A Conn that keeps its address and history changes nothing. */
  lemma GotSame(s: Table, t: Table, key: Bytes)
    requires |t.peers| == |s.peers| && t.held == s.held
    requires forall i :: 0 <= i < |s.peers| ==>
             t.peers[i].key == s.peers[i].key && History(t.peers[i]) == History(s.peers[i])
    ensures Got(t, key) == Got(s, key)
  {
    SentSame(s.peers, t.peers, key);
  }

  lemma ArriveGot(z: Sizes, s: Table, k: Bytes, data: Bytes, key: Bytes)
    requires Inv(z, s) && s.held.None?
    ensures var step := Arrive(k, data);
            Got(After(z, s, step), key) == Got(s, key) + if Drops(z, s, step, key) then [] else Arrival(step, key)
  {
    NewHistory(k);
    hide Sent, History, UpTo;
    SentNew(s.peers, Peer(k, Open, [], []), key);
  }

  lemma NewHistory(key: Bytes)
    ensures History(Peer(key, Open, [], [])) == []
  {}

  lemma DispatchGot(z: Sizes, s: Table, key: Bytes)
    requires Inv(z, s) && Enabled(s, Dispatch)
    ensures var got, got' := Got(s, key), Got(After(z, s, Dispatch), key);
            if Drops(z, s, Dispatch, key) then got != [] && got' == got[..|got| - 1] else got' == got
  {
    hide Sent, UpTo;
    SentPut(s.peers, s.held.value.id, s.held.value.data, key);
  }

  /** Each step adds what arrives from the address, or drops the arrival, or drops the one in hand. */
  lemma StepGot(z: Sizes, s: Table, step: Step, key: Bytes)
    requires Inv(z, s) && Enabled(s, step)
    ensures var got := Got(s, key);
            if !Drops(z, s, step, key) then Got(After(z, s, step), key) == got + Arrival(step, key)
            else if step.Arrive? then Got(After(z, s, step), key) == got
            else got != [] && Got(After(z, s, step), key) == got[..|got| - 1]
  {
    hide Got, Inv;
    if step.Arrive? {
      ArriveGot(z, s, step.key, step.data, key);
    } else if step.Dispatch? {
      DispatchGot(z, s, key);
    } else {
      if step.Receive? {
        TakeKeepsHistory(s.peers[step.id]);
      }
      GotSame(s, After(z, s, step), key);
    }
  }

  lemma StepInOrder(z: Sizes, s: Table, step: Step, key: Bytes, from: seq<Bytes>)
    requires Inv(z, s) && Enabled(s, step) && Sub(Got(s, key), from)
    ensures var got, from' := Got(After(z, s, step), key), from + Arrival(step, key);
            Sub(got, from') && |from'| - |got| == |from| - |Got(s, key)| + if Drops(z, s, step, key) then 1 else 0
  {
    StepGot(z, s, step, key);
    var got := Got(s, key);
    if Arrival(step, key) != [] {
      SubGrows(got, from, step.data);
    } else {
      assert from + [] == from && got + [] == got;
      if Drops(z, s, step, key) {
        SubPart(got, from, 0, |got| - 1);
      }
    }
  }

  /** Per address, in every run: what reached its Conns, Conn after Conn, is what arrived from it, in
      order and unchanged, short of exactly the datagrams dropped because a channel was full. */
  lemma {:induction false} AddressInOrder(z: Sizes, states: seq<Table>, steps: seq<Step>, i: nat, key: Bytes)
    requires IsRun(z, states, steps) && i < |states|
    ensures Sub(Got(states[i], key), From(steps[..i], key))
    ensures |From(steps[..i], key)| == |Got(states[i], key)| + Dropped(z, states, steps[..i], key)
  {
    hide Inv, Enabled, After, Sub, Got, Arrival, Drops;
    if i == 0 {
      EmptyInOrder(key);
    } else {
      AddressInOrder(z, states, steps, i - 1, key);
      Reachable(z, states, steps, i - 1);
      StepInOrder(z, states[i - 1], steps[i - 1], key, From(steps[..i - 1], key));
      assert steps[..i][..i - 1] == steps[..i - 1];
    }
  }

  lemma EmptyInOrder(key: Bytes)
    ensures Got(EMPTY, key) == [] && Sub(Got(EMPTY, key), [])
  {}

  /** Nothing is missing exactly when no channel was full; and all of it has reached the channels
      exactly when, besides, none is in the loop's hand. */
  lemma NothingLost(z: Sizes, states: seq<Table>, steps: seq<Step>, i: nat, key: Bytes)
    requires IsRun(z, states, steps) && i < |states|
    ensures Got(states[i], key) == From(steps[..i], key) <==> Dropped(z, states, steps[..i], key) == 0
    ensures Sent(states[i].peers, key) == From(steps[..i], key)
            <==> Dropped(z, states, steps[..i], key) == 0 && InHand(states[i], key) == []
  {
    AddressInOrder(z, states, steps, i, key);
    SubLength(Got(states[i], key), From(steps[..i], key));
  }

  /** The loop has looked up a Conn that is closed now, so that its send panics. */
  predicate Panics(s: Table) {
    s.held.Some? && s.held.value.id < |s.peers| && s.peers[s.held.value.id].stage == Shut
  }

  /** The datagram in the hand of a loop that panics stays there in every continuation: it is lost, and
      nothing arrives any more. */
  lemma {:induction false} PanicIsFinal(z: Sizes, states: seq<Table>, steps: seq<Step>, a: nat, i: nat)
    requires IsRun(z, states, steps) && a <= i < |states| && Panics(states[a])
    ensures Panics(states[i]) && states[i].held == states[a].held
    ensures forall key :: From(steps[..i], key) == From(steps[..a], key)
  {
    if i > a {
      PanicIsFinal(z, states, steps, a, i - 1);
      hide From;
      HeldStays(z, states[i - 1], steps[i - 1]);
      forall key
        ensures From(steps[..i], key) == From(steps[..a], key)
      {
        NoArrival(steps, i, key);
      }
    }
  }

  lemma NoArrival(steps: seq<Step>, i: nat, key: Bytes)
    requires 0 < i <= |steps| && !steps[i - 1].Arrive?
    ensures From(steps[..i], key) == From(steps[..i - 1], key)
  {
    assert steps[..i][..i - 1] == steps[..i - 1];
  }

  lemma {:induction false} HistoryWithin(peers: seq<Peer>, id: nat) returns (a: nat)
    requires id < |peers|
    ensures a + |History(peers[id])| <= |Sent(peers, peers[id].key)|
    ensures Sent(peers, peers[id].key)[a..a + |History(peers[id])|] == History(peers[id])
  {
    var n := |peers| - 1;
    if id == n {
      a := |Sent(peers[..n], peers[id].key)|;
    } else {
      a := HistoryWithin(peers[..n], id);
      var init := Sent(peers[..n], peers[id].key);
      assert Sent(peers, peers[id].key)[..|init|] == init;
      assert init[a..a + |History(peers[id])|] == Sent(peers, peers[id].key)[a..a + |History(peers[id])|];
    }
  }

  /** Each Conn sees, in order, only datagrams from its own address. */
  lemma ConnHistory(z: Sizes, states: seq<Table>, steps: seq<Step>, i: nat, id: nat)
    requires IsRun(z, states, steps) && i < |states| && id < |states[i].peers|
    ensures Sub(History(states[i].peers[id]), From(steps[..i], states[i].peers[id].key))
    ensures Sub(states[i].peers[id].read, From(steps[..i], states[i].peers[id].key))
  {
    hide Sub, Sent, History, From, InHand;
    var p := states[i].peers[id];
    AddressInOrder(z, states, steps, i, p.key);
    var a := HistoryWithin(states[i].peers, id);
    var b := a + |History(p)|;
    PrefixSlice(Sent(states[i].peers, p.key), InHand(states[i], p.key), a, b);
    SubPart(Got(states[i], p.key), From(steps[..i], p.key), a, b);
    HistoryStart(p);
    SubPart(History(p), From(steps[..i], p.key), 0, |p.read|);
  }

  lemma PrefixSlice<T>(s: seq<T>, t: seq<T>, a: nat, b: nat)
    requires a <= b <= |s|
    ensures (s + t)[a..b] == s[a..b]
  {}

  lemma HistoryStart(p: Peer)
    ensures |p.read| <= |History(p)| && History(p)[0..|p.read|] == p.read
  {}

  // ----------------------------------------------------------- reading out

  /** So many times the reader takes a datagram from the channel of a Conn. */
  function ReadOut(z: Sizes, s: Table, id: nat, n: nat): Table
    requires id in s.accepted && id < |s.peers| && n <= |s.peers[id].queue|
    decreases n
  {
    if n == 0 then s else ReadOut(z, After(z, s, Step.Receive(id)), id, n - 1)
  }

  /** What is in the channel of an accepted Conn can be read out, in order, whatever has become of the Conn:
      Close loses none of it. */
  lemma {:induction false} AllReadOut(z: Sizes, s: Table, id: nat)
    requires id in s.accepted && id < |s.peers|
    ensures var p, t := s.peers[id], ReadOut(z, s, id, |s.peers[id].queue|);
            t == s.(peers := s.peers[id := p.(read := p.read + p.queue, queue := [])])
    decreases |s.peers[id].queue|
  {
    var p := s.peers[id];
    if p.queue != [] {
      var s1 := After(z, s, Step.Receive(id));
      AllReadOut(z, s1, id);
      assert p.read + [p.queue[0]] + p.queue[1..] == p.read + p.queue;
    } else {
      assert p.read + p.queue == p.read && s.peers[id := p] == s.peers;
    }
  }

  // -------------------------------------------------------- one open Conn

  /** Every open Conn is the one in the table. */
  ghost predicate AllRegistered(s: Table) {
    forall i :: 0 <= i < |s.peers| && s.peers[i].stage == Open ==>
        s.peers[i].key in s.conns && s.conns[s.peers[i].key] == i
  }

  /** The step takes an address out of the table and leaves its Conn open. */
  ghost predicate Unregisters(s: Table, step: Step)
    requires Enabled(s, step)
  {
    (step.Forget? || step.Again?) && s.peers[step.id].key in s.conns
  }

  /** Of all steps exactly a direct write that fails, or a further Close of a Conn, on an address that
      is registered leaves an open Conn outside the table. */
  lemma StepRegistered(z: Sizes, s: Table, step: Step)
    requires Inv(z, s) && Enabled(s, step) && AllRegistered(s)
    ensures AllRegistered(After(z, s, step)) <==> !Unregisters(s, step)
  {
    if Unregisters(s, step) {
      var key := s.peers[step.id].key;
      var t := After(z, s, step);
      assert t.peers[s.conns[key]].stage == Open && t.peers[s.conns[key]].key == key;
    }
  }

  lemma RegisteredIsOne(s: Table, a: nat, b: nat)
    requires AllRegistered(s) && a < |s.peers| && b < |s.peers|
    requires s.peers[a].stage == s.peers[b].stage == Open && s.peers[a].key == s.peers[b].key
    ensures a == b
  {
    assert s.conns[s.peers[a].key] == a;
  }

  /** Up to any point of a run every open Conn has been in the table, and so been the only one of its
      address, exactly when there was no failed direct write and no further Close of a Conn on a
      registered address before. */
  lemma {:induction false} OneOpenConn(z: Sizes, states: seq<Table>, steps: seq<Step>, i: nat)
    requires IsRun(z, states, steps) && i < |states|
    ensures (forall j :: 0 <= j <= i ==> AllRegistered(states[j]))
            <==> forall j :: 0 <= j < i ==> !Unregisters(states[j], steps[j])
  {
    if i == 0 {
      assert AllRegistered(EMPTY);
    } else {
      OneOpenConn(z, states, steps, i - 1);
      hide AllRegistered, Inv, Enabled, After, Unregisters;
      if AllRegistered(states[i - 1]) {
        RegisteredNext(z, states, steps, i);
      }
    }
  }

  lemma RegisteredNext(z: Sizes, states: seq<Table>, steps: seq<Step>, i: nat)
    requires IsRun(z, states, steps) && 0 < i < |states| && AllRegistered(states[i - 1])
    ensures AllRegistered(states[i]) <==> !Unregisters(states[i - 1], steps[i - 1])
  {
    hide AllRegistered, Inv, After, Unregisters;
    Reachable(z, states, steps, i - 1);
    StepRegistered(z, states[i - 1], steps[i - 1]);
  }

  /** Wherever an accepted Conn is open outside the table and there is room, the next datagram from its
      address makes a second open Conn, and closing the first then takes the second out of the table. */
  lemma SecondConn(z: Sizes, s: Table, id: nat, d: Bytes)
    requires Inv(z, s) && s.held.None? && |s.pending| < z.connChan && d != []
    requires id in s.accepted && id < |s.peers| && s.peers[id].stage == Open && s.peers[id].key !in s.conns
    ensures var key := s.peers[id].key;
            var t := After(z, s, Arrive(key, d));
            && t.conns[key] == |s.peers| && t.peers[|s.peers|] == Peer(key, Open, [], [])
            && t.peers[id].stage == Open && Enabled(t, Leave(id))
            && var u := After(z, t, Leave(id));
               u.peers[|s.peers|].stage == Open && key !in u.conns
  {}

  /** Wherever a Conn that has been closed is closed again while its address has a newer Conn, the newer
      one is taken out of the table and stays open. */
  lemma ClosedAgain(z: Sizes, s: Table, id: nat)
    requires Inv(z, s) && Enabled(s, Again(id)) && s.peers[id].key in s.conns
    ensures var key, newer, t := s.peers[id].key, s.conns[s.peers[id].key], After(z, s, Again(id));
            newer > id && t.peers[newer] == s.peers[newer] && t.peers[newer].stage == Open && key !in t.conns
  {}

  /** One more step of a run. */
  lemma Then(z: Sizes, states: seq<Table>, steps: seq<Step>, step: Step)
    returns (states': seq<Table>, steps': seq<Step>)
    requires IsRun(z, states, steps) && Enabled(states[|steps|], step)
    ensures IsRun(z, states', steps') && steps' == steps + [step]
    ensures states'[..|states|] == states && states'[|steps'|] == After(z, states[|steps|], step)
  {
    Extend(z, states, steps, step);
    states', steps' := states + [After(z, states[|steps|], step)], steps + [step];
  }

  /** One datagram comes into the empty table, and its Conn is accepted. */
  lemma OneAccepted(z: Sizes, key: Bytes, data: Bytes) returns (states: seq<Table>, steps: seq<Step>)
    requires z.connChan > 0 && data != []
    ensures steps == [Arrive(key, data), Dispatch, Accept] && IsRun(z, states, steps)
    ensures var s := states[3];
            |s.peers| == 1 && s.peers[0].key == key && s.peers[0].stage == Open && s.conns == map[key := 0]
            && s.pending == [] && s.accepted == [0] && s.held == None
  {
    steps := [Arrive(key, data), Dispatch, Accept];
    var s1 := NewConn(EMPTY, key, data);
    assert After(z, EMPTY, steps[0]) == s1;
    var s2 := After(z, s1, steps[1]);
    assert s2.pending == [0] && s2.peers[0].key == key;
    states := [EMPTY, s1, s2, After(z, s2, steps[2])];
  }

  /** Runs that get there: a failed write, and then a second Conn whose entry the first takes along. */
  lemma ForgottenConn(z: Sizes, key: Bytes, d1: Bytes, d2: Bytes) returns (states: seq<Table>, steps: seq<Step>)
    requires z.connChan > 0 && d1 != [] && d2 != []
    ensures IsRun(z, states, steps)
    ensures steps == [Arrive(key, d1), Dispatch, Accept, Forget(0), Arrive(key, d2), Leave(0)]
    ensures var s := states[5];
            |s.peers| == 2 && s.peers[0].key == s.peers[1].key == key && s.peers[0].stage == s.peers[1].stage == Open
    ensures var s := states[6]; |s.peers| == 2 && s.peers[1].stage == Open && key !in s.conns
  {
    states, steps := OneAccepted(z, key, d1);
    states, steps := Then(z, states, steps, Forget(0));
    Reachable(z, states, steps, 4);
    SecondConn(z, states[4], 0, d2);
    states, steps := Then(z, states, steps, Arrive(key, d2));
    states, steps := Then(z, states, steps, Leave(0));
  }

  /** And without any failed write: the Conn is closed, its address gets another, and it is closed again. */
  lemma ShutConnUnregisters(z: Sizes, key: Bytes, d1: Bytes, d2: Bytes) returns (states: seq<Table>, steps: seq<Step>)
    requires z.connChan > 0 && d1 != [] && d2 != []
    ensures IsRun(z, states, steps)
    ensures steps == [Arrive(key, d1), Dispatch, Accept, Leave(0), Close(0), Arrive(key, d2), Dispatch, Again(0)]
    ensures var s := states[7]; s.peers[0].stage == Shut && key in s.conns && s.conns[key] == 1
    ensures var s := states[8]; |s.peers| == 2 && s.peers[1].stage == Open && key !in s.conns
  {
    states, steps := OneAccepted(z, key, d1);
    states, steps := Then(z, states, steps, Leave(0));
    states, steps := Then(z, states, steps, Step.Close(0));
    var s := states[5];
    assert |s.peers| == 1 && s.peers[0].stage == Shut && s.peers[0].key == key && s.conns == map[];
    states, steps := Again1(z, states, steps, key, d2);
    Reachable(z, states, steps, 7);
    ClosedAgain(z, states[7], 0);
    states, steps := Then(z, states, steps, Again(0));
  }

  /** The next datagram from the address of a closed Conn makes another Conn. */
  lemma Again1(z: Sizes, states: seq<Table>, steps: seq<Step>, key: Bytes, data: Bytes)
    returns (states': seq<Table>, steps': seq<Step>)
    requires IsRun(z, states, steps) && z.connChan > 0 && data != []
    requires var s := states[|steps|];
             |s.peers| == 1 && s.peers[0].stage == Shut && s.peers[0].key == key && s.conns == map[]
             && s.pending == [] && s.accepted == [0] && s.held.None?
    ensures IsRun(z, states', steps') && steps' == steps + [Arrive(key, data), Dispatch]
    ensures states'[..|states|] == states
    ensures var s := states'[|steps'|];
            |s.peers| == 2 && s.peers[0] == states[|steps|].peers[0] && s.accepted == [0] && s.conns == map[key := 1]
  {
    states', steps' := Then(z, states, steps, Arrive(key, data));
    assert states'[|steps'|].conns == map[key := 1];
    states', steps' := Then(z, states', steps', Dispatch);
  }

  lemma HeldStays(z: Sizes, s: Table, step: Step)
    requires Enabled(s, step) && s.held.Some? && s.held.value.id < |s.peers| && !step.Dispatch?
    ensures var t, id := After(z, s, step), s.held.value.id;
            t.held == s.held && |t.peers| == |s.peers|
            && (t.peers[id].stage == Shut <==> s.peers[id].stage == Shut || step == Step.Close(id))
  {}

  /** Putting a datagram on the channel of the Conn that was looked up panics exactly when that Conn
      was closed in between. */
  lemma {:induction false} DispatchPanics(z: Sizes, states: seq<Table>, steps: seq<Step>, a: nat, i: nat)
    requires IsRun(z, states, steps) && a < i < |states|
    requires steps[a].Arrive? && states[a + 1].held.Some?
    requires forall j :: a < j < i ==> !steps[j].Dispatch?
    ensures states[i].held == states[a + 1].held
    ensures Enabled(states[i], Dispatch) <==> Step.Close(states[a + 1].held.value.id) !in steps[a + 1..i]
  {
    hide Inv, After;
    if i == a + 1 {
      Reachable(z, states, steps, a);
      LookedUpIsOpen(z, states[a], steps[a]);
    } else {
      DispatchPanics(z, states, steps, a, i - 1);
      Reachable(z, states, steps, i - 1);
      HeldInTable(z, states[i - 1]);
      HeldStays(z, states[i - 1], steps[i - 1]);
      assert steps[a + 1..i] == steps[a + 1..i - 1] + [steps[i - 1]];
    }
  }

  lemma HeldInTable(z: Sizes, s: Table)
    requires Inv(z, s)
    ensures s.held.Some? ==> s.held.value.id < |s.peers|
  {}

  lemma LookedUpIsOpen(z: Sizes, s: Table, step: Step)
    requires Inv(z, s) && Enabled(s, step) && step.Arrive?
    ensures var t := After(z, s, step);
            t.held.Some? ==> t.held.value.id < |t.peers| && t.peers[t.held.value.id].stage == Open
  {}

  // -------------------------------------------------------------- messages

  ghost predicate Sendable(env: Env, m: Msg) {
    CodecLaws.WellFormed(env, m) && m.head.size <= env.opts.maxDataSize && !Flags.Has(m.head.flag, Flags.COMPRESSED)
  }

  ghost predicate AllSendable(env: Env, ms: seq<Msg>) {
    forall i :: 0 <= i < |ms| ==> Sendable(env, ms[i])
  }

  /** The datagrams that WriteMessage makes of the messages. */
  ghost function Frames(env: Env, ms: seq<Msg>): (fs: seq<Bytes>)
    requires AllSendable(env, ms)
    ensures |fs| == |ms| && forall i :: 0 <= i < |ms| ==> fs[i] == Frame(env, PacketOf(ms[i]))
  {
    seq(|ms|, i requires 0 <= i < |ms| => Frame(env, PacketOf(ms[i])))
  }

  lemma FramesGrow(env: Env, ms: seq<Msg>, m: Msg)
    requires AllSendable(env, ms) && Sendable(env, m)
    ensures AllSendable(env, ms + [m]) && Frames(env, ms + [m]) == Frames(env, ms) + [Frame(env, PacketOf(m))]
  {}

  lemma {:induction false} SubFrames(env: Env, a: seq<Bytes>, ms: seq<Msg>) returns (ns: seq<Msg>)
    requires AllSendable(env, ms) && Sub(a, Frames(env, ms))
    ensures Sub(ns, ms) && AllSendable(env, ns) && Frames(env, ns) == a
    decreases |ms|
  {
    hide Sendable, Frame, PacketOf;
    ns := [];
    if a != [] {
      var n, init, last := |a| - 1, ms[..|ms| - 1], ms[|ms| - 1];
      assert ms == init + [last];
      FramesGrow(env, init, last);
      assert Frames(env, ms)[..|ms| - 1] == Frames(env, init);
      if Sub(a, Frames(env, init)) {
        ns := SubFrames(env, a, init);
        SubGrows(ns, init, last);
      } else {
        var rest := SubFrames(env, a[..n], init);
        SubGrows(rest, init, last);
        FramesGrow(env, rest, last);
        ns := rest + [last];
      }
    }
  }

  /** Reset on the datagram gives the message. */
  ghost predicate RestoredBy(env: Env, m0: Msg, d: Bytes, n: Msg) {
    var (m, r) := ResetTo(env, m0, d, |d|);
    r == Ok(()) && PacketOf(m) == PacketOf(n)
  }

  lemma FrameRestores(env: Env, m0: Msg, n: Msg)
    requires GzipInverse(env) && Sendable(env, n)
    ensures RestoredBy(env, m0, Frame(env, PacketOf(n)), n)
  {
    var f := Frame(env, PacketOf(n));
    CodecLaws.DatagramRoundTrip(env, n, m0, []);
    assert f + [] == f;
  }

  /** When the datagrams that arrive from an address are those of messages, compressed or not, what a
      Conn of that address reads are these messages, in that order, with header and contents intact. */
  lemma DatagramsDelivered(env: Env, z: Sizes, states: seq<Table>, steps: seq<Step>, i: nat, id: nat, ms: seq<Msg>)
    returns (ns: seq<Msg>)
    requires IsRun(z, states, steps) && i < |states| && id < |states[i].peers|
    requires GzipInverse(env) && AllSendable(env, ms)
    requires From(steps[..i], states[i].peers[id].key) == Frames(env, ms)
    ensures var read := states[i].peers[id].read;
            Sub(ns, ms) && |ns| == |read| && forall j, m0 :: 0 <= j < |read| ==> RestoredBy(env, m0, read[j], ns[j])
  {
    var read := states[i].peers[id].read;
    ConnHistory(z, states, steps, i, id);
    ns := SubFrames(env, read, ms);
    hide Sendable, RestoredBy, Sub;
    forall j, m0 | 0 <= j < |read|
      ensures RestoredBy(env, m0, read[j], ns[j])
    {
      FrameRestores(env, m0, ns[j]);
    }
  }

  /** For a whole address: what has reached its Conns, Conn after Conn, or is on its way, are the messages
      sent from it, in that order, less as many as were dropped, and each restores its message. */
  lemma AddressDelivered(env: Env, z: Sizes, states: seq<Table>, steps: seq<Step>, i: nat, key: Bytes, ms: seq<Msg>)
    returns (ns: seq<Msg>)
    requires IsRun(z, states, steps) && i < |states|
    requires GzipInverse(env) && AllSendable(env, ms) && From(steps[..i], key) == Frames(env, ms)
    ensures var got := Got(states[i], key);
            Sub(ns, ms) && |ns| == |got| == |ms| - Dropped(z, states, steps[..i], key)
            && forall j, m0 :: 0 <= j < |got| ==> RestoredBy(env, m0, got[j], ns[j])
  {
    AddressInOrder(z, states, steps, i, key);
    ns := SubFrames(env, Got(states[i], key), ms);
    hide Sendable, Got, RestoredBy, Sub;
    forall j, m0 | 0 <= j < |ns|
      ensures RestoredBy(env, m0, Got(states[i], key)[j], ns[j])
    {
      FrameRestores(env, m0, ns[j]);
    }
  }
}
