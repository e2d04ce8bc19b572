// udp/listener.go and udp/conn.go: one shared read buffer, a table of Conns, a channel each.
module Udp {
  import Arith
  import opened Words
  import opened Environment
  import Codec
  import Messages
  import opened Demux
  import opened DemuxLaws

  class Conn {
    const ln: Listener
    const key: Bytes
    ghost const id: nat
    var msgChan: seq<array<Byte>>
    var closed: bool
    ghost var queue: seq<Bytes>   // what the arrays in the channel hold
    ghost var read: seq<Bytes>

    ghost predicate Valid()
      reads this, msgChan
    {
      |queue| == |msgChan| && forall i :: 0 <= i < |msgChan| ==> msgChan[i][..] == queue[i]
    }

    ghost function Abs(): Peer
      reads this
    {
      Peer(key, if closed then Shut else Open, read, queue)
    }

    constructor (ln: Listener, key: Bytes, ghost id: nat)
      ensures this.ln == ln && this.key == key && this.id == id && msgChan == []
      ensures Valid() && Abs() == Peer(key, Open, [], [])
    {
      this.ln, this.key, this.id := ln, key, id;
      msgChan, closed, queue, read := [], false, [], [];
    }

    /** The select that drops the datagram when the channel is full. */
    method Offer(data: array<Byte>, size: nat)
      requires Valid() && !closed
      modifies this`msgChan, this`queue
      ensures Valid() && msgChan == old(msgChan) + if |old(msgChan)| < size then [data] else []
      ensures Abs() == if |old(queue)| < size then Demux.Put(old(Abs()), data[..]) else old(Abs())
    {
      if |msgChan| < size {
        msgChan := msgChan + [data];
        queue := queue + [data[..]];
      }
    }

    /** Conn.ReadMessage, once there is something in the channel or it is closed. */
    method ReadMessage(env: Env, msg: Messages.Message) returns (r: Outcome<()>)
      requires Valid() && msg.Valid() && (msgChan != [] || closed)
      modifies this`msgChan, this`queue, this`read, msg
      ensures Valid() && msg.Valid()
      ensures old(msgChan) == [] ==> r == Err(Eof) && Abs() == old(Abs()) && msg.State() == old(msg.State())
      ensures old(msgChan) != [] ==>
                Abs() == Take(old(Abs())) && msgChan == old(msgChan)[1..]
                && var b := old(queue)[0]; (msg.State(), r) == Codec.ResetTo(env, old(msg.State()), b, |b|)
    {
      if msgChan == [] {
        return Err(Eof);
      }
      var b := msgChan[0];
      msgChan := msgChan[1..];
      read, queue := read + [queue[0]], queue[1..];
      if b.Length < HEAD_SIZE {
        return Err(UnexpectedEof);
      }
      r := msg.Reset(env, b, b.Length);
    }

    /** Conn.Close: leave the table, then close the channel; a second call panics there. */
    method Close() returns (r: Outcome<()>)
      requires ln.Valid() && this in ln.peers && id in ln.accepted
      modifies ln`conns, this`closed
      ensures ln.Valid() && closed
      ensures !old(closed) ==>
                var s := old(ln.Abs());
                var t := After(ln.sizes, s, Leave(id));
                r == Ok(()) && Enabled(t, Step.Close(id)) && ln.Abs() == After(ln.sizes, t, Step.Close(id))
      ensures old(closed) ==>
                var s := old(ln.Abs());
                r == Panic && Enabled(s, Again(id)) && ln.Abs() == After(ln.sizes, s, Again(id))
    {
      hide AbsAll, IdOf, Ids, Listener.Valid;
      ln.OtherPeers(this, AbsAll(ln.peers), Abs());
      ln.RemoveConn(key);
      if closed {
        return Panic;
      }
      CloseChannel();
      return Ok(());
    }

    method CloseChannel()
      requires ln.Valid() && this in ln.peers
      modifies this`closed
      ensures ln.Valid() && closed && id < |ln.peers|
      ensures AbsAll(ln.peers) == old(AbsAll(ln.peers))[id := old(Abs()).(stage := Shut)]
    {
      hide AbsAll, IdOf, Ids;
      ghost var before := AbsAll(ln.peers);
      closed := true;
      ln.OtherPeers(this, before, Abs());
    }
  }

  ghost function AbsAll(cs: seq<Conn>): (ps: seq<Peer>)
    reads cs
    ensures |ps| == |cs| && forall i :: 0 <= i < |cs| ==> ps[i] == cs[i].Abs()
  {
    if cs == [] then [] else AbsAll(cs[..|cs| - 1]) + [cs[|cs| - 1].Abs()]
  }

  ghost function Ids(cs: seq<Conn>): (s: seq<nat>)
    ensures |s| == |cs| && forall i :: 0 <= i < |cs| ==> s[i] == cs[i].id
  {
    seq(|cs|, i requires 0 <= i < |cs| => cs[i].id)
  }

  ghost function IdOf(conns: map<Bytes, Conn>): (m: map<Bytes, nat>)
    ensures m.Keys == conns.Keys && forall k :: k in conns ==> m[k] == conns[k].id
  {
    map k | k in conns :: conns[k].id
  }

  lemma OneMore(cs: seq<Conn>, ch: seq<Conn>, t: map<Bytes, Conn>, key: Bytes, c: Conn)
    ensures AbsAll(cs + [c]) == AbsAll(cs) + [c.Abs()]
    ensures Ids(ch + [c]) == Ids(ch) + [c.id]
    ensures IdOf(t[key := c]) == IdOf(t)[key := c.id]
  {}

  /** A datagram looked up and dispatched without anything in between. */
  ghost function Handled(z: Sizes, s: Table, key: Bytes, data: Bytes): (t: Table)
    requires Inv(z, s) && s.held.None?
    ensures Inv(z, t) && t.held.None?
  {
    var s1 := After(z, s, Arrive(key, data));
    StepInv(z, s, Arrive(key, data));
    if s1.held.None? then s1
    else
      StepInv(z, s1, Dispatch);
      After(z, s1, Dispatch)
  }

  /** The table once the address has been looked up. */
  function Found(z: Sizes, s: Table, key: Bytes): Table {
    if key in s.conns || |s.pending| >= z.connChan then s else NewConn(s, key, []).(held := None)
  }

  lemma FoundThenPut(z: Sizes, s: Table, key: Bytes, data: Bytes)
    requires Inv(z, s) && s.held.None?
    ensures var t := Found(z, s, key);
            if data == [] then Handled(z, s, key, data) == s
            else if key !in t.conns then Handled(z, s, key, data) == t
            else
              var id := t.conns[key];
              id < |t.peers| && t.peers[id].stage == Open
              && Handled(z, s, key, data) == if |t.peers[id].queue| >= z.msgChan then t
                                             else t.(peers := t.peers[id := Demux.Put(t.peers[id], data)])
  {}

  /** The datagrams of a socket, each cut to the size of the read buffer. */
  ghost function HandledAll(z: Sizes, s: Table, input: seq<(Bytes, Bytes)>): (t: Table)
    requires Inv(z, s) && s.held.None?
    ensures Inv(z, t) && t.held.None?
  {
    if input == [] then s
    else
      var (key, data) := input[|input| - 1];
      Handled(z, HandledAll(z, s, input[..|input| - 1]), key, data[..Arith.Min(|data|, BUFFER_SIZE)])
  }

  /** The part of the input that comes from one address. */
  function FromAddress(input: seq<(Bytes, Bytes)>, key: Bytes): seq<Bytes> {
    if input == [] then []
    else
      var (k, data) := input[|input| - 1];
      FromAddress(input[..|input| - 1], key) + Arrival(Arrive(k, data[..Arith.Min(|data|, BUFFER_SIZE)]), key)
  }

  /** What readLoop does on its own is a run of the transition system, so that all its laws apply. */
  lemma {:induction false} LoopIsRun(z: Sizes, states: seq<Table>, steps: seq<Step>, input: seq<(Bytes, Bytes)>)
    returns (states': seq<Table>, steps': seq<Step>)
    requires IsRun(z, states, steps) && Inv(z, states[|steps|]) && states[|steps|].held.None?
    ensures IsRun(z, states', steps') && states'[|steps'|] == HandledAll(z, states[|steps|], input)
    ensures forall key :: From(steps', key) == From(steps, key) + FromAddress(input, key)
  {
    states', steps' := states, steps;
    if input != [] {
      var (k, data) := input[|input| - 1];
      states', steps' := LoopIsRun(z, states, steps, input[..|input| - 1]);
      states', steps' := DatagramIsRun(z, states', steps', k, data[..Arith.Min(|data|, BUFFER_SIZE)]);
    }
  }

  lemma DatagramIsRun(z: Sizes, states: seq<Table>, steps: seq<Step>, key: Bytes, data: Bytes)
    returns (states': seq<Table>, steps': seq<Step>)
    requires IsRun(z, states, steps) && Inv(z, states[|steps|]) && states[|steps|].held.None?
    ensures IsRun(z, states', steps') && states'[|steps'|] == Handled(z, states[|steps|], key, data)
    ensures forall k :: From(steps', k) == From(steps, k) + Arrival(Arrive(key, data), k)
  {
    hide From, Inv;
    var s := states[|steps|];
    var s1 := After(z, s, Arrive(key, data));
    Extend(z, states, steps, Arrive(key, data));
    states', steps' := states + [s1], steps + [Arrive(key, data)];
    if s1.held.Some? {
      FoundThenPut(z, s, key, data);
      Extend(z, states', steps', Step.Dispatch);
      states', steps' := states' + [After(z, s1, Step.Dispatch)], steps' + [Step.Dispatch];
    }
  }

  const BUFFER_SIZE := 65535

  class Listener {
    const sizes: Sizes
    const buffer: array<Byte>
    var conns: map<Bytes, Conn>
    var connCh: seq<Conn>
    ghost var peers: seq<Conn>
    ghost var accepted: seq<nat>

    ghost predicate Valid()
      reads this, peers, set c, a | c in peers && a in c.msgChan :: a
    {
      && buffer.Length == BUFFER_SIZE
      && (forall i :: 0 <= i < |peers| ==> peers[i].id == i && |peers[i].queue| == |peers[i].msgChan|)
      && (forall c :: c in peers ==> forall j :: 0 <= j < |c.msgChan| ==>
            c.msgChan[j] in c.msgChan && c.msgChan[j] != buffer && c.msgChan[j][..] == c.queue[j])
      && (forall k :: k in conns ==> conns[k] in peers)
      && (forall c :: c in connCh ==> c in peers)
    }

    ghost function Abs(): Table
      reads this, peers
    {
      Table(AbsAll(peers), IdOf(conns), Ids(connCh), accepted, None)
    }

    constructor (sizes: Sizes)
      ensures Valid() && Abs() == EMPTY && this.sizes == sizes && fresh(buffer)
    {
      this.sizes := sizes;
      buffer := new Byte[BUFFER_SIZE](_ => 0);
      conns, connCh, peers, accepted := map[], [], [], [];
    }

    method Accept() returns (c: Conn)
      requires Valid() && connCh != []
      modifies this`connCh, this`accepted
      ensures Valid() && c == old(connCh)[0]
      ensures Abs() == After(sizes, old(Abs()), Step.Accept)
    {
      c := connCh[0];
      connCh := connCh[1..];
      accepted := accepted + [c.id];
      assert Ids(connCh) == old(Ids(connCh))[1..];
    }

    method NewConn(key: Bytes) returns (c: Option<Conn>)
      requires Valid() && key !in conns
      modifies this`conns, this`connCh, this`peers
      ensures Valid()
      ensures c.None? <==> |old(connCh)| >= sizes.connChan
      ensures c.None? ==> conns == old(conns) && connCh == old(connCh) && peers == old(peers)
      ensures c.Some? ==> fresh(c.value) && c.value.id == |old(peers)| && c.value.msgChan == []
      ensures c.Some? ==> c.value.Abs() == Peer(key, Open, [], [])
      ensures c.Some? ==> conns == old(conns)[key := c.value] && connCh == old(connCh) + [c.value]
                          && peers == old(peers) + [c.value]
    {
      var r := new Conn(this, key, |peers|);
      if |connCh| >= sizes.connChan {
        return None;
      }
      connCh := connCh + [r];
      conns := conns[key := r];
      peers := peers + [r];
      return Some(r);
    }

    lemma OtherPeers(c: Conn, before: seq<Peer>, after: Peer)
      requires Valid() && c in peers && |before| == |peers|
      requires forall i :: 0 <= i < |peers| && i != c.id ==> peers[i].Abs() == before[i]
      requires c.Abs() == after
      ensures c.id < |peers| && peers[c.id] == c && AbsAll(peers) == before[c.id := after]
    {}

    method Copied(n: nat) returns (data: array<Byte>)
      requires n <= buffer.Length
      ensures fresh(data) && data[..] == buffer[..n]
    {
      data := new Byte[n](_ => 0);
      Messages.CopyInto(data, 0, buffer[..n]);
    }

    /** Put a copy of the first n bytes of the buffer on the channel of the Conn. */
    method Dispatch(c: Conn, n: nat)
      requires Valid() && c in peers && !c.closed && n <= buffer.Length
      modifies c`msgChan, c`queue
      ensures Valid() && c.id < |peers|
      ensures AbsAll(peers) == if |old(c.queue)| >= sizes.msgChan then old(AbsAll(peers))
                               else old(AbsAll(peers))[c.id := Demux.Put(old(c.Abs()), buffer[..n])]
    {
      hide AbsAll;
      ghost var before := AbsAll(peers);
      var data := Copied(n);
      c.Offer(data, sizes.msgChan);
      OtherPeers(c, before, c.Abs());
    }

    /** The region under the mutex: the Conn of the address, a new one if there is room for it. */
    method Find(key: Bytes) returns (c: Option<Conn>)
      requires Valid()
      modifies this`conns, this`connCh, this`peers
      ensures Valid() && Abs() == Found(sizes, old(Abs()), key)
      ensures c.None? <==> key !in conns
      ensures c.Some? ==> c.value in peers && c.value == conns[key]
      ensures forall c :: c in peers ==> c in old(peers) || fresh(c)
    {
      hide AbsAll, Ids, IdOf;
      if key in conns {
        return Some(conns[key]);
      }
      ghost var cs, ch, t := peers, connCh, conns;
      c := NewConn(key);
      if c.Some? {
        OneMore(cs, ch, t, key, c.value);
      }
    }

    /** One turn of readLoop: a datagram of n bytes from the address is in the buffer. */
    method Handle(key: Bytes, n: nat)
      requires Valid() && Inv(sizes, Abs()) && n <= buffer.Length
      modifies this`conns, this`connCh, this`peers, peers
      ensures Valid() && Inv(sizes, Abs())
      ensures forall c :: c in peers ==> c in old(peers) || fresh(c)
      ensures Abs() == Handled(sizes, old(Abs()), key, buffer[..n])
    {
      hide Inv, AbsAll, Handled, After, Ids, IdOf, Found;
      ghost var s := Abs();
      FoundThenPut(sizes, s, key, buffer[..n]);
      if n == 0 {
        return;
      }
      var c := Find(key);
      if c.Some? {
        Dispatch(c.value, n);
      }
    }

    /** readLoop: each datagram comes through the same buffer. */
    method ReadLoop(input: seq<(Bytes, Bytes)>)
      requires Valid() && Inv(sizes, Abs())
      modifies this`conns, this`connCh, this`peers, peers, buffer
      ensures Valid() && Inv(sizes, Abs())
      ensures Abs() == HandledAll(sizes, old(Abs()), input)
    {
      hide AbsAll, Inv, Handled;
      ghost var s := Abs();
      for i := 0 to |input|
        invariant Valid() && Inv(sizes, Abs())
        invariant forall c :: c in peers ==> c in old(peers) || fresh(c)
        invariant Abs() == HandledAll(sizes, s, input[..i])
      {
        var (key, data) := input[i];
        var n := Arith.Min(|data|, buffer.Length);
        FillBuffer(data[..n]);
        assert input[..i + 1][..i] == input[..i];
        Handle(key, n);
      }
      assert input[..|input|] == input;
    }

    method FillBuffer(data: Bytes)
      requires Valid() && |data| <= buffer.Length
      modifies buffer
      ensures Valid() && Abs() == old(Abs()) && buffer[..|data|] == data
    {
      hide AbsAll;
      Messages.CopyInto(buffer, 0, data);
      assert buffer[..|data|] == buffer[..][..|data|];
    }

    method RemoveConn(key: Bytes)
      requires Valid()
      modifies this`conns
      ensures Valid() && Abs() == old(Abs()).(conns := old(Abs()).conns - {key})
    {
      hide AbsAll;
      conns := conns - {key};
      assert IdOf(conns) == old(IdOf(conns)) - {key};
    }
  }
}
