// tcp/conn.go: messages one after the other on a byte stream.
module Stream {
  import opened Words
  import Flags
  import opened Environment
  import opened Codec
  import opened CodecLaws
  import opened Outcomes
  import opened Framing
  import opened Messages

  /** Conn.ReadMessage into a message: the message, what is left of the stream, and the error. */
  function ReceiveInto(env: Env, m: Msg, stream: Bytes): (Msg, Bytes, Outcome<()>) {
    if |stream| < HEAD_SIZE then
      (m, [], Err(if stream == [] then Eof else UnexpectedEof))
    else
      var (h, r) := ParseHead(env, m.head, stream[..HEAD_SIZE]);
      var m1, rest := RawMsg(h, m.code, m.cells, m.len), stream[HEAD_SIZE..];
      if !r.Ok? then (m1, rest, r)
      else
        var (m2, r2) := Fill(env, m1, rest);
        (m2, rest[Consumed(m1, rest)..], r2)
  }

  /** The part of the bytes that a connection takes that fails after `total` of them. */
  function Taken(total: nat, bytes: Bytes): (c: Bytes)
    ensures |c| <= total && |c| <= |bytes|
  {
    if total < |bytes| then bytes[..total] else bytes
  }

  lemma NoBody(env: Env, m: Msg, stream: Bytes)
    requires m.head.size == 0
    ensures Fill(env, m, stream) == (m, Ok(())) && Consumed(m, stream) == 0
  {}

  class Conn {
    const net: Reader        // what the peer has sent
    var wire: Bytes          // what the peer will receive
    var room: nat            // how many more bytes the connection takes before it fails
    var head: array?<Byte>   // allocated by the first read, then reused
    var buff: Buffer?        // allocated by the first write, then reused

    ghost predicate Valid()
      reads this, buff
    {
      (head != null ==> head.Length == HEAD_SIZE) && (buff != null ==> buff.data == [])
    }

    constructor (net: Reader, room: nat)
      ensures Valid() && this.net == net && this.room == room && wire == [] && head == null && buff == null
    {
      this.net := net;
      this.room := room;
      wire := [];
      head, buff := null, null;
    }

    /** io.ReadFull of a header. */
    method ReadHead() returns (h: Bytes, r: Outcome<()>)
      requires Valid()
      modifies this`head, head, net
      ensures Valid() && (head == old(head) || fresh(head)) && buff == old(buff)
      ensures var s := old(net.rest);
              if |s| < HEAD_SIZE then r == Err(if s == [] then Eof else UnexpectedEof) && net.rest == []
              else r == Ok(()) && h == s[..HEAD_SIZE] && net.rest == s[HEAD_SIZE..]
    {
      if head == null {
        head := new Byte[HEAD_SIZE](_ => 0);
      }
      ghost var stream := net.rest;
      var n := net.ReadFull(head, 0, HEAD_SIZE);
      if n < HEAD_SIZE {
        return [], Err(if n == 0 then Eof else UnexpectedEof);
      }
      assert head[..] == stream[..HEAD_SIZE];
      return head[..], Ok(());
    }

    method ReadMessage(env: Env, msg: Message) returns (r: Outcome<()>)
      requires Valid() && msg.Valid() && msg.arr != head
      modifies this`head, head, net, msg, msg.arr
      ensures Valid() && msg.Valid() && wire == old(wire)
      ensures (msg.State(), net.rest, r) == ReceiveInto(env, old(msg.State()), old(net.rest))
    {
      hide Fill, ParseHead, Consumed;
      ghost var m := msg.State();
      var h;
      h, r := ReadHead();
      assert msg.State() == m;
      if !r.Ok? {
        return;
      }
      r := msg.Parse(env, h);
      if !r.Ok? {
        return;
      }
      if msg.size == 0 {
        NoBody(env, msg.State(), net.rest);
        return Ok(());
      }
      var _, out := msg.Write(env, net);
      return out;
    }

    method NeedBuffer() returns (b: Buffer)
      requires Valid()
      modifies this`buff
      ensures Valid() && buff == b && (old(buff) == null ==> fresh(b)) && (old(buff) != null ==> b == old(buff))
    {
      if buff == null {
        buff := new Buffer();
      }
      b := buff;
    }

    method WriteMessage(env: Env, msg: Message) returns (r: Outcome<()>)
      requires Valid() && msg.Valid()
      modifies this`wire, this`room, this`buff, buff
      ensures Valid() && msg.State() == old(msg.State()) && (buff == old(buff) || fresh(buff))
      ensures var f := FrameOf(env, PacketOf(msg.State()));
              var sent := Taken(old(room), f);
              && wire == old(wire) + sent && room == old(room) - |sent|
              && r == if msg.magic !in env.magics then Panic else if sent == f then Ok(()) else Err(Closed)
    {
      var b := NeedBuffer();
      r := Encode(env, msg, b);
      if r.Ok? {
        var sent := Taken(room, b.data);
        wire, room := wire + sent, room - |sent|;
        if |sent| < |b.data| {
          r := Err(Closed);
        }
      }
      b.Reset();
    }

    method Encode(env: Env, msg: Message, b: Buffer) returns (r: Outcome<()>)
      requires msg.Valid() && b.data == []
      modifies b
      ensures msg.magic in env.magics ==> r == Ok(()) && b.data == Frame(env, PacketOf(msg.State()))
      ensures msg.magic !in env.magics ==> r == Panic
    {
      var _, out := msg.Bytes(env, b, true);
      r := out;
    }

    /** The messages that writeMsg takes off the queue: after an error, or a panic that is recovered
        from, it goes on with the next. */
    method WriteEach(env: Env, ms: seq<Message>)
      requires Valid() && forall m :: m in ms ==> m.Valid()
      modifies this`wire, this`room, this`buff, buff
      ensures Valid() && (forall m :: m in ms ==> m.Valid()) && PacketsOf(ms) == old(PacketsOf(ms))
      ensures var sent := Taken(old(room), Written(env, PacketsOf(ms)));
              wire == old(wire) + sent && room == old(room) - |sent|
    {
      hide PacketsOf, FrameOf, Written, Taken;
      ghost var ps, start, total := PacketsOf(ms), wire, room;
      WrittenNext(env, ps[..0], 0);
      TakenLonger(total, [], []);
      for i := 0 to |ms|
        invariant Valid() && (forall m :: m in ms ==> m.Valid()) && PacketsOf(ms) == ps
        invariant buff == old(buff) || fresh(buff)
        invariant wire == start + Taken(total, Written(env, ps[..i]))
        invariant room == total - |Taken(total, Written(env, ps[..i]))|
      {
        WrittenNext(env, ps, i);
        var _ := WriteMessage(env, ms[i]);
        TakenLonger(total, Written(env, ps[..i]), FrameOf(env, ps[i]));
      }
      assert ps[..|ms|] == ps;
    }
  }

  ghost function PacketsOf(ms: seq<Message>): (ps: seq<Packet>)
    requires forall m :: m in ms ==> m.Valid()
    reads ms, set m | m in ms :: m.arr
    ensures |ps| == |ms| && forall i :: 0 <= i < |ms| ==> ps[i] == PacketOf(ms[i].State())
  {
    if ms == [] then []
    else
      var last := ms[|ms| - 1];
      assert last in ms;
      PacketsOf(ms[..|ms| - 1]) + [PacketOf(last.State())]
  }

  /** What writing the messages one after the other puts out; an unknown magic panics first. */
  function Written(env: Env, ps: seq<Packet>): Bytes {
    if ps == [] then [] else Written(env, ps[..|ps| - 1]) + FrameOf(env, ps[|ps| - 1])
  }

  function FrameOf(env: Env, p: Packet): Bytes {
    if p.head.magic in env.magics then Frame(env, p) else []
  }

  lemma WrittenNext(env: Env, ps: seq<Packet>, i: nat)
    ensures Written(env, []) == []
    ensures i < |ps| ==> Written(env, ps[..i + 1]) == Written(env, ps[..i]) + FrameOf(env, ps[i])
  {
    if i < |ps| {
      assert ps[..i + 1][..i] == ps[..i];
    }
  }

  /** A message whose magic nobody has registered leaves nothing on the wire, and the others as without it. */
  lemma {:induction false} UnknownSkipped(env: Env, ps: seq<Packet>, p: Packet, qs: seq<Packet>)
    requires p.head.magic !in env.magics
    ensures Written(env, ps + [p] + qs) == Written(env, ps + qs)
    decreases |qs|
  {
    hide FrameOf;
    var n := |qs| - 1;
    if qs == [] {
      assert (ps + [p] + qs)[..|ps|] == ps && ps + qs == ps;
      NoFrame(env, p);
    } else {
      UnknownSkipped(env, ps, p, qs[..n]);
      assert (ps + [p] + qs)[..|ps| + 1 + n] == ps + [p] + qs[..n] && (ps + qs)[..|ps| + n] == ps + qs[..n];
    }
  }

  lemma NoFrame(env: Env, p: Packet)
    requires p.head.magic !in env.magics
    ensures FrameOf(env, p) == []
  {}

  lemma TakenLonger(total: nat, all: Bytes, more: Bytes)
    ensures var sent := Taken(total, all);
            Taken(total, all + more) == sent + Taken(total - |sent|, more)
    ensures Taken(total, []) == []
  {}

  // ---------------------------------------------------------- the stream as packets

  /** Receiving into a pooled message, as the reader of a socket does. */
  function Receive(env: Env, cells: Bytes, stream: Bytes): (r: (Outcome<Packet>, Bytes))
    ensures r.0.Ok? ==> |r.1| < |stream|
  {
    var (m, rest, r) := ReceiveInto(env, Pooled(cells), stream);
    match r
    case Ok(_) => (Ok(PacketOf(m)), rest)
    case Err(e) => (Err(e), rest)
    case Panic => (Panic, rest)
  }

  /** The packet, the rest and the error do not depend on the recycled buffer. */
  lemma ReceiveAnyBuffer(env: Env, cells1: Bytes, cells2: Bytes, stream: Bytes)
    ensures Receive(env, cells1, stream) == Receive(env, cells2, stream)
  {}

  /** A packet that travels uncompressed: what Marshal makes, within the size limit, below the
      threshold and without a compression flag of its own. */
  predicate Plain(env: Env, p: Packet) {
    && p.head.magic in env.magics
    && p.head.size == |p.data| <= env.opts.maxDataSize
    && !Flags.Has(p.head.flag, Flags.COMPRESSED)
    && !AutoCompress(env, p.head)
  }

  predicate AllPlain(env: Env, ps: seq<Packet>) {
    forall i :: 0 <= i < |ps| ==> Plain(env, ps[i])
  }

  /** The packets with the bytes that WriteMessage puts on the wire for them. */
  function OnWire(env: Env, ps: seq<Packet>): (xs: seq<Framed<Packet>>)
    requires AllPlain(env, ps)
    ensures |xs| == |ps| && forall i :: 0 <= i < |ps| ==> xs[i].packet == ps[i] && xs[i].bytes == Frame(env, ps[i])
  {
    seq(|ps|, i requires 0 <= i < |ps| => Framed(ps[i], Frame(env, ps[i])))
  }

  /** The reader of a connection, with whatever buffer the pool gives it. */
  function Reading(env: Env, cells: Bytes): Recv<Packet> {
    stream => Receive(env, cells, stream)
  }

  lemma ReceiveFrame(env: Env, p: Packet, rest: Bytes)
    requires Plain(env, p)
    ensures |Frame(env, p)| == HEAD_SIZE + |p.data|
    ensures Receive(env, [], Frame(env, p) + rest) == (Ok(p), rest)
  {
    FrameReceived(env, p, rest);
    var m := Pooled([]).(head := p.head);
    assert |Frame(env, p)| == HEAD_SIZE + |BodyOnWire(env, p)|;
    if p.head.size > 0 {
      var n: nat := p.head.size;
      assert (p.data + rest)[..n] == p.data && (p.data + rest)[n..] == rest;
      ReceiveBody(env, [], p.head, p.data + rest);
    } else {
      assert p.data == [] && [] + rest == rest;
      NoBody(env, m, rest);
    }
    hide Receive, Fill, Frame, Consumed;
  }

  /** A proper part of a frame is an error, and a clean end of stream only when nothing is there. */
  lemma ReceivePart(env: Env, p: Packet, k: nat)
    requires Plain(env, p) && k < |Frame(env, p)|
    ensures Receive(env, [], Frame(env, p)[..k]).0
            == Err(if k == 0 then Eof else if k < HEAD_SIZE then UnexpectedEof else ShortBuffer)
  {
    var part := Frame(env, p)[..k];
    if k >= HEAD_SIZE {
      assert part[..HEAD_SIZE] == EncodeHead(env, p.head);
      ParseEncoded(env, BLANK_HEAD, p.head);
      assert |part[HEAD_SIZE..]| < p.head.size;
    }
  }

  lemma PlainIsRecognised(env: Env, cells: Bytes, p: Packet)
    requires Plain(env, p)
    ensures Recognises(Reading(env, cells), Framed(p, Frame(env, p)))
  {
    var f := Frame(env, p);
    forall rest
      ensures Receive(env, cells, f + rest) == (Ok(p), rest)
    {
      ReceiveFrame(env, p, rest);
      ReceiveAnyBuffer(env, [], cells, f + rest);
    }
    forall k | 0 <= k < |f|
      ensures Incomplete(Reading(env, cells), f[..k])
    {
      ReceivePart(env, p, k);
      ReceiveAnyBuffer(env, [], cells, f[..k]);
    }
  }

  lemma PlainAreRecognised(env: Env, cells: Bytes, ps: seq<Packet>)
    requires AllPlain(env, ps)
    ensures RecognisesAll(Reading(env, cells), OnWire(env, ps))
  {
    forall i | 0 <= i < |ps|
      ensures Recognises(Reading(env, cells), OnWire(env, ps)[i])
    {
      PlainIsRecognised(env, cells, ps[i]);
    }
  }

  /** Stream framing: the concatenated frames of plain packets read back as those packets. */
  lemma StreamRoundTrip(env: Env, cells: Bytes, ps: seq<Packet>)
    requires AllPlain(env, ps)
    ensures DecodeAll(Reading(env, cells), Joined(OnWire(env, ps))) == (ps, Err(Eof))
  {
    PlainAreRecognised(env, cells, ps);
    Whole(Reading(env, cells), OnWire(env, ps));
    assert Packets(OnWire(env, ps)) == ps;
  }

  /** A stream cut after k bytes reads back as a prefix of the packets, and then an error. */
  lemma StreamTruncated(env: Env, cells: Bytes, ps: seq<Packet>, k: nat)
    requires AllPlain(env, ps) && k <= |Joined(OnWire(env, ps))|
    ensures var (qs, e) := DecodeAll(Reading(env, cells), Joined(OnWire(env, ps))[..k]);
            qs <= ps && e.Err? && (e == Err(Eof) <==> |Joined(OnWire(env, ps)[..|qs|])| == k)
  {
    PlainAreRecognised(env, cells, ps);
    Truncated(Reading(env, cells), OnWire(env, ps), k);
  }

  /** With automatic compression the header still announces the plain size, so that a reader of the
      stream stays in step exactly when compression does not change the length, or when it shortens the
      last frame that there is. */
  lemma CompressedFraming(env: Env, p: Packet, rest: Bytes)
    requires p.head.magic in env.magics && p.head.size == |p.data| <= env.opts.maxDataSize
    ensures |Receive(env, [], Frame(env, p) + rest).1| == |rest|
            <==> !AutoCompress(env, p.head) || |env.gzip(p.data)| == |p.data|
                 || (rest == [] && |env.gzip(p.data)| < |p.data|)
  {
    FrameReceived(env, p, rest);
    hide Receive, Fill, Frame;
  }

  /** A frame reads back as its packet, and what follows it is left alone, exactly when the size is
      allowed and there is no body, or a body that neither claims to be compressed nor is compressed
      to another length. */
  lemma FrameReadsBack(env: Env, cells: Bytes, p: Packet, rest: Bytes)
    requires p.head.magic in env.magics && p.head.size == |p.data| && GzipInverse(env)
    ensures Receive(env, cells, Frame(env, p) + rest) == (Ok(p), rest)
            <==> p.head.size <= env.opts.maxDataSize
                 && (p.head.size == 0
                     || (!Flags.Has(p.head.flag, Flags.COMPRESSED)
                         && (!AutoCompress(env, p.head) || |env.gzip(p.data)| == |p.data|)))
  {
    ReceiveAnyBuffer(env, [], cells, Frame(env, p) + rest);
    FrameReceived(env, p, rest);
    if 0 < p.head.size {
      ReadsBackBody(env, p, rest);
    } else {
      NoBody(env, Pooled([]).(head := WireHead(env, p.head)), rest);
      assert BodyOnWire(env, p) + rest == rest && p.data == [];
    }
    hide Receive, Fill, Consumed, Frame, BodyOnWire, AutoCompress, GzipInverse;
  }

  /** A frame is read as its header, as marked on the way, and then its body. */
  lemma FrameReceived(env: Env, p: Packet, rest: Bytes)
    requires p.head.magic in env.magics
    ensures var after := BodyOnWire(env, p) + rest;
            var m := Pooled([]).(head := WireHead(env, p.head));
            var (m', r) := Fill(env, m, after);
            Receive(env, [], Frame(env, p) + rest)
            == if p.head.size > env.opts.maxDataSize then (Err(TooLong), after)
               else (match r case Ok(_) => Ok(PacketOf(m')) case Err(e) => Err(e) case Panic => Panic,
                     after[Consumed(m, after)..])
  {
    var stream := Frame(env, p) + rest;
    assert stream[..HEAD_SIZE] == EncodeHead(env, p.head);
    ParseEncoded(env, BLANK_HEAD, p.head);
    assert stream[HEAD_SIZE..] == BodyOnWire(env, p) + rest;
    hide ParseHead, EncodeHead, BodyOnWire, Fill, WireHead, Consumed;
  }

  lemma ReadsBackBody(env: Env, p: Packet, rest: Bytes)
    requires p.head.magic in env.magics && p.head.size == |p.data| && GzipInverse(env) && p.head.size > 0
    ensures var after := BodyOnWire(env, p) + rest;
            var m := Pooled([]).(head := WireHead(env, p.head));
            var (m', r) := Fill(env, m, after);
            (r == Ok(()) && PacketOf(m') == p && after[Consumed(m, after)..] == rest)
            <==> !Flags.Has(p.head.flag, Flags.COMPRESSED)
                 && (!AutoCompress(env, p.head) || |env.gzip(p.data)| == |p.data|)
  {
    var wire := BodyOnWire(env, p);
    var after := wire + rest;
    var n: nat := p.head.size;
    if |after| >= n {
      var got := RawMsg(WireHead(env, p.head), 0, Spliced(Room(env, [], n), 0, after[..n]), n);
      assert Data(got) == after[..n];
      if |wire| == n {
        assert after[..n] == wire && after[n..] == rest;
      } else {
        assert |after[n..]| != |rest|;
      }
      if AutoCompress(env, p.head) {
        CompressedMark(p.head.flag);
      } else if Flags.Has(p.head.flag, Flags.COMPRESSED) {
        DecompressClears(env, got);
      }
    }
  }

  /** Bytes from the peer make the reader panic exactly when they are a whole header with a known
      magic and a negative size that the size limit lets through. */
  lemma ReceivePanics(env: Env, cells: Bytes, stream: Bytes)
    ensures Receive(env, cells, stream).0.Panic?
            <==> |stream| >= HEAD_SIZE && stream[0] in env.magics
                 && var size := ToI32(GetU32(env.magics[stream[0]].order, stream[2..6]));
                    size < 0 && size <= env.opts.maxDataSize
  {
    if |stream| >= HEAD_SIZE {
      var head := stream[..HEAD_SIZE];
      assert head[0] == stream[0] && head[2..6] == stream[2..6];
    }
  }

  /** The header and the body that the bytes start with. */
  ghost predicate IsWhole(env: Env, stream: Bytes) {
    Accepts(env, stream) && 0 <= SizeOf(env, stream) <= |stream| - HEAD_SIZE
  }

  function BodyRead(env: Env, stream: Bytes): Bytes
    requires IsWhole(env, stream)
  {
    stream[HEAD_SIZE..HEAD_SIZE + SizeOf(env, stream)]
  }

  /** What reading makes of any bytes of a peer: which error, by where they fall short or what is wrong with
      them, and else the packet, with what follows it left alone. */
  lemma ReceiveOutcome(env: Env, cells: Bytes, stream: Bytes)
    ensures var (r, rest) := Receive(env, cells, stream);
            && (r == Err(Eof) <==> stream == [])
            && (r == Err(UnexpectedEof) <==> 0 < |stream| < HEAD_SIZE)
            && (r == Err(HeadIllegal) <==> |stream| >= HEAD_SIZE && stream[0] !in env.magics)
            && (r == Err(TooLong) <==> |stream| >= HEAD_SIZE && stream[0] in env.magics && !Accepts(env, stream))
            && (r == Err(ShortBuffer) <==> Accepts(env, stream) && SizeOf(env, stream) > |stream| - HEAD_SIZE)
            && (r == Err(Gzip) <==> IsWhole(env, stream) && Marked(stream) && BodyRead(env, stream) != []
                                    && env.gunzip(BodyRead(env, stream)).None?)
            && (r.Ok? ==> IsWhole(env, stream) && rest == stream[HEAD_SIZE + SizeOf(env, stream)..]
                          && (BodyRead(env, stream) != [] ==> r.value.head == HeadRead(env, stream, |r.value.data|))
                          && r.value.head.magic == stream[0]
                          && r.value.data == if Marked(stream) && BodyRead(env, stream) != []
                                             then env.gunzip(BodyRead(env, stream)).value else BodyRead(env, stream))
  {
    if |stream| >= HEAD_SIZE {
      var head := stream[..HEAD_SIZE];
      assert head[0] == stream[0] && head[1] == stream[1] && head[2..6] == stream[2..6];
      assert head[6..10] == stream[6..10];
      var (h, r) := ParseHead(env, BLANK_HEAD, head);
      if r.Ok? && h.size > 0 {
        ReceiveBody(env, cells, h, stream[HEAD_SIZE..]);
        if IsWhole(env, stream) {
          assert stream[HEAD_SIZE..][..h.size] == BodyRead(env, stream);
        }
      }
    }
    hide GetU32, ToI32, WrapI32, Flags.Has, Flags.Delete;
  }

  lemma ReceiveBody(env: Env, cells: Bytes, h: Head, rest: Bytes)
    requires h.size > 0
    ensures var m := Pooled(cells).(head := h);
            var (m', r) := Fill(env, m, rest);
            && Consumed(m, rest) == (if |rest| < h.size then |rest| else h.size)
            && (r == Err(ShortBuffer) <==> |rest| < h.size)
            && (r == Err(Gzip) <==> h.size <= |rest| && Flags.Has(h.flag, Flags.COMPRESSED)
                                    && env.gunzip(rest[..h.size]).None?)
            && (r.Ok? || r == Err(ShortBuffer) || r == Err(Gzip))
            && (r.Ok? ==> m'.head == (if Flags.Has(h.flag, Flags.COMPRESSED) then
                                        h.(flag := Flags.Delete(h.flag, Flags.COMPRESSED), size := WrapI32(|Data(m')|))
                                      else h)
                          && Data(m') == if Flags.Has(h.flag, Flags.COMPRESSED) then env.gunzip(rest[..h.size]).value
                                         else rest[..h.size])
  {
    var m := Pooled(cells).(head := h);
    FillOutcome(env, m, rest);
    if |rest| >= h.size {
      var n: nat := h.size;
      var got := RawMsg(h, 0, Spliced(Room(env, cells, n), 0, rest[..n]), n);
      assert Data(got) == rest[..n];
    }
    hide Room, Spliced;
  }

  /** A successful WriteMessage extends the bytes by the frame of the packet that it puts on the wire. */
  lemma WireBytes(env: Env, ps: seq<Packet>, p: Packet)
    requires AllPlain(env, ps) && Plain(env, p)
    ensures AllPlain(env, ps + [p])
    ensures Joined(OnWire(env, ps + [p])) == Joined(OnWire(env, ps)) + Frame(env, p)
  {
    var xs := OnWire(env, ps);
    assert OnWire(env, ps + [p]) == xs + [Framed(p, Frame(env, p))];
    JoinedAppend(xs, Framed(p, Frame(env, p)));
  }

  lemma {:induction false} WrittenPlain(env: Env, ps: seq<Packet>)
    requires AllPlain(env, ps)
    ensures Written(env, ps) == Joined(OnWire(env, ps))
  {
    hide Frame, Joined, OnWire, AutoCompress;
    if ps == [] {
      assert OnWire(env, ps) == [];
      NothingJoined<Packet>();
    } else {
      var n := |ps| - 1;
      WrittenPlain(env, ps[..n]);
      WireBytes(env, ps[..n], ps[n]);
      assert ps == ps[..n] + [ps[n]];
    }
  }

  /** However many bytes the connection takes before it fails, what a peer makes of what the writer
      put out is the first packets written, and all of them if it has not failed. */
  lemma WriterIsRead(env: Env, cells: Bytes, ps: seq<Packet>, total: nat)
    requires AllPlain(env, ps)
    ensures var all := Written(env, ps);
            var (qs, e) := DecodeAll(Reading(env, cells), Taken(total, all));
            qs <= ps && e.Err? && (total >= |all| ==> qs == ps && e == Err(Eof))
  {
    WrittenPlain(env, ps);
    StreamRoundTrip(env, cells, ps);
    if total < |Written(env, ps)| {
      StreamTruncated(env, cells, ps, total);
    }
  }

  /** Whole frames and then a part of one more: the peer reads all the whole ones, perhaps the last too,
      and then an error. */
  lemma TornIsRead(env: Env, cells: Bytes, ps: seq<Packet>, p: Packet, n: nat)
    requires AllPlain(env, ps) && Plain(env, p)
    ensures var (qs, e) := DecodeAll(Reading(env, cells), Joined(OnWire(env, ps)) + Taken(n, Frame(env, p)));
            ps <= qs <= ps + [p] && e.Err?
  {
    var xs := OnWire(env, ps + [p]);
    var k := TornStream(env, ps, p, n);
    PlainAreRecognised(env, cells, ps + [p]);
    hide Plain, Frame, Joined, DecodeAll, Reading, Recognises, Incomplete, ReadsAs, OnWire;
    Truncated(Reading(env, cells), xs, k);
    var (qs, e) := DecodeAll(Reading(env, cells), Joined(xs)[..k]);
    ReadsPast(xs, k, qs, e, |ps|);
    assert Packets(xs[..|qs|]) == (ps + [p])[..|qs|];
  }

  lemma TornStream(env: Env, ps: seq<Packet>, p: Packet, n: nat) returns (k: nat)
    requires AllPlain(env, ps) && Plain(env, p)
    ensures AllPlain(env, ps + [p])
    ensures var xs := OnWire(env, ps + [p]);
            && k <= |Joined(xs)| && |Joined(xs[..|ps|])| <= k
            && Joined(xs)[..k] == Joined(OnWire(env, ps)) + Taken(n, Frame(env, p))
  {
    var whole, f := Joined(OnWire(env, ps)), Frame(env, p);
    var part := Taken(n, f);
    WireBytes(env, ps, p);
    hide Plain, Frame, Joined;
    k := |whole| + |part|;
    assert (whole + f)[..k] == whole + part;
    assert OnWire(env, ps + [p])[..|ps|] == OnWire(env, ps);
  }
}
