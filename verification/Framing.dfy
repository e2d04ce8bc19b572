// Reading frames off a byte stream, for any reader that recognises the frames it is given.
module Framing {
  import opened Words
  import opened Environment

  /** A packet and the bytes it takes on the stream. */
  datatype Framed<P> = Framed(packet: P, bytes: Bytes)

  /** One read: a packet or an error, and what is left of the stream. */
  type Recv<!P> = Bytes -> (Outcome<P>, Bytes)

  /** Read until an error: the packets, and the error that ended the reading. */
  function DecodeAll<P>(recv: Recv<P>, stream: Bytes): (seq<P>, Outcome<()>)
    decreases |stream|
  {
    var (r, rest) := recv(stream);
    match r
    case Ok(p) =>
      if |rest| >= |stream| then ([p], Panic)
      else var (ps, e) := DecodeAll(recv, rest); ([p] + ps, e)
    case Err(e) => ([], Err(e))
    case Panic => ([], Panic)
  }

  /** The frame is read whole whatever follows it, and a part of it is an error; the error is a
      clean end of stream only for the empty part. */
  ghost predicate Recognises<P(!new)>(recv: Recv<P>, x: Framed<P>) {
    && x.bytes != []
    && (forall rest :: recv(x.bytes + rest) == (Ok(x.packet), rest))
    && (forall k | 0 <= k < |x.bytes| :: Incomplete(recv, x.bytes[..k]))
  }

  ghost predicate Incomplete<P(!new)>(recv: Recv<P>, part: Bytes) {
    var r := recv(part).0;
    if part == [] then r == Err(Eof) else r in {Err(UnexpectedEof), Err(ShortBuffer)}
  }

  ghost predicate RecognisesAll<P(!new)>(recv: Recv<P>, xs: seq<Framed<P>>) {
    Incomplete(recv, []) && forall i | 0 <= i < |xs| :: Recognises(recv, xs[i])
  }

  function Joined<P>(xs: seq<Framed<P>>): Bytes {
    if xs == [] then [] else xs[0].bytes + Joined(xs[1..])
  }

  function Packets<P>(xs: seq<Framed<P>>): (ps: seq<P>)
    ensures |ps| == |xs| && forall i :: 0 <= i < |ps| ==> ps[i] == xs[i].packet
  {
    seq(|xs|, i requires 0 <= i < |xs| => xs[i].packet)
  }

  /** What a stream of these frames, cut after k bytes, reads as: the packets whose frames are
      complete, and a clean end exactly when the cut is between two frames. */
  ghost predicate ReadsAs<P>(xs: seq<Framed<P>>, k: nat, qs: seq<P>, e: Outcome<()>) {
    var n := |qs|;
    && n <= |xs| && qs == Packets(xs[..n])
    && |Joined(xs[..n])| <= k
    && (n < |xs| ==> k < |Joined(xs[..n + 1])|)
    && (e == Err(Eof) <==> |Joined(xs[..n])| == k)
    && (e != Err(Eof) ==> e in {Err(UnexpectedEof), Err(ShortBuffer)})
  }

  /** One more frame in front. */
  lemma ReadsAsMore<P>(xs: seq<Framed<P>>, k: nat, qs: seq<P>, e: Outcome<()>)
    requires xs != [] && |xs[0].bytes| <= k && ReadsAs(xs[1..], k - |xs[0].bytes|, qs, e)
    ensures ReadsAs(xs, k, [xs[0].packet] + qs, e)
  {
    var n := |qs|;
    assert [xs[0].packet] + qs == Packets(xs[..n + 1]);
    JoinedStep(xs, n);
    if n + 1 < |xs| {
      JoinedStep(xs, n + 1);
    }
  }

  /** Cut the stream anywhere: the packets read are exactly those whose frames are complete, in
      order, and the end is clean exactly when the cut is between two frames. */
  lemma {:induction false} Truncated<P(!new)>(recv: Recv<P>, xs: seq<Framed<P>>, k: nat)
    requires RecognisesAll(recv, xs) && k <= |Joined(xs)|
    ensures var (qs, e) := DecodeAll(recv, Joined(xs)[..k]); ReadsAs(xs, k, qs, e)
    decreases |xs|
  {
    var stream := Joined(xs)[..k];
    if xs == [] {
      assert stream == [];
    } else if k < |xs[0].bytes| {
      assert stream == xs[0].bytes[..k];
      assert Recognises(recv, xs[0]);
      assert Joined(xs[..1]) == xs[0].bytes;
    } else {
      var f, more := xs[0].bytes, xs[1..];
      var rest := Joined(more)[..k - |f|];
      assert stream == f + rest;
      assert Recognises(recv, xs[0]);
      hide ReadsAs;
      Truncated(recv, more, k - |f|);
      var (qs, e) := DecodeAll(recv, rest);
      ReadsAsMore(xs, k, qs, e);
    }
  }

  lemma JoinedStep<P>(xs: seq<Framed<P>>, n: nat)
    requires n < |xs|
    ensures Joined(xs[..n + 1]) == xs[0].bytes + Joined(xs[1..][..n])
  {
    assert xs[..n + 1][1..] == xs[1..][..n];
  }

  /** The whole stream gives the whole list back and consumes every byte. */
  lemma Whole<P(!new)>(recv: Recv<P>, xs: seq<Framed<P>>)
    requires RecognisesAll(recv, xs)
    ensures DecodeAll(recv, Joined(xs)) == (Packets(xs), Err(Eof))
  {
    var stream := Joined(xs);
    assert stream[..|stream|] == stream;
    Truncated(recv, xs, |stream|);
    var n := |DecodeAll(recv, stream).0|;
    assert xs[..|xs|] == xs;
    if n < |xs| {
      JoinedGrows(xs, n + 1);
    }
  }

  lemma {:induction false} JoinedGrows<P>(xs: seq<Framed<P>>, n: nat)
    requires n <= |xs|
    ensures |Joined(xs[..n])| <= |Joined(xs)|
    decreases n
  {
    if n > 0 {
      assert xs[..n][1..] == xs[1..][..n - 1];
      JoinedGrows(xs[1..], n - 1);
    }
  }

  /** A cut behind the first m frames leaves these to be read. */
  lemma ReadsPast<P>(xs: seq<Framed<P>>, k: nat, qs: seq<P>, e: Outcome<()>, m: nat)
    requires ReadsAs(xs, k, qs, e) && m <= |xs| && |Joined(xs[..m])| <= k
    ensures m <= |qs| <= |xs| && qs == Packets(xs[..|qs|]) && e.Err?
  {
    var n := |qs|;
    if n < m {
      assert xs[..m][..n + 1] == xs[..n + 1];
      JoinedGrows(xs[..m], n + 1);
    }
  }

  lemma NothingJoined<P>()
    ensures Joined<P>([]) == []
  {}

  lemma {:induction false} JoinedAppend<P>(xs: seq<Framed<P>>, x: Framed<P>)
    ensures Joined(xs + [x]) == Joined(xs) + x.bytes
    decreases |xs|
  {
    if xs == [] {
      assert Joined([x]) == x.bytes;
    } else {
      assert (xs + [x])[1..] == xs[1..] + [x];
      JoinedAppend(xs[1..], x);
    }
  }
}
