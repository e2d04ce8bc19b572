// message/message.go and the methods it gets from the embedded Head of message/head.go, over
// a backing array that is reused from one fill to the next.
module Messages {
  import Arith
  import opened Words
  import opened Flags
  import FlagWire
  import opened Environment
  import opened Codec

  /** An io.Reader over bytes that have yet to be delivered. */
  class Reader {
    var rest: Bytes

    constructor (data: Bytes)
      ensures rest == data
    {
      rest := data;
    }

    /** io.ReadFull into a[at..at+n]: the number of bytes that were there. */
    method ReadFull(a: array<Byte>, at: nat, n: nat) returns (got: nat)
      requires at + n <= a.Length
      modifies this, a
      ensures got == Arith.Min(n, |old(rest)|) && rest == old(rest)[got..]
      ensures a[..] == Spliced(old(a[..]), at, old(rest)[..got])
    {
      got := Arith.Min(n, |rest|);
      CopyInto(a, at, rest[..got]);
      rest := rest[got..];
    }
  }

  /** bytes.Buffer used as an io.Writer. */
  class Buffer {
    var data: Bytes

    constructor ()
      ensures data == []
    {
      data := [];
    }

    method Write(b: Bytes)
      modifies this
      ensures data == old(data) + b
    {
      data := data + b;
    }

    method Reset()
      modifies this
      ensures data == []
    {
      data := [];
    }
  }

  method CopyInto(a: array<Byte>, at: nat, data: Bytes)
    requires at + |data| <= a.Length
    modifies a
    ensures a[..] == Spliced(old(a[..]), at, data)
  {
    forall i | 0 <= i < |data| {
      a[at + i] := data[i];
    }
  }

  class Message {
    // the embedded Head
    var magic: Byte
    var flag: Flag
    var size: I32
    var index: I32
    // the cached code and the byte slice: array, offset, length, capacity
    var code: I32
    var arr: array<Byte>
    var off: nat
    var len: nat
    var cap: nat

    ghost predicate Valid()
      reads this
    {
      off + cap <= arr.Length && len <= cap
    }

    /** The cells of the slice up to its capacity. */
    ghost function Cells(): (b: Bytes)
      reads this, arr
      requires Valid()
      ensures |b| == cap
    {
      arr[off..off + cap]
    }

    ghost function State(): Msg
      reads this, arr
      requires Valid()
    {
      RawMsg(Head(magic, flag, size, index), code, Cells(), len)
    }

    constructor ()
      ensures Valid() && fresh(arr) && State() == RawMsg(BLANK_HEAD, 0, [], 0)
    {
      magic, flag, size, index, code := 0, NO_FLAGS, 0, 0, 0;
      arr := new Byte[0];
      off, len, cap := 0, 0, 0;
    }

    /** Make the slice the first `n` cells of a new array that starts with `data` and then zeros. */
    method Renew(data: Bytes, n: nat, capacity: nat)
      requires n <= capacity && |data| <= capacity
      modifies this`arr, this`off, this`len, this`cap
      ensures Valid() && fresh(arr) && len == n && Cells() == data + Zeros(capacity - |data|)
    {
      arr := new Byte[capacity](i requires 0 <= i < capacity => if i < |data| then data[i] else 0);
      off, len, cap := 0, n, capacity;
      assert arr[..] == data + Zeros(capacity - |data|);
    }

    /** Head.Parse. */
    method Parse(env: Env, head: Bytes) returns (r: Outcome<()>)
      requires Valid()
      modifies this`magic, this`flag, this`size, this`index
      ensures (State().head, r) == ParseHead(env, old(State()).head, head)
      ensures State() == old(State()).(head := State().head)
    {
      if |head| != HEAD_SIZE {
        return Err(HeadIllegal);
      }
      if head[0] !in env.magics {
        return Err(HeadIllegal);
      }
      var order := env.magics[head[0]].order;
      magic := head[0];
      flag := FlagWire.FromByte(head[1]);
      size := ToI32(GetU32(order, head[2..6]));
      index := ToI32(GetU32(order, head[6..10]));
      if size > env.opts.maxDataSize {
        return Err(TooLong);
      }
      return Ok(());
    }

    /** Head.bytes: the header as it goes on the wire, and whether the body must be compressed. */
    method HeadBytes(env: Env) returns (head: Bytes, compressed: bool)
      requires Valid() && magic in env.magics
      ensures head == EncodeHead(env, State().head) && compressed == AutoCompress(env, State().head)
    {
      var order := env.magics[magic].order;
      var b := new Byte[HEAD_SIZE](_ => 0);
      b[0] := magic;
      var f := flag;
      compressed := false;
      if env.opts.autoCompressSize > 0 && size > env.opts.autoCompressSize && !Has(f, COMPRESSED) {
        f := Set(f, COMPRESSED);
        compressed := true;
      }
      b[1] := FlagWire.ToByte(f);
      CopyInto(b, 2, PutU32(order, ToU32(size)));
      CopyInto(b, 6, PutU32(order, ToU32(index)));
      head := b[..];
    }

    /** Message.Bytes. The count of a compressed body is that of its plain bytes. */
    method Bytes(env: Env, w: Buffer, includeHeader: bool) returns (n: nat, r: Outcome<()>)
      requires Valid()
      modifies w
      ensures includeHeader && magic !in env.magics ==> r == Panic && w.data == old(w.data)
      ensures includeHeader && magic in env.magics ==>
              r == Ok(()) && w.data == old(w.data) + Frame(env, PacketOf(State()))
      ensures !includeHeader ==> r == Ok(()) && w.data == old(w.data) + BodyOnWire(env, PacketOf(State()))
      ensures r.Ok? ==> n == (if includeHeader then HEAD_SIZE else 0) + (if size == 0 then 0 else len)
    {
      hide EncodeHead;
      n := 0;
      var compressed := false;
      if includeHeader {
        if magic !in env.magics {
          return 0, Panic;
        }
        var head;
        head, compressed := HeadBytes(env);
        w.Write(head);
        n := n + HEAD_SIZE;
      } else {
        compressed := env.opts.autoCompressSize > 0 && size > env.opts.autoCompressSize && !Has(flag, COMPRESSED);
      }
      if size == 0 {
        return n, Ok(());
      }
      WriteBody(env, w, compressed);
      n := n + len;
      return n, Ok(());
    }

    lemma Front()
      requires Valid()
      ensures arr[off..off + len] == Data(State())
    {
      SliceOfSlice(arr[..], off, cap, 0, len);
    }

    method WriteBody(env: Env, w: Buffer, compressed: bool)
      requires Valid()
      modifies w
      ensures w.data == old(w.data) + if compressed then env.gzip(Data(State())) else Data(State())
    {
      Front();
      if compressed {
        w.Write(env.gzip(arr[off..off + len]));
      } else {
        w.Write(arr[off..off + len]);
      }
    }

    method DecompressBytes(env: Env) returns (r: Outcome<()>)
      requires Valid()
      modifies this
      ensures Valid() && (arr == old(arr) || fresh(arr))
      ensures (State(), r) == Decompress(env, old(State()))
    {
      if !Has(flag, COMPRESSED) {
        return Ok(());
      }
      Front();
      var plain := env.gunzip(arr[off..off + len]);
      if plain.None? {
        return Err(Gzip);
      }
      var n := |plain.value|;
      Renew(plain.value, n, if n < 512 then 512 else n);
      size := WrapI32(n);
      flag := Delete(flag, COMPRESSED);
      return Ok(());
    }

    /** Message.Write: read the body announced by the header. */
    method Write(env: Env, r: Reader) returns (n: nat, out: Outcome<()>)
      requires Valid()
      modifies this, arr, r
      ensures Valid() && (arr == old(arr) || fresh(arr))
      ensures (State(), out) == Fill(env, old(State()), old(r.rest))
      ensures n == Consumed(old(State()), old(r.rest)) && r.rest == old(r.rest)[n..]
    {
      ghost var m, stream := State(), r.rest;
      if size == 0 {
        return 0, Ok(());
      }
      if size < 0 {
        // the capacity is never below a negative size, and slicing up to it panics
        return 0, Panic;
      }
      MakeRoom(env, size);
      ghost var room := Cells();
      n := ReadInto(r, size);
      if n != size {
        assert stream[..n] == stream;
        return n, Err(ShortBuffer);
      }
      out := DecompressBytes(env);
    }

    /** Have a slice of length n: the old one if its capacity allows, else a new one. */
    method MakeRoom(env: Env, n: nat)
      requires Valid()
      modifies this`arr, this`off, this`len, this`cap
      ensures Valid() && (arr == old(arr) || fresh(arr)) && len == n
      ensures Cells() == Room(env, old(Cells()), n)
    {
      if cap >= n {
        len := n;
      } else if n > env.opts.capacity {
        Renew([], n, n);
        assert [] + Zeros(n) == Zeros(n);
      } else {
        Renew([], n, env.opts.capacity);
        assert [] + Zeros(env.opts.capacity) == Zeros(env.opts.capacity);
      }
    }

    method ReadInto(r: Reader, size: nat) returns (n: nat)
      requires Valid() && size <= cap
      modifies arr, r
      ensures Valid() && n == Arith.Min(size, |old(r.rest)|) && r.rest == old(r.rest)[n..]
      ensures Cells() == Spliced(old(Cells()), 0, old(r.rest)[..n])
    {
      ghost var before, stream := arr[..], r.rest;
      n := r.ReadFull(arr, off, size);
      SpliceOfSlice(before, off, cap, 0, stream[..n]);
      hide Spliced, Arith.Min;
    }

    /** Message.Reset: adopt a datagram, whose array the message keeps. */
    method Reset(env: Env, b: array<Byte>, n: nat) returns (r: Outcome<()>)
      requires Valid() && n <= b.Length
      modifies this
      ensures Valid() && (arr == old(arr) || arr == b || fresh(arr))
      ensures (State(), r) == ResetTo(env, old(State()), old(b[..]), n)
    {
      hide ParseHead, Decompress;
      if n < HEAD_SIZE {
        return Err(UnexpectedEof);
      }
      var head := FrontOf(b);
      r := Parse(env, head);
      if r.Ok? {
        Adopt(b, n);
        r := DecompressBytes(env);
      }
    }

    method FrontOf(b: array<Byte>) returns (head: Words.Bytes)
      requires b.Length >= HEAD_SIZE
      ensures head == b[..][..HEAD_SIZE]
    {
      head := b[..HEAD_SIZE];
    }

    /** m.bytes = b[HEAD_SIZE:n] */
    method Adopt(b: array<Byte>, n: nat)
      requires Valid() && HEAD_SIZE <= n <= b.Length
      modifies this`arr, this`off, this`len, this`cap
      ensures Valid() && arr == b
      ensures State() == RawMsg(old(State().head), old(code), b[..][HEAD_SIZE..], n - HEAD_SIZE)
    {
      arr, off, len, cap := b, HEAD_SIZE, n - HEAD_SIZE, b.Length - HEAD_SIZE;
    }

    /** Write over the slice in place. */
    method Overwrite(at: nat, data: Bytes)
      requires Valid() && at + |data| <= cap
      modifies arr
      ensures Cells() == Spliced(old(Cells()), at, data)
    {
      SpliceOfSlice(arr[..], off, cap, at, data);
      CopyInto(arr, off + at, data);
    }

    /** bytes.Buffer.Write on the slice, after its first `at` bytes. */
    method AppendAt(at: nat, data: Bytes)
      requires Valid() && at <= cap
      modifies this`arr, this`off, this`len, this`cap, arr
      ensures Valid() && (arr == old(arr) || fresh(arr)) && at + |data| <= cap
      ensures Cells() == Append(old(Cells()), at, data) && len == at + |data|
      ensures if at + |data| <= old(cap) then arr == old(arr) && off == old(off) && cap == old(cap)
              else fresh(arr) && old(arr)[..] == old(arr[..])
    {
      if at + |data| <= cap {
        Overwrite(at, data);
        len := at + |data|;
      } else {
        Grow(at, data);
      }
    }

    method Grow(at: nat, data: Bytes)
      requires Valid() && at <= cap < at + |data|
      modifies this`arr, this`off, this`len, this`cap
      ensures Valid() && fresh(arr)
      ensures Cells() == Append(old(Cells()), at, data) && len == at + |data|
    {
      var kept := arr[off..off + at];
      SliceOfSlice(arr[..], off, cap, 0, at);
      Renew(kept + data, at + |data|, Grown(cap, at + |data|));
    }

    /** Have at least four bytes to put the word into. */
    method Ground(env: Env)
      requires Valid() && Usable(env)
      modifies this`arr, this`off, this`len, this`cap
      ensures Valid() && (arr == old(arr) || fresh(arr))
      ensures State() == Grounded(env, old(State()))
    {
      if len < 4 {
        Renew([], 4, env.opts.capacity);
        assert Cells() == Zeros(env.opts.capacity);
      }
    }

    /** Put the word and write the path through the bytes.Buffer over m.bytes[0:4]. */
    method PutPrefix(word: Bytes, path: Bytes)
      requires Valid() && cap >= 4 && |word| == 4
      modifies this`arr, this`off, this`len, this`cap, arr
      ensures Valid() && (arr == old(arr) || fresh(arr)) && len == 4 + |path|
      ensures Cells() == Append(Spliced(old(Cells()), 0, word), 4, path)
      ensures if 4 + |path| <= old(cap) then arr == old(arr) && off == old(off) && cap == old(cap)
              else fresh(arr) && old(arr)[old(off)..old(off) + old(cap)] == Spliced(old(Cells()), 0, word)
    {
      ghost var arr0, off0, cap0 := arr, off, cap;
      Overwrite(0, word);
      AppendAt(4, path);
      assert arr != arr0 ==> arr0[off0..off0 + cap0] == arr0[..][off0..off0 + cap0];
    }

    method Assemble(word: Bytes, path: Bytes, body: Option<Bytes>) returns (r: Outcome<()>)
      requires Valid() && len >= 4 && |word| == 4
      modifies this`arr, this`off, this`len, this`cap, this`size, arr
      ensures Valid() && (arr == old(arr) || fresh(arr))
      ensures (State(), r) == Assembled(old(State()), word, path, body)
    {
      hide Append, Spliced, WrapI32;
      if body.None? {
        r := AssembleFailed(word, path);
        return;
      }
      PutPrefix(word, path);
      PutBody(body.value);
      size := WrapI32(len);
      return Ok(());
    }

    method PutBody(body: Bytes)
      requires Valid()
      modifies this`arr, this`off, this`len, this`cap, arr
      ensures Valid() && (arr == old(arr) || fresh(arr)) && len == old(len) + |body|
      ensures Cells() == if body == [] then old(Cells()) else Append(old(Cells()), old(len), body)
    {
      if |body| > 0 {
        AppendAt(len, body);
      }
    }

    /** The encoder fails after the path is written: m.bytes still is the old slice. */
    method AssembleFailed(word: Bytes, path: Bytes) returns (r: Outcome<()>)
      requires Valid() && len >= 4 && |word| == 4
      modifies this`arr, this`off, this`len, this`cap, arr
      ensures Valid() && arr == old(arr)
      ensures (State(), r) == Assembled(old(State()), word, path, None)
    {
      hide Append, Spliced;
      var arr0, off0, len0, cap0 := arr, off, len, cap;
      PutPrefix(word, path);
      arr, off, len, cap := arr0, off0, len0, cap0;
      return Err(Encode);
    }

    /** Message.Marshal with MarshalPath and MarshalCode; `body` is None when the encoder fails. */
    method Marshal(env: Env, m: Byte, f: Flag, i: I32, path: PathArg, body: Option<Bytes>) returns (r: Outcome<()>)
      requires Valid() && Usable(env)
      modifies this, arr
      ensures Valid() && (arr == old(arr) || fresh(arr))
      ensures (State(), r) == Marshalled(env, old(State()), m, f, i, path, body)
    {
      magic, flag, index := m, f, i;
      if magic !in env.magics {
        return Err(UnknownMagic);
      }
      var Magic(_, mode, order, _) := env.magics[magic];
      Ground(env);
      var prefix := Prefix(env, mode, path);
      if prefix.Err? {
        return Err(prefix.error);
      }
      r := Assemble(PutU32(order, prefix.value.0), prefix.value.1, body);
    }

    method Code(env: Env) returns (r: Outcome<I32>)
      requires Valid()
      modifies this`code
      ensures r == CodeOf(env, old(State())) && State() == Cached(env, old(State()))
    {
      if code == 0 {
        if magic !in env.magics || cap < 4 {
          return Panic;
        }
        var first := arr[off..off + 4];
        SliceOfSlice(arr[..], off, cap, 0, 4);
        code := ToI32(GetU32(env.magics[magic].order, first));
      }
      return Ok(code);
    }

    method Path(env: Env) returns (r: Outcome<(Bytes, Bytes)>)
      requires Valid()
      modifies this`code
      ensures r == PathOf(env, old(State())) && State() == Cached(env, old(State()))
    {
      ghost var cells := Cells();
      var c := Code(env);
      if magic !in env.magics {
        return Panic;
      }
      if !c.Ok? {
        return Panic;
      }
      if env.magics[magic].mode.PathMode? {
        if c.value <= 0 || c.value + 4 > len {
          return Err(HeadIllegal);
        }
        SliceOfSlice(arr[..], off, cap, 4, 4 + c.value);
        return Ok(Cut(arr[off + 4..off + 4 + c.value]));
      }
      var p := env.pathOf(c.value);
      return if p.None? then Err(NoTransform) else Ok((p.value, []));
    }

    method Body(env: Env) returns (r: Outcome<Bytes>)
      requires Valid()
      modifies this`code
      ensures r == BodyOf(env, old(State()))
      ensures State() == (if magic in env.magics && env.magics[magic].mode.PathMode?
                          then Cached(env, old(State())) else old(State()))
    {
      ghost var cells := Cells();
      if magic !in env.magics {
        return Panic;
      }
      var offset := 4;
      if env.magics[magic].mode.PathMode? {
        var c := Code(env);
        if !c.Ok? {
          return Panic;
        }
        if c.value > 0 && c.value + 4 <= len {
          offset := offset + c.value;
        }
      }
      if offset > len {
        return Ok([]);
      }
      SliceOfSlice(arr[..], off, cap, offset, len);
      return Ok(arr[off + offset..off + len]);
    }

    method Release(env: Env)
      requires Valid()
      modifies this
      ensures Valid() && (arr == old(arr) || fresh(arr))
      ensures State() == Released(env, old(State()))
    {
      magic, flag, size, index := 0, NO_FLAGS, 0, 0;
      code := 0;
      if cap > env.opts.capacity {
        Renew([], 0, env.opts.capacity);
      } else {
        len := 0;
      }
    }
  }
}
