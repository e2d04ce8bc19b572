// Which outcome the codec operations have on which input, told from the bytes and the arguments.
module Outcomes {
  import opened Words
  import opened Flags
  import FlagWire
  import opened Environment
  import opened Codec
  import opened CodecLaws

  // ----------------------------------------------------------------- views

  /** A view panics exactly on a message without a known magic, or without four cells to look at. */
  lemma ViewPanics(env: Env, m: Msg)
    ensures CodeOf(env, m).Panic? <==> m.code == 0 && (m.head.magic !in env.magics || |m.cells| < 4)
    ensures PathOf(env, m).Panic? <==> m.head.magic !in env.magics || (m.code == 0 && |m.cells| < 4)
    ensures BodyOf(env, m).Panic?
            <==> m.head.magic !in env.magics
                 || (env.magics[m.head.magic].mode.PathMode? && m.code == 0 && |m.cells| < 4)
  {}

  /** The number in front of the contents, as the views take it. */
  function FrontWord(env: Env, m: Msg): I32
    requires m.head.magic in env.magics && m.len >= 4
  {
    ToI32(GetU32(env.magics[m.head.magic].order, Data(m)[..4]))
  }

  /** The views of a freshly filled message in path mode, whatever its sender put into it: a length that
      is not positive, or more than there is, makes Path fail, never panic, and leaves the body whole. */
  lemma PathModeContents(env: Env, m: Msg)
    requires m.head.magic in env.magics && env.magics[m.head.magic].mode.PathMode? && m.code == 0 && m.len >= 4
    ensures var n, rest := FrontWord(env, m), Data(m)[4..];
            if 0 < n <= |rest| then PathOf(env, m) == Ok(Cut(rest[..n])) && BodyOf(env, m) == Ok(rest[n..])
            else PathOf(env, m) == Err(HeadIllegal) && BodyOf(env, m) == Ok(rest)
  {
    var n, rest := FrontWord(env, m), Data(m)[4..];
    assert Data(m)[..4] == m.cells[..4];
    assert |Data(m)| == m.len && rest == m.cells[4..m.len];
    if 0 < n <= |rest| {
      SliceOfSlice(m.cells, 4, m.len - 4, 0, n);
      SliceOfSlice(m.cells, 4, m.len - 4, n, m.len - 4);
    }
    hide Cut, ToI32, GetU32;
  }

  /** The same in code mode: the body is all that follows the code, and Path is what the transform says. */
  lemma CodeModeContents(env: Env, m: Msg)
    requires m.head.magic in env.magics && env.magics[m.head.magic].mode.CodeMode? && m.code == 0 && m.len >= 4
    ensures CodeOf(env, m) == Ok(FrontWord(env, m)) && BodyOf(env, m) == Ok(Data(m)[4..])
    ensures var p := env.pathOf(FrontWord(env, m));
            PathOf(env, m) == if p.Some? then Ok((p.value, [])) else Err(NoTransform)
  {
    assert Data(m)[..4] == m.cells[..4];
    assert |Data(m)| == m.len && Data(m)[4..] == m.cells[4..m.len];
  }

  /** A message of less than four bytes has no body and no path: whatever lies behind its contents, which the
      code is read from, it does not get into them. */
  lemma ShortContents(env: Env, m: Msg)
    requires m.head.magic in env.magics && m.len < 4
    ensures BodyOf(env, m) == Ok([]) || (BodyOf(env, m).Panic? && env.magics[m.head.magic].mode.PathMode?)
    ensures env.magics[m.head.magic].mode.PathMode? ==> PathOf(env, m) == Err(HeadIllegal) || PathOf(env, m).Panic?
  {}

  /** From the wire: in path mode the message that a peer's header and plain body make has an illegal path
      exactly when the length in front, as a 32-bit number, is not positive or exceeds the rest. */
  lemma WirePath(env: Env, cells: Bytes, head: Bytes, stream: Bytes)
    requires ParseHead(env, BLANK_HEAD, head).1.Ok?
    requires var h := ParseHead(env, BLANK_HEAD, head).0;
             4 <= h.size <= |stream| && !Has(h.flag, COMPRESSED) && env.magics[h.magic].mode.PathMode?
    ensures var h := ParseHead(env, BLANK_HEAD, head).0;
            var n := ToI32(GetU32(env.magics[head[0]].order, stream[..4]));
            var (m, r) := Refill(env, cells, head, stream);
            && r == Ok(())
            && (PathOf(env, m) == Err(HeadIllegal) <==> n <= 0 || n > h.size - 4)
            && (0 < n <= h.size - 4 ==>
                  PathOf(env, m) == Ok(Cut(stream[4..4 + n])) && BodyOf(env, m) == Ok(stream[4 + n..h.size]))
            && (!(0 < n <= h.size - 4) ==> BodyOf(env, m) == Ok(stream[4..h.size]))
  {
    RefillContents(env, cells, head, stream);
    var h := ParseHead(env, BLANK_HEAD, head).0;
    var m := Refill(env, cells, head, stream).0;
    assert h.magic == head[0];
    hide Refill, ParseHead, PathOf, BodyOf, Cut, GetU32, ToI32, Has;
    PathModeContents(env, m);
    SameFront(Data(m), stream, h.size);
  }

  lemma SameFront(data: Bytes, stream: Bytes, size: nat)
    requires 4 <= size <= |stream| && data == stream[..size]
    ensures data[..4] == stream[..4] && data[4..] == stream[4..size]
    ensures forall n :: 0 <= n <= size - 4 ==>
              data[4..][..n] == stream[4..4 + n] && data[4..][n..] == stream[4 + n..size]
  {}

  /** A peer can make Code panic exactly by a body that fits into a recycled array of less than four cells. */
  lemma WirePanics(env: Env, cells: Bytes, head: Bytes, stream: Bytes)
    requires Usable(env) && Refill(env, cells, head, stream).1 == Ok(())
    ensures var h := ParseHead(env, BLANK_HEAD, head).0;
            CodeOf(env, Refill(env, cells, head, stream).0).Panic?
            <==> |cells| < 4 && h.size <= |cells| && (h.size == 0 || !Has(h.flag, COMPRESSED))
  {}

  // --------------------------------------------------------------- Marshal

  /** The transform is asked for a path or a code that it does not know. */
  predicate Untranslated(env: Env, mode: Mode, arg: PathArg) {
    || (mode.CodeMode? && arg.Name? && env.codeOf(arg.path).None?)
    || (mode.PathMode? && arg.Code? && env.pathOf(WrapI32(arg.code)).None?)
  }

  /** Which error Marshal returns, for every argument; after one the size and the cached code are the old
      ones, and before the encoder has run the contents too. */
  lemma MarshalOutcome(env: Env, m: Msg, magic: Byte, flag: Flag, index: I32, arg: PathArg, body: Option<Bytes>)
    requires Usable(env)
    ensures var (m', r) := Marshalled(env, m, magic, flag, index, arg, body);
            && (r == Err(UnknownMagic) <==> magic !in env.magics)
            && (r == Err(UnsupportedPath) <==> magic in env.magics && arg.Other?)
            && (r == Err(NoTransform) <==> magic in env.magics && Untranslated(env, env.magics[magic].mode, arg))
            && (r == Err(Encode) <==> magic in env.magics && !arg.Other?
                                      && !Untranslated(env, env.magics[magic].mode, arg) && body.None?)
            && (r == Ok(()) <==> magic in env.magics && !arg.Other?
                                 && !Untranslated(env, env.magics[magic].mode, arg) && body.Some?)
            && (!r.Ok? ==> m'.head == Head(magic, flag, m.head.size, index) && m'.code == m.code)
            && (!r.Ok? && r != Err(Encode) && m.len >= 4 ==> m'.cells == m.cells && m'.len == m.len)
  {
    hide Append, Spliced;
  }

  /** Marshal writes over the contents in place while the new ones fit into the array. */
  lemma MarshalInPlace(env: Env, m: Msg, magic: Byte, flag: Flag, index: I32, arg: PathArg, body: Bytes)
    requires Usable(env) && magic in env.magics && Prefix(env, env.magics[magic].mode, arg).Ok? && m.len >= 4
    ensures var payload := Payload(env, env.magics[magic].mode, env.magics[magic].order, arg, body);
            |payload| <= |m.cells| ==>
              Marshalled(env, m, magic, flag, index, arg, Some(body)).0.cells == payload + m.cells[|payload|..]
  {
    var (word, path) := Prefix(env, env.magics[magic].mode, arg).value;
    var put := PutU32(env.magics[magic].order, word);
    hide Prefix, PutU32;
    var c0 := Spliced(m.cells, 0, put);
    if 4 + |path| + |body| <= |m.cells| {
      var c1 := Spliced(c0, 4, path);
      assert c1 == put + path + m.cells[4 + |path|..];
      assert Spliced(c1, 4 + |path|, body) == put + path + body + m.cells[4 + |path| + |body|..];
      assert body == [] ==> put + path + body == put + path;
    }
  }

  /** What does not fit behind the first bytes of an array goes with them into one at least twice as large,
      which holds zeros after it. */
  lemma AppendGrows(cells: Bytes, at: nat, data: Bytes)
    requires at <= |cells| < at + |data|
    ensures var c := Append(cells, at, data);
            && |c| >= 2 * |cells| && c[..at] == cells[..at] && c[at..at + |data|] == data
            && forall i :: at + |data| <= i < |c| ==> c[i] == 0
  {}

  // ------------------------------------------------------------ reading in

  /** The size that the header bytes announce. */
  function SizeOf(env: Env, d: Bytes): I32
    requires |d| >= HEAD_SIZE && d[0] in env.magics
  {
    ToI32(GetU32(env.magics[d[0]].order, d[2..6]))
  }

  function IndexOfHead(env: Env, d: Bytes): I32
    requires |d| >= HEAD_SIZE && d[0] in env.magics
  {
    ToI32(GetU32(env.magics[d[0]].order, d[6..10]))
  }

  /** The header of the message that is made of the bytes: as they say, or, when they are marked as compressed,
      without the mark and with the size of the plain contents. */
  function HeadRead(env: Env, d: Bytes, plain: nat): Head
    requires |d| >= HEAD_SIZE && d[0] in env.magics
  {
    var flag := FlagWire.FromByte(d[1]);
    Head(d[0], if Marked(d) then Delete(flag, COMPRESSED) else flag,
         if Marked(d) then WrapI32(plain) else SizeOf(env, d), IndexOfHead(env, d))
  }

  /** A datagram with a known magic and an allowed size. */
  predicate Accepts(env: Env, d: Bytes) {
    |d| >= HEAD_SIZE && d[0] in env.magics && SizeOf(env, d) <= env.opts.maxDataSize
  }

  predicate Marked(d: Bytes)
    requires |d| >= HEAD_SIZE
  {
    Has(FlagWire.FromByte(d[1]), COMPRESSED)
  }

  /** Which error Reset returns, for every datagram; and what the message holds after a success. */
  lemma ResetOutcome(env: Env, m: Msg, d: Bytes, slack: Bytes)
    ensures var (m', r) := ResetTo(env, m, d + slack, |d|);
            && (r == Err(UnexpectedEof) <==> |d| < HEAD_SIZE)
            && (r == Err(HeadIllegal) <==> |d| >= HEAD_SIZE && d[0] !in env.magics)
            && (r == Err(TooLong) <==> |d| >= HEAD_SIZE && d[0] in env.magics && !Accepts(env, d))
            && (r == Err(Gzip) <==> Accepts(env, d) && Marked(d) && env.gunzip(d[HEAD_SIZE..]).None?)
            && (r == Ok(()) <==> Accepts(env, d) && (Marked(d) ==> env.gunzip(d[HEAD_SIZE..]).Some?))
            && (r == Ok(()) ==> m'.head == HeadRead(env, d, |Data(m')|) && m'.code == m.code
                                && Data(m') == if Marked(d) then env.gunzip(d[HEAD_SIZE..]).value else d[HEAD_SIZE..])
            // otherwise the contents stay, and the header too unless it was read
            && (r != Ok(()) && r != Err(Gzip) ==> m' == m.(head := m'.head))
            && (r == Err(TooLong) ==>
                  m'.head == Head(d[0], FlagWire.FromByte(d[1]), SizeOf(env, d), IndexOfHead(env, d)))
            && (r == Err(UnexpectedEof) || r == Err(HeadIllegal) ==> m' == m)
  {
    if |d| >= HEAD_SIZE {
      var head := d[..HEAD_SIZE];
      assert (d + slack)[..HEAD_SIZE] == head && head[0] == d[0] && head[1] == d[1] && head[2..6] == d[2..6];
      assert head[6..10] == d[6..10];
      assert (d + slack)[HEAD_SIZE..][..|d| - HEAD_SIZE] == d[HEAD_SIZE..];
    }
    hide GetU32, ToI32, Delete, Has;
  }

  /** Which outcome Write has once the header is there, for every body; a body cut short is an error and
      the array is kept or replaced for its size. */
  lemma FillOutcome(env: Env, m: Msg, stream: Bytes)
    ensures var (m', r) := Fill(env, m, stream);
            && (r.Panic? <==> m.head.size < 0)
            && (r == Err(ShortBuffer) <==> |stream| < m.head.size)
            && (r == Err(Gzip) <==> 0 < m.head.size <= |stream| && Has(m.head.flag, COMPRESSED)
                                    && env.gunzip(stream[..m.head.size]).None?)
            && (r == Ok(()) <==> m.head.size == 0
                                 || (0 < m.head.size <= |stream|
                                     && (Has(m.head.flag, COMPRESSED) ==> env.gunzip(stream[..m.head.size]).Some?)))
            && (m.head.size <= 0 ==> m' == m)
  {
    if 0 < m.head.size <= |stream| {
      var size: nat := m.head.size;
      var got := RawMsg(m.head, m.code, Spliced(Room(env, m.cells, size), 0, stream[..size]), size);
      assert Data(got) == stream[..size];
    }
  }

  /** A plain body is read into the message's own array while it fits, into a new one of the configured
      capacity while that is enough, and else into one of its size. */
  lemma FillArray(env: Env, m: Msg, stream: Bytes)
    requires 0 < m.head.size && (!Has(m.head.flag, COMPRESSED) || |stream| < m.head.size)
    ensures var size: nat := m.head.size;
            var cells := Fill(env, m, stream).0.cells;
            if size <= |m.cells| then |cells| == |m.cells| && cells[size..] == m.cells[size..]
            else |cells| == (if size > env.opts.capacity then size else env.opts.capacity)
                 && cells[size..] == Zeros(|cells| - size)
  {
    var size: nat := m.head.size;
    var room := Room(env, m.cells, size);
    var part := if |stream| < size then stream else stream[..size];
    assert Fill(env, m, stream).0.cells == Spliced(room, 0, part);
    assert Spliced(room, 0, part)[size..] == room[size..];
    if size > |m.cells| {
      assert room[size..] == Zeros(|room| - size);
    }
    hide Fill, Spliced;
  }

  /** What decompression leaves can always be looked at. */
  lemma DecompressedViews(env: Env, m: Msg)
    requires Has(m.head.flag, COMPRESSED) && m.head.magic in env.magics && Decompress(env, m).1 == Ok(())
    ensures var m' := Decompress(env, m).0;
            !CodeOf(env, m').Panic? && !PathOf(env, m').Panic? && !BodyOf(env, m').Panic?
  {}

  // ---------------------------------------------------------------- header

  /** The layout of the ten bytes: magic, flag, size, index, the numbers in two's complement with the most
      or the least significant byte first. */
  lemma HeadLayout(env: Env, h: Head)
    requires h.magic in env.magics
    ensures var b := EncodeHead(env, h);
            b[0] == h.magic
            && match env.magics[h.magic].order
               case BigEndian =>
                 && ToI32(b[2] * TWO_24 + b[3] * TWO_16 + b[4] * TWO_8 + b[5]) == h.size
                 && ToI32(b[6] * TWO_24 + b[7] * TWO_16 + b[8] * TWO_8 + b[9]) == h.index
               case LittleEndian =>
                 && ToI32(b[5] * TWO_24 + b[4] * TWO_16 + b[3] * TWO_8 + b[2]) == h.size
                 && ToI32(b[9] * TWO_24 + b[8] * TWO_16 + b[7] * TWO_8 + b[6]) == h.index
  {
    var order := env.magics[h.magic].order;
    HeadFields(env, h);
    GetPut(order, ToU32(h.size));
    GetPut(order, ToU32(h.index));
    hide PutU32, ToU32;
    var b := EncodeHead(env, h);
    var s, i := b[2..6], b[6..10];
    assert s[0] == b[2] && s[1] == b[3] && s[2] == b[4] && s[3] == b[5];
    assert i[0] == b[6] && i[1] == b[7] && i[2] == b[8] && i[3] == b[9];
  }

  /** A frame is marked as compressed exactly when its sender marked it or a threshold is set and the size
      is above it; it is compressed exactly in the second case; and no other bit of the flag changes. */
  lemma FrameMark(env: Env, p: Packet, u: Flag)
    requires p.head.magic in env.magics
    ensures var f, above := Frame(env, p), 0 < env.opts.autoCompressSize < p.head.size;
            && |f| >= HEAD_SIZE
            && (Marked(f) <==> Has(p.head.flag, COMPRESSED) || above)
            && (u & COMPRESSED == 0 ==> (Has(FlagWire.FromByte(f[1]), u) <==> Has(p.head.flag, u)))
            && f[HEAD_SIZE..] == if p.head.size == 0 then []
                                 else if above && !Has(p.head.flag, COMPRESSED) then env.gzip(p.data) else p.data
  {
    var f := Frame(env, p);
    HeadFields(env, p.head);
    FlagWire.ByteFlag(WireHead(env, p.head).flag);
    SetHas(p.head.flag, COMPRESSED, u);
    SetHas(p.head.flag, COMPRESSED, COMPRESSED);
    CompressedBit(u);
    assert f[HEAD_SIZE..] == BodyOnWire(env, p);
  }

  lemma CompressedBit(u: Flag)
    ensures Has(COMPRESSED, COMPRESSED) && (Has(COMPRESSED, u) <==> u & COMPRESSED != 0)
  {}
}
