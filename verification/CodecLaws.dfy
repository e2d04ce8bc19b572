// Laws of the codec functions: header round trips, marshalling against the views, independence
// from what a pooled buffer held before, and the datagram round trip.
module CodecLaws {
  import opened Words
  import opened Flags
  import FlagWire
  import opened Environment
  import opened Codec

  // ---------------------------------------------------------------- header

  /** The header that the peer sees: the one sent, plus the compression mark. */
  function WireHead(env: Env, h: Head): Head {
    if AutoCompress(env, h) then h.(flag := Set(h.flag, COMPRESSED)) else h
  }

  lemma HeadFields(env: Env, h: Head)
    requires h.magic in env.magics
    ensures var b, order := EncodeHead(env, h), env.magics[h.magic].order;
            b[0] == h.magic && b[1] == FlagWire.ToByte(WireHead(env, h).flag)
            && b[2..6] == PutU32(order, ToU32(h.size)) && b[6..10] == PutU32(order, ToU32(h.index))
  {}

  /** Parsing an encoded header, in either byte order and for every 32-bit size and index. */
  lemma ParseEncoded(env: Env, h0: Head, h: Head)
    requires h.magic in env.magics
    ensures ParseHead(env, h0, EncodeHead(env, h))
            == (WireHead(env, h), if h.size > env.opts.maxDataSize then Err(TooLong) else Ok(()))
  {
    var order := env.magics[h.magic].order;
    HeadFields(env, h);
    GetPut(order, ToU32(h.size));
    GetPut(order, ToU32(h.index));
    FlagWire.ByteFlag(WireHead(env, h).flag);
  }

  lemma SetChanges(f: Flag)
    ensures Set(f, COMPRESSED) == f <==> Has(f, COMPRESSED)
  {}

  /** The header survives the trip exactly when it fits and is not compressed on the way. */
  lemma HeadRoundTrip(env: Env, h0: Head, h: Head)
    requires h.magic in env.magics
    ensures ParseHead(env, h0, EncodeHead(env, h)) == (h, Ok(()))
            <==> h.size <= env.opts.maxDataSize && !AutoCompress(env, h)
  {
    ParseEncoded(env, h0, h);
    SetChanges(h.flag);
  }

  /** Re-encoding a parsed header gives the bytes back exactly when nothing asks for compression. */
  lemma EncodeParsed(env: Env, h0: Head, b: Bytes)
    requires |b| == HEAD_SIZE && b[0] in env.magics
    ensures var h := ParseHead(env, h0, b).0;
            h.magic == b[0] && (EncodeHead(env, h) == b <==> !AutoCompress(env, h))
  {
    var h := ParseHead(env, h0, b).0;
    var order := env.magics[b[0]].order;
    FlagWire.FlagByte(b[1]);
    HeadFields(env, h);
    PutGet(order, b[2..6]);
    PutGet(order, b[6..10]);
    var e := EncodeHead(env, h);
    assert e[2..6] == b[2..6] && e[6..10] == b[6..10];
    assert b == [b[0], b[1]] + b[2..6] + b[6..10];
    assert e == [e[0], e[1]] + e[2..6] + e[6..10];
    if AutoCompress(env, h) {
      SetChanges(h.flag);
      FlagWire.ByteFlag(WireHead(env, h).flag);
    }
  }

  // ----------------------------------------------------- marshal and views

  /** What every successful Marshal establishes: the size field is the length, and a word is there. */
  ghost predicate WellFormed(env: Env, m: Msg) {
    m.head.magic in env.magics && m.head.size == m.len && m.len >= 4
  }

  /** Cutting at '?' loses nothing and cuts at the first one. */
  lemma CutJoins(path: Bytes)
    ensures var (r, q) := Cut(path);
            QUESTION !in r && (if QUESTION in path then path == r + [QUESTION] + q else path == r && q == [])
  {
    var i := IndexOf(path, QUESTION);
    if i < |path| {
      assert path == path[..i] + [path[i]] + path[i + 1..];
    } else {
      assert path[..i] == path;
    }
  }

  lemma FirstWord(env: Env, m: Msg, word: U32, rest: Bytes)
    requires m.head.magic in env.magics && m.code == 0
    requires Data(m) == PutU32(env.magics[m.head.magic].order, word) + rest
    ensures CodeOf(env, m) == Ok(ToI32(word)) && m.len == 4 + |rest| && m.cells[4..m.len] == rest
  {
    var order := env.magics[m.head.magic].order;
    assert |Data(m)| == m.len;
    assert m.cells[..4] == Data(m)[..4] == PutU32(order, word);
    assert m.cells[4..m.len] == Data(m)[4..];
    GetPut(order, word);
  }

  lemma PathViews(env: Env, m: Msg, path: Bytes, body: Bytes)
    requires m.head.magic in env.magics && env.magics[m.head.magic].mode.PathMode? && m.code == 0
    requires |path| < TWO_31 && Data(m) == PutU32(env.magics[m.head.magic].order, |path|) + path + body
    ensures PathOf(env, m) == (if path == [] then Err(HeadIllegal) else Ok(Cut(path)))
    ensures BodyOf(env, m) == Ok(body)
  {
    var word := PutU32(env.magics[m.head.magic].order, |path|);
    assert word + path + body == word + (path + body);
    FirstWord(env, m, |path|, path + body);
    SliceOfSlice(m.cells, 4, m.len - 4, 0, |path|);
    SliceOfSlice(m.cells, 4, m.len - 4, |path|, m.len - 4);
    assert (path + body)[..|path|] == path && (path + body)[|path|..] == body;
  }

  /** Path mode: what was marshalled into a released message is what the views show. */
  lemma PathModeViews(env: Env, m: Msg, magic: Byte, flag: Flag, index: I32, path: Bytes, body: Bytes)
    requires Usable(env) && magic in env.magics && env.magics[magic].mode.PathMode? && m.code == 0
    requires 4 + |path| + |body| < TWO_31
    ensures var (m', r) := Marshalled(env, m, magic, flag, index, Name(path), Some(body));
            r == Ok(()) && WellFormed(env, m') && m'.head == Head(magic, flag, 4 + |path| + |body|, index)
            && PathOf(env, m') == (if path == [] then Err(HeadIllegal) else Ok(Cut(path)))
            && BodyOf(env, m') == Ok(body)
  {
    hide Marshalled, PathOf, BodyOf, Cut, Prefix, Payload, PutU32;
    NamePayload(env, magic, path, body);
    MarshalledOk(env, m, magic, flag, index, Name(path), body);
    var m' := Marshalled(env, m, magic, flag, index, Name(path), Some(body)).0;
    assert |Data(m')| == m'.len;
    PathViews(env, m', path, body);
  }

  /** Path mode with a number: the path that the transform has for its low 32 bits is what comes back. */
  lemma PathModeNumber(env: Env, m: Msg, magic: Byte, flag: Flag, index: I32, code: int, path: Bytes, body: Bytes)
    requires Usable(env) && magic in env.magics && env.magics[magic].mode.PathMode? && m.code == 0
    requires env.pathOf(WrapI32(code)) == Some(path) && 4 + |path| + |body| < TWO_31
    ensures var (m', r) := Marshalled(env, m, magic, flag, index, PathArg.Code(code), Some(body));
            r == Ok(()) && WellFormed(env, m') && m'.head == Head(magic, flag, 4 + |path| + |body|, index)
            && PathOf(env, m') == (if path == [] then Err(HeadIllegal) else Ok(Cut(path)))
            && BodyOf(env, m') == Ok(body)
  {
    hide Marshalled, PathOf, BodyOf, Cut, Prefix, Payload, PutU32;
    NumberPayload(env, magic, code, path, body);
    MarshalledOk(env, m, magic, flag, index, PathArg.Code(code), body);
    var m' := Marshalled(env, m, magic, flag, index, PathArg.Code(code), Some(body)).0;
    assert |Data(m')| == m'.len;
    PathViews(env, m', path, body);
  }

  lemma NamePayload(env: Env, magic: Byte, path: Bytes, body: Bytes)
    requires magic in env.magics && env.magics[magic].mode.PathMode? && 4 + |path| + |body| < TWO_31
    ensures var Magic(_, mode, order, _) := env.magics[magic];
            && Prefix(env, mode, Name(path)) == Ok((|path|, path))
            && Payload(env, mode, order, Name(path), body) == PutU32(order, |path|) + path + body
            && |Payload(env, mode, order, Name(path), body)| == 4 + |path| + |body|
            && WrapI32(4 + |path| + |body|) == 4 + |path| + |body|
  {
    hide PutU32;
  }

  lemma NumberPayload(env: Env, magic: Byte, code: int, path: Bytes, body: Bytes)
    requires magic in env.magics && env.magics[magic].mode.PathMode?
    requires env.pathOf(WrapI32(code)) == Some(path) && 4 + |path| + |body| < TWO_31
    ensures var Magic(_, mode, order, _) := env.magics[magic];
            && Prefix(env, mode, PathArg.Code(code)) == Ok((|path|, path))
            && Payload(env, mode, order, PathArg.Code(code), body) == PutU32(order, |path|) + path + body
            && |Payload(env, mode, order, PathArg.Code(code), body)| == 4 + |path| + |body|
            && WrapI32(4 + |path| + |body|) == 4 + |path| + |body|
  {
    hide PutU32;
  }

  /** Code mode: the same, through a transform that knows the path. */
  lemma CodeModeViews(env: Env, m: Msg, magic: Byte, flag: Flag, index: I32, path: Bytes, body: Bytes)
    requires Usable(env) && magic in env.magics && env.magics[magic].mode.CodeMode? && m.code == 0
    requires TransformInverse(env, path) && 4 + |body| < TWO_31
    ensures var (m', r) := Marshalled(env, m, magic, flag, index, Name(path), Some(body));
            r == Ok(()) && WellFormed(env, m') && m'.head == Head(magic, flag, 4 + |body|, index)
            && PathOf(env, m') == Ok((path, [])) && BodyOf(env, m') == Ok(body)
  {
    MarshalledOk(env, m, magic, flag, index, Name(path), body);
    var m' := Marshalled(env, m, magic, flag, index, Name(path), Some(body)).0;
    var code := env.codeOf(path).value;
    var word := PutU32(env.magics[magic].order, ToU32(code));
    assert word + [] + body == word + body;
    FirstWord(env, m', ToU32(code), body);
  }

  /** Code mode with a number: Code gives its low 32 bits back. */
  lemma CodeModeNumber(env: Env, m: Msg, magic: Byte, flag: Flag, index: I32, code: int, body: Bytes)
    requires Usable(env) && magic in env.magics && env.magics[magic].mode.CodeMode? && m.code == 0
    requires 4 + |body| < TWO_31
    ensures var (m', r) := Marshalled(env, m, magic, flag, index, PathArg.Code(code), Some(body));
            r == Ok(()) && WellFormed(env, m') && CodeOf(env, m') == Ok(WrapI32(code)) && BodyOf(env, m') == Ok(body)
  {
    MarshalledOk(env, m, magic, flag, index, PathArg.Code(code), body);
    var m' := Marshalled(env, m, magic, flag, index, PathArg.Code(code), Some(body)).0;
    var word := PutU32(env.magics[magic].order, ToU32(WrapI32(code)));
    assert word + [] + body == word + body;
    FirstWord(env, m', ToU32(WrapI32(code)), body);
  }

  /** What Marshal leaves in a message, for the views of it: the word, the path and the body. */
  lemma MarshalledData(env: Env, m: Msg, magic: Byte, flag: Flag, index: I32, path: Bytes, body: Bytes)
    requires Usable(env) && magic in env.magics && env.magics[magic].mode.PathMode?
    requires 4 + |path| + |body| < TWO_31
    ensures var m' := Marshalled(env, m, magic, flag, index, Name(path), Some(body)).0;
            m'.head.magic == magic && m'.code == m.code && m'.len == 4 + |path| + |body|
            && m'.cells[4..m'.len] == path + body
  {
    hide Marshalled, Prefix, Payload, PutU32;
    NamePayload(env, magic, path, body);
    MarshalledOk(env, m, magic, flag, index, Name(path), body);
    var m' := Marshalled(env, m, magic, flag, index, Name(path), Some(body)).0;
    var put := PutU32(env.magics[magic].order, |path|);
    assert put + path + body == put + (path + body);
    FirstWord(env, m'.(code := 0), |path|, path + body);
  }

  /** Marshalling into a message that was not released: its body view is right exactly when the code
      cached from the earlier contents happens to be the length of the new path. */
  lemma StaleCode(env: Env, m: Msg, magic: Byte, flag: Flag, index: I32, path: Bytes, body: Bytes)
    requires Usable(env) && magic in env.magics && env.magics[magic].mode.PathMode?
    requires 0 < |path| && 4 + |path| + |body| < TWO_31
    ensures var m' := Marshalled(env, m, magic, flag, index, Name(path), Some(body)).0;
            BodyOf(env, m') == Ok(body) <==> m.code == 0 || m.code == |path|
  {
    if m.code == 0 {
      PathModeViews(env, m, magic, flag, index, path, body);
    } else {
      MarshalledData(env, m, magic, flag, index, path, body);
      var m' := Marshalled(env, m, magic, flag, index, Name(path), Some(body)).0;
      hide Marshalled;
      SliceOfSlice(m'.cells, 4, m'.len - 4, |path|, m'.len - 4);
      assert (path + body)[|path|..] == body;
      if BodyOf(env, m') == Ok(body) {
        assert |BodyOf(env, m').value| == |body|;
      }
    }
  }

  /** The first `code` bytes of path and body cut like the path: they are the path, or differ from it
      by a question mark at the end, which starts an empty query. */
  predicate CutsAlike(code: int, path: Bytes, body: Bytes) {
    || code == |path|
    || (code == |path| + 1 && QUESTION !in path && body != [] && body[0] == QUESTION)
    || (0 < code == |path| - 1 && QUESTION !in path[..code] && path[code] == QUESTION)
  }

  lemma CutsSame(a: Bytes, b: Bytes)
    requires |a| < |b| && b[..|a|] == a
    ensures Cut(a) == Cut(b) <==> |b| == |a| + 1 && QUESTION !in a && b[|a|] == QUESTION
  {
    CutJoins(a);
    CutJoins(b);
    assert b == a + b[|a|..];
    if |b| == |a| + 1 && QUESTION !in a && b[|a|] == QUESTION {
      assert IndexOf(b, QUESTION) == |a| by {
        assert forall i :: 0 <= i < |a| ==> b[i] == a[i];
      }
    }
    if Cut(a) == Cut(b) {
      var (r, q) := Cut(a);
      assert QUESTION !in a && b == a + [QUESTION];
    }
  }

  /** Its path view is right exactly when the bytes that the old code delimits cut like the path. */
  lemma StalePath(env: Env, m: Msg, magic: Byte, flag: Flag, index: I32, path: Bytes, body: Bytes)
    requires Usable(env) && magic in env.magics && env.magics[magic].mode.PathMode?
    requires 0 < |path| && 4 + |path| + |body| < TWO_31
    ensures var m' := Marshalled(env, m, magic, flag, index, Name(path), Some(body)).0;
            PathOf(env, m') == Ok(Cut(path)) <==> m.code == 0 || CutsAlike(m.code, path, body)
  {
    if m.code == 0 {
      PathModeViews(env, m, magic, flag, index, path, body);
    } else {
      MarshalledData(env, m, magic, flag, index, path, body);
      var m' := Marshalled(env, m, magic, flag, index, Name(path), Some(body)).0;
      hide Marshalled, Cut;
      if 0 < m.code <= |path| + |body| {
        SliceOfSlice(m'.cells, 4, m'.len - 4, 0, m.code);
        var seen := (path + body)[..m.code];
        assert PathOf(env, m') == Ok(Cut(seen));
        SeenCuts(path, body, m.code);
      }
    }
  }

  lemma SeenCuts(path: Bytes, body: Bytes, code: int)
    requires 0 < |path| && 0 < code <= |path| + |body|
    ensures Cut((path + body)[..code]) == Cut(path) <==> CutsAlike(code, path, body)
  {
    hide Cut;
    var seen := (path + body)[..code];
    if code < |path| {
      assert seen == path[..code];
      CutsSame(seen, path);
    } else if code > |path| {
      assert seen[..|path|] == path && seen[|path|] == body[0];
      CutsSame(path, seen);
    } else {
      assert seen == path;
    }
  }

  /** Looking at a message caches its code, so that to marshal into it afterwards, without a release, gives the
      right body exactly when there was no code, or it is the length of the new path. */
  lemma StaleAfterLooking(env: Env, m: Msg, magic: Byte, flag: Flag, index: I32, path: Bytes, body: Bytes, code: I32)
    requires Usable(env) && magic in env.magics && env.magics[magic].mode.PathMode?
    requires 0 < |path| && 4 + |path| + |body| < TWO_31 && CodeOf(env, m) == Ok(code)
    ensures var m' := Marshalled(env, Cached(env, m), magic, flag, index, Name(path), Some(body)).0;
            BodyOf(env, m') == Ok(body) <==> code == 0 || code == |path|
  {
    assert Cached(env, m).code == code;
    hide Cached, CodeOf, Marshalled, BodyOf;
    StaleCode(env, Cached(env, m), magic, flag, index, path, body);
  }

  /** In code mode a message that was not released shows the old code, so that its code is right exactly
      when that was 0 or is the new one; the body is always right. */
  lemma StaleCodeMode(env: Env, m: Msg, magic: Byte, flag: Flag, index: I32, arg: PathArg, body: Bytes)
    requires Usable(env) && magic in env.magics && env.magics[magic].mode.CodeMode?
    requires 4 + |body| < TWO_31 && Prefix(env, env.magics[magic].mode, arg).Ok?
    ensures var (m', r) := Marshalled(env, m, magic, flag, index, arg, Some(body));
            var code := ToI32(Prefix(env, env.magics[magic].mode, arg).value.0);
            && r == Ok(()) && BodyOf(env, m') == Ok(body)
            && (CodeOf(env, m') == Ok(code) <==> m.code == 0 || m.code == code)
  {
    MarshalledOk(env, m, magic, flag, index, arg, body);
    var m' := Marshalled(env, m, magic, flag, index, arg, Some(body)).0;
    var (word, path) := Prefix(env, env.magics[magic].mode, arg).value;
    assert path == [];
    hide Marshalled, Prefix;
    var put := PutU32(env.magics[magic].order, word);
    assert put + path + body == put + body;
    FirstWord(env, m'.(code := 0), word, body);
  }

  // ---------------------------------------------------- pool independence

  /** A message as the pool hands it out: blank but for the cells of the array it kept. */
  function Pooled(cells: Bytes): Msg {
    RawMsg(BLANK_HEAD, 0, cells, 0)
  }

  /** All that a user of the message can ask it. */
  datatype Observation = Observation(
    head: Head, code: Outcome<I32>, path: Outcome<(Bytes, Bytes)>, body: Outcome<Bytes>)

  function Observe(env: Env, m: Msg): Observation {
    Observation(m.head, CodeOf(env, m), PathOf(env, m), BodyOf(env, m))
  }

  /** Release leaves a blank message, and lets go of an array beyond the configured capacity. */
  lemma ReleasedIsPooled(env: Env, m: Msg)
    ensures var cells := Released(env, m).cells;
            Released(env, m) == Pooled(cells) && |cells| <= env.opts.capacity
            && (|m.cells| <= env.opts.capacity ==> cells == m.cells)
  {}

  /** Parse and Write into a pooled message. */
  function Refill(env: Env, cells: Bytes, head: Bytes, stream: Bytes): (Msg, Outcome<()>) {
    var (h, r) := ParseHead(env, BLANK_HEAD, head);
    var m := Pooled(cells).(head := h);
    if r.Ok? then Fill(env, m, stream) else (m, r)
  }

  /** The body is long enough to hold the word that Code looks at. */
  predicate CoversWord(h: Head) {
    h.size >= 4 || (h.size > 0 && Has(h.flag, COMPRESSED))
  }

  /** What Write does to a pooled message, up to the cells past its length. */
  lemma RefillContents(env: Env, cells: Bytes, head: Bytes, stream: Bytes)
    requires CoversWord(ParseHead(env, BLANK_HEAD, head).0) && ParseHead(env, BLANK_HEAD, head).1.Ok?
    ensures var h := ParseHead(env, BLANK_HEAD, head).0;
            var (m, r) := Refill(env, cells, head, stream);
            var plain := RawMsg(h, 0, stream, h.size);
            if |stream| < h.size then r == Err(ShortBuffer)
            else if Has(h.flag, COMPRESSED) then
              (r.Ok? ==> (m, r) == Decompress(env, plain)) && (r.Ok? <==> Decompress(env, plain).1.Ok?)
            else r.Ok? && m.head == h && m.code == 0 && m.len == h.size && Data(m) == stream[..h.size]
  {
    var h := ParseHead(env, BLANK_HEAD, head).0;
    if |stream| >= h.size {
      var m := RawMsg(h, 0, Spliced(Room(env, cells, h.size), 0, stream[..h.size]), h.size);
      assert Data(m) == stream[..h.size];
    }
  }

  ghost predicate SameContents(m1: Msg, m2: Msg) {
    m1.head == m2.head && m1.code == m2.code && m1.len == m2.len >= 4 && Data(m1) == Data(m2)
  }

  lemma SameCode(env: Env, m1: Msg, m2: Msg)
    requires SameContents(m1, m2)
    ensures CodeOf(env, m1) == CodeOf(env, m2)
  {}

  lemma SamePath(env: Env, m1: Msg, m2: Msg)
    requires SameContents(m1, m2)
    ensures PathOf(env, m1) == PathOf(env, m2)
  {
    SameCode(env, m1, m2);
    var code := CodeOf(env, m1);
    if code.Ok? && 0 < code.value && code.value + 4 <= m1.len {
      SameSlices(m1, m2, 4, code.value + 4);
    }
  }

  lemma SameBody(env: Env, m1: Msg, m2: Msg)
    requires SameContents(m1, m2)
    ensures BodyOf(env, m1) == BodyOf(env, m2)
  {
    SameCode(env, m1, m2);
    SameSlices(m1, m2, 4, m1.len);
    var code := CodeOf(env, m1);
    if code.Ok? && 0 < code.value && code.value + 4 <= m1.len {
      SameSlices(m1, m2, 4 + code.value, m1.len);
    }
  }

  /** Two messages with the same contents and at least four of them cannot be told apart. */
  lemma SameDataSameViews(env: Env, m1: Msg, m2: Msg)
    requires SameContents(m1, m2)
    ensures Observe(env, m1) == Observe(env, m2)
  {
    SameCode(env, m1, m2);
    SamePath(env, m1, m2);
    SameBody(env, m1, m2);
  }

  lemma SameSlices(m1: Msg, m2: Msg, i: nat, j: nat)
    requires Data(m1) == Data(m2) && m1.len == m2.len && i <= j <= m1.len
    ensures m1.cells[i..j] == m2.cells[i..j]
  {}

  /** A refilled message shows the wire bytes only, whatever array it recycles and whichever of the
      three buffer branches it takes. */
  lemma PoolIndependence(env: Env, cells1: Bytes, cells2: Bytes, head: Bytes, stream: Bytes)
    requires CoversWord(ParseHead(env, BLANK_HEAD, head).0)
    requires Refill(env, cells1, head, stream).1 == Ok(())
    ensures Refill(env, cells2, head, stream).1 == Ok(())
    ensures Observe(env, Refill(env, cells1, head, stream).0) == Observe(env, Refill(env, cells2, head, stream).0)
  {
    RefillContents(env, cells1, head, stream);
    RefillContents(env, cells2, head, stream);
    if !Has(ParseHead(env, BLANK_HEAD, head).0.flag, COMPRESSED) {
      SameDataSameViews(env, Refill(env, cells1, head, stream).0, Refill(env, cells2, head, stream).0);
    }
  }

  /** For every shorter body the bound is sharp: two recycled arrays make Code differ. */
  lemma PoolDependence(env: Env, head: Bytes, stream: Bytes) returns (cells1: Bytes, cells2: Bytes)
    requires ParseHead(env, BLANK_HEAD, head).1 == Ok(())
    requires var h := ParseHead(env, BLANK_HEAD, head).0; 0 <= h.size <= |stream| && !CoversWord(h)
    ensures Refill(env, cells1, head, stream).1 == Refill(env, cells2, head, stream).1 == Ok(())
    ensures CodeOf(env, Refill(env, cells1, head, stream).0) != CodeOf(env, Refill(env, cells2, head, stream).0)
  {
    var h := ParseHead(env, BLANK_HEAD, head).0;
    cells1, cells2 := [0, 0, 0, 0], [0, 0, 0, 1];
    var m1, m2 := Refill(env, cells1, head, stream).0, Refill(env, cells2, head, stream).0;
    assert m1.cells[3] == 0 && m2.cells[3] == 1;
    var order := env.magics[h.magic].order;
    PutGet(order, m1.cells[..4]);
    PutGet(order, m2.cells[..4]);
    assert m1.cells[..4][3] != m2.cells[..4][3];
  }

  /** Within one fill cycle the cached code is the word in front. */
  ghost predicate CodeFresh(env: Env, m: Msg) {
    m.code == 0 || (m.head.magic in env.magics && |m.cells| >= 4
                    && m.code == ToI32(GetU32(env.magics[m.head.magic].order, m.cells[..4])))
  }

  lemma CodeStaysFresh(env: Env, m: Msg, cells: Bytes, head: Bytes, stream: Bytes)
    ensures CodeFresh(env, Released(env, m))
    ensures CodeFresh(env, Refill(env, cells, head, stream).0)
    ensures CodeFresh(env, ResetTo(env, Pooled(cells), stream, |stream|).0)
    ensures CodeFresh(env, m) ==> CodeFresh(env, Cached(env, m)) && Observe(env, Cached(env, m)) == Observe(env, m)
  {
    RefillKeepsCode(env, cells, head, stream);
    ResetKeepsCode(env, Pooled(cells), stream, |stream|);
    if CodeFresh(env, m) {
      LookingKeepsCode(env, m);
    }
    hide Refill, ResetTo, Cached, Observe, CodeOf;
  }

  lemma FillKeepsCode(env: Env, m: Msg, stream: Bytes)
    ensures Fill(env, m, stream).0.code == m.code
  {
    hide Room, Spliced;
  }

  lemma RefillKeepsCode(env: Env, cells: Bytes, head: Bytes, stream: Bytes)
    ensures Refill(env, cells, head, stream).0.code == 0
  {
    var (h, r) := ParseHead(env, BLANK_HEAD, head);
    FillKeepsCode(env, Pooled(cells).(head := h), stream);
    hide Fill, ParseHead;
  }

  lemma ResetKeepsCode(env: Env, m: Msg, cells: Bytes, len: nat)
    requires len <= |cells|
    ensures ResetTo(env, m, cells, len).0.code == m.code
  {
    hide ParseHead;
  }

  lemma LookingKeepsCode(env: Env, m: Msg)
    requires CodeFresh(env, m)
    ensures CodeFresh(env, Cached(env, m)) && Observe(env, Cached(env, m)) == Observe(env, m)
  {
    CachedCode(env, m);
    hide CodeOf, Cached, CodeFresh;
  }

  lemma CachedCode(env: Env, m: Msg)
    requires CodeFresh(env, m)
    ensures CodeFresh(env, Cached(env, m)) && CodeOf(env, Cached(env, m)) == CodeOf(env, m)
    ensures var m' := Cached(env, m); m'.head == m.head && m'.cells == m.cells && m'.len == m.len
  {
    hide ToI32, GetU32;
  }

  /** Marshal keeps the cached code in every branch, so that it is fresh after a release. */
  lemma MarshalKeepsCode(env: Env, m: Msg, magic: Byte, flag: Flag, index: I32, arg: PathArg, body: Option<Bytes>)
    requires Usable(env)
    ensures Marshalled(env, m, magic, flag, index, arg, body).0.code == m.code
    ensures m.code == 0 ==> CodeFresh(env, Marshalled(env, m, magic, flag, index, arg, body).0)
  {
    hide Append, Grown, Spliced;
  }

  /** A datagram read into a pooled message shows its own bytes only, whatever the pooled array held
      and whatever lies behind the datagram in its array, if it is compressed or its body has at
      least four bytes. */
  lemma ResetIndependence(env: Env, cells1: Bytes, cells2: Bytes, d: Bytes, slack1: Bytes, slack2: Bytes)
    requires ResetTo(env, Pooled(cells1), d + slack1, |d|).1 == Ok(())
    requires |d| >= HEAD_SIZE + 4 || Has(FlagWire.FromByte(d[1]), COMPRESSED)
    ensures ResetTo(env, Pooled(cells2), d + slack2, |d|).1 == Ok(())
    ensures Observe(env, ResetTo(env, Pooled(cells1), d + slack1, |d|).0)
            == Observe(env, ResetTo(env, Pooled(cells2), d + slack2, |d|).0)
  {
    hide Observe;
    assert (d + slack1)[..HEAD_SIZE] == d[..HEAD_SIZE] == (d + slack2)[..HEAD_SIZE];
    var h := ParseHead(env, BLANK_HEAD, d[..HEAD_SIZE]).0;
    var m1 := RawMsg(h, 0, (d + slack1)[HEAD_SIZE..], |d| - HEAD_SIZE);
    var m2 := RawMsg(h, 0, (d + slack2)[HEAD_SIZE..], |d| - HEAD_SIZE);
    assert Data(m1) == d[HEAD_SIZE..] == Data(m2);
    if !Has(h.flag, COMPRESSED) {
      SameDataSameViews(env, m1, m2);
    }
  }

  /** For a shorter body that is not compressed, what lies behind the datagram can make Code differ. */
  lemma ResetDependence(env: Env, cells: Bytes, d: Bytes) returns (slack1: Bytes, slack2: Bytes)
    requires |d| < HEAD_SIZE + 4 && ResetTo(env, Pooled(cells), d, |d|).1 == Ok(())
             && !Has(FlagWire.FromByte(d[1]), COMPRESSED)
    ensures ResetTo(env, Pooled(cells), d + slack1, |d|).1 == ResetTo(env, Pooled(cells), d + slack2, |d|).1 == Ok(())
    ensures CodeOf(env, ResetTo(env, Pooled(cells), d + slack1, |d|).0)
            != CodeOf(env, ResetTo(env, Pooled(cells), d + slack2, |d|).0)
  {
    var gap := HEAD_SIZE + 3 - |d|;
    slack1, slack2 := Zeros(gap) + [0], Zeros(gap) + [1];
    assert (d + slack1)[..HEAD_SIZE] == d[..HEAD_SIZE] == (d + slack2)[..HEAD_SIZE];
    var h := ParseHead(env, BLANK_HEAD, d[..HEAD_SIZE]).0;
    var c1, c2 := (d + slack1)[HEAD_SIZE..], (d + slack2)[HEAD_SIZE..];
    var order := env.magics[h.magic].order;
    assert |c1| == |c2| == 4 && c1[3] == 0 && c2[3] == 1;
    assert c1[..4] == c1 && c2[..4] == c2;
    PutGet(order, c1);
    PutGet(order, c2);
  }

  // --------------------------------------------------- datagram round trip

  /** Reset on what Bytes wrote: header and contents come back, compressed on the way or not,
      exactly when the sender's flag does not itself claim compression and the size is allowed. */
  lemma DatagramRoundTrip(env: Env, m: Msg, m0: Msg, slack: Bytes)
    requires WellFormed(env, m) && GzipInverse(env)
    ensures var f := Frame(env, PacketOf(m));
            var (m', r) := ResetTo(env, m0, f + slack, |f|);
            (r == Ok(()) && m'.head == m.head && Data(m') == Data(m) && m'.code == m0.code)
            <==> m.head.size <= env.opts.maxDataSize && !Has(m.head.flag, COMPRESSED)
  {
    var f := Frame(env, PacketOf(m));
    assert (f + slack)[..HEAD_SIZE] == EncodeHead(env, m.head);
    ParseEncoded(env, m0.head, m.head);
    var wire := BodyOnWire(env, PacketOf(m));
    assert (f + slack)[HEAD_SIZE..][..|wire|] == wire;
    if m.head.size <= env.opts.maxDataSize {
      if AutoCompress(env, m.head) {
        CompressedMark(m.head.flag);
      } else if Has(m.head.flag, COMPRESSED) {
        DecompressClears(env, RawMsg(m.head, m0.code, (f + slack)[HEAD_SIZE..], |wire|));
      }
    }
  }

  lemma CompressedMark(f: Flag)
    requires !Has(f, COMPRESSED)
    ensures Has(Set(f, COMPRESSED), COMPRESSED) && Delete(Set(f, COMPRESSED), COMPRESSED) == f
  {}

  lemma DecompressClears(env: Env, m: Msg)
    ensures Decompress(env, m).1.Ok? ==> !Has(Decompress(env, m).0.head.flag, COMPRESSED)
  {}
}
