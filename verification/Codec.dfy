// What the methods of message/head.go and message/message.go compute, as functions of values.
// A message is its header, the cached code and a byte slice; a slice is the cells of its
// backing array up to the capacity, of which the first `len` are the contents.
module Codec {
  import Arith
  import opened Words
  import opened Flags
  import FlagWire
  import opened Environment

  datatype Head = Head(magic: Byte, flag: Flag, size: I32, index: I32)

  const BLANK_HEAD := Head(0, NO_FLAGS, 0, 0)

  datatype RawMsg = RawMsg(head: Head, code: I32, cells: Bytes, len: nat)

  type Msg = m: RawMsg | m.len <= |m.cells| witness RawMsg(BLANK_HEAD, 0, [], 0)

  function Data(m: Msg): Bytes {
    m.cells[..m.len]
  }

  lemma SliceOfSlice(a: Bytes, off: nat, cap: nat, i: nat, j: nat)
    requires off + cap <= |a| && i <= j <= cap
    ensures a[off..off + cap][i..j] == a[off + i..off + j]
  {
    var s, t := a[off..off + cap][i..j], a[off + i..off + j];
    assert |s| == |t| && forall k :: 0 <= k < |s| ==> s[k] == a[off + i + k] == t[k];
  }

  /** `cells` with `data` written over it from `at` on. */
  function Spliced(cells: Bytes, at: nat, data: Bytes): (c: Bytes)
    requires at + |data| <= |cells|
    ensures |c| == |cells|
  {
    cells[..at] + data + cells[at + |data|..]
  }

  /** Overwriting inside an array is overwriting inside the slice of it. */
  lemma SpliceOfSlice(a: Bytes, off: nat, cap: nat, at: nat, data: Bytes)
    requires off + cap <= |a| && at + |data| <= cap
    ensures Spliced(a, off + at, data)[off..off + cap] == Spliced(a[off..off + cap], at, data)
  {}

  // ---------------------------------------------------------------- header

  /** The compression decision of Head.bytes and of message.Bytes. */
  predicate AutoCompress(env: Env, h: Head) {
    env.opts.autoCompressSize > 0 && h.size > env.opts.autoCompressSize && !Has(h.flag, COMPRESSED)
  }

  function EncodeHead(env: Env, h: Head): (b: Bytes)
    requires h.magic in env.magics
    ensures |b| == HEAD_SIZE
  {
    var order := env.magics[h.magic].order;
    var flag := if AutoCompress(env, h) then Set(h.flag, COMPRESSED) else h.flag;
    [h.magic, FlagWire.ToByte(flag)] + PutU32(order, ToU32(h.size)) + PutU32(order, ToU32(h.index))
  }

  /** Head.Parse: the header after the call, and its error. */
  function ParseHead(env: Env, h0: Head, b: Bytes): (Head, Outcome<()>) {
    if |b| != HEAD_SIZE || b[0] !in env.magics then
      (h0, Err(HeadIllegal))
    else
      var order := env.magics[b[0]].order;
      var h := Head(b[0], FlagWire.FromByte(b[1]), ToI32(GetU32(order, b[2..6])), ToI32(GetU32(order, b[6..10])));
      (h, if h.size > env.opts.maxDataSize then Err(TooLong) else Ok(()))
  }

  // ------------------------------------------------------------- reading in

  /** Message.decompress. The capacity of io.ReadAll's result is at least 512. */
  function Decompress(env: Env, m: Msg): (Msg, Outcome<()>) {
    if !Has(m.head.flag, COMPRESSED) then (m, Ok(()))
    else
      match env.gunzip(Data(m))
      case None => (m, Err(Gzip))
      case Some(d) =>
        var head := m.head.(size := WrapI32(|d|), flag := Delete(m.head.flag, COMPRESSED));
        (RawMsg(head, m.code, d + Zeros(if |d| < 512 then 512 - |d| else 0), |d|), Ok(()))
  }

  /** The slice that Message.Write reads into: reused, or one of two fresh ones. */
  function Room(env: Env, cells: Bytes, size: nat): (c: Bytes)
    ensures |c| >= size
  {
    if |cells| >= size then cells
    else if size > env.opts.capacity then Zeros(size)
    else Zeros(env.opts.capacity)
  }

  /** Message.Write on a reader that can still deliver `stream`. */
  function Fill(env: Env, m: Msg, stream: Bytes): (Msg, Outcome<()>) {
    if m.head.size == 0 then (m, Ok(()))
    else if m.head.size < 0 then (m, Panic)
    else
      var size: nat := m.head.size;
      var room := Room(env, m.cells, size);
      if |stream| < size then
        (RawMsg(m.head, m.code, Spliced(room, 0, stream), size), Err(ShortBuffer))
      else
        Decompress(env, RawMsg(m.head, m.code, Spliced(room, 0, stream[..size]), size))
  }

  function Consumed(m: Msg, stream: Bytes): (n: nat)
    ensures n <= |stream|
  {
    if m.head.size <= 0 then 0 else Arith.Min(m.head.size, |stream|)
  }

  /** Message.Reset on a slice with these cells and length. */
  function ResetTo(env: Env, m: Msg, cells: Bytes, len: nat): (Msg, Outcome<()>)
    requires len <= |cells|
  {
    if len < HEAD_SIZE then (m, Err(UnexpectedEof))
    else
      var (h, r) := ParseHead(env, m.head, cells[..HEAD_SIZE]);
      if !r.Ok? then (RawMsg(h, m.code, m.cells, m.len), r)
      else Decompress(env, RawMsg(h, m.code, cells[HEAD_SIZE..], len - HEAD_SIZE))
  }

  function Released(env: Env, m: Msg): Msg {
    RawMsg(BLANK_HEAD, 0, if |m.cells| > env.opts.capacity then Zeros(env.opts.capacity) else m.cells, 0)
  }

  // ------------------------------------------------------------ marshalling

  /** The path argument of Marshal: a string, an integer of any width, or something else. */
  datatype PathArg = Name(path: Bytes) | Code(code: int) | Other

  /** The 32-bit word and the path bytes that MarshalPath and MarshalCode put first. */
  function Prefix(env: Env, mode: Mode, arg: PathArg): Outcome<(U32, Bytes)> {
    match arg
    case Name(path) =>
      if mode.PathMode? then Ok((|path| % TWO_32, path))
      else (match env.codeOf(path) case None => Err(NoTransform) case Some(c) => Ok((ToU32(c), [])))
    case Code(code) =>
      if mode.PathMode? then
        (match env.pathOf(WrapI32(code)) case None => Err(NoTransform) case Some(p) => Ok((|p| % TWO_32, p)))
      else Ok((ToU32(WrapI32(code)), []))
    case Other => Err(UnsupportedPath)
  }

  /** The capacity of bytes.Buffer when `n` bytes must fit. */
  function Grown(cap: nat, n: nat): (c: nat)
    ensures c >= n
  {
    if 2 * cap > n then 2 * cap else n
  }

  /** bytes.Buffer.Write after `at` bytes of a slice: in place while it fits, else into a larger copy. */
  function Append(cells: Bytes, at: nat, data: Bytes): (c: Bytes)
    requires at <= |cells|
    ensures |c| >= at + |data|
  {
    if at + |data| <= |cells| then Spliced(cells, at, data)
    else cells[..at] + data + Zeros(Grown(|cells|, at + |data|) - at - |data|)
  }

  lemma AppendPrefix(cells: Bytes, at: nat, data: Bytes)
    requires at <= |cells|
    ensures Append(cells, at, data)[..at + |data|] == cells[..at] + data
  {}

  /** The bytes that a successful Marshal leaves. */
  function Payload(env: Env, mode: Mode, order: ByteOrder, arg: PathArg, body: Bytes): Bytes
    requires Prefix(env, mode, arg).Ok?
  {
    var (word, path) := Prefix(env, mode, arg).value;
    PutU32(order, word) + path + body
  }

  /** At least four bytes to put the word into. */
  function Grounded(env: Env, m: Msg): (g: Msg)
    requires Usable(env)
    ensures g.len >= 4 && g.head == m.head && g.code == m.code
  {
    if m.len < 4 then RawMsg(m.head, m.code, Zeros(env.opts.capacity), 4) else m
  }

  /** Put the word, then the path and the body, from the start of the slice. */
  function Assembled(m: Msg, word: Bytes, path: Bytes, body: Option<Bytes>): (Msg, Outcome<()>)
    requires m.len >= 4 && |word| == 4
  {
    var c0 := Spliced(m.cells, 0, word);
    var c1 := Append(c0, 4, path);
    if body.None? then
      (RawMsg(m.head, m.code, if 4 + |path| <= |c0| then c1 else c0, m.len), Err(Encode))
    else
      var c2 := if body.value == [] then c1 else Append(c1, 4 + |path|, body.value);
      var n := 4 + |path| + |body.value|;
      (RawMsg(m.head.(size := WrapI32(n)), m.code, c2, n), Ok(()))
  }

  /** Message.Marshal: `body` is the encoded body, None when the encoder failed. */
  function Marshalled(env: Env, m: Msg, magic: Byte, flag: Flag, index: I32, arg: PathArg, body: Option<Bytes>):
    (Msg, Outcome<()>)
    requires Usable(env)
  {
    var m0 := RawMsg(Head(magic, flag, m.head.size, index), m.code, m.cells, m.len);
    if magic !in env.magics then (m0, Err(UnknownMagic))
    else
      var Magic(_, mode, order, _) := env.magics[magic];
      var g := Grounded(env, m0);
      match Prefix(env, mode, arg)
      case Ok((word, path)) => Assembled(g, PutU32(order, word), path, body)
      case Err(e) => (g, Err(e))
      case Panic => (g, Panic)
  }

  /** A successful Marshal sets the header, leaves the payload as contents, and keeps the cached code. */
  lemma MarshalledOk(env: Env, m: Msg, magic: Byte, flag: Flag, index: I32, arg: PathArg, body: Bytes)
    requires Usable(env) && magic in env.magics
    requires Prefix(env, env.magics[magic].mode, arg).Ok?
    ensures var (m', r) := Marshalled(env, m, magic, flag, index, arg, Some(body));
            var payload := Payload(env, env.magics[magic].mode, env.magics[magic].order, arg, body);
            r == Ok(()) && m'.head == Head(magic, flag, WrapI32(|payload|), index) && Data(m') == payload
                && m'.code == m.code
  {
    var Magic(_, mode, order, _) := env.magics[magic];
    var (word, path) := Prefix(env, mode, arg).value;
    var g := Grounded(env, RawMsg(Head(magic, flag, m.head.size, index), m.code, m.cells, m.len));
    var c0 := Spliced(g.cells, 0, PutU32(order, word));
    assert c0[..4] == PutU32(order, word);
    var c1 := Append(c0, 4, path);
    AppendPrefix(c0, 4, path);
    if body == [] {
      assert PutU32(order, word) + path + body == PutU32(order, word) + path;
    } else {
      AppendPrefix(c1, 4 + |path|, body);
    }
  }

  // ---------------------------------------------------------------- writing

  /** A message as its sender and its receiver know it. */
  datatype Packet = Packet(head: Head, data: Bytes)

  function PacketOf(m: Msg): Packet {
    Packet(m.head, Data(m))
  }

  /** What Message.Bytes writes after the header; without a header it repeats the same test. */
  function BodyOnWire(env: Env, p: Packet): Bytes {
    if p.head.size == 0 then [] else if AutoCompress(env, p.head) then env.gzip(p.data) else p.data
  }

  function Frame(env: Env, p: Packet): Bytes
    requires p.head.magic in env.magics
  {
    EncodeHead(env, p.head) + BodyOnWire(env, p)
  }

  // ------------------------------------------------------------------ views

  /** Message.Code: the cached value, else the first four cells, which may lie beyond `len`. */
  function CodeOf(env: Env, m: Msg): Outcome<I32> {
    if m.code != 0 then Ok(m.code)
    else if m.head.magic !in env.magics || |m.cells| < 4 then Panic
    else Ok(ToI32(GetU32(env.magics[m.head.magic].order, m.cells[..4])))
  }

  const QUESTION: Byte := 63

  /** strings.IndexByte; |s| when absent. */
  function IndexOf(s: Bytes, c: Byte): (i: nat)
    ensures i <= |s| && c !in s[..i]
    ensures i < |s| ==> s[i] == c
  {
    if s == [] || s[0] == c then 0
    else
      var i := 1 + IndexOf(s[1..], c);
      assert s[..i] == [s[0]] + s[1..][..i - 1];
      i
  }

  /** Cut at the first '?': the route and the query. */
  function Cut(path: Bytes): (Bytes, Bytes) {
    var i := IndexOf(path, QUESTION);
    if i < |path| then (path[..i], path[i + 1..]) else (path, [])
  }

  function PathOf(env: Env, m: Msg): Outcome<(Bytes, Bytes)> {
    if m.head.magic !in env.magics then Panic
    else
      match CodeOf(env, m)
      case Panic => Panic
      case Err(e) => Err(e)
      case Ok(code) =>
        if env.magics[m.head.magic].mode.PathMode? then
          if code <= 0 || code + 4 > m.len then Err(HeadIllegal)
          else Ok(Cut(m.cells[4..code + 4]))
        else
          match env.pathOf(code)
          case None => Err(NoTransform)
          case Some(p) => Ok((p, []))
  }

  /** Message.Body; the nil slice is the empty one. */
  function BodyOf(env: Env, m: Msg): Outcome<Bytes> {
    if m.head.magic !in env.magics then Panic
    else if env.magics[m.head.magic].mode.CodeMode? then
      Ok(if m.len < 4 then [] else m.cells[4..m.len])
    else
      match CodeOf(env, m)
      case Panic => Panic
      case Err(e) => Err(e)
      case Ok(code) =>
        var offset := if 0 < code && code + 4 <= m.len then 4 + code else 4;
        Ok(if offset > m.len then [] else m.cells[offset..m.len])
  }

  /** Looking at the code caches it. */
  function Cached(env: Env, m: Msg): Msg {
    match CodeOf(env, m) case Ok(c) => m.(code := c) case Err(_) => m case Panic => m
  }
}
