// The package-level settings the codec reads: message/options.go, message/magic.go,
// message/transform.go, and gzip as a pair of unknown functions.
module Environment {
  import opened Words

  datatype Option<+T> = None | Some(value: T)

  datatype Error =
    | HeadIllegal
    | TooLong
    | UnknownMagic
    | NoTransform
    | UnsupportedPath
    | Encode
    | Gzip
    | Eof
    | UnexpectedEof
    | ShortBuffer
    | Closed
    | Text

  /** A Go call returns a value, returns an error, or panics. */
  datatype Outcome<+T> = Ok(value: T) | Err(error: Error) | Panic

  datatype Mode = PathMode | CodeMode

  /** How bodies are encoded; a magic may be registered without any. */
  datatype Binder = Json | Protobuf | OtherBinder(id: nat) | NoBinder

  datatype Magic = Magic(key: Byte, mode: Mode, order: ByteOrder, binder: Binder)

  const PATH_JSON: Byte := 0xf0
  const CODE_JSON: Byte := 0xf1
  const CODE_PROTO: Byte := 0xf2

  const HEAD_SIZE := 10

  datatype Options = Options(capacity: nat, maxDataSize: I32, autoCompressSize: I32)

  datatype Env = Env(
    opts: Options,
    magics: map<Byte, Magic>,
    pathOf: I32 -> Option<Bytes>,
    codeOf: Bytes -> Option<I32>,
    gzip: Bytes -> Bytes,
    gunzip: Bytes -> Option<Bytes>)

  /** make([]byte, 4, Options.Capacity) panics for a smaller capacity (message/message.go:173). */
  ghost predicate Usable(env: Env) {
    env.opts.capacity >= 4
  }

  ghost predicate GzipInverse(env: Env) {
    forall b: Bytes :: env.gunzip(env.gzip(b)) == Some(b)
  }

  ghost predicate TransformInverse(env: Env, path: Bytes) {
    env.codeOf(path).Some? && env.pathOf(env.codeOf(path).value) == Some(path)
  }

  /** The registry of message/magic.go: a key is registered once and never changes afterwards. */
  class Registry {
    var table: map<Byte, Magic>

    ghost predicate Valid()
      reads this
    {
      forall k :: k in table ==> table[k].key == k
    }

    constructor ()
      ensures Valid()
      ensures table.Keys == {PATH_JSON, CODE_JSON, CODE_PROTO}
      ensures table[PATH_JSON] == Magic(PATH_JSON, PathMode, BigEndian, Json)
      ensures table[CODE_JSON] == Magic(CODE_JSON, CodeMode, BigEndian, Json)
      ensures table[CODE_PROTO] == Magic(CODE_PROTO, CodeMode, BigEndian, Protobuf)
    {
      table := map[];
      new;
      Register(PATH_JSON, PathMode, BigEndian, Json);
      Register(CODE_JSON, CodeMode, BigEndian, Json);
      Register(CODE_PROTO, CodeMode, BigEndian, Protobuf);
    }

    method Register(key: Byte, mode: Mode, order: ByteOrder, binder: Binder)
      requires Valid()
      modifies this
      ensures Valid()
      ensures old(table.Keys) <= table.Keys && table.Keys == old(table.Keys) + {key}
      ensures forall k :: k in old(table) ==> table[k] == old(table)[k]
      ensures key !in old(table) ==> table[key] == Magic(key, mode, order, binder)
    {
      if key in table {
        return;
      }
      table := table[key := Magic(key, mode, order, binder)];
    }
  }

  function Zeros(n: nat): (b: Bytes)
    ensures |b| == n && forall i :: 0 <= i < n ==> b[i] == 0
  {
    seq(n, i => 0)
  }
}
