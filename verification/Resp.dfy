/**
 The values of the RESP2/RESP3 protocols as the client represents them, the
 errors it reports, and the small wrappers the other modules share.

 Text is kept as the bytes the wire carried; whether those bytes are UTF-8 is a
 question the parser puts to its leaf functions.
 */
module Resp {

  newtype byte = x: int | 0 <= x < 256

  type bytes = seq<byte>

  datatype Option<+T> = None | Some(value: T)

  datatype Result<+T, +E> = Ok(value: T) | Err(error: E)

  /** Machine words: `i64` on the wire, `usize` for lengths and indices. */
  const TWO_63: int := 0x8000_0000_0000_0000
  const TWO_64: int := 0x1_0000_0000_0000_0000

  datatype ServerErrorKind =
    | ResponseError | ExecAbort | BusyLoading | NoScript | Moved | Ask | TryAgain
    | ClusterDown | CrossSlot | MasterDown | ReadOnly | NotBusy | NoSub | NoPerm

  datatype ServerError =
    | Known(kind: ServerErrorKind, detail: Option<bytes>)
    | Extension(code: bytes, detail: Option<bytes>)

  datatype PushKind =
    | Disconnection | Invalidate
    | Message | PMessage | SMessage
    | Unsubscribe | PUnsubscribe | SUnsubscribe
    | Subscribe | PSubscribe | SSubscribe
    | Other(name: bytes)
  {
    /** Whether a push of this kind answers a request instead of coming unasked. */
    predicate HasReply() {
      Unsubscribe? || PUnsubscribe? || SUnsubscribe? || Subscribe? || PSubscribe? || SSubscribe?
    }
  }

  datatype VerbatimFormat = Text | Markdown | Unknown(name: bytes)

  /** Foreign number types carry the text they were read from. */
  datatype Value =
    | Nil
    | Int(n: int)
    | BulkString(data: bytes)
    | Array(items: seq<Value>)
    | SimpleString(text: bytes)
    | Okay
    | Map(pairs: seq<Pair>)
    | Attribute(inner: Value, attributes: seq<Pair>)
    | Set(members: seq<Value>)
    | Double(digits: bytes)
    | Boolean(flag: bool)
    | VerbatimString(format: VerbatimFormat, content: bytes)
    | BigNumber(digits: bytes)
    | Push(kind: PushKind, payload: seq<Value>)
    | Error(error: ServerError)

  datatype Pair = Pair(key: Value, value: Value)

  /** The failures a request can end with. */
  datatype RedisError =
    | TransactionAborted(errors: seq<(int, ServerError)>)
    | PipelineErrors(errors: seq<(int, ServerError)>)
    | Server(error: ServerError)
    | Io
    | ConnectionClosed
    | ParseFailure
    | EmptyCommand
    | UnexpectedReturnType
    | Client

  /** `usize` subtraction as a build without overflow checks performs it. */
  function SubUsize(a: int, b: int): (r: int)
    requires 0 <= a < TWO_64 && 0 <= b < TWO_64
    ensures 0 <= r < TWO_64
    ensures r == a - b <==> b <= a
  {
    if b <= a then a - b else a - b + TWO_64
  }
}
