/**
 The recursive-descent RESP parser.

 A parse of the bytes received so far ends in one of three ways: a value and the
 bytes after it, a request for more input, or a rejection. UTF-8 validation,
 floating-point and big-number reading belong to other libraries; they enter as
 the functions of `Leaves`, and every theorem holds for every choice of them.
 */
module Parser {
  import opened Resp
  import opened Text

  const MAX_RECURSE_DEPTH: nat := 100

  /** The byte that announces each type of reply. */
  const TAG_SIMPLE: byte := 43  // '+'
  const TAG_INT: byte := 58  // ':'
  const TAG_BULK: byte := 36  // '$'
  const TAG_ARRAY: byte := 42  // '*'
  const TAG_MAP: byte := 37  // '%'
  const TAG_ATTRIBUTE: byte := 124  // '|'
  const TAG_SET: byte := 126  // '~'
  const TAG_ERROR: byte := 45  // '-'
  const TAG_NULL: byte := 95  // '_'
  const TAG_DOUBLE: byte := 44  // ','
  const TAG_BOOLEAN: byte := 35  // '#'
  const TAG_BLOB_ERROR: byte := 33  // '!'
  const TAG_VERBATIM: byte := 61  // '='
  const TAG_BIG_NUMBER: byte := 40  // '('
  const TAG_PUSH: byte := 62  // '>'

  datatype Leaves = Leaves(
    utf8: bytes -> bool,
    lossy: bytes -> bytes,
    double: bytes -> bool,
    bigNumber: bytes -> bool)

  datatype Parsed<+T> = Done(value: T, rest: bytes) | More | Bad

  predicate Suffix(r: bytes, s: bytes) {
    |r| <= |s| && r == s[|s| - |r|..]
  }

  // ------------------------------------------------------- lines and payloads

  function ParseLine(lv: Leaves, s: bytes): (r: Parsed<bytes>)
    ensures r.Done? ==> |r.rest| < |s|
  {
    match FindCrlf(s)
    case None => More
    case Some(i) => if lv.utf8(s[..i]) then Done(s[..i], s[i + 2..]) else Bad
  }

  function ParseInt(lv: Leaves, s: bytes): (r: Parsed<int>)
    ensures r.Done? ==> |r.rest| < |s| && -TWO_63 <= r.value < TWO_63
  {
    match ParseLine(lv, s)
    case More => More
    case Bad => Bad
    case Done(line, rest) =>
      match ParseI64(Trim(line))
      case None => Bad
      case Some(i) => Done(i, rest)
  }

  /** `n` raw bytes and then CR LF. */
  function TakeCrlf(n: nat, s: bytes): (r: Parsed<bytes>)
    ensures r.Done? ==> |r.rest| < |s|
  {
    if |s| <= n then More
    else if s[n] != CR then Bad
    else if |s| == n + 1 then More
    else if s[n + 1] != LF then Bad
    else Done(s[..n], s[n + 2..])
  }

  /** The cast `i64 as usize`. */
  function AsUsize(i: int): (n: nat)
    requires -TWO_63 <= i < TWO_63
    ensures n < TWO_64
  {
    if i < 0 then i + TWO_64 else i
  }

  function CheckedMul2(n: nat): Option<nat> {
    if 2 * n < TWO_64 then Some(2 * n) else None
  }

  // ------------------------------------------------------------- error replies

  function ErrorCode(kind: ServerErrorKind): bytes {
    match kind
    case ResponseError => Ascii("ERR")
    case ExecAbort => Ascii("EXECABORT")
    case BusyLoading => Ascii("LOADING")
    case NoScript => Ascii("NOSCRIPT")
    case Moved => Ascii("MOVED")
    case Ask => Ascii("ASK")
    case TryAgain => Ascii("TRYAGAIN")
    case ClusterDown => Ascii("CLUSTERDOWN")
    case CrossSlot => Ascii("CROSSSLOT")
    case MasterDown => Ascii("MASTERDOWN")
    case ReadOnly => Ascii("READONLY")
    case NotBusy => Ascii("NOTBUSY")
    case NoSub => Ascii("NOSUB")
    case NoPerm => Ascii("NOPERM")
  }

  const ERROR_KINDS: seq<ServerErrorKind> :=
    [ResponseError, ExecAbort, BusyLoading, NoScript, Moved, Ask, TryAgain, ClusterDown,
     CrossSlot, MasterDown, ReadOnly, NotBusy, NoSub, NoPerm]

  /** The kind whose code this is, searching the table from index `from`. */
  function KindOfCode(code: bytes, from: nat := 0): (r: Option<ServerErrorKind>)
    requires from <= |ERROR_KINDS|
    decreases |ERROR_KINDS| - from
  {
    if from == |ERROR_KINDS| then None
    else if ErrorCode(ERROR_KINDS[from]) == code then Some(ERROR_KINDS[from])
    else KindOfCode(code, from + 1)
  }

  /** Splits a line at its first space. */
  function SplitSpace(line: bytes): (bytes, Option<bytes>) {
    if line == [] then ([], None)
    else if line[0] == SPACE then ([], Some(line[1..]))
    else
      var r := SplitSpace(line[1..]);
      ([line[0]] + r.0, r.1)
  }

  function ErrParser(line: bytes): ServerError {
    var pieces := SplitSpace(line);
    match KindOfCode(pieces.0)
    case Some(kind) => Known(kind, pieces.1)
    case None => Extension(pieces.0, pieces.1)
  }

  // --------------------------------------------------------------- push kinds

  function PushName(kind: PushKind): bytes {
    match kind
    case Disconnection => Ascii("disconnection")
    case Invalidate => Ascii("invalidate")
    case Message => Ascii("message")
    case PMessage => Ascii("pmessage")
    case SMessage => Ascii("smessage")
    case Unsubscribe => Ascii("unsubscribe")
    case PUnsubscribe => Ascii("punsubscribe")
    case SUnsubscribe => Ascii("sunsubscribe")
    case Subscribe => Ascii("subscribe")
    case PSubscribe => Ascii("psubscribe")
    case SSubscribe => Ascii("ssubscribe")
    case Other(name) => name
  }

  const PUSH_KINDS: seq<PushKind> :=
    [Invalidate, Message, PMessage, SMessage, Unsubscribe, PUnsubscribe, SUnsubscribe,
     Subscribe, PSubscribe, SSubscribe]

  function GetPushKind(name: bytes, from: nat := 0): (kind: PushKind)
    requires from <= |PUSH_KINDS|
    decreases |PUSH_KINDS| - from
  {
    if from == |PUSH_KINDS| then Other(name)
    else if PushName(PUSH_KINDS[from]) == name then PUSH_KINDS[from]
    else GetPushKind(name, from + 1)
  }

  // -------------------------------------------------------------- leaf replies

  function ToVerbatim(text: bytes): (r: Option<Value>)
    ensures r.Some? ==> r.value.VerbatimString?
  {
    match SplitColon(text)
    case None => None
    case Some((format, content)) =>
      var f := if format == Ascii("txt") then Text else if format == Ascii("mkd") then Markdown else Unknown(format);
      Some(VerbatimString(f, content))
  }

  /** `str::split_once(':')`. */
  function SplitColon(text: bytes): Option<(bytes, bytes)> {
    if text == [] then None
    else if text[0] == 58 then Some(([], text[1..]))
    else
      match SplitColon(text[1..])
      case None => None
      case Some((a, b)) => Some(([text[0]] + a, b))
  }

  /** A length line and then a payload of that many bytes; a negative length is a huge one. */
  function ParseBlob(lv: Leaves, s: bytes): (r: Parsed<bytes>)
    ensures r.Done? ==> |r.rest| < |s|
  {
    match ParseInt(lv, s)
    case More => More
    case Bad => Bad
    case Done(size, rest) =>
      match TakeCrlf(AsUsize(size), rest)
      case More => More
      case Bad => Bad
      case Done(payload, rest2) => Done(lv.lossy(payload), rest2)
  }

  function ParseBulk(lv: Leaves, s: bytes): (r: Parsed<Value>)
    ensures r.Done? ==> |r.rest| < |s|
  {
    match ParseInt(lv, s)
    case More => More
    case Bad => Bad
    case Done(size, rest) =>
      if size < 0 then Done(Nil, rest)
      else
        match TakeCrlf(size, rest)
        case More => More
        case Bad => Bad
        case Done(payload, rest2) => Done(BulkString(payload), rest2)
  }

  predicate IsLineTag(tag: byte) {
    || tag == TAG_SIMPLE || tag == TAG_INT || tag == TAG_ERROR || tag == TAG_NULL
    || tag == TAG_DOUBLE || tag == TAG_BOOLEAN || tag == TAG_BIG_NUMBER
  }

  /** What a one-line reply means. */
  function LineValue(lv: Leaves, tag: byte, line: bytes): (r: Option<Value>)
    requires IsLineTag(tag)
    ensures r.Some? ==> Depth(r.value) == 1
  {
    if tag == TAG_SIMPLE then Some(if line == Ascii("OK") then Okay else SimpleString(line))
    else if tag == TAG_INT then
      match ParseI64(Trim(line))
      case None => None
      case Some(i) => Some(Int(i))
    else if tag == TAG_ERROR then Some(Error(ErrParser(line)))
    else if tag == TAG_NULL then Some(Nil)
    else if tag == TAG_DOUBLE then
      if lv.double(Trim(line)) then Some(Double(Trim(line))) else None
    else if tag == TAG_BOOLEAN then
      if line == Ascii("t") then Some(Boolean(true))
      else if line == Ascii("f") then Some(Boolean(false)) else None
    else if lv.bigNumber(line) then Some(BigNumber(line)) else None
  }

  /** What a reply made of one length-prefixed text means. */
  function BlobValue(tag: byte, text: bytes): (r: Option<Value>)
    ensures r.Some? ==> Depth(r.value) == 1
  {
    if tag == TAG_BLOB_ERROR then Some(Error(ErrParser(text)))
    else if tag == TAG_VERBATIM then ToVerbatim(text)
    else None
  }

  function Convert(p: Parsed<bytes>, v: Option<Value>): Parsed<Value> {
    if p.More? then More
    else if p.Bad? || v.None? then Bad
    else Done(v.value, p.rest)
  }

  /** Every reply that holds no other reply, by its type byte. */
  function ParseLeaf(lv: Leaves, tag: byte, s: bytes): (r: Parsed<Value>)
    ensures r.Done? ==> |r.rest| < |s| && Depth(r.value) == 1
  {
    if tag == TAG_BULK then ParseBulk(lv, s)
    else if IsLineTag(tag) then
      var p := ParseLine(lv, s);
      Convert(p, if p.Done? then LineValue(lv, tag, p.value) else None)
    else if tag == TAG_BLOB_ERROR || tag == TAG_VERBATIM then
      var p := ParseBlob(lv, s);
      Convert(p, if p.Done? then BlobValue(tag, p.value) else None)
    else Bad
  }

  // --------------------------------------------------------- aggregate replies

  predicate IsAggregate(tag: byte) {
    tag == TAG_ARRAY || tag == TAG_MAP || tag == TAG_ATTRIBUTE || tag == TAG_SET || tag == TAG_PUSH
  }

  /** What the declared length of an aggregate asks for. */
  datatype Plan = Immediate(value: Value) | Collect(n: nat) | Reject

  function PlanFor(tag: byte, length: int): (p: Plan)
    requires IsAggregate(tag) && -TWO_63 <= length < TWO_63
  {
    if tag == TAG_ARRAY || tag == TAG_SET then
      if length < 0 then Immediate(Nil) else Collect(length)
    else if tag == TAG_PUSH then
      if length <= 0 then Immediate(Push(Other([]), [])) else Collect(length)
    else
      match CheckedMul2(AsUsize(length))
      case None => Reject
      case Some(n) => Collect(if tag == TAG_ATTRIBUTE then n + 1 else n)
  }

  /** Consecutive values two by two; a last odd one is left out. */
  function Pairs(vs: seq<Value>): (ps: seq<Pair>)
    ensures |ps| == |vs| / 2
  {
    if |vs| < 2 then [] else [Pair(vs[0], vs[1])] + Pairs(vs[2..])
  }

  lemma {:induction false} PairAt(vs: seq<Value>, i: nat)
    requires 2 * i + 1 < |vs|
    ensures i < |Pairs(vs)| && Pairs(vs)[i] == Pair(vs[2 * i], vs[2 * i + 1])
  {
    if i == 0 {
    } else {
      var rest := vs[2..];
      PairAt(rest, i - 1);
      assert rest[2 * (i - 1)] == vs[2 * i] && rest[2 * (i - 1) + 1] == vs[2 * i + 1];
      assert Pairs(vs)[i] == Pairs(rest)[i - 1];
    }
  }

  lemma {:induction false} PairsInOrder(vs: seq<Value>)
    ensures forall i | 0 <= i < |vs| / 2 :: Pairs(vs)[i] == Pair(vs[2 * i], vs[2 * i + 1])
  {
    hide Pairs;
    forall i | 0 <= i < |vs| / 2 ensures Pairs(vs)[i] == Pair(vs[2 * i], vs[2 * i + 1]) {
      PairAt(vs, i);
    }
  }

  function Build(lv: Leaves, tag: byte, vs: seq<Value>): (r: Option<Value>)
    requires IsAggregate(tag) && ElementsFit(tag, |vs|)
  {
    if tag == TAG_ARRAY then Some(Array(vs))
    else if tag == TAG_SET then Some(Set(vs))
    else if tag == TAG_MAP then Some(Map(Pairs(vs)))
    else if tag == TAG_ATTRIBUTE then Some(Attribute(vs[|vs| - 1], Pairs(vs)))
    else if vs[0].BulkString? && lv.utf8(vs[0].data) then Some(Push(GetPushKind(vs[0].data), vs[1..]))
    else if vs[0].SimpleString? then Some(Push(GetPushKind(vs[0].text), vs[1..]))
    else None
  }

  /**
   One reply at nesting level `count`. The client starts at level 1; starting lower
   gives the same parser with a larger limit.
   */
  function ParseValue(lv: Leaves, s: bytes, count: int): (r: Parsed<Value>)
    requires count <= MAX_RECURSE_DEPTH + 1
    ensures r.Done? ==> |r.rest| < |s|
    decreases MAX_RECURSE_DEPTH + 1 - count, |s|, 0
  {
    if s == [] then More
    else if count > MAX_RECURSE_DEPTH then Bad
    else if !IsAggregate(s[0]) then ParseLeaf(lv, s[0], s[1..])
    else ParseBody(lv, s[0], ParseInt(lv, s[1..]), count)
  }

  predicate ValidHeader(header: Parsed<int>) {
    header.Done? ==> -TWO_63 <= header.value < TWO_63
  }

  /** The rest of an aggregate, once its length line has been read. */
  function ParseBody(lv: Leaves, tag: byte, header: Parsed<int>, count: int): (r: Parsed<Value>)
    requires count <= MAX_RECURSE_DEPTH && IsAggregate(tag) && ValidHeader(header)
    ensures r.Done? ==> header.Done? && |r.rest| <= |header.rest|
    decreases MAX_RECURSE_DEPTH + 1 - count, 0, 0
  {
    match header
    case More => More
    case Bad => Bad
    case Done(length, rest) =>
      match PlanFor(tag, length)
      case Reject => Bad
      case Immediate(v) => Done(v, rest)
      case Collect(n) => Assemble(lv, tag, ParseItems(lv, rest, n, count + 1))
  }

  /** The elements of an aggregate fit its type. */
  predicate ElementsFit(tag: byte, n: nat) {
    && (tag == TAG_ATTRIBUTE ==> n % 2 == 1)
    && (tag == TAG_PUSH ==> n > 0)
  }

  function Assemble(lv: Leaves, tag: byte, items: Parsed<seq<Value>>): (r: Parsed<Value>)
    requires IsAggregate(tag) && (items.Done? ==> ElementsFit(tag, |items.value|))
  {
    match items
    case More => More
    case Bad => Bad
    case Done(vs, rest) =>
      match Build(lv, tag, vs)
      case None => Bad
      case Some(v) => Done(v, rest)
  }

  /** Exactly `n` replies in a row, however large the declared `n` is. */
  function ParseItems(lv: Leaves, s: bytes, n: nat, count: int): (r: Parsed<seq<Value>>)
    requires count <= MAX_RECURSE_DEPTH + 1
    ensures r.Done? ==> |r.rest| <= |s| && |r.value| == n
    decreases MAX_RECURSE_DEPTH + 1 - count, |s|, 1
  {
    if n == 0 then Done([], s)
    else
      var first := ParseValue(lv, s, count);
      Cons(first, if first.Done? then ParseItems(lv, first.rest, n - 1, count) else More)
  }

  /** The first element and then the others, read from where the first one ended. */
  function Cons(first: Parsed<Value>, others: Parsed<seq<Value>>): (r: Parsed<seq<Value>>) {
    if first.More? then More
    else if first.Bad? then Bad
    else if others.More? then More
    else if others.Bad? then Bad
    else Done([first.value] + others.value, others.rest)
  }

  /** A whole reply from the start of `s`. */
  function Parse(lv: Leaves, s: bytes): Parsed<Value> {
    ParseValue(lv, s, 1)
  }

  // ------------------------------------------------------------------- nesting

  function Max(a: nat, b: nat): nat { if a < b then b else a }

  /** Levels of nesting: 1 for a leaf. */
  function Depth(v: Value): (d: nat)
    ensures d >= 1
    decreases v, 0
  {
    match v
    case Array(items) => 1 + DepthAll(items)
    case Set(members) => 1 + DepthAll(members)
    case Map(pairs) => 1 + DepthPairs(pairs)
    case Attribute(inner, attributes) => 1 + Max(Depth(inner), DepthPairs(attributes))
    case Push(_, payload) => 1 + DepthAll(payload)
    case _ => 1
  }

  function DepthAll(vs: seq<Value>): nat
    decreases vs, 1
  {
    if vs == [] then 0 else Max(Depth(vs[0]), DepthAll(vs[1..]))
  }

  function DepthPairs(ps: seq<Pair>): nat
    decreases ps, 1
  {
    if ps == [] then 0 else Max(DepthPair(ps[0]), DepthPairs(ps[1..]))
  }

  function DepthPair(p: Pair): nat
    decreases p, 1
  {
    Max(Depth(p.key), Depth(p.value))
  }
}
