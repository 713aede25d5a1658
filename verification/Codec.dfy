/**
 Resumable decoding. The codec keeps what the parser has already taken for the
 reply in progress; the transport hands it bytes in arbitrary pieces.

 Two things are decided by the parser library, and are parameters here: how many
 buffered bytes an unfinished parse takes over (`commit`), and whether the end of input
 passes without an error if the buffer is empty but a reply has begun (`lenient`).
 */
module Codec {
  import opened Resp
  import opened Parser
  import opened Framing

  class BytesMut {
    var data: bytes

    constructor ()
      ensures data == []
    {
      data := [];
    }
  }

  lemma {:induction false} NothingTaken(lv: Leaves)
    ensures Parse(lv, []) == More
  {
  }

  class ValueCodec {
    var taken: bytes

    constructor ()
      ensures taken == []
    {
      taken := [];
    }

    /** The bytes already taken are an unfinished reply. */
    ghost predicate Valid(lv: Leaves)
      reads this
    {
      Parse(lv, taken).More?
    }

    /**
     One attempt to decode a reply from the bytes taken and the buffer. At the end of input
     nothing pending means no value, and an unfinished reply is an error.
     */
    method DecodeStream(lv: Leaves, buf: BytesMut, eof: bool, commit: nat, lenient: bool)
      returns (r: Result<Option<Value>, RedisError>)
      requires Valid(lv)
      modifies this, buf
      ensures
        match Parse(lv, old(taken + buf.data))
        case Done(v, rest) => r == Ok(Some(v)) && taken == [] && buf.data == rest
        case More =>
          if eof && old(taken + buf.data) != [] && !(lenient && old(buf.data) == []) then
            r == Err(ParseFailure) && buf.data == old(buf.data)
          else r == Ok(None) && taken + buf.data == old(taken + buf.data)
        case Bad => r == Err(ParseFailure) && buf.data == old(buf.data)
      ensures r.Ok? ==> Valid(lv)
    {
      hide ParseValue;
      var result := Parse(lv, taken + buf.data);
      ValueStable(lv, taken, buf.data, 1);
      match result {
        case Bad =>
          r := Err(ParseFailure);
        case Done(v, rest) =>
          var removed := |buf.data| - |rest|;
          RestIsSuffix(lv, taken + buf.data, 1);
          assert buf.data[removed..] == rest;
          buf.data := buf.data[removed..];
          taken := [];
          NothingTaken(lv);
          r := Ok(Some(v));
        case More =>
          if eof && taken + buf.data != [] && !(lenient && buf.data == []) {
            return Err(ParseFailure);
          }
          var removed := if commit <= |buf.data| then commit else |buf.data|;
          assert taken + buf.data == taken + buf.data[..removed] + buf.data[removed..];
          ValueStable(lv, taken + buf.data[..removed], buf.data[removed..], 1);
          taken := taken + buf.data[..removed];
          buf.data := buf.data[removed..];
          r := Ok(None);
      }
    }
  }

  // -------------------------------------------------------- the whole stream

  /** How far a byte stream decodes: up to an unfinished reply, or to a malformed one. */
  datatype End = Waiting(left: bytes) | Failed

  datatype Stream = Stream(values: seq<Value>, end: End)

  /** All replies of a byte stream, parsed in one piece. */
  function DecodeAll(lv: Leaves, s: bytes): Stream
    decreases |s|
  {
    match Parse(lv, s)
    case More => Stream([], Waiting(s))
    case Bad => Stream([], Failed)
    case Done(v, rest) => Prepend([v], DecodeAll(lv, rest))
  }

  function Prepend(vs: seq<Value>, tail: Stream): Stream {
    Stream(vs + tail.values, tail.end)
  }

  /** Decoding a longer stream continues where decoding the shorter one stopped. */
  lemma {:induction false} DecodeContinues(lv: Leaves, s: bytes, t: bytes)
    ensures
      var a := DecodeAll(lv, s);
      DecodeAll(lv, s + t) ==
        match a.end
        case Failed => a
        case Waiting(left) => Prepend(a.values, DecodeAll(lv, left + t))
    decreases |s|
  {
    ValueStable(lv, s, t, 1);
    var p := Parse(lv, s);
    if p.Done? {
      DecodeContinues(lv, p.rest, t);
      DecodeUnfolds(lv, s);
      DecodeUnfolds(lv, s + t);
      var a := DecodeAll(lv, p.rest);
      if a.end.Waiting? {
        PrependAssoc([p.value], a.values, DecodeAll(lv, a.end.left + t));
      }
    } else if p.More? {
      PrependNothing(DecodeAll(lv, s + t));
    }
  }

  /** Decoding stops exactly where the stream holds an unfinished reply, or a malformed one. */
  lemma {:induction false} StreamEnds(lv: Leaves, s: bytes)
    ensures
      match DecodeAll(lv, s).end
      case Waiting(left) => Suffix(left, s) && Parse(lv, left) == More
      case Failed => exists t :: Suffix(t, s) && Parse(lv, t) == Bad
    decreases |s|
  {
    hide ParseValue;
    var p := Parse(lv, s);
    assert Suffix(s, s);
    if p.Done? {
      StreamEnds(lv, p.rest);
      RestIsSuffix(lv, s, 1);
      match DecodeAll(lv, p.rest).end {
        case Waiting(left) => SuffixTrans(left, p.rest, s);
        case Failed =>
          var t :| Suffix(t, p.rest) && Parse(lv, t) == Bad;
          SuffixTrans(t, p.rest, s);
      }
    }
  }

  lemma {:induction false} DecodeUnfolds(lv: Leaves, s: bytes)
    requires Parse(lv, s).Done?
    ensures DecodeAll(lv, s) == Prepend([Parse(lv, s).value], DecodeAll(lv, Parse(lv, s).rest))
  {
  }

  lemma {:induction false} PrependNothing(a: Stream)
    ensures Prepend([], a) == a
  {
  }

  lemma {:induction false} PrependAssoc(vs: seq<Value>, ws: seq<Value>, tail: Stream)
    ensures Prepend(vs, Prepend(ws, tail)) == Prepend(vs + ws, tail)
  {
    assert vs + (ws + tail.values) == (vs + ws) + tail.values;
  }

  function Concat(chunks: seq<bytes>): bytes {
    if chunks == [] then [] else Concat(chunks[..|chunks| - 1]) + chunks[|chunks| - 1]
  }

  /** Decodes everything that is available, until a reply is unfinished or malformed. */
  method ReadAvailable(lv: Leaves, codec: ValueCodec, buf: BytesMut, commit: nat) returns (vs: seq<Value>, ok: bool)
    requires codec.Valid(lv)
    modifies codec, buf
    ensures
      var all := DecodeAll(lv, old(codec.taken + buf.data));
      && vs == all.values && ok == all.end.Waiting?
      && (ok ==> codec.taken + buf.data == all.end.left && codec.Valid(lv))
  {
    ghost var input := codec.taken + buf.data;
    vs, ok := [], true;
    while true
      invariant ok && codec.Valid(lv)
      invariant DecodeAll(lv, input) == Prepend(vs, DecodeAll(lv, codec.taken + buf.data))
      decreases |codec.taken + buf.data|
    {
      ghost var before := codec.taken + buf.data;
      var r := codec.DecodeStream(lv, buf, false, commit, false);
      match r {
        case Err(_) =>
          ok := false;
          return;
        case Ok(None) =>
          return;
        case Ok(Some(v)) =>
          assert codec.taken + buf.data == Parse(lv, before).rest;
          PrependAssoc(vs, [v], DecodeAll(lv, codec.taken + buf.data));
          vs := vs + [v];
      }
    }
  }

  /** Appends a chunk to the buffer and decodes what it completes. */
  method FeedChunk(lv: Leaves, codec: ValueCodec, buf: BytesMut, chunk: bytes, commit: nat)
    returns (vs: seq<Value>, ok: bool)
    requires codec.Valid(lv)
    modifies codec, buf
    ensures
      var all := DecodeAll(lv, old(codec.taken + buf.data) + chunk);
      && vs == all.values && ok == all.end.Waiting?
      && (ok ==> codec.taken + buf.data == all.end.left && codec.Valid(lv))
  {
    assert codec.taken + (buf.data + chunk) == codec.taken + buf.data + chunk;
    buf.data := buf.data + chunk;
    vs, ok := ReadAvailable(lv, codec, buf, commit);
  }

  /**
   Chunking does not matter: a stream cut at any positions, with any amount taken
   over by unfinished parses, yields what the stream yields in one piece.
   */
  method ReceiveChunks(lv: Leaves, chunks: seq<bytes>, commits: nat -> nat) returns (vs: seq<Value>, ok: bool)
    ensures vs == DecodeAll(lv, Concat(chunks)).values
    ensures ok == DecodeAll(lv, Concat(chunks)).end.Waiting?
  {
    var codec := new ValueCodec();
    var buf := new BytesMut();
    vs, ok := [], true;
    var i := 0;
    ReachedStart(lv, chunks);
    while i < |chunks| && ok
      invariant 0 <= i <= |chunks|
      invariant fresh(codec) && fresh(buf) && (ok ==> codec.Valid(lv))
      invariant Reached(lv, chunks, i, vs, ok, codec.taken + buf.data)
    {
      ReachedStep(lv, chunks, i, vs, codec.taken + buf.data);
      var more;
      more, ok := FeedChunk(lv, codec, buf, chunks[i], commits(i));
      vs := vs + more;
      i := i + 1;
    }
    FailureIsFinal(lv, chunks, i);
  }

  /** The first `i` chunks have been decoded into `vs`, leaving `pending` undecided. */
  ghost predicate Reached(lv: Leaves, chunks: seq<bytes>, i: nat, vs: seq<Value>, ok: bool, pending: bytes)
    requires i <= |chunks|
  {
    var all := DecodeAll(lv, Concat(chunks[..i]));
    vs == all.values && ok == all.end.Waiting? && (ok ==> pending == all.end.left)
  }

  lemma {:induction false} ReachedStart(lv: Leaves, chunks: seq<bytes>)
    ensures Parse(lv, []).More? && Reached(lv, chunks, 0, [], true, [])
  {
  }

  lemma {:induction false} ReachedStep(lv: Leaves, chunks: seq<bytes>, i: nat, vs: seq<Value>, pending: bytes)
    requires i < |chunks| && Reached(lv, chunks, i, vs, true, pending)
    ensures var next := DecodeAll(lv, pending + chunks[i]);
            Reached(lv, chunks, i + 1, vs + next.values, next.end.Waiting?,
                    if next.end.Waiting? then next.end.left else [])
  {
    assert chunks[..i + 1][..i] == chunks[..i];
    DecodeContinues(lv, Concat(chunks[..i]), chunks[i]);
  }

  /** After a malformed reply later chunks change nothing. */
  lemma {:induction false} FailureIsFinal(lv: Leaves, chunks: seq<bytes>, i: nat)
    requires i <= |chunks|
    ensures var a := DecodeAll(lv, Concat(chunks[..i]));
            i == |chunks| || a.end.Failed? ==> DecodeAll(lv, Concat(chunks)) == a
    decreases |chunks| - i
  {
    if i == |chunks| {
      assert chunks[..i] == chunks;
    } else {
      assert chunks[..i + 1][..i] == chunks[..i];
      DecodeContinues(lv, Concat(chunks[..i]), chunks[i]);
      FailureIsFinal(lv, chunks, i + 1);
    }
  }
}
