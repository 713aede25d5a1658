/**
 Atomic pipelines: wrapping a pipeline in MULTI and EXEC changes nothing for the
 caller, on either connection type, unless the pipeline is empty.
 */
module Atomic {
  import opened Resp
  import opened Matching
  import opened SyncConnection
  import opened Agreement
  import opened Pipelines

  /** The part of the replies that a pipeline of `n` commands skips and keeps. */
  function ShapeOf(transaction: bool, n: nat): Shape {
    if transaction then Batch(n + 1, 1, true) else Batch(0, n, false)
  }

  /** The commands a pipeline sends, and the replies it is sent. */
  function Commands(s: Shape): nat
    requires s.Batch?
  {
    s.skip + s.count
  }

  function Finish(o: Options, response: Result<seq<Value>, RedisError>): Result<Value, RedisError> {
    match response
    case Err(e) => Err(e)
    case Ok(values) => CompleteRequest(o, values)
  }

  /** `query` on a blocking connection that reads `messages`; nothing is sent for an empty plain pipeline. */
  function SyncQuery(o: Options, n: nat, messages: seq<Value>): Result<Value, RedisError>
    requires |messages| < TWO_64
  {
    var shape := ShapeOf(o.transaction, n);
    if Commands(shape) == 0 then Err(EmptyCommand)
    else Finish(o, Conclude(Gather(messages, shape.skip, shape.count)))
  }

  /** `query_async` on a multiplexed connection that receives `replies`. */
  function AsyncQuery(o: Options, n: nat, replies: seq<Value>): Result<Value, RedisError>
    requires n + 2 < TWO_64 && |replies| == Commands(ShapeOf(o.transaction, n))
  {
    var shape := ShapeOf(o.transaction, n);
    if Commands(shape) == 0 then Err(EmptyCommand) else Finish(o, AsyncResult(shape, replies))
  }

  /** How a server answers a transaction: OK, one acknowledgement per command, then all replies. */
  function TransactionReplies(queued: seq<Value>, replies: seq<Value>): seq<Value> {
    [Okay] + queued + [Array(replies)]
  }

  /** Acknowledgements are neither errors nor pushes. */
  predicate Acknowledged(queued: seq<Value>) {
    forall i | 0 <= i < |queued| :: !queued[i].Error? && !queued[i].Push?
  }

  lemma {:induction false} NoSkippedErrors(rs: seq<Value>)
    requires |rs| < TWO_64 && forall i | 0 <= i < |rs| :: !rs[i].Error?
    ensures SkippedErrors(rs) == []
  {
    if rs == [] {
    } else {
      NoSkippedErrors(rs[..|rs| - 1]);
    }
  }

  /** The whole transaction reaches the caller as its last reply. */
  lemma {:induction false} TransactionAnswer(queued: seq<Value>, replies: seq<Value>)
    requires Acknowledged(queued) && |queued| + 2 < TWO_64
    ensures
      var rs, shape := TransactionReplies(queued, replies), ShapeOf(true, |queued|);
      && |rs| == Count(shape) && GoodShape(shape)
      && Answer(shape, rs) == Ok(Array([Array(replies)]))
  {
    hide SkippedErrors;
    var rs, n := TransactionReplies(queued, replies), |queued|;
    assert rs[..n + 1] == [Okay] + queued && rs[n + 1..] == [Array(replies)];
    NoSkippedErrors(rs[..n + 1]);
  }

  /** An atomic pipeline gives what composing the replies inside EXEC's array gives. */
  lemma {:induction false} AtomicComposes(o: Options, queued: seq<Value>, replies: seq<Value>)
    requires o.transaction && Acknowledged(queued) && |queued| + 2 < TWO_64
    ensures AsyncQuery(o, |queued|, TransactionReplies(queued, replies)) == Compose(o, replies)
  {
    hide Answer, Compose, Acknowledged, PushFree;
    TransactionAnswer(queued, replies);
  }

  /** A plain pipeline composes its replies, if it has any. */
  lemma {:induction false} PlainComposes(o: Options, replies: seq<Value>)
    requires !o.transaction && |replies| + 2 < TWO_64
    ensures AsyncQuery(o, |replies|, replies) == if replies == [] then Err(EmptyCommand) else Compose(o, replies)
  {
    hide Compose, SkippedErrors;
    assert replies[0..] == replies;
  }

  /** On a stream without pushes a blocking query gives what the asynchronous one gives. */
  lemma {:induction false} SyncIsAsync(o: Options, n: nat, messages: seq<Value>)
    requires n + 2 < TWO_64 && PushFree(messages) && |messages| == Commands(ShapeOf(o.transaction, n)) < TWO_64
    ensures SyncQuery(o, n, messages) == AsyncQuery(o, n, messages)
  {
    hide Gather, Answer, CompleteRequest, Select, LastError;
    var shape := ShapeOf(o.transaction, n);
    if Commands(shape) > 0 {
      RepliesLength(messages);
      SelectLength(Solicited, messages);
      assert AllKept(Solicited, messages) && messages[..|messages|] == messages;
      SyncAsyncAgree(messages, shape);
      assert PushesHarmless(messages, shape);
    }
  }

  lemma {:induction false} AsyncIsTransparent(o: Options, queued: seq<Value>, replies: seq<Value>)
    requires Acknowledged(queued) && |queued| == |replies| && |replies| + 2 < TWO_64
    ensures |replies| > 0 <==>
            (AsyncQuery(o.(transaction := true), |replies|, TransactionReplies(queued, replies)) ==
             AsyncQuery(o.(transaction := false), |replies|, replies))
  {
    hide Compose, AsyncQuery, Acknowledged;
    AtomicComposes(o.(transaction := true), queued, replies);
    PlainComposes(o.(transaction := false), replies);
    ModeDoesNotMatter(o, replies);
    NothingToCompose(o.(transaction := true));
  }

  /**
   Transparency, for every command list and reply list: the caller's result is the
   same in atomic and in plain mode, error positions and ignored commands included,
   if and only if there is at least one command; an empty plain pipeline is refused
   where an empty transaction succeeds.
   */
  lemma {:induction false} AtomicIsTransparent(o: Options, queued: seq<Value>, replies: seq<Value>)
    requires Acknowledged(queued) && |queued| == |replies| && |replies| + 2 < TWO_64 && PushFree(replies)
    ensures |replies| > 0 <==>
            (AsyncQuery(o.(transaction := true), |replies|, TransactionReplies(queued, replies)) ==
             AsyncQuery(o.(transaction := false), |replies|, replies))
    ensures |replies| > 0 <==>
            (SyncQuery(o.(transaction := true), |replies|, TransactionReplies(queued, replies)) ==
             SyncQuery(o.(transaction := false), |replies|, replies))
  {
    hide SyncQuery, AsyncQuery, Acknowledged, PushFree;
    AsyncIsTransparent(o, queued, replies);
    TransactionShape(queued, replies);
    SyncIsAsync(o.(transaction := true), |replies|, TransactionReplies(queued, replies));
    SyncIsAsync(o.(transaction := false), |replies|, replies);
  }

  lemma {:induction false} TransactionShape(queued: seq<Value>, replies: seq<Value>)
    requires Acknowledged(queued)
    ensures PushFree(TransactionReplies(queued, replies)) && |TransactionReplies(queued, replies)| == |queued| + 2
  {
  }

  lemma {:induction false} ModeDoesNotMatter(o: Options, replies: seq<Value>)
    ensures Compose(o.(transaction := true), replies) == Compose(o.(transaction := false), replies)
  {
  }

  lemma {:induction false} NothingToCompose(o: Options)
    ensures Compose(o, []).Ok?
  {
  }

  /** A transaction that the server discarded because a watched key changed reaches the caller as Nil. */
  lemma {:induction false} AbortedByWatch(o: Options, queued: seq<Value>)
    requires o.transaction && Acknowledged(queued) && |queued| + 2 < TWO_64
    ensures AsyncQuery(o, |queued|, [Okay] + queued + [Nil]) == Ok(Nil)
  {
    hide SkippedErrors;
    var rs, n := [Okay] + queued + [Nil], |queued|;
    assert rs[..n + 1] == [Okay] + queued && rs[n + 1..] == [Nil];
    NoSkippedErrors(rs[..n + 1]);
  }
}
