/**
 The multiplexed connection's side of reply matching: a queue of in-flight
 requests, fed by a stream of replies and pushes.

 The connection's observable output is what it hands to the callers' one-shot
 channels and to the push channel. A caller is a number; a fresh one is used for
 every request, as a fresh channel is in the source.
 */
module AsyncSink {
  import opened Resp
  import opened Matching

  type Reply = Result<Value, RedisError>

  datatype Expectation = Expectation(skipped: nat, expected: nat, isTransaction: bool, seen: nat)

  datatype ErrorOrErrors = Errors(errors: seq<(int, ServerError)>) | FirstError(error: RedisError)

  datatype Aggregate =
    | SingleCommand
    | Collecting(buffer: seq<Value>, found: ErrorOrErrors, expectation: Expectation)

  datatype Entry = Entry(output: Option<nat>, aggregate: Aggregate)

  /** A result handed to a caller's channel; `arrived` says the receiver was still there. */
  datatype Sent = Sent(caller: nat, result: Reply, arrived: bool)

  // ------------------------------------------------ the state the history implies

  /** The queue and the results after `replies` have answered `sent` from the front. */
  datatype Progress = Progress(queue: seq<Entry>, results: seq<(nat, Reply)>)

  predicate GoodReqs(sent: seq<Req>) {
    forall i | 0 <= i < |sent| :: GoodShape(sent[i].shape)
  }

  /** Replies the server owes for these requests. */
  function Total(sent: seq<Req>): nat {
    if sent == [] then 0 else Count(sent[0].shape) + Total(sent[1..])
  }

  function Result(r: Req, rs: seq<Value>): seq<(nat, Reply)>
    requires GoodShape(r.shape) && |rs| == Count(r.shape)
  {
    match r.output
    case None => []
    case Some(caller) => [(caller, Answer(r.shape, rs))]
  }

  /** A queue entry that has taken in `rs` of its replies so far. */
  function Partial(r: Req, rs: seq<Value>): Entry
    requires GoodShape(r.shape) && |rs| < Count(r.shape)
  {
    match r.shape
    case Single => Entry(r.output, SingleCommand)
    case Batch(skip, count, isTransaction) =>
      var k := |rs|;
      var skippedReplies := if k <= skip then rs else rs[..skip];
      Entry(r.output, Collecting(
              if k <= skip then [] else rs[skip..],
              Errors(if isTransaction then SkippedErrors(skippedReplies) else []),
              Expectation(if k <= skip then skip - k else 0, count, isTransaction, k)))
  }

  function Waiting(sent: seq<Req>): (q: seq<Entry>)
    requires GoodReqs(sent)
    ensures |q| == |sent|
  {
    seq(|sent|, i requires 0 <= i < |sent| => Partial(sent[i], []))
  }

  function ProgressOf(sent: seq<Req>, replies: seq<Value>): Progress
    requires GoodReqs(sent)
  {
    if sent == [] then Progress([], [])
    else
      var c := Count(sent[0].shape);
      if |replies| < c then Progress([Partial(sent[0], replies)] + Waiting(sent[1..]), [])
      else
        var others := ProgressOf(sent[1..], replies[c..]);
        Progress(others.queue, Result(sent[0], replies[..c]) + others.results)
  }

  // ------------------------------------------------------------ one more reply

  /** An entry after one more reply: still waiting, or complete with a result. */
  datatype Absorbed = Continue(aggregate: Aggregate) | Complete(result: Reply)

  /** One reply taken in by the entry at the front of the queue. */
  function Absorb(a: Aggregate, v: Value): Absorbed
    requires a.Collecting? ==> a.expectation.seen + 1 < TWO_64
  {
    match a
    case SingleCommand => Complete(Ok(v))
    case Collecting(buffer, found, x) =>
      var x' := x.(seen := x.seen + 1);
      if x.skipped > 0 then
        var found' :=
          if x.isTransaction && found.Errors? && v.Error?
          then Errors(found.errors + [(SubUsize(x'.seen, 2), v.error)]) else found;
        Continue(Collecting(buffer, found', x'.(skipped := x.skipped - 1)))
      else if |buffer| + 1 < x.expected then Continue(Collecting(buffer + [v], found, x'))
      else
        match found
        case FirstError(e) => Complete(Err(e))
        case Errors(es) =>
          Complete(if es == [] then Ok(Array(buffer + [v])) else Err(TransactionAborted(es)))
  }

  /** A transport error noted by the entry at the front: the first one is kept, and no reply is counted. */
  function AfterError(a: Aggregate, e: RedisError): Aggregate
    requires a.Collecting?
  {
    var x := a.expectation;
    Collecting(a.buffer,
               if a.found.Errors? && (x.skipped == 0 || x.isTransaction) then FirstError(e) else a.found,
               Expectation(if x.skipped > 0 then x.skipped - 1 else 0, x.expected, x.isTransaction, x.seen + 1))
  }

  /** A transport error taken in by the entry at the front. */
  function AbsorbError(a: Aggregate, e: RedisError): Absorbed {
    match a
    case SingleCommand => Complete(Err(e))
    case Collecting(buffer, found, x) =>
      if x.skipped > 0 || |buffer| < x.expected then Continue(AfterError(a, e))
      else Complete(Err(AfterError(a, e).found.error))
  }

  /** Once an entry has noted a transport error, that error is all its caller can get. */
  lemma {:induction false} FirstErrorSticks(buffer: seq<Value>, e: RedisError, x: Expectation, v: Value, f: RedisError)
    requires x.seen + 1 < TWO_64
    ensures
      var a := Collecting(buffer, FirstError(e), x);
      && AfterError(a, f).found == FirstError(e)
      && (match Absorb(a, v)
          case Continue(b) => b.Collecting? && b.found == FirstError(e)
          case Complete(r) => r == Err(e))
      && (match AbsorbError(a, f)
          case Continue(b) => b.Collecting? && b.found == FirstError(e)
          case Complete(r) => r == Err(e))
  {
  }

  // -------------------------------------------------- replies and transport errors mixed

  /** The values among results. */
  function Oks(rs: seq<Reply>): seq<Value> {
    if rs == [] then []
    else
      var before, last := Oks(rs[..|rs| - 1]), rs[|rs| - 1];
      if last.Ok? then before + [last.value] else before
  }

  /** The first transport error among results. */
  function FirstErr(rs: seq<Reply>): Option<RedisError> {
    if rs == [] then None
    else if rs[0].Err? then Some(rs[0].error)
    else FirstErr(rs[1..])
  }

  /** The values at their places; what stands for a transport error is no server error. */
  function InPlace(rs: seq<Reply>): (vs: seq<Value>)
    ensures |vs| == |rs|
  {
    seq(|rs|, i requires 0 <= i < |rs| => if rs[i].Ok? then rs[i].value else Nil)
  }

  function Upto(rs: seq<Reply>, n: nat): seq<Reply> { if |rs| <= n then rs else rs[..n] }

  function Past(rs: seq<Reply>, n: nat): seq<Reply> { if |rs| <= n then [] else rs[n..] }

  /** The transport errors that count: those of the skipped part only in a transaction. */
  function Counted(s: Shape, fed: seq<Reply>): seq<Reply>
    requires s.Batch?
  {
    if s.isTransaction then fed else Past(fed, s.skip)
  }

  /** The server errors a transaction reports from its skipped part. */
  function Reported(s: Shape, fed: seq<Reply>): seq<(int, ServerError)>
    requires s.Batch? && |fed| < TWO_64
  {
    if s.isTransaction then SkippedErrors(InPlace(Upto(fed, s.skip))) else []
  }

  /** A batch is complete once enough values came after the skipped part. */
  predicate Full(s: Shape, fed: seq<Reply>)
    requires s.Batch?
  {
    |fed| > s.skip && |Oks(fed[s.skip..])| >= s.count
  }

  /** What a complete batch gives: the first transport error that counts, the aborted transaction, or the values. */
  function Outcome(s: Shape, fed: seq<Reply>): Reply
    requires s.Batch? && |fed| < TWO_64
  {
    match FirstErr(Counted(s, fed))
    case Some(e) => Err(e)
    case None =>
      if Reported(s, fed) != [] then Err(TransactionAborted(Reported(s, fed)))
      else Ok(Array(Oks(Past(fed, s.skip))))
  }

  /** A batch that was fed these results and is not complete. */
  function Mixed(s: Shape, fed: seq<Reply>): Aggregate
    requires s.Batch? && |fed| < TWO_64
  {
    var first := FirstErr(Counted(s, fed));
    Collecting(Oks(Past(fed, s.skip)),
               if first.Some? then FirstError(first.value) else Errors(Reported(s, fed)),
               Expectation(if |fed| < s.skip then s.skip - |fed| else 0, s.count, s.isTransaction, |fed|))
  }

  function AbsorbAny(a: Aggregate, r: Reply): Absorbed
    requires a.Collecting? ==> a.expectation.seen + 1 < TWO_64
  {
    if r.Ok? then Absorb(a, r.value) else AbsorbError(a, r.error)
  }

  lemma {:induction false} OksStep(rs: seq<Reply>, r: Reply)
    ensures Oks(rs + [r]) == if r.Ok? then Oks(rs) + [r.value] else Oks(rs)
  {
    assert (rs + [r])[..|rs|] == rs;
  }

  lemma {:induction false} FirstErrStep(rs: seq<Reply>, r: Reply)
    ensures FirstErr(rs + [r]) == if FirstErr(rs).None? && r.Err? then Some(r.error) else FirstErr(rs)
  {
    if rs == [] {
      assert rs + [r] == [r] && [r][1..] == [];
    } else {
      FirstErrStep(rs[1..], r);
      assert (rs + [r])[1..] == rs[1..] + [r];
    }
  }

  lemma {:induction false} CountedStep(s: Shape, fed: seq<Reply>, r: Reply)
    requires s.Batch?
    ensures Counted(s, fed + [r]) == Counted(s, fed) + if s.isTransaction || |fed| >= s.skip then [r] else []
    ensures Past(fed + [r], s.skip) == if |fed| >= s.skip then Past(fed, s.skip) + [r] else []
  {
    if |fed| >= s.skip {
      assert (fed + [r])[s.skip..] == fed[s.skip..] + [r];
    }
  }

  lemma {:induction false} ReportedStep(s: Shape, fed: seq<Reply>, r: Reply)
    requires s.Batch? && |fed| + 1 < TWO_64
    ensures Reported(s, fed + [r]) ==
            Reported(s, fed) +
            if s.isTransaction && |fed| < s.skip && r.Ok? && r.value.Error? then [(SubUsize(|fed|, 1), r.value.error)]
            else []
  {
    hide SkippedErrors;
    var before, after := Upto(fed, s.skip), Upto(fed + [r], s.skip);
    assert Reported(s, fed) + [] == Reported(s, fed);
    if |fed| < s.skip {
      var v := if r.Ok? then r.value else Nil;
      assert InPlace(after) == InPlace(before) + [v];
      SkippedErrorsStep(InPlace(before), v);
    } else {
      assert after == before;
    }
  }

  /**
   For every shape and every mixture of replies and transport errors: a batch goes on until
   as many values as it expects came after the skipped part, and then gives the first
   transport error that counts, else the aborted transaction, else the values.
   */
  lemma {:induction false} BatchExact(s: Shape, fed: seq<Reply>, r: Reply)
    requires s.Batch? && |fed| + 1 < TWO_64 && !Full(s, fed)
    ensures AbsorbAny(Mixed(s, fed), r) ==
            if Full(s, fed + [r]) then Complete(Outcome(s, fed + [r])) else Continue(Mixed(s, fed + [r]))
  {
    hide Oks, FirstErr, Counted, Reported, Past, Full;
    assert Reported(s, fed) + [] == Reported(s, fed);
    OksStep(Past(fed, s.skip), r);
    FirstErrStep(Counted(s, fed), r);
    CountedStep(s, fed, r);
    assert Counted(s, fed) + [] == Counted(s, fed);
    ReportedStep(s, fed, r);
    PastIs(s, fed);
    PastIs(s, fed + [r]);
    assert SubUsize(|fed| + 1, 2) == SubUsize(|fed|, 1);
  }

  lemma {:induction false} PastIs(s: Shape, fed: seq<Reply>)
    requires s.Batch?
    ensures Full(s, fed) <==> |fed| > s.skip && |Oks(Past(fed, s.skip))| >= s.count
    ensures |fed| <= s.skip ==> Oks(Past(fed, s.skip)) == []
  {
  }

  /** A new entry has been fed nothing. */
  lemma {:induction false} BatchStarts(r: Req)
    requires GoodShape(r.shape) && r.shape.Batch?
    ensures Partial(r, []).aggregate == Mixed(r.shape, []) && !Full(r.shape, [])
  {
  }

  lemma {:induction false} AbsorbSkipped(r: Req, rs: seq<Value>, v: Value)
    requires GoodShape(r.shape) && r.shape.Batch? && |rs| < r.shape.skip
    ensures Absorb(Partial(r, rs).aggregate, v) == Continue(Partial(r, rs + [v]).aggregate)
  {
    hide SkippedErrors;
    SkippedErrorsStep(rs, v);
    assert SkippedErrors(rs) + [] == SkippedErrors(rs);
    assert (rs + [v])[..|rs| + 1] == rs + [v];
  }

  lemma {:induction false} AbsorbKept(r: Req, rs: seq<Value>, v: Value)
    requires GoodShape(r.shape) && r.shape.Batch? && r.shape.skip <= |rs| < Count(r.shape)
    ensures Absorb(Partial(r, rs).aggregate, v) ==
            if |rs| + 1 < Count(r.shape) then Continue(Partial(r, rs + [v]).aggregate)
            else Complete(Answer(r.shape, rs + [v]))
  {
    hide SkippedErrors;
    var skip, rs' := r.shape.skip, rs + [v];
    assert rs'[..skip] == rs[..skip];
    assert rs'[skip..] == rs[skip..] + [v];
    assert |rs| == skip ==> rs[..skip] == rs && rs[skip..] == [];
  }

  lemma {:induction false} AbsorbPartial(r: Req, rs: seq<Value>, v: Value)
    requires GoodShape(r.shape) && |rs| < Count(r.shape)
    ensures
      var a := Partial(r, rs).aggregate;
      && (a.Collecting? ==> a.expectation.seen + 1 < TWO_64)
      && Absorb(a, v) ==
         if |rs| + 1 < Count(r.shape) then Continue(Partial(r, rs + [v]).aggregate)
         else Complete(Answer(r.shape, rs + [v]))
  {
    hide SkippedErrors;
    if r.shape.Batch? {
      if |rs| < r.shape.skip {
        AbsorbSkipped(r, rs, v);
      } else {
        AbsorbKept(r, rs, v);
      }
    }
  }

  /** The queue and results after one more reply, computed from the front entry alone. */
  function Deliver(p: Progress, v: Value): Progress
    requires p.queue != []
    requires p.queue[0].aggregate.Collecting? ==> p.queue[0].aggregate.expectation.seen + 1 < TWO_64
  {
    var front := p.queue[0];
    match Absorb(front.aggregate, v)
    case Continue(a) => Progress([front.(aggregate := a)] + p.queue[1..], p.results)
    case Complete(r) =>
      Progress(p.queue[1..], p.results + if front.output.Some? then [(front.output.value, r)] else [])
  }

  /** A reply that some request is waiting for goes to the front entry, and nowhere else. */
  lemma {:induction false} ReplyStep(sent: seq<Req>, replies: seq<Value>, v: Value)
    requires GoodReqs(sent) && |replies| < Total(sent)
    ensures
      var p := ProgressOf(sent, replies);
      && p.queue != []
      && (p.queue[0].aggregate.Collecting? ==> p.queue[0].aggregate.expectation.seen + 1 < TWO_64)
      && ProgressOf(sent, replies + [v]) == Deliver(p, v)
  {
    hide Partial, Answer, Absorb;
    var r := sent[0];
    var c := Count(r.shape);
    if |replies| < c {
      AbsorbPartial(r, replies, v);
      PartialOutput(r, replies);
      var p := ProgressOf(sent, replies);
      assert p.queue[1..] == Waiting(sent[1..]);
      if |replies| + 1 < c {
        PartialOutput(r, replies + [v]);
      } else {
        assert (replies + [v])[..c] == replies + [v];
        assert (replies + [v])[c..] == [];
        FreshProgress(sent[1..]);
        assert Deliver(p, v).queue == Waiting(sent[1..]);
      }
    } else {
      assert (replies + [v])[..c] == replies[..c];
      assert (replies + [v])[c..] == replies[c..] + [v];
      ReplyStep(sent[1..], replies[c..], v);
      ResultsPrepend(Result(r, replies[..c]), ProgressOf(sent[1..], replies[c..]), v);
    }
  }

  lemma {:induction false} ResultsPrepend(first: seq<(nat, Reply)>, p: Progress, v: Value)
    requires p.queue != []
    requires p.queue[0].aggregate.Collecting? ==> p.queue[0].aggregate.expectation.seen + 1 < TWO_64
    ensures
      var q, q' := Progress(p.queue, first + p.results), Deliver(p, v);
      Deliver(q, v) == Progress(q'.queue, first + q'.results)
  {
    hide Absorb;
    var front := p.queue[0];
    var a := Absorb(front.aggregate, v);
    if a.Complete? {
      var more := if front.output.Some? then [(front.output.value, a.result)] else [];
      assert first + (p.results + more) == first + p.results + more;
    }
  }

  lemma {:induction false} PartialOutput(r: Req, rs: seq<Value>)
    requires GoodShape(r.shape) && |rs| < Count(r.shape)
    ensures Partial(r, rs).output == r.output
  {
  }

  /** Before any reply every request waits. */
  lemma {:induction false} FreshProgress(sent: seq<Req>)
    requires GoodReqs(sent)
    ensures ProgressOf(sent, []) == Progress(Waiting(sent), [])
  {
    if sent != [] {
      assert Waiting(sent) == [Partial(sent[0], [])] + Waiting(sent[1..]);
    }
  }

  /** A new request waits behind the others. */
  lemma {:induction false} SendStep(sent: seq<Req>, replies: seq<Value>, r: Req)
    requires GoodReqs(sent) && GoodShape(r.shape) && |replies| <= Total(sent)
    ensures
      var p := ProgressOf(sent, replies);
      ProgressOf(sent + [r], replies) == Progress(p.queue + [Partial(r, [])], p.results)
    ensures Total(sent + [r]) == Total(sent) + Count(r.shape)
  {
    hide Partial, Answer;
    var all := sent + [r];
    if sent == [] {
      assert all[1..] == [];
      assert replies == [];
      assert [Partial(r, [])] + Waiting([]) == [Partial(r, [])];
    } else {
      var c := Count(sent[0].shape);
      assert all[1..] == sent[1..] + [r];
      if |replies| < c {
        SendStep(sent[1..], [], r);
        assert Waiting(sent[1..] + [r]) == Waiting(sent[1..]) + [Partial(r, [])];
      } else {
        SendStep(sent[1..], replies[c..], r);
      }
    }
  }

  /** The queue is empty exactly when nothing is owed. */
  lemma {:induction false} EmptyQueue(sent: seq<Req>, replies: seq<Value>)
    requires GoodReqs(sent) && |replies| <= Total(sent)
    ensures ProgressOf(sent, replies).queue == [] <==> |replies| == Total(sent)
  {
    hide Partial, Answer;
    if sent == [] {
    } else {
      var c := Count(sent[0].shape);
      if |replies| >= c {
        EmptyQueue(sent[1..], replies[c..]);
      }
    }
  }

  /** Replies an entry still waits for. */
  function OwedTo(e: Entry): int {
    match e.aggregate
    case SingleCommand => 1
    case Collecting(buffer, _, x) => x.skipped + (if x.expected == 0 then 1 else x.expected) - |buffer|
  }

  function Owed(queue: seq<Entry>): int {
    if queue == [] then 0 else OwedTo(queue[0]) + Owed(queue[1..])
  }

  /** Replies still owed by the queue are those of all requests sent, less those received. */
  lemma {:induction false} OwedExact(sent: seq<Req>, replies: seq<Value>)
    requires GoodReqs(sent) && |replies| <= Total(sent)
    ensures Owed(ProgressOf(sent, replies).queue) == Total(sent) - |replies|
  {
    hide Answer;
    if sent == [] {
    } else {
      var c := Count(sent[0].shape);
      if |replies| < c {
        var q := [Partial(sent[0], replies)] + Waiting(sent[1..]);
        assert q[1..] == Waiting(sent[1..]);
        FreshProgress(sent[1..]);
        OwedExact(sent[1..], []);
      } else {
        OwedExact(sent[1..], replies[c..]);
      }
    }
  }

  // ----------------------------------------------------------- what callers get

  /** Where the replies of request `j` start in the reply stream. */
  function Offset(sent: seq<Req>, j: nat): nat
    requires j <= |sent|
  {
    if j == 0 then 0 else Count(sent[0].shape) + Offset(sent[1..], j - 1)
  }

  /** How many of the first `j` requests have a caller. */
  function Callers(sent: seq<Req>, j: nat): nat
    requires j <= |sent|
  {
    if j == 0 then 0 else (if sent[0].output.Some? then 1 else 0) + Callers(sent[1..], j - 1)
  }

  /** Whether all replies of request `j` are in. */
  predicate Answered(sent: seq<Req>, replies: seq<Value>, j: nat)
    requires j < |sent|
  {
    Offset(sent, j) + Count(sent[j].shape) <= |replies|
  }

  /**
   Each answered caller gets exactly the meaning of its own slice of the reply
   stream, in send order; an unanswered one has got nothing.
   */
  lemma {:induction false} CallerGetsItsSlice(sent: seq<Req>, replies: seq<Value>, j: nat)
    requires GoodReqs(sent) && j < |sent|
    ensures
      var results, k, at := ProgressOf(sent, replies).results, Callers(sent, j), Offset(sent, j);
      if Answered(sent, replies, j) then
        sent[j].output.Some? ==>
          k < |results| &&
          results[k] == (sent[j].output.value, Answer(sent[j].shape, replies[at..at + Count(sent[j].shape)]))
      else |results| <= k
  {
    hide Partial, Answer, Count;
    var c, n := Count(sent[0].shape), Count(sent[j].shape);
    if |replies| < c {
    } else if j == 0 {
      assert replies[0..0 + c] == replies[..c];
    } else {
      CallerGetsItsSlice(sent[1..], replies[c..], j - 1);
      var at := Offset(sent[1..], j - 1);
      if Answered(sent, replies, j) {
        SliceOfRest(replies, c, at, n);
      }
    }
  }

  lemma {:induction false} SliceOfRest(replies: seq<Value>, c: nat, at: nat, n: nat)
    requires c + at + n <= |replies|
    ensures replies[c..][at..at + n] == replies[c + at..c + at + n]
  {
  }

  /** Some request in the list waits for caller `c`. */
  predicate HasCaller(sent: seq<Req>, c: nat) {
    sent != [] && (sent[0].output == Some(c) || HasCaller(sent[1..], c))
  }

  /** No two requests wait for the same caller. */
  predicate DistinctCallers(sent: seq<Req>) {
    sent == [] ||
    ((sent[0].output.Some? ==> !HasCaller(sent[1..], sent[0].output.value)) && DistinctCallers(sent[1..]))
  }

  lemma {:induction false} NewCaller(sent: seq<Req>, r: Req, c: nat)
    ensures HasCaller(sent + [r], c) <==> HasCaller(sent, c) || r.output == Some(c)
  {
    if sent == [] {
      assert (sent + [r])[1..] == [];
    } else {
      assert (sent + [r])[1..] == sent[1..] + [r];
      NewCaller(sent[1..], r, c);
    }
  }

  lemma {:induction false} StaysDistinct(sent: seq<Req>, r: Req)
    requires DistinctCallers(sent) && (r.output.Some? ==> !HasCaller(sent, r.output.value))
    ensures DistinctCallers(sent + [r])
  {
    if sent == [] {
      assert (sent + [r])[1..] == [];
    } else {
      assert (sent + [r])[1..] == sent[1..] + [r];
      StaysDistinct(sent[1..], r);
      if sent[0].output.Some? {
        NewCaller(sent[1..], r, sent[0].output.value);
      }
    }
  }

  /** Every result is for a caller that sent a request, and no caller gets two. */
  ghost predicate OnceEach(sent: seq<Req>, results: seq<(nat, Reply)>) {
    && (forall k | 0 <= k < |results| :: HasCaller(sent, results[k].0))
    && (forall a, b | 0 <= a < b < |results| :: results[a].0 != results[b].0)
  }

  lemma {:induction false} OnceEachMore(r: Req, sent: seq<Req>, first: seq<(nat, Reply)>, others: seq<(nat, Reply)>)
    requires OnceEach(sent, others) && |first| <= 1
    requires first != [] ==> r.output == Some(first[0].0) && !HasCaller(sent, first[0].0)
    ensures OnceEach([r] + sent, first + others)
  {
    assert ([r] + sent)[1..] == sent;
  }

  lemma {:induction false} AtMostOnce(sent: seq<Req>, replies: seq<Value>)
    requires GoodReqs(sent) && DistinctCallers(sent)
    ensures OnceEach(sent, ProgressOf(sent, replies).results)
  {
    hide Partial, Answer, OnceEach;
    if sent == [] || |replies| < Count(sent[0].shape) {
      NoResults(sent);
    } else {
      var c := Count(sent[0].shape);
      AtMostOnce(sent[1..], replies[c..]);
      OnceEachMore(sent[0], sent[1..], Result(sent[0], replies[..c]), ProgressOf(sent[1..], replies[c..]).results);
      assert [sent[0]] + sent[1..] == sent;
    }
  }

  /** A request in the list has its caller in the list. */
  lemma {:induction false} CallerListed(sent: seq<Req>, j: nat)
    requires j < |sent| && sent[j].output.Some?
    ensures HasCaller(sent, sent[j].output.value)
  {
    if j == 0 {
    } else {
      CallerListed(sent[1..], j - 1);
    }
  }

  /** A caller whose replies are not all in has no result yet. */
  lemma {:induction false} NoResultEarly(sent: seq<Req>, replies: seq<Value>, j: nat, k: nat)
    requires GoodReqs(sent) && DistinctCallers(sent) && j < |sent| && sent[j].output.Some?
    requires !Answered(sent, replies, j) && k < |ProgressOf(sent, replies).results|
    ensures ProgressOf(sent, replies).results[k].0 != sent[j].output.value
  {
    hide Partial, Answer;
    var c := Count(sent[0].shape);
    if |replies| < c || j == 0 {
    } else {
      var first := Result(sent[0], replies[..c]);
      CallerListed(sent[1..], j - 1);
      if k >= |first| {
        NoResultEarly(sent[1..], replies[c..], j - 1, k - |first|);
      }
    }
  }

  lemma {:induction false} NoResults(sent: seq<Req>)
    ensures OnceEach(sent, [])
  {
  }
}
