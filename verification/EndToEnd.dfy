/**
 From bytes to callers: the decoder and the multiplexed sink together, on a reply
 stream that arrives in arbitrary pieces with unasked pushes in between.
 */
module EndToEnd {
  import opened Resp
  import opened Parser
  import opened Wire
  import opened Codec
  import opened Pipelines
  import opened Matching
  import opened AsyncSink
  import opened Multiplexed
  import opened Agreement

  function Sends(reqs: seq<Req>): (es: seq<Event>)
    ensures |es| == |reqs|
  {
    seq(|reqs|, i requires 0 <= i < |reqs| => Send(reqs[i].output, reqs[i].shape))
  }

  function Arrivals(messages: seq<Value>): (es: seq<Event>)
    ensures |es| == |messages|
  {
    seq(|messages|, i requires 0 <= i < |messages| => Arrived(messages[i]))
  }

  lemma {:induction false} RunExtends(events: seq<Event>, e: Event)
    ensures HistoryOf(events + [e]) == Extend(HistoryOf(events), e)
    ensures GoodRun(events + [e]) <==> GoodRun(events) && GoodEvent(HistoryOf(events), e)
  {
    assert (events + [e])[..|events|] == events;
  }

  lemma {:induction false} DistinctPrefix(sent: seq<Req>, r: Req)
    requires DistinctCallers(sent + [r])
    ensures DistinctCallers(sent) && (r.output.Some? ==> !HasCaller(sent, r.output.value))
  {
    if sent == [] {
    } else {
      assert (sent + [r])[1..] == sent[1..] + [r];
      DistinctPrefix(sent[1..], r);
      if sent[0].output.Some? {
        NewCaller(sent[1..], r, sent[0].output.value);
      }
    }
  }

  /** Sending requests with channels of their own is a good run that records exactly them. */
  lemma {:induction false} SendsHistory(reqs: seq<Req>)
    requires GoodReqs(reqs) && DistinctCallers(reqs)
    ensures GoodRun(Sends(reqs)) && HistoryOf(Sends(reqs)) == History(reqs, [], {})
  {
    hide GoodRun, HistoryOf, DistinctCallers, HasCaller;
    if reqs == [] {
      EmptyRun();
    } else {
      var init, r := reqs[..|reqs| - 1], reqs[|reqs| - 1];
      assert reqs == init + [r];
      DistinctPrefix(init, r);
      SendsHistory(init);
      RunExtends(Sends(init), Send(r.output, r.shape));
      assert Sends(reqs) == Sends(init) + [Send(r.output, r.shape)];
    }
  }

  lemma {:induction false} EmptyRun()
    ensures GoodRun([]) && HistoryOf([]) == History([], [], {})
  {
  }

  /** The first `n` of a list, or all of it. */
  function First(vs: seq<Value>, n: nat): seq<Value> {
    if |vs| <= n then vs else vs[..n]
  }

  /** What then arrives adds its replies, as long as they are owed, and nothing else. */
  lemma {:induction false} ArrivalsHistory(reqs: seq<Req>, messages: seq<Value>)
    requires GoodReqs(reqs) && DistinctCallers(reqs)
    ensures
      var events := Sends(reqs) + Arrivals(messages);
      GoodRun(events) && HistoryOf(events) == History(reqs, First(Asked(messages), Total(reqs)), {})
  {
    hide GoodRun, HistoryOf, DistinctCallers, Total, Select;
    if messages == [] {
      SendsHistory(reqs);
      SelectNothing(Solicited);
      assert Sends(reqs) + Arrivals(messages) == Sends(reqs);
    } else {
      var init, m := messages[..|messages| - 1], messages[|messages| - 1];
      assert messages == init + [m];
      ArrivalsHistory(reqs, init);
      SelectStep(Solicited, init, m);
      RunExtends(Sends(reqs) + Arrivals(init), Arrived(m));
      assert Sends(reqs) + Arrivals(messages) == Sends(reqs) + Arrivals(init) + [Arrived(m)];
    }
  }

  /**
   The sink gives the caller of a batch the meaning of the messages it takes for
   replies, confirmed subscriptions among them.
   */
  lemma {:induction false} SinkTakes(caller: nat, shape: Shape, messages: seq<Value>)
    requires shape.Batch? && GoodShape(shape) && Count(shape) <= |Asked(messages)|
    ensures
      var reqs := [Req(Some(caller), shape)];
      var h := HistoryOf(Sends(reqs) + Arrivals(messages));
      && GoodReqs(h.sent)
      && ProgressOf(h.sent, h.replies) == Progress([], [(caller, Answer(shape, Taken(shape, messages)))])
  {
    hide HistoryOf, GoodRun, Answer, Asked;
    var reqs := [Req(Some(caller), shape)];
    assert reqs[1..] == [];
    ArrivalsHistory(reqs, messages);
    var rs := Taken(shape, messages);
    assert First(Asked(messages), Count(shape)) == rs && rs[..Count(shape)] == rs;
  }

  /** Request `j` has its own slice of the replies, received. */
  ghost predicate Served(reqs: seq<Req>, replies: seq<Value>, outbox: seq<Sent>, j: nat)
    requires GoodReqs(reqs) && j < |reqs|
  {
    reqs[j].output.Some? ==>
      var k, at, n := Callers(reqs, j), Offset(reqs, j), Count(reqs[j].shape);
      && k < |outbox| && at + n <= |replies|
      && outbox[k] == Sent(reqs[j].output.value, Answer(reqs[j].shape, replies[at..at + n]), true)
  }

  lemma {:induction false} SliceInside(reqs: seq<Req>, j: nat)
    requires j < |reqs|
    ensures Offset(reqs, j) + Count(reqs[j].shape) <= Total(reqs)
  {
    if j == 0 {
    } else {
      SliceInside(reqs[1..], j - 1);
    }
  }

  /** Requests with channels of their own, and a byte stream that answers them all, cut into chunks. */
  ghost predicate Exchange(lv: Leaves, reqs: seq<Req>, messages: seq<Value>, chunks: seq<bytes>) {
    && AcceptsAscii(lv) && WellFormedAll(lv, messages) && FrameDepthAll(messages) <= 100
    && Concat(chunks) == EncodeAll(messages)
    && GoodReqs(reqs) && DistinctCallers(reqs) && |Asked(messages)| == Total(reqs)
  }

  ghost predicate AllServed(reqs: seq<Req>, replies: seq<Value>, outbox: seq<Sent>)
    requires GoodReqs(reqs)
  {
    forall j | 0 <= j < |reqs| :: Served(reqs, replies, outbox, j)
  }

  /**
   For all requests and replies: if the encoded replies, mixed with unasked pushes,
   arrive cut into any chunks, nothing stays queued and every caller has received
   exactly the meaning of its own slice, in send order.
   */
  method Receive(lv: Leaves, reqs: seq<Req>, messages: seq<Value>, chunks: seq<bytes>, commits: nat -> nat)
    returns (queue: seq<Entry>, outbox: seq<Sent>)
    requires Exchange(lv, reqs, messages, chunks)
    ensures queue == [] && AllServed(reqs, Asked(messages), outbox)
  {
    hide Total, DistinctCallers, GoodReqs, EncodeAll, WellFormedAll, FrameDepthAll, GoodRun, HistoryOf;
    hide Served, DecodeAll, Select;
    var vs, ok := ReceiveChunks(lv, chunks, commits);
    DecodesTo(lv, messages);
    ArrivalsHistory(reqs, messages);
    queue, outbox := RunAll(Sends(reqs) + Arrivals(vs));
    ghost var h := HistoryOf(Sends(reqs) + Arrivals(messages));
    EmptyQueue(reqs, h.replies);
    forall j | 0 <= j < |reqs| ensures Served(reqs, Asked(messages), outbox, j) {
      ServedFrom(h, queue, outbox, j);
    }
  }

  lemma {:induction false} ServedFrom(h: History, queue: seq<Entry>, outbox: seq<Sent>, j: nat)
    requires Settled(h, queue, outbox) && j < |h.sent| && |h.replies| == Total(h.sent) && h.closed == {}
    ensures Served(h.sent, h.replies, outbox, j)
  {
    hide Total, ProgressOf, DistinctCallers, Answer;
    if h.sent[j].output.Some? {
      SliceInside(h.sent, j);
      LiveCallerServed(h, queue, outbox, j);
    }
  }

  lemma {:induction false} DecodesTo(lv: Leaves, messages: seq<Value>)
    requires AcceptsAscii(lv) && WellFormedAll(lv, messages) && FrameDepthAll(messages) <= 100
    ensures DecodeAll(lv, EncodeAll(messages)).values == messages
  {
    hide EncodeAll, WellFormedAll, FrameDepthAll, ParseValue;
    DecodeEncoded(lv, messages, []);
    assert EncodeAll(messages) + [] == EncodeAll(messages);
    NothingTaken(lv);
    assert DecodeAll(lv, []).values == [];
  }

  // ----------------------------------------------------------- every interleaving

  /** What happens to a connection: a request, a caller leaving, or bytes from the server. */
  datatype Input = Request(output: Option<nat>, shape: Shape) | Leave(caller: nat) | Chunk(data: bytes, commit: nat)

  /** All bytes received. */
  function Bytes(inputs: seq<Input>): bytes {
    if inputs == [] then []
    else Bytes(inputs[..|inputs| - 1]) + if inputs[|inputs| - 1].Chunk? then inputs[|inputs| - 1].data else []
  }

  /** The replies that `data` completes after `sofar`. */
  function Completed(lv: Leaves, sofar: bytes, data: bytes): seq<Value> {
    match DecodeAll(lv, sofar).end
    case Failed => []
    case Waiting(left) => DecodeAll(lv, left + data).values
  }

  /** What each input means to the sink. */
  function Meaning(lv: Leaves, sofar: bytes, input: Input): seq<Event> {
    match input
    case Request(output, shape) => [Send(output, shape)]
    case Leave(caller) => [Cancelled(caller)]
    case Chunk(data, _) => Arrivals(Completed(lv, sofar, data))
  }

  function EventsOf(lv: Leaves, inputs: seq<Input>): seq<Event> {
    if inputs == [] then []
    else
      var init, last := inputs[..|inputs| - 1], inputs[|inputs| - 1];
      EventsOf(lv, init) + Meaning(lv, Bytes(init), last)
  }

  lemma {:induction false} NextInput(lv: Leaves, inputs: seq<Input>, i: nat)
    requires i < |inputs|
    ensures EventsOf(lv, inputs[..i + 1]) == EventsOf(lv, inputs[..i]) + Meaning(lv, Bytes(inputs[..i]), inputs[i])
    ensures Bytes(inputs[..i + 1]) == Bytes(inputs[..i]) + if inputs[i].Chunk? then inputs[i].data else []
  {
    assert inputs[..i + 1][..i] == inputs[..i];
  }

  lemma {:induction false} GoodPrefix(a: seq<Event>, b: seq<Event>)
    requires GoodRun(a + b)
    ensures GoodRun(a)
  {
    if b == [] {
      assert a + b == a;
    } else {
      assert (a + b)[..|a + b| - 1] == a + b[..|b| - 1];
      GoodPrefix(a, b[..|b| - 1]);
    }
  }

  lemma {:induction false} EventsGrow(lv: Leaves, inputs: seq<Input>, i: nat)
    requires i <= |inputs| && GoodRun(EventsOf(lv, inputs))
    ensures GoodRun(EventsOf(lv, inputs[..i]))
    decreases |inputs| - i
  {
    hide GoodRun, EventsOf;
    if i == |inputs| {
      assert inputs[..i] == inputs;
    } else {
      EventsGrow(lv, inputs, i + 1);
      NextInput(lv, inputs, i);
      GoodPrefix(EventsOf(lv, inputs[..i]), Meaning(lv, Bytes(inputs[..i]), inputs[i]));
    }
  }

  /** Decoder and sink have dealt with `events` and hold nothing but the undecided end of `sofar`. */
  ghost predicate Caught(
      lv: Leaves, codec: ValueCodec, buf: BytesMut, sink: PipelineSink, ok: bool, sofar: bytes, events: seq<Event>)
    reads codec, buf, sink
  {
    && sink.Valid() && sink.error == None && sink.Past() == HistoryOf(events)
    && ok == DecodeAll(lv, sofar).end.Waiting?
    && (ok ==> codec.Valid(lv) && codec.taken + buf.data == DecodeAll(lv, sofar).end.left)
  }

  /** The values a chunk completes arrive one after the other. */
  method ArriveAll(sink: PipelineSink, ghost before: seq<Event>, vs: seq<Value>)
    requires sink.Valid() && sink.error == None && sink.Past() == HistoryOf(before)
    modifies sink
    ensures sink.Valid() && sink.error == None && sink.Past() == HistoryOf(before + Arrivals(vs))
  {
    hide HistoryOf, GoodRun, Extend;
    assert before + Arrivals(vs[..0]) == before;
    for i := 0 to |vs|
      invariant sink.Valid() && sink.error == None && sink.Past() == HistoryOf(before + Arrivals(vs[..i]))
    {
      RunExtends(before + Arrivals(vs[..i]), Arrived(vs[i]));
      assert before + Arrivals(vs[..i]) + [Arrived(vs[i])] == before + Arrivals(vs[..i + 1]);
      Happen(sink, Arrived(vs[i]));
    }
    assert vs[..|vs|] == vs;
  }

  /** One input for decoder and sink. */
  method Accept(
    lv: Leaves, codec: ValueCodec, buf: BytesMut, sink: PipelineSink, ok: bool, input: Input,
    ghost sofar: bytes, ghost before: seq<Event>)
    returns (stillOk: bool)
    requires Caught(lv, codec, buf, sink, ok, sofar, before)
    requires GoodRun(before + Meaning(lv, sofar, input))
    modifies codec, buf, sink
    ensures Caught(lv, codec, buf, sink, stillOk, sofar + (if input.Chunk? then input.data else []),
                   before + Meaning(lv, sofar, input))
  {
    hide HistoryOf, GoodRun, Extend, DecodeAll;
    assert sofar + [] == sofar;
    match input {
      case Request(output, shape) =>
        RunExtends(before, Send(output, shape));
        Happen(sink, Send(output, shape));
        stillOk := ok;
      case Leave(caller) =>
        RunExtends(before, Cancelled(caller));
        Happen(sink, Cancelled(caller));
        stillOk := ok;
      case Chunk(data, commit) =>
        DecodeContinues(lv, sofar, data);
        stillOk := false;
        if ok {
          var vs;
          vs, stillOk := FeedChunk(lv, codec, buf, data, commit);
          ArriveAll(sink, before, vs);
        } else {
          assert before + Arrivals([]) == before;
        }
    }
  }

  /**
   For every interleaving of requests, callers leaving and chunks of bytes: the queue
   and the results are what the requests and the replies decoded so far imply. `ok`
   tells whether all bytes were well formed; after a malformed reply nothing arrives.
   */
  method Drive(lv: Leaves, inputs: seq<Input>) returns (queue: seq<Entry>, outbox: seq<Sent>, ok: bool)
    requires GoodRun(EventsOf(lv, inputs))
    ensures Settled(HistoryOf(EventsOf(lv, inputs)), queue, outbox)
    ensures ok == DecodeAll(lv, Bytes(inputs)).end.Waiting?
  {
    hide GoodRun, EventsOf, Bytes, Meaning, DecodeAll, HistoryOf;
    var codec := new ValueCodec();
    var buf := new BytesMut();
    var sink := new PipelineSink(false);
    ok := true;
    NothingYet(lv);
    assert inputs[..0] == [];
    for i := 0 to |inputs|
      invariant fresh(codec) && fresh(buf) && fresh(sink)
      invariant Caught(lv, codec, buf, sink, ok, Bytes(inputs[..i]), EventsOf(lv, inputs[..i]))
    {
      NextInput(lv, inputs, i);
      EventsGrow(lv, inputs, i + 1);
      ok := Accept(lv, codec, buf, sink, ok, inputs[i], Bytes(inputs[..i]), EventsOf(lv, inputs[..i]));
    }
    assert inputs[..|inputs|] == inputs;
    return sink.inFlight, sink.outbox, ok;
  }

  lemma {:induction false} NothingYet(lv: Leaves)
    ensures Bytes([]) == [] && EventsOf(lv, []) == [] && HistoryOf([]) == History([], [], {})
    ensures Parse(lv, []) == More && DecodeAll(lv, []) == Stream([], Waiting([]))
  {
    NothingTaken(lv);
  }

  // ------------------------------------------------------------- what has arrived

  function ArrivedOf(events: seq<Event>): seq<Value> {
    if events == [] then []
    else
      var last := events[|events| - 1];
      ArrivedOf(events[..|events| - 1]) + if last.Arrived? then [last.value] else []
  }

  lemma {:induction false} ArrivedConcat(a: seq<Event>, b: seq<Event>)
    ensures ArrivedOf(a + b) == ArrivedOf(a) + ArrivedOf(b)
  {
    if b == [] {
      assert a + b == a;
    } else {
      ArrivedConcat(a, b[..|b| - 1]);
      assert (a + b)[..|a + b| - 1] == a + b[..|b| - 1];
    }
  }

  lemma {:induction false} ArrivedArrivals(vs: seq<Value>)
    ensures ArrivedOf(Arrivals(vs)) == vs
  {
    if vs == [] {
    } else {
      ArrivedArrivals(vs[..|vs| - 1]);
      assert Arrivals(vs)[..|vs| - 1] == Arrivals(vs[..|vs| - 1]);
    }
  }

  /** However the bytes were cut and whatever came in between: what arrived is the whole stream decoded at once. */
  lemma {:induction false} ArrivedInOrder(lv: Leaves, inputs: seq<Input>)
    ensures ArrivedOf(EventsOf(lv, inputs)) == DecodeAll(lv, Bytes(inputs)).values
  {
    hide DecodeAll, ArrivedOf;
    if inputs == [] {
      NothingYet(lv);
      ArrivedArrivals([]);
      assert Arrivals([]) == [];
    } else {
      var init, last := inputs[..|inputs| - 1], inputs[|inputs| - 1];
      ArrivedInOrder(lv, init);
      ArrivedConcat(EventsOf(lv, init), Meaning(lv, Bytes(init), last));
      if last.Chunk? {
        DecodeContinues(lv, Bytes(init), last.data);
        ArrivedArrivals(Completed(lv, Bytes(init), last.data));
      } else {
        OneEvent(Meaning(lv, Bytes(init), last)[0]);
        assert Bytes(init) + [] == Bytes(init);
      }
    }
  }

  lemma {:induction false} OneEvent(e: Event)
    ensures ArrivedOf([e]) == if e.Arrived? then [e.value] else []
  {
    assert [e][..0] == [];
  }

  /** The server answers no request before it was sent. */
  predicate Timely(events: seq<Event>) {
    events == [] ||
    (var init, last := events[..|events| - 1], events[|events| - 1];
     && Timely(init)
     && (last.Arrived? && Solicited(last.value) ==> |HistoryOf(init).replies| < Total(HistoryOf(init).sent)))
  }

  /** Then every reply that arrived counts, so each caller's slice is one of the stream itself. */
  lemma {:induction false} TimelyReplies(events: seq<Event>)
    requires Timely(events)
    ensures HistoryOf(events).replies == Asked(ArrivedOf(events))
  {
    hide Select, Total;
    SelectNothing(Solicited);
    if events == [] {
    } else {
      var init, last := events[..|events| - 1], events[|events| - 1];
      TimelyReplies(init);
      if last.Arrived? {
        SelectStep(Solicited, ArrivedOf(init), last.value);
      } else {
        assert ArrivedOf(init) + [] == ArrivedOf(init);
      }
    }
  }
}
