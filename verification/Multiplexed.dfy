/**
 The sink that owns the socket of a multiplexed connection. Its invariant says
 that queue and results are exactly what the history of requests and replies
 implies; every operation keeps it, so it holds over every run.
 */
module Multiplexed {
  import opened Resp
  import opened Matching
  import opened AsyncSink
  import Grammar

  /** The results handed out, without the note whether anybody was still listening. */
  function Results(outbox: seq<Sent>): (rs: seq<(nat, Reply)>)
    ensures |rs| == |outbox|
  {
    seq(|outbox|, i requires 0 <= i < |outbox| => (outbox[i].caller, outbox[i].result))
  }

  predicate IsPush(r: Reply) { r.Ok? && r.value.Push? }

  /** A push that answers nothing. */
  predicate IsPlainPush(r: Reply) { IsPush(r) && !r.value.kind.HasReply() }

  class PipelineSink {
    var inFlight: seq<Entry>
    var error: Option<RedisError>
    var pushSender: bool

    // What leaves the sink.
    var outbox: seq<Sent>
    var refused: seq<Sent>
    var pushes: seq<Value>

    // Callers that have dropped their receiver.
    var closed: set<nat>

    // The history: requests put on the wire, and replies that were owed.
    ghost var sent: seq<Req>
    ghost var replies: seq<Value>

    ghost predicate Valid()
      reads this
    {
      && GoodReqs(sent) && DistinctCallers(sent) && |replies| <= Total(sent)
      && Progress(inFlight, Results(outbox)) == ProgressOf(sent, replies)
      && forall i | 0 <= i < |outbox| :: outbox[i].arrived || outbox[i].caller in closed
    }

    ghost function Past(): History
      reads this
    {
      History(sent, replies, closed)
    }

    constructor (pushSender: bool)
      ensures Valid() && sent == [] && replies == [] && inFlight == [] && outbox == []
      ensures closed == {} && error == None && this.pushSender == pushSender && pushes == [] && refused == []
    {
      inFlight, error, outbox, refused, pushes, closed := [], None, [], [], [], {};
      this.pushSender := pushSender;
      sent, replies := [], [];
    }

    /** A caller goes away: its future is dropped, before or after its request is sent. */
    method Cancel(caller: nat)
      requires Valid()
      modifies this`closed
      ensures Valid() && closed == old(closed) + {caller}
    {
      closed := closed + {caller};
    }

    /** Hands a result to a caller's channel. */
    method SendOutput(output: Option<nat>, response: Reply)
      modifies this`outbox
      ensures Results(outbox) == old(Results(outbox)) + if output.Some? then [(output.value, response)] else []
      ensures old(outbox) <= outbox
      ensures forall i | |old(outbox)| <= i < |outbox| :: outbox[i].arrived || outbox[i].caller in closed
    {
      if output.Some? {
        outbox := outbox + [Sent(output.value, response, output.value !in closed)];
      }
    }

    /** One result for the entry that was at the front; it goes back there unless it is complete. */
    method Aggregate(entry: Entry, result: Reply)
      requires entry.aggregate.Collecting? ==> entry.aggregate.expectation.seen + 1 < TWO_64
      modifies this`inFlight, this`outbox
      ensures old(outbox) <= outbox
      ensures forall i | |old(outbox)| <= i < |outbox| :: outbox[i].arrived || outbox[i].caller in closed
      ensures
        match if result.Ok? then Absorb(entry.aggregate, result.value) else AbsorbError(entry.aggregate, result.error)
        case Continue(a) => inFlight == [entry.(aggregate := a)] + old(inFlight) && outbox == old(outbox)
        case Complete(r) =>
          && inFlight == old(inFlight)
          && Results(outbox) == old(Results(outbox)) + if entry.output.Some? then [(entry.output.value, r)] else []
    {
      match entry.aggregate {
        case SingleCommand =>
          SendOutput(entry.output, result);
        case Collecting(buffer, found, x) =>
          var seen := x.seen + 1;
          if x.skipped > 0 {
            var found' := found;
            if x.isTransaction && found.Errors? {
              if result.Err? {
                found' := FirstError(result.error);
              } else if result.value.Error? {
                found' := Errors(found.errors + [(SubUsize(seen, 2), result.value.error)]);
              }
            }
            var x' := Expectation(x.skipped - 1, x.expected, x.isTransaction, seen);
            inFlight := [Entry(entry.output, Collecting(buffer, found', x'))] + inFlight;
            return;
          }
          var buffer', found' := buffer, found;
          if result.Ok? {
            buffer' := buffer + [result.value];
          } else if found.Errors? {
            found' := FirstError(result.error);
          }
          if |buffer'| < x.expected {
            var x' := Expectation(x.skipped, x.expected, x.isTransaction, seen);
            inFlight := [Entry(entry.output, Collecting(buffer', found', x'))] + inFlight;
            return;
          }
          var response: Reply;
          match found' {
            case Errors(errors) =>
              response := if errors == [] then Ok(Array(buffer')) else Err(TransactionAborted(errors));
            case FirstError(e) =>
              response := Err(e);
          }
          SendOutput(entry.output, response);
      }
    }

    /** Takes in one item of the reply stream. */
    method SendResult(result: Reply)
      requires Valid()
      modifies this`inFlight, this`outbox, this`pushes, this`replies
      ensures pushes == old(pushes) + if pushSender && IsPush(result) then [result.value] else []
      ensures old(outbox) <= outbox
      ensures IsPlainPush(result) || old(inFlight) == [] ==>
                inFlight == old(inFlight) && outbox == old(outbox) && replies == old(replies) && Valid()
      ensures result.Ok? && !IsPlainPush(result) && old(inFlight) != [] ==>
                replies == old(replies) + [result.value] && Valid()
      ensures result.Err? && old(inFlight) != [] ==>
                var front := old(inFlight)[0];
                match AbsorbError(front.aggregate, result.error)
                case Continue(a) =>
                  inFlight == [front.(aggregate := a)] + old(inFlight)[1..] && outbox == old(outbox)
                case Complete(r) =>
                  && inFlight == old(inFlight)[1..]
                  && Results(outbox) ==
                     old(Results(outbox)) + if front.output.Some? then [(front.output.value, r)] else []
    {
      hide Total, DistinctCallers, ProgressOf, Answer, Partial, GoodReqs, Absorb, AbsorbError;
      if IsPush(result) {
        if pushSender {
          pushes := pushes + [result.value];
        }
        if !result.value.kind.HasReply() {
          return;
        }
      }
      if |inFlight| == 0 {
        return;
      }
      EmptyQueue(sent, replies);
      FrontEntry(sent, replies);
      if result.Ok? {
        ReplyStep(sent, replies, result.value);
        replies := replies + [result.value];
      }
      var entry := inFlight[0];
      inFlight := inFlight[1..];
      Aggregate(entry, result);
    }

    /**
     Puts a request on the wire, unless its caller is already gone, the transport
     has failed before, or it fails now.
     */
    method StartSend(output: Option<nat>, shape: Shape, accepted: Result<(), RedisError>) returns (ok: bool)
      requires Valid() && GoodShape(shape)
      requires output.Some? ==> !HasCaller(sent, output.value)
      modifies this`inFlight, this`refused, this`error, this`sent
      ensures Valid()
      ensures
        if output.Some? && output.value in closed then
          ok && sent == old(sent) && inFlight == old(inFlight) && refused == old(refused) && error == old(error)
        else if old(error).None? && accepted.Ok? then
          ok && sent == old(sent) + [Req(output, shape)] && refused == old(refused) && error == None
        else
          var e := if old(error).Some? then old(error).value else accepted.error;
          && !ok && sent == old(sent) && inFlight == old(inFlight) && error == None
          && refused == old(refused) + if output.Some? then [Sent(output.value, Err(e), true)] else []
    {
      hide Total, DistinctCallers, ProgressOf, Answer;
      if output.Some? && output.value in closed {
        return true;
      }
      if error.Some? {
        if output.Some? {
          refused := refused + [Sent(output.value, Err(error.value), true)];
        }
        error := None;
        return false;
      }
      match accepted {
        case Ok(_) =>
          var r := Req(output, shape);
          SendStep(sent, replies, r);
          StaysDistinct(sent, r);
          inFlight := inFlight + [NewEntry(output, shape)];
          sent := sent + [r];
          return true;
        case Err(e) =>
          if output.Some? {
            refused := refused + [Sent(output.value, Err(e), true)];
          }
          return false;
      }
    }
  }

  /** A queue entry that has seen nothing yet. */
  function NewEntry(output: Option<nat>, shape: Shape): (e: Entry)
    requires GoodShape(shape)
    ensures e == Partial(Req(output, shape), [])
  {
    match shape
    case Single => Entry(output, SingleCommand)
    case Batch(skip, count, isTransaction) =>
      Entry(output, Collecting([], Errors([]), Expectation(skip, count, isTransaction, 0)))
  }

  /** While no transport error occurred the front entry has noted none. */
  lemma {:induction false} FrontEntry(sent: seq<Req>, replies: seq<Value>)
    requires GoodReqs(sent) && |replies| < Total(sent)
    ensures
      var p := ProgressOf(sent, replies);
      && p.queue != []
      && var a := p.queue[0].aggregate;
      a.Collecting? ==> a.found.Errors? && a.expectation.seen + 1 < TWO_64
  {
    hide Answer;
    var c := Count(sent[0].shape);
    if |replies| < c {
    } else {
      FrontEntry(sent[1..], replies[c..]);
    }
  }

  // --------------------------------------------------------------- whole runs

  /** What can happen to a sink whose transport works. */
  datatype Event = Send(output: Option<nat>, shape: Shape) | Cancelled(caller: nat) | Arrived(value: Value)

  datatype History = History(sent: seq<Req>, replies: seq<Value>, closed: set<nat>)

  function Extend(h: History, e: Event): History {
    match e
    case Send(output, shape) =>
      if output.Some? && output.value in h.closed then h else h.(sent := h.sent + [Req(output, shape)])
    case Cancelled(caller) => h.(closed := h.closed + {caller})
    case Arrived(v) =>
      if Solicited(v) && |h.replies| < Total(h.sent) then h.(replies := h.replies + [v]) else h
  }

  /** Requests sent, replies that answered them, and callers gone, after a run. */
  function HistoryOf(events: seq<Event>): History {
    if events == [] then History([], [], {})
    else Extend(HistoryOf(events[..|events| - 1]), events[|events| - 1])
  }

  /**
   The history of a run, read off its events: the callers gone are those cancelled; a request
   was sent unless its caller had been cancelled before; an arrival counts as a reply exactly
   if it is no unasked push and replies were owed.
   */
  lemma {:induction false} HistoryExact(events: seq<Event>, e: Event)
    ensures
      var h, next := HistoryOf(events), HistoryOf(events + [e]);
      && (forall c :: c in h.closed <==> Cancelled(c) in events)
      && next.sent ==
         (if e.Send? && (e.output.None? || Cancelled(e.output.value) !in events) then h.sent + [Req(e.output, e.shape)]
          else h.sent)
      && next.replies ==
         if e.Arrived? && (e.value.Push? ==> e.value.kind.HasReply()) && |h.replies| < Total(h.sent)
         then h.replies + [e.value] else h.replies
  {
    assert (events + [e])[..|events|] == events;
    ClosedExact(events);
  }

  lemma {:induction false} ClosedExact(events: seq<Event>)
    ensures forall c :: c in HistoryOf(events).closed <==> Cancelled(c) in events
  {
    hide Total;
    if events == [] {
    } else {
      var init, e := events[..|events| - 1], events[|events| - 1];
      ClosedExact(init);
      assert events == init + [e];
    }
  }

  /** Every request has the form the callers build, and a channel of its own. */
  predicate GoodRun(events: seq<Event>) {
    events == [] ||
    (&& GoodRun(events[..|events| - 1])
     && GoodEvent(HistoryOf(events[..|events| - 1]), events[|events| - 1]))
  }

  predicate GoodEvent(h: History, e: Event) {
    e.Send? ==> (GoodShape(e.shape) && (e.output.Some? ==> !HasCaller(h.sent, e.output.value)))
  }

  /** The queue and the results are what the history implies, and no listening caller was missed. */
  ghost predicate Settled(h: History, queue: seq<Entry>, outbox: seq<Sent>) {
    && GoodReqs(h.sent) && DistinctCallers(h.sent) && |h.replies| <= Total(h.sent)
    && Progress(queue, Results(outbox)) == ProgressOf(h.sent, h.replies)
    && forall i | 0 <= i < |outbox| :: outbox[i].arrived || outbox[i].caller in h.closed
  }

  /**
   After every run: the queue owes what was sent less what was received. A caller has
   its result exactly if its replies are all in; it is the meaning of its own slice,
   in send order, given once, and it arrived unless the caller had gone.
   */
  lemma {:induction false} LiveCallerServed(h: History, queue: seq<Entry>, outbox: seq<Sent>, j: nat)
    requires Settled(h, queue, outbox) && j < |h.sent| && h.sent[j].output.Some?
    ensures Owed(queue) == Total(h.sent) - |h.replies|
    ensures
      var caller, k, at := h.sent[j].output.value, Callers(h.sent, j), Offset(h.sent, j);
      if Answered(h.sent, h.replies, j) then
        && k < |outbox| && outbox[k].caller == caller
        && outbox[k].result == Answer(h.sent[j].shape, h.replies[at..at + Count(h.sent[j].shape)])
        && (caller !in h.closed ==> outbox[k].arrived)
        && forall i | 0 <= i < |outbox| && i != k :: outbox[i].caller != caller
      else forall i | 0 <= i < |outbox| :: outbox[i].caller != caller
  {
    hide ProgressOf, Answer, GoodReqs, DistinctCallers, Callers, HasCaller;
    OwedExact(h.sent, h.replies);
    CallerGetsItsSlice(h.sent, h.replies, j);
    AtMostOnce(h.sent, h.replies);
    forall i | 0 <= i < |outbox| ensures Results(outbox)[i] == (outbox[i].caller, outbox[i].result) {
    }
    if !Answered(h.sent, h.replies, j) {
      forall i | 0 <= i < |outbox| ensures outbox[i].caller != h.sent[j].output.value {
        NoResultEarly(h.sent, h.replies, j, i);
      }
    }
  }

  /**
   After every run of sends, cancellations, replies and interleaved pushes: the
   queue waits for exactly the replies not yet received, the results are exactly
   the answers to the requests whose replies are all in, and whoever has not gone
   away has received its own.
   */
  method RunAll(events: seq<Event>) returns (queue: seq<Entry>, outbox: seq<Sent>)
    requires GoodRun(events)
    ensures Settled(HistoryOf(events), queue, outbox)
  {
    hide Total, DistinctCallers, ProgressOf, GoodReqs, Results, HasCaller, Extend, GoodEvent;
    var sink := new PipelineSink(false);
    EmptyHistory();
    assert events[..0] == [];
    for i := 0 to |events|
      invariant fresh(sink) && sink.Valid() && sink.error == None && HistoryOf(events[..i]) == sink.Past()
    {
      RunPrefix(events, i);
      Happen(sink, events[i]);
    }
    assert events[..|events|] == events;
    return sink.inFlight, sink.outbox;
  }

  lemma {:induction false} EmptyHistory()
    ensures HistoryOf([]) == History([], [], {})
  {
  }

  /** One event happens to a sink. */
  method Happen(sink: PipelineSink, e: Event)
    requires sink.Valid() && sink.error == None && GoodEvent(sink.Past(), e)
    modifies sink
    ensures sink.Valid() && sink.error == None && sink.Past() == Extend(old(sink.Past()), e)
  {
    hide Total, DistinctCallers, ProgressOf, GoodReqs, Results, HasCaller;
    EmptyQueue(sink.sent, sink.replies);
    match e {
      case Send(output, shape) =>
        var _ := sink.StartSend(output, shape, Ok(()));
      case Cancelled(caller) =>
        sink.Cancel(caller);
      case Arrived(v) =>
        sink.SendResult(Ok(v));
    }
  }

  lemma {:induction false} RunPrefix(events: seq<Event>, i: nat)
    requires GoodRun(events) && i < |events|
    ensures HistoryOf(events[..i + 1]) == Extend(HistoryOf(events[..i]), events[i])
    ensures GoodEvent(HistoryOf(events[..i]), events[i])
    decreases |events|
  {
    hide Extend, GoodEvent;
    assert events[..i + 1][..i] == events[..i];
    if i == |events| - 1 {
      assert events[..i + 1] == events;
    } else {
      RunPrefix(events[..|events| - 1], i);
      assert events[..|events| - 1][..i] == events[..i];
    }
  }

  /** Two commands are sent, then a push of this kind arrives, and then a value. */
  function PushThenValue(push: Value, v: Value): seq<Event> {
    [Send(Some(0), Single), Send(Some(1), Single), Arrived(push), Arrived(v)]
  }

  lemma {:induction false} EventStep(events: seq<Event>, e: Event)
    requires GoodRun(events) && GoodEvent(HistoryOf(events), e)
    ensures GoodRun(events + [e]) && HistoryOf(events + [e]) == Extend(HistoryOf(events), e)
  {
    assert (events + [e])[..|events|] == events;
  }

  lemma {:induction false} PushThenValueHistory(push: Value, v: Value)
    requires push.Push? && !v.Push?
    ensures
      var h := HistoryOf(PushThenValue(push, v));
      && GoodRun(PushThenValue(push, v))
      && h.sent == [Req(Some(0), Single), Req(Some(1), Single)]
      && h.replies == if Solicited(push) then [push, v] else [v]
  {
    hide Solicited, HistoryOf, GoodRun;
    var none: seq<Event> := [];
    var a := none + [Send(Some(0), Single)];
    var b := a + [Send(Some(1), Single)];
    var c := b + [Arrived(push)];
    EmptyHistory();
    NoEvents();
    EventStep(none, Send(Some(0), Single));
    EventStep(a, Send(Some(1), Single));
    EventStep(b, Arrived(push));
    EventStep(c, Arrived(v));
    assert c + [Arrived(v)] == PushThenValue(push, v);
    TwoSingles();
    NoPushSolicited(v);
  }

  lemma {:induction false} NoEvents()
    ensures GoodRun([])
  {
  }

  lemma {:induction false} TwoSingles()
    ensures Total([Req(Some(0), Single), Req(Some(1), Single)]) == 2
  {
    var one, two := Req(Some(0), Single), Req(Some(1), Single);
    assert [one, two][1..] == [two] && [two][1..] == [];
  }

  lemma {:induction false} NoPushSolicited(v: Value)
    requires !v.Push?
    ensures Solicited(v)
  {
  }

  /**
   A push named "subscribe", "psubscribe", "ssubscribe", "unsubscribe", "punsubscribe" or
   "sunsubscribe" is the reply to the first of two commands waiting, and the value after it
   the reply to the second. A push of any other name is passed over: the first command gets
   the value, and the second still waits.
   */
  lemma {:induction false} ConfirmationIsReply(kind: PushKind, payload: seq<Value>, v: Value)
    requires !v.Push?
    ensures
      var push, name := Push(kind, payload), Grammar.NameText(kind);
      var h := HistoryOf(PushThenValue(push, v));
      && GoodRun(PushThenValue(push, v)) && GoodReqs(h.sent)
      && ProgressOf(h.sent, h.replies) ==
         if name.Some? && name.value in Grammar.CONFIRMATIONS then Progress([], [(0, Ok(push)), (1, Ok(v))])
         else Progress([Entry(Some(1), SingleCommand)], [(0, Ok(v))])
  {
    hide HistoryOf, GoodRun, PushThenValue, Grammar.NameText, Grammar.CONFIRMATIONS;
    var push := Push(kind, payload);
    Grammar.ConfirmationNames(kind);
    PushThenValueHistory(push, v);
    var first, second := Req(Some(0), Single), Req(Some(1), Single);
    assert [first, second][1..] == [second] && [second][1..] == [];
    assert [push, v][1..] == [v] && [v][1..] == [] && [push, v][..1] == [push] && [v][..1] == [v];
    assert ProgressOf([], []) == Progress([], []);
    assert ProgressOf([second], [v]) == Progress([], [(1, Ok(v))]);
    assert ProgressOf([second], []) == Progress([Entry(Some(1), SingleCommand)], []);
  }
}
