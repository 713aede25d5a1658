/**
 The blocking connection: one request at a time, read timeouts anywhere, and a
 debt counter for replies that were not waited for.

 The peer answers commands in order. `answers(t)` is its reply to the t-th
 command ever sent; what a read meets next (that reply, malformed bytes, a push, a
 timeout, or the end of the stream) is decided by a list of choices, so every schedule
 is covered. Waiting for a reply that no command asked for, or with no choice left,
 times out. After the end of the stream nothing can be sent or read. The decoder does
 not move past malformed bytes, so every later read meets them again.
 */
module SyncConnection {
  import opened Resp
  import opened Matching

  datatype Choice = Deliver | Garble | PushArrives(push: Value) | TimeOut | HangUp

  /**
   Commands sent and replies taken so far, whether the stream has ended, whether malformed
   bytes are next in it, and what the peer does next.
   */
  datatype Peer = Peer(sent: nat, received: nat, closed: bool, stuck: bool, choices: seq<Choice>)

  /** No reply will ever be read again. */
  predicate Broken(p: Peer) {
    p.closed || p.stuck
  }

  datatype Outcome = Got(message: Value) | Garbled | TimedOut | HungUp

  /** The failure a read reports. */
  function FailureOf(m: Outcome): RedisError
    requires !m.Got?
  {
    match m
    case Garbled => ParseFailure
    case TimedOut => Io
    case HungUp => ConnectionClosed
  }

  /** Replies are not pushes, and pushes are. */
  ghost predicate GoodPeer(answers: nat -> Value, choices: seq<Choice>) {
    && (forall t: nat :: !answers(t).Push?)
    && (forall i | 0 <= i < |choices| && choices[i].PushArrives? :: choices[i].push.Push?)
  }

  predicate NoPushes(choices: seq<Choice>) {
    forall i | 0 <= i < |choices| :: !choices[i].PushArrives?
  }

  /** `n` consecutive replies, from the one to command `first` on. */
  function Own(answers: nat -> Value, first: nat, n: nat): (rs: seq<Value>)
    ensures |rs| == n
  {
    seq(n, i requires 0 <= i < n => answers(first + i))
  }

  // ------------------------------------------------- the pipeline loop on messages

  /** What the pipeline loop has gathered. */
  datatype Gathered = Gathered(idx: nat, limit: nat, rv: seq<Value>, errors: seq<(int, ServerError)>)

  /** One message taken in; a push extends the loop by one. */
  function Take(g: Gathered, offset: nat, message: Value): (r: Gathered)
    requires g.idx < TWO_64
  {
    match message
    case Error(e) =>
      if g.idx < offset then g.(idx := g.idx + 1, errors := g.errors + [(SubUsize(g.idx, 1), e)])
      else g.(idx := g.idx + 1, rv := g.rv + [message])
    case Push(_, _) => g.(idx := g.idx + 1, limit := g.limit + 1)
    case _ => g.(idx := g.idx + 1, rv := if g.idx >= offset then g.rv + [message] else g.rv)
  }

  lemma {:induction false} TakeMoves(g: Gathered, offset: nat, message: Value)
    requires g.idx < TWO_64
    ensures Take(g, offset, message).idx == g.idx + 1
    ensures Take(g, offset, message).limit == g.limit + if message.Push? then 1 else 0
  {
  }

  lemma {:induction false} FailureIsNoAbort(m: Outcome)
    requires !m.Got?
    ensures !FailureOf(m).TransactionAborted?
  {
  }

  /** The loop over all messages it read, none of them a failure. */
  function Gather(messages: seq<Value>, offset: nat, count: nat): (g: Gathered)
    requires |messages| < TWO_64
    ensures g.idx == |messages|
  {
    if messages == [] then Gathered(0, offset + count, [], [])
    else Take(Gather(messages[..|messages| - 1], offset, count), offset, messages[|messages| - 1])
  }

  function Conclude(g: Gathered): Result<seq<Value>, RedisError> {
    if g.errors != [] then Err(TransactionAborted(g.errors)) else Ok(g.rv)
  }

  lemma {:induction false} GatherStep(messages: seq<Value>, v: Value, offset: nat, count: nat)
    requires |messages| + 1 < TWO_64
    ensures Gather(messages + [v], offset, count) == Take(Gather(messages, offset, count), offset, v)
    ensures Replies(messages + [v]) == if v.Push? then Replies(messages) else Replies(messages) + [v]
  {
    assert (messages + [v])[..|messages|] == messages;
  }

  predicate PushFree(messages: seq<Value>) {
    forall i | 0 <= i < |messages| :: !messages[i].Push?
  }

  /** What the loop gathers, message by message: errors among the first `offset`, replies after them. */
  lemma {:induction false} GatherExact(messages: seq<Value>, offset: nat, count: nat)
    requires |messages| < TWO_64
    ensures
      var g, k := Gather(messages, offset, count), if |messages| <= offset then |messages| else offset;
      g.errors == SkippedErrors(messages[..k]) && g.rv == Replies(messages[k..])
  {
    hide Gather, Select, SkippedErrors;
    if messages == [] {
      NothingGathered(offset, count);
      assert messages[..0] == [] && messages[0..] == [];
    } else {
      var last := |messages| - 1;
      var init, m := messages[..last], messages[last];
      GatherExact(init, offset, count);
      GatherStep(init, m, offset, count);
      assert init + [m] == messages;
      if last < offset {
        assert init[..last] == init && messages[..|messages|] == messages;
        assert init[last..] == [] && messages[|messages|..] == [];
        SkippedErrorsStep(init, m);
        assert SkippedErrors(init) + [] == SkippedErrors(init);
      } else {
        assert init[..offset] == messages[..offset];
        assert messages[offset..] == init[offset..] + [m];
        SelectStep(IsReply, init[offset..], m);
      }
    }
  }

  lemma {:induction false} NothingGathered(offset: nat, count: nat)
    ensures Gather([], offset, count) == Gathered(0, offset + count, [], [])
    ensures SkippedErrors([]) == [] && Replies([]) == []
  {
  }

  lemma {:induction false} RepliesLength(a: seq<Value>)
    ensures |Replies(a)| <= |a|
    ensures |Replies(a)| == |a| <==> PushFree(a)
    ensures PushFree(a) ==> Replies(a) == a
  {
    SelectLength(IsReply, a);
    assert AllKept(IsReply, a) <==> PushFree(a);
  }

  lemma {:induction false} OwnStep(answers: nat -> Value, first: nat, n: nat)
    ensures Own(answers, first, n + 1) == Own(answers, first, n) + [answers(first + n)]
  {
  }

  /** The loop has read exactly `messages`, whose replies are those to the commands from `first - swallowed` on. */
  ghost predicate Tracked(
    answers: nat -> Value, g: Gathered, messages: seq<Value>, offset: nat, count: nat, first: nat, swallowed: nat)
  {
    && |messages| < TWO_64 && g == Gather(messages, offset, count) && g.idx <= g.limit
    && |Replies(messages)| == offset + count - (g.limit - g.idx)
    && (Replies(messages) != [] ==> swallowed <= first)
    && (Replies(messages) != [] ==> Replies(messages) == Own(answers, first - swallowed, |Replies(messages)|))
  }

  lemma {:induction false} TrackedStep(
    answers: nat -> Value, g: Gathered, messages: seq<Value>, offset: nat, count: nat, first: nat, swallowed: nat,
    message: Value, swallowed': nat)
    requires Tracked(answers, g, messages, offset, count, first, swallowed)
    requires g.idx < g.limit && g.idx + 1 < TWO_64
    requires messages != [] ==> swallowed' == swallowed
    requires !message.Push? ==>
               swallowed' <= first + |Replies(messages)| && message == answers(first + |Replies(messages)| - swallowed')
    ensures Tracked(answers, Take(g, offset, message), messages + [message], offset, count, first, swallowed')
  {
    hide Gather, Select, Own;
    GatherStep(messages, message, offset, count);
    NoReplies();
    if !message.Push? {
      if Replies(messages) == [] {
        OwnStep(answers, first - swallowed', 0);
        OwnNone(answers, first - swallowed');
        assert [] + [message] == [message];
      } else {
        OwnStep(answers, first - swallowed', |Replies(messages)|);
      }
    }
  }

  lemma {:induction false} TrackedReplies(
    answers: nat -> Value, g: Gathered, messages: seq<Value>, offset: nat, count: nat, first: nat, swallowed: nat)
    requires Tracked(answers, g, messages, offset, count, first, swallowed)
    ensures |Replies(messages)| == offset + count - (g.limit - g.idx)
  {
  }

  lemma {:induction false} TrackedStart(answers: nat -> Value, offset: nat, count: nat, first: nat, swallowed: nat)
    ensures Tracked(answers, Gathered(0, offset + count, [], []), [], offset, count, first, swallowed)
  {
  }

  lemma {:induction false} NoReplies()
    ensures Replies([]) == []
  {
  }

  lemma {:induction false} OwnNone(answers: nat -> Value, first: nat)
    ensures Own(answers, first, 0) == []
  {
  }

  /** Every reported error is the reply to the command its index names. */
  ghost predicate GenuineErrors(answers: nat -> Value, first: nat, offset: nat, errors: seq<(int, ServerError)>) {
    forall k | 0 <= k < |errors| ::
      exists j | 0 <= j < offset && j < TWO_64 ::
        errors[k] == (SubUsize(j, 1), errors[k].1) && answers(first + j) == Error(errors[k].1)
  }

  lemma {:induction false} NoErrorsYet(answers: nat -> Value, first: nat, offset: nat)
    ensures GenuineErrors(answers, first, offset, [])
  {
  }

  lemma {:induction false} GenuineStep(
    answers: nat -> Value, first: nat, g: Gathered, offset: nat, message: Value)
    requires g.idx < TWO_64 && GenuineErrors(answers, first, offset, g.errors) && message == answers(first + g.idx)
    ensures GenuineErrors(answers, first, offset, Take(g, offset, message).errors)
  {
    if message.Error? && g.idx < offset {
      var errors := Take(g, offset, message).errors;
      forall k | 0 <= k < |errors|
        ensures exists j | 0 <= j < offset && j < TWO_64 ::
                  errors[k] == (SubUsize(j, 1), errors[k].1) && answers(first + j) == Error(errors[k].1)
      {
        if k < |g.errors| {
          assert errors[k] == g.errors[k];
        } else {
          assert errors[k] == (SubUsize(g.idx, 1), message.error) && answers(first + g.idx) == message;
        }
      }
    }
  }

  // -------------------------------------------------------- reading, step by step

  /** What the next read of the socket meets, and the peer after it. */
  function NextMessage(answers: nat -> Value, p: Peer): (Outcome, Peer) {
    if p.closed then (HungUp, p)
    else if p.stuck then (Garbled, p)
    else if p.choices == [] then (TimedOut, p)
    else
      var p' := p.(choices := p.choices[1..]);
      match p.choices[0]
      case TimeOut => (TimedOut, p')
      case HangUp => (HungUp, p'.(closed := true))
      case Garble => (Garbled, p'.(stuck := true))
      case PushArrives(push) => (Got(push), p')
      case Deliver =>
        if p.received == p.sent then (TimedOut, p') else (Got(answers(p.received)), p'.(received := p.received + 1))
  }

  /** The debt, the pushes taken for overdue replies, the replies given up on a broken stream, and the peer. */
  datatype Books = Books(debt: nat, paid: nat, lost: nat, peer: Peer)

  /** What a message that comes while in debt pays by mistake. */
  function Mispaid(m: Outcome): nat {
    if m.Got? && m.message.Push? then 1 else 0
  }

  /** The reply that a read on a broken stream gives up. */
  function GivenUp(m: Outcome): nat {
    if m.Garbled? || m.HungUp? then 1 else 0
  }

  function Send(b: Books, n: nat): Books {
    b.(peer := b.peer.(sent := b.peer.sent + n))
  }

  function Pay(b: Books, m: Outcome, p: Peer): Books
    requires b.debt > 0
  {
    Books(b.debt - 1, b.paid + Mispaid(m), b.lost + GivenUp(m), p)
  }

  /** The first message past the debt; a push or malformed bytes met on the way pay for a reply. */
  function NextPastDebt(answers: nat -> Value, b: Books): (r: (Outcome, Books))
    ensures |r.1.peer.choices| <= |b.peer.choices|
    ensures r.0.Got? ==> |r.1.peer.choices| < |b.peer.choices|
    decreases |b.peer.choices|, b.debt
  {
    var (m, p) := NextMessage(answers, b.peer);
    if m.TimedOut? then (m, b.(debt := b.debt + 1, peer := p))
    else if b.debt > 0 && !m.HungUp? then NextPastDebt(answers, Pay(b, m, p))
    else (m, b.(lost := b.lost + GivenUp(m), peer := p))
  }

  lemma {:induction false} DebtStep(answers: nat -> Value, b: Books)
    ensures
      var (m, p) := NextMessage(answers, b.peer);
      NextPastDebt(answers, b) ==
        if m.TimedOut? then (m, b.(debt := b.debt + 1, peer := p))
        else if b.debt > 0 && !m.HungUp? then NextPastDebt(answers, Pay(b, m, p))
        else (m, b.(lost := b.lost + GivenUp(m), peer := p))
  {
  }

  /** The reply a single command is given. */
  function NextReply(answers: nat -> Value, b: Books): (r: (Outcome, Books))
    ensures |r.1.peer.choices| <= |b.peer.choices|
    decreases |b.peer.choices|
  {
    var (m, b') := NextPastDebt(answers, b);
    if m.Got? && m.message.Push? then NextReply(answers, b') else (m, b')
  }

  /** The first failure stands. */
  function FirstFailure(failed: Option<RedisError>, m: Outcome): Option<RedisError> {
    if failed.None? && !m.Got? then Some(FailureOf(m)) else failed
  }

  lemma {:induction false} ReplyUnfolds(answers: nat -> Value, b: Books)
    ensures
      var (m, b') := NextPastDebt(answers, b);
      NextReply(answers, b) == if m.Got? && m.message.Push? then NextReply(answers, b') else (m, b')
  {
    hide NextPastDebt;
  }

  /** Everything a pipeline reads: what it gathers, and the first read that failed. */
  function NextReplies(answers: nat -> Value, b: Books, g: Gathered, offset: nat, failed: Option<RedisError>)
    : (r: (Gathered, Option<RedisError>, Books))
    requires g.limit + |b.peer.choices| < TWO_64
    ensures |r.2.peer.choices| <= |b.peer.choices|
    decreases |b.peer.choices|, g.limit - g.idx
  {
    if g.idx >= g.limit then (g, failed, b)
    else
      var (m, b') := NextPastDebt(answers, b);
      var g' := if m.Got? then Take(g, offset, m.message) else g.(idx := g.idx + 1);
      NextReplies(answers, b', g', offset, FirstFailure(failed, m))
  }

  lemma {:induction false} NextRepliesStep(
    answers: nat -> Value, b: Books, g: Gathered, offset: nat, failed: Option<RedisError>)
    requires g.limit + |b.peer.choices| < TWO_64 && g.idx < g.limit
    ensures
      var (m, b') := NextPastDebt(answers, b);
      var g' := if m.Got? then Take(g, offset, m.message) else g.(idx := g.idx + 1);
      && g'.limit + |b'.peer.choices| < TWO_64
      && NextReplies(answers, b, g, offset, failed) == NextReplies(answers, b', g', offset, FirstFailure(failed, m))
  {
    hide NextPastDebt;
  }

  lemma {:induction false} NextRepliesDone(
    answers: nat -> Value, b: Books, g: Gathered, offset: nat, failed: Option<RedisError>)
    requires g.limit + |b.peer.choices| < TWO_64 && g.idx >= g.limit
    ensures NextReplies(answers, b, g, offset, failed) == (g, failed, b)
  {
  }

  /**
   On a connection with pushes the naive law fails: a command times out, a push
   then arrives before its late reply, and the next command is given that reply.
   */
  lemma {:induction false} PushPaysTheDebt(answers: nat -> Value, push: Value)
    requires push.Push? && !answers(0).Push?
    ensures
      var start := Peer(1, 0, false, false, [TimeOut, PushArrives(push), Deliver]);
      var (first, b) := NextReply(answers, Books(0, 0, 0, start));
      && first == TimedOut && b.debt == 1 && b.paid == 0
      && NextReply(answers, Send(b, 1)) == (Got(answers(0)), Books(0, 1, 0, Peer(2, 1, false, false, [])))
  {
    var start := Peer(1, 0, false, false, [TimeOut, PushArrives(push), Deliver]);
    assert start.choices[1..] == [PushArrives(push), Deliver];
    var late := Peer(2, 0, false, false, [PushArrives(push), Deliver]);
    var next, end := Peer(2, 0, false, false, [Deliver]), Books(0, 1, 0, Peer(2, 1, false, false, []));
    assert late.choices[1..] == [Deliver] && [Deliver][1..] == [];
    assert NextMessage(answers, late) == (Got(push), next);
    assert NextMessage(answers, next) == (Got(answers(0)), end.peer);
    assert NextPastDebt(answers, Books(0, 1, 0, next)) == (Got(answers(0)), end);
    assert NextPastDebt(answers, Books(1, 0, 0, late)) == (Got(answers(0)), end);
  }

  /** Once a read of a pipeline has failed, no later one changes which failure is reported. */
  lemma {:induction false} FirstFailureStands(
    answers: nat -> Value, b: Books, g: Gathered, offset: nat, e: RedisError)
    requires g.limit + |b.peer.choices| < TWO_64
    ensures NextReplies(answers, b, g, offset, Some(e)).1 == Some(e)
    decreases |b.peer.choices|, g.limit - g.idx
  {
    hide NextPastDebt, NextReplies;
    if g.idx < g.limit {
      NextRepliesStep(answers, b, g, offset, Some(e));
      var (m, b') := NextPastDebt(answers, b);
      var g' := if m.Got? then Take(g, offset, m.message) else g.(idx := g.idx + 1);
      FirstFailureStands(answers, b', g', offset, e);
    } else {
      NextRepliesDone(answers, b, g, offset, Some(e));
    }
  }

  /** How the peer fails a read, and what the caller is told: a timeout is an I/O error. */
  predicate Reported(choice: Choice, e: RedisError) {
    || (choice == TimeOut && e == Io)
    || (choice == Garble && e == ParseFailure)
    || (choice == HangUp && e == ConnectionClosed)
  }

  /**
   A request without debt whose first read fails reports that very failure, be it a single
   command or a pipeline, whatever a pipeline reads afterwards.
   */
  lemma {:induction false} FailureReported(
    answers: nat -> Value, b: Books, g: Gathered, offset: nat, choice: Choice, later: seq<Choice>, e: RedisError)
    requires b.debt == 0 && !Broken(b.peer) && b.peer.choices == [choice] + later && Reported(choice, e)
    requires g.idx < g.limit && g.limit + |b.peer.choices| < TWO_64
    ensures var m := NextReply(answers, b).0; !m.Got? && FailureOf(m) == e
    ensures NextReplies(answers, b, g, offset, None).1 == Some(e)
  {
    hide NextReplies, NextReply;
    assert b.peer.choices[0] == choice && b.peer.choices[1..] == later;
    ReplyUnfolds(answers, b);
    NextRepliesStep(answers, b, g, offset, None);
    var (m, b') := NextPastDebt(answers, b);
    FirstFailureStands(answers, b', g.(idx := g.idx + 1), offset, e);
  }

  /** Malformed bytes pay the whole debt, however large, before the read fails: nothing was read. */
  lemma {:induction false} MalformedPaysTheDebt(answers: nat -> Value, b: Books)
    requires b.peer.stuck && !b.peer.closed
    ensures NextPastDebt(answers, b) == (Garbled, b.(debt := 0, lost := b.lost + b.debt + 1))
    decreases b.debt
  {
    if b.debt == 0 {
    } else {
      MalformedPaysTheDebt(answers, Pay(b, Garbled, b.peer));
    }
  }

  // ---------------------------------------------------------------- the connection

  class Connection {
    const answers: nat -> Value
    var messagesToSkip: nat
    var peer: Peer

    // Pushes that were taken for overdue replies.
    ghost var swallowed: nat

    // Replies given up because the stream ended or malformed bytes stood in the way.
    ghost var lost: nat

    ghost function Book(): Books
      reads this
    {
      Books(messagesToSkip, swallowed, lost, peer)
    }

    /** Replies outstanding beyond the debt: what the request in progress still has to read. */
    ghost function Pending(): int
      reads this
    {
      peer.sent - peer.received - messagesToSkip - swallowed - lost
    }

    ghost predicate Receiving()
      reads this
    {
      GoodPeer(answers, peer.choices) && peer.received <= peer.sent
    }

    /** Replies are given up exactly on a broken stream. */
    ghost predicate Valid()
      reads this
    {
      Receiving() && (lost > 0 <==> Broken(peer))
    }

    /** Between requests: the debt is exactly the replies outstanding, less those swallowed for and those lost. */
    ghost predicate Idle()
      reads this
    {
      Valid() && Pending() == 0
    }

    constructor (answers: nat -> Value, choices: seq<Choice>)
      requires GoodPeer(answers, choices)
      ensures Idle() && Book() == Books(0, 0, 0, Peer(0, 0, false, false, choices)) && this.answers == answers
    {
      this.answers := answers;
      messagesToSkip, peer, swallowed, lost := 0, Peer(0, 0, false, false, choices), 0, 0;
    }

    /** One message from the socket. */
    method ParseValue() returns (r: Outcome)
      requires Receiving()
      modifies this`peer
      ensures Receiving() && peer.sent == old(peer.sent)
      ensures NoPushes(old(peer.choices)) ==> NoPushes(peer.choices) && (r.Got? ==> !r.message.Push?)
      ensures |peer.choices| <= |old(peer.choices)| && (r.Got? ==> |peer.choices| < |old(peer.choices)|)
      ensures (r.HungUp? || r.Garbled? <==> Broken(peer)) && (r.HungUp? <==> peer.closed)
      ensures old(Broken(peer)) ==> peer == old(peer)
      ensures !r.Got? || r.message.Push? ==> peer.received == old(peer.received)
      ensures r.Got? && !r.message.Push? ==>
                peer.received == old(peer.received) + 1 && r.message == answers(peer.received - 1)
      ensures (r, peer) == NextMessage(answers, old(peer))
    {
      if peer.closed {
        return HungUp;
      }
      if peer.stuck {
        return Garbled;
      }
      if |peer.choices| == 0 {
        return TimedOut;
      }
      var choice := peer.choices[0];
      peer := peer.(choices := peer.choices[1..]);
      match choice {
        case TimeOut =>
          return TimedOut;
        case HangUp =>
          peer := peer.(closed := true);
          return HungUp;
        case Garble =>
          peer := peer.(stuck := true);
          return Garbled;
        case PushArrives(push) =>
          return Got(push);
        case Deliver =>
          if peer.received == peer.sent {
            return TimedOut;
          }
          peer := peer.(received := peer.received + 1);
          return Got(answers(peer.received - 1));
      }
    }

    /** Reads past overdue messages to the next one; a timeout adds to the debt, a broken stream does not. */
    method Read() returns (r: Outcome)
      requires Valid()
      modifies this`peer, this`messagesToSkip, this`swallowed, this`lost
      ensures Valid() && peer.sent == old(peer.sent) && |peer.choices| <= |old(peer.choices)|
      ensures r.Got? ==> |peer.choices| < |old(peer.choices)|
      ensures NoPushes(old(peer.choices)) ==>
                NoPushes(peer.choices) && swallowed == old(swallowed) && (r.Got? ==> !r.message.Push?)
      ensures swallowed >= old(swallowed) && (old(messagesToSkip) == 0 ==> swallowed == old(swallowed))
      ensures (r.HungUp? || r.Garbled? <==> Broken(peer)) && (r.HungUp? <==> peer.closed)
      ensures old(Broken(peer)) ==> peer == old(peer)
      ensures Pending() == old(Pending()) - if r.Got? && r.message.Push? then 0 else 1
      ensures r.Got? ==> messagesToSkip == 0
      ensures r.Got? && !r.message.Push? ==> peer.received >= 1 && r.message == answers(peer.received - 1)
      ensures (r, Book()) == NextPastDebt(answers, old(Book()))
    {
      hide NextPastDebt, NextMessage, GoodPeer, NoPushes, Broken;
      while true
        invariant Valid() && peer.sent == old(peer.sent) && |peer.choices| <= |old(peer.choices)|
        invariant NoPushes(old(peer.choices)) ==> NoPushes(peer.choices) && swallowed == old(swallowed)
        invariant swallowed >= old(swallowed) && (old(Broken(peer)) ==> peer == old(peer))
        invariant old(messagesToSkip) == 0 ==> swallowed == old(swallowed) && messagesToSkip == 0
        invariant Pending() == old(Pending())
        invariant NextPastDebt(answers, Book()) == NextPastDebt(answers, old(Book()))
        decreases |peer.choices|, messagesToSkip
      {
        DebtStep(answers, Book());
        r := ParseValue();
        if r.Got? || r.Garbled? {
          if messagesToSkip > 0 {
            messagesToSkip := messagesToSkip - 1;
            swallowed, lost := swallowed + Mispaid(r), lost + GivenUp(r);
          } else {
            lost := lost + GivenUp(r);
            return;
          }
        } else {
          if r.TimedOut? {
            messagesToSkip := messagesToSkip + 1;
          } else {
            lost := lost + GivenUp(r);
          }
          return;
        }
      }
    }

    /**
     A single command. Whatever fails and whatever pushes arrive, the debt is right
     again afterwards, and a reply that is returned answers the command sent
     `swallowed` commands before the last one: this very command if no push was
     ever taken for an overdue reply.
     */
    method ReqCommand() returns (r: Result<Value, RedisError>)
      requires Idle()
      modifies this`peer, this`messagesToSkip, this`swallowed, this`lost
      ensures Idle()
      ensures old(peer.closed) ==> r == Err(Io) && Book() == old(Book())
      ensures !old(peer.closed) ==>
                && peer.sent == old(peer.sent) + 1
                && var (m, b) := NextReply(answers, Send(old(Book()), 1));
                r == (if m.Got? then Ok(m.message) else Err(FailureOf(m))) && Book() == b
      ensures r.Ok? ==> !Broken(peer) && swallowed < peer.sent && r.value == answers(peer.sent - 1 - swallowed)
      ensures old(Broken(peer)) ==> r.Err? && Broken(peer)
      ensures |peer.choices| <= |old(peer.choices)|
      ensures NoPushes(old(peer.choices)) ==> NoPushes(peer.choices) && swallowed == old(swallowed)
    {
      hide NextPastDebt, NextMessage, GoodPeer, NoPushes, NextReply;
      if peer.closed {
        return Err(Io);
      }
      peer := peer.(sent := peer.sent + 1);
      while true
        invariant Valid() && !peer.closed && Pending() == 1 && peer.sent == old(peer.sent) + 1
        invariant old(peer.stuck) ==> peer.stuck
        invariant |peer.choices| <= |old(peer.choices)|
        invariant NextReply(answers, Book()) == NextReply(answers, Send(old(Book()), 1))
        invariant NoPushes(old(peer.choices)) ==> NoPushes(peer.choices) && swallowed == old(swallowed)
        decreases |peer.choices|
      {
        ReplyUnfolds(answers, Book());
        var m := Read();
        if !m.Got? {
          return Err(FailureOf(m));
        }
        if !m.message.Push? {
          return Ok(m.message);
        }
      }
    }

    /** The pipeline's loop: reads until its own replies are in, one round per message or failure. */
    method ReadReplies(offset: nat, count: nat)
      returns (g: Gathered, failed: Option<RedisError>, ghost messages: seq<Value>)
      requires Valid() && !peer.closed && Pending() == offset + count && offset + count <= peer.sent
      requires offset + count + |peer.choices| < TWO_64
      modifies this`peer, this`messagesToSkip, this`swallowed, this`lost
      ensures Idle() && peer.sent == old(peer.sent) && |peer.choices| <= |old(peer.choices)| && |messages| < TWO_64
      ensures NoPushes(old(peer.choices)) ==>
                NoPushes(peer.choices) && swallowed == old(swallowed) && Replies(messages) == messages
      ensures (g, failed, Book()) ==
              NextReplies(answers, old(Book()), Gathered(0, offset + count, [], []), offset, None)
      ensures failed.Some? ==> !failed.value.TransactionAborted?
      ensures old(Broken(peer)) && offset + count > 0 ==> failed.Some? && Broken(peer)
      ensures failed.None? ==>
                g.idx == g.limit && Tracked(answers, g, messages, offset, count, peer.sent - offset - count, swallowed)
      ensures NoPushes(old(peer.choices)) && old(swallowed) == 0 ==>
                GenuineErrors(answers, peer.sent - offset - count, offset, g.errors)
    {
      hide Gather, Select, Own, NoPushes, GenuineErrors, NextPastDebt, GoodPeer, NextReplies, Tracked, Take, FailureOf;
      hide Broken;
      ghost var first := peer.sent - offset - count;
      g, failed, messages := Gathered(0, offset + count, [], []), None, [];
      NoReplies();
      TrackedStart(answers, offset, count, first, swallowed);
      NoErrorsYet(answers, first, offset);
      while g.idx < g.limit
        invariant Valid() && Pending() == g.limit - g.idx && peer.sent == old(peer.sent)
        invariant old(Broken(peer)) ==> Broken(peer) && (g.idx > 0 ==> failed.Some?)
        invariant g.limit + |peer.choices| <= offset + count + |old(peer.choices)|
        invariant g.idx <= g.limit && offset + count <= g.limit
        invariant NoPushes(old(peer.choices)) ==>
                    NoPushes(peer.choices) && swallowed == old(swallowed) && Replies(messages) == messages
        invariant |messages| <= g.idx && (failed.Some? ==> !failed.value.TransactionAborted?)
        invariant NextReplies(answers, Book(), g, offset, failed) ==
                  NextReplies(answers, old(Book()), Gathered(0, offset + count, [], []), offset, None)
        invariant messages != [] && failed.None? ==> messagesToSkip == 0
        invariant failed.None? ==> Tracked(answers, g, messages, offset, count, first, swallowed)
        invariant NoPushes(old(peer.choices)) && old(swallowed) == 0 ==>
                    g.limit == offset + count && GenuineErrors(answers, first, offset, g.errors)
        decreases |peer.choices|, g.limit - g.idx
      {
        ghost var before := swallowed;
        NextRepliesStep(answers, Book(), g, offset, failed);
        var m := Read();
        if m.Got? {
          GatherStep(messages, m.message, offset, count);
          TakeMoves(g, offset, m.message);
          if failed.None? {
            TrackedReplies(answers, g, messages, offset, count, first, before);
            TrackedStep(answers, g, messages, offset, count, first, before, m.message, swallowed);
          }
          if NoPushes(old(peer.choices)) && old(swallowed) == 0 {
            GenuineStep(answers, first, g, offset, m.message);
          }
          g := Take(g, offset, m.message);
          messages := messages + [m.message];
        } else {
          FailureIsNoAbort(m);
          failed := FirstFailure(failed, m);
          g := g.(idx := g.idx + 1);
        }
      }
      NextRepliesDone(answers, Book(), g, offset, failed);
    }

    /**
     A pipeline of `offset + count` commands. The debt is right again afterwards.
     `messages` is what the loop read; if no read failed the result is what the loop
     makes of it, and its replies are the pipeline's own (again up to swallowed
     pushes). If a read failed the result is an error.
     */
    method ReqPackedCommands(offset: nat, count: nat)
      returns (r: Result<seq<Value>, RedisError>, ghost messages: seq<Value>, ghost failure: bool)
      requires Idle() && offset + count + |peer.choices| < TWO_64
      modifies this`peer, this`messagesToSkip, this`swallowed, this`lost
      ensures Idle() && |messages| < TWO_64 && |peer.choices| <= |old(peer.choices)|
      ensures NoPushes(old(peer.choices)) ==>
                NoPushes(peer.choices) && swallowed == old(swallowed) && Replies(messages) == messages
      ensures offset + count == 0 ==> r == Err(EmptyCommand) && Book() == old(Book())
      ensures offset + count > 0 && old(peer.closed) ==> r == Err(Io) && Book() == old(Book())
      ensures !old(peer.closed) ==> peer.sent == old(peer.sent) + offset + count
      ensures offset + count > 0 && !old(peer.closed) && !failure ==>
                && r == Conclude(Gather(messages, offset, count)) && swallowed <= old(peer.sent)
                && Replies(messages) == Own(answers, old(peer.sent) - swallowed, offset + count)
      ensures failure || old(Broken(peer)) ==> r.Err?
      ensures old(Broken(peer)) ==> Broken(peer)
      ensures offset + count > 0 && !old(peer.closed) ==>
                var start := Gathered(0, offset + count, [], []);
                var (g, failed, b) := NextReplies(answers, Send(old(Book()), offset + count), start, offset, None);
                && Book() == b && failure == failed.Some?
                && r == if failed.Some? && g.errors == [] then Err(failed.value) else Conclude(g)
      ensures NoPushes(old(peer.choices)) && old(swallowed) == 0 && r.Err? && r.error.TransactionAborted? ==>
                GenuineErrors(answers, old(peer.sent), offset, r.error.errors)
    {
      hide Gather, Select, Own, NoPushes, GenuineErrors, NextPastDebt, GoodPeer, NextReplies;
      messages, failure := [], false;
      NoReplies();
      if offset + count == 0 {
        return Err(EmptyCommand), [], false;
      }
      if peer.closed {
        return Err(Io), [], false;
      }
      peer := peer.(sent := peer.sent + offset + count);
      var g, failed;
      g, failed, messages := ReadReplies(offset, count);
      failure := failed.Some?;
      if g.errors != [] {
        r := Err(TransactionAborted(g.errors));
      } else {
        r := if failed.Some? then Err(failed.value) else Ok(g.rv);
      }
    }
  }

  // ---------------------------------------------------------------- whole sessions

  /** One request: a single command, or a pipeline that skips some replies and keeps others. */
  datatype Call = One | Many(offset: nat, count: nat)

  function Commands(c: Call): nat {
    match c
    case One => 1
    case Many(offset, count) => offset + count
  }

  /** The number of commands sent by the first `i` calls. */
  function FirstOf(calls: seq<Call>, i: nat): nat
    requires i <= |calls|
  {
    if i == 0 then 0 else FirstOf(calls, i - 1) + Commands(calls[i - 1])
  }

  lemma {:induction false} FirstStart(calls: seq<Call>)
    ensures FirstOf(calls, 0) == 0
  {
  }

  lemma {:induction false} FirstStep(calls: seq<Call>, i: nat)
    requires i < |calls|
    ensures FirstOf(calls, i + 1) == FirstOf(calls, i) + Commands(calls[i])
  {
  }

  // ----------------------------------------------- what the schedule alone decides

  /** The books after one call. */
  function AfterCall(answers: nat -> Value, b: Books, c: Call): (r: Books)
    requires Commands(c) + |b.peer.choices| < TWO_64
    ensures |r.peer.choices| <= |b.peer.choices|
  {
    if b.peer.closed || Commands(c) == 0 then b
    else if c.One? then NextReply(answers, Send(b, 1)).1
    else
      var start := Gathered(0, c.offset + c.count, [], []);
      NextReplies(answers, Send(b, c.offset + c.count), start, c.offset, None).2
  }

  /** Every call fits the machine, however many messages it meets. */
  predicate FitCalls(choices: seq<Choice>, calls: seq<Call>) {
    forall i | 0 <= i < |calls| :: Commands(calls[i]) + |choices| < TWO_64
  }

  function AfterCalls(answers: nat -> Value, choices: seq<Choice>, calls: seq<Call>, i: nat): (r: Books)
    requires i <= |calls| && FitCalls(choices, calls)
    ensures |r.peer.choices| <= |choices|
  {
    if i == 0 then Books(0, 0, 0, Peer(0, 0, false, false, choices))
    else AfterCall(answers, AfterCalls(answers, choices, calls, i - 1), calls[i - 1])
  }

  /** The number of pushes that the first `i` calls met while in debt. */
  function PushesInDebt(answers: nat -> Value, choices: seq<Choice>, calls: seq<Call>, i: nat): nat
    requires i <= |calls| && FitCalls(choices, calls)
  {
    AfterCalls(answers, choices, calls, i).paid
  }

  lemma {:induction false} AfterNone(answers: nat -> Value, choices: seq<Choice>, calls: seq<Call>)
    requires FitCalls(choices, calls)
    ensures AfterCalls(answers, choices, calls, 0) == Books(0, 0, 0, Peer(0, 0, false, false, choices))
  {
  }

  lemma {:induction false} AfterOneMore(answers: nat -> Value, choices: seq<Choice>, calls: seq<Call>, i: nat)
    requires i < |calls| && FitCalls(choices, calls)
    ensures AfterCalls(answers, choices, calls, i + 1) ==
            AfterCall(answers, AfterCalls(answers, choices, calls, i), calls[i])
  {
  }

  /** What is mispaid stays mispaid. */
  lemma {:induction false} DebtReadGrows(answers: nat -> Value, b: Books)
    ensures NextPastDebt(answers, b).1.paid >= b.paid
    decreases |b.peer.choices|, b.debt
  {
    var (m, p) := NextMessage(answers, b.peer);
    if m.TimedOut? || m.HungUp? || b.debt == 0 {
    } else {
      DebtReadGrows(answers, Pay(b, m, p));
    }
  }

  lemma {:induction false} ReplyGrows(answers: nat -> Value, b: Books)
    ensures NextReply(answers, b).1.paid >= b.paid
    decreases |b.peer.choices|
  {
    hide NextPastDebt;
    DebtReadGrows(answers, b);
    var (m, b') := NextPastDebt(answers, b);
    if !m.Got? || !m.message.Push? {
    } else {
      ReplyGrows(answers, b');
    }
  }

  lemma {:induction false} RepliesGrow(
    answers: nat -> Value, b: Books, g: Gathered, offset: nat, failed: Option<RedisError>)
    requires g.limit + |b.peer.choices| < TWO_64
    ensures NextReplies(answers, b, g, offset, failed).2.paid >= b.paid
    decreases |b.peer.choices|, g.limit - g.idx
  {
    hide NextPastDebt, NextReplies;
    if g.idx < g.limit {
      DebtReadGrows(answers, b);
      NextRepliesStep(answers, b, g, offset, failed);
      var (m, b') := NextPastDebt(answers, b);
      var g' := if m.Got? then Take(g, offset, m.message) else g.(idx := g.idx + 1);
      RepliesGrow(answers, b', g', offset, FirstFailure(failed, m));
    } else {
      NextRepliesDone(answers, b, g, offset, failed);
    }
  }

  lemma {:induction false} PaidGrows(answers: nat -> Value, choices: seq<Choice>, calls: seq<Call>, i: nat, k: nat)
    requires i <= k <= |calls| && FitCalls(choices, calls)
    ensures PushesInDebt(answers, choices, calls, i) <= PushesInDebt(answers, choices, calls, k)
    decreases k - i
  {
    hide AfterCalls, NextReply, NextReplies, FitCalls;
    if i == k {
    } else {
      PaidGrows(answers, choices, calls, i, k - 1);
      AfterOneMore(answers, choices, calls, k - 1);
      var b, c := AfterCalls(answers, choices, calls, k - 1), calls[k - 1];
      CallGrows(answers, choices, calls, b, k - 1);
    }
  }

  lemma {:induction false} CallGrows(answers: nat -> Value, choices: seq<Choice>, calls: seq<Call>, b: Books, i: nat)
    requires i < |calls| && FitCalls(choices, calls) && |b.peer.choices| <= |choices|
    ensures AfterCall(answers, b, calls[i]).paid >= b.paid
  {
    hide NextReply, NextReplies;
    var c := calls[i];
    if c.One? {
      ReplyGrows(answers, Send(b, 1));
    } else {
      RepliesGrow(answers, Send(b, c.offset + c.count), Gathered(0, c.offset + c.count, [], []), c.offset, None);
    }
  }

  // ------------------------------------------------------------------ the theorem

  /** A successful result is made of the replies to this very call, and of nothing else. */
  ghost predicate OwnResult(answers: nat -> Value, first: nat, c: Call, r: Result<seq<Value>, RedisError>) {
    r.Ok? ==>
      match c
      case One => r.value == [answers(first)]
      case Many(offset, count) =>
        && offset + count > 0 && r.value == Own(answers, first + offset, count)
        && ErrorFree(Own(answers, first, offset))
  }

  predicate ErrorFree(vs: seq<Value>) {
    forall i | 0 <= i < |vs| :: !vs[i].Error?
  }

  /**
   A successful result is made of the replies to the commands sent `paid` places
   earlier; a pipeline's is what its loop makes of the messages it read.
   */
  ghost predicate Shifted(
    answers: nat -> Value, first: nat, paid: nat, c: Call, r: Result<seq<Value>, RedisError>, messages: seq<Value>)
  {
    r.Ok? ==>
      && paid <= first
      && match c
         case One => r.value == [answers(first - paid)]
         case Many(offset, count) =>
           && offset + count > 0 && |messages| < TWO_64 && r == Conclude(Gather(messages, offset, count))
           && Replies(messages) == Own(answers, first - paid, offset + count)
  }

  /** Whether the stream ended, or malformed bytes stood in the way, during the first `i` calls. */
  predicate BrokenAfter(answers: nat -> Value, choices: seq<Choice>, calls: seq<Call>, i: nat)
    requires i <= |calls| && FitCalls(choices, calls)
  {
    Broken(AfterCalls(answers, choices, calls, i).peer)
  }

  /**
   Over every session of single and pipelined requests, with timeouts and pushes
   anywhere, and the stream ending or turning malformed at any point: the debt is the
   number of replies outstanding if and only if no push was met while in debt and the
   stream is not broken; every successful result consists of the replies to the commands
   that many places earlier, so to this very request if there was no such push; on a
   broken stream nothing succeeds. `met` is what the pipelines read.
   */
  method Session(answers: nat -> Value, choices: seq<Choice>, calls: seq<Call>)
    returns (
      results: seq<Result<seq<Value>, RedisError>>, debt: nat, outstanding: nat, ghost met: seq<seq<Value>>)
    requires GoodPeer(answers, choices) && FitCalls(choices, calls)
    ensures |results| == |calls| == |met|
    ensures debt <= outstanding
    ensures debt == outstanding <==>
            PushesInDebt(answers, choices, calls, |calls|) == 0 && !BrokenAfter(answers, choices, calls, |calls|)
    ensures forall i | 0 <= i < |calls| :: BrokenAfter(answers, choices, calls, i) ==> results[i].Err?
    ensures forall i | 0 <= i < |calls| ::
              var paid := PushesInDebt(answers, choices, calls, i + 1);
              Shifted(answers, FirstOf(calls, i), paid, calls[i], results[i], met[i])
    ensures NoPushes(choices) ==>
              && PushesInDebt(answers, choices, calls, |calls|) == 0
              && forall i | 0 <= i < |calls| :: OwnResult(answers, FirstOf(calls, i), calls[i], results[i])
  {
    hide OwnResult, NoPushes, GoodPeer, FirstOf, Shifted, AfterCalls, AfterCall, FitCalls;
    FirstStart(calls);
    AfterNone(answers, choices, calls);
    var con := new Connection(answers, choices);
    results, met := [], [];
    var i := 0;
    while i < |calls|
      invariant 0 <= i <= |calls| && fresh(con) && con.answers == answers && con.Idle()
      invariant con.Book() == AfterCalls(answers, choices, calls, i)
      invariant (con.peer.closed || con.peer.sent == FirstOf(calls, i)) && |results| == i == |met|
      invariant forall k | 0 <= k < i ::
                  var paid := PushesInDebt(answers, choices, calls, k + 1);
                  Shifted(answers, FirstOf(calls, k), paid, calls[k], results[k], met[k])
      invariant forall k | 0 <= k < i :: BrokenAfter(answers, choices, calls, k) ==> results[k].Err?
      invariant NoPushes(choices) ==> NoPushes(con.peer.choices) && con.swallowed == 0
      invariant NoPushes(choices) ==>
                  forall k | 0 <= k < i :: OwnResult(answers, FirstOf(calls, k), calls[k], results[k])
    {
      FirstStep(calls, i);
      AfterOneMore(answers, choices, calls, i);
      CallFits(choices, calls, i, con.peer.choices);
      var r;
      ghost var messages;
      r, messages := Perform(con, calls[i], FirstOf(calls, i));
      results, met := results + [r], met + [messages];
      i := i + 1;
    }
    debt, outstanding := con.messagesToSkip, con.peer.sent - con.peer.received;
  }

  lemma {:induction false} CallFits(choices: seq<Choice>, calls: seq<Call>, i: nat, left: seq<Choice>)
    requires i < |calls| && FitCalls(choices, calls) && |left| <= |choices|
    ensures Commands(calls[i]) + |left| < TWO_64
  {
  }

  /** One request of a session. */
  method Perform(con: Connection, c: Call, ghost first: nat)
    returns (r: Result<seq<Value>, RedisError>, ghost messages: seq<Value>)
    requires con.Idle() && Commands(c) + |con.peer.choices| < TWO_64 && (con.peer.closed || con.peer.sent == first)
    modifies con
    ensures con.Idle() && (con.peer.closed || con.peer.sent == first + Commands(c))
    ensures con.Book() == AfterCall(con.answers, old(con.Book()), c)
    ensures Shifted(con.answers, first, con.swallowed, c, r, messages)
    ensures old(Broken(con.peer)) ==> r.Err?
    ensures NoPushes(old(con.peer.choices)) && old(con.swallowed) == 0 ==>
              NoPushes(con.peer.choices) && con.swallowed == 0 && OwnResult(con.answers, first, c, r)
  {
    hide OwnResult, Shifted, NoPushes, Gather, Own, Conclude, GoodPeer, GenuineErrors, Replies, NextReply, NextReplies;
    match c {
      case One =>
        var v := con.ReqCommand();
        r, messages := if v.Ok? then Ok([v.value]) else Err(v.error), [];
        ShiftedOne(con.answers, first, con.swallowed, r);
        if con.swallowed == 0 {
          OwnSingle(con.answers, first, r);
        }
      case Many(offset, count) =>
        ghost var failure;
        r, messages, failure := con.ReqPackedCommands(offset, count);
        ShiftedMany(con.answers, first, con.swallowed, offset, count, r, messages);
        if NoPushes(old(con.peer.choices)) && con.swallowed == 0 {
          OwnMany(con.answers, first, offset, count, r, messages);
        }
    }
  }

  lemma {:induction false} ShiftedOne(answers: nat -> Value, first: nat, paid: nat, r: Result<seq<Value>, RedisError>)
    requires r.Ok? ==> paid <= first && r.value == [answers(first - paid)]
    ensures Shifted(answers, first, paid, One, r, [])
  {
  }

  lemma {:induction false} ShiftedMany(
    answers: nat -> Value, first: nat, paid: nat, offset: nat, count: nat, r: Result<seq<Value>, RedisError>,
    messages: seq<Value>)
    requires |messages| < TWO_64
    requires r.Ok? ==>
               && offset + count > 0 && paid <= first && r == Conclude(Gather(messages, offset, count))
               && Replies(messages) == Own(answers, first - paid, offset + count)
    ensures Shifted(answers, first, paid, Many(offset, count), r, messages)
  {
    hide Gather, Select, Own;
  }

  lemma {:induction false} OwnSingle(answers: nat -> Value, first: nat, r: Result<seq<Value>, RedisError>)
    requires r.Ok? ==> r.value == [answers(first)]
    ensures OwnResult(answers, first, One, r)
  {
  }

  lemma {:induction false} OwnMany(
    answers: nat -> Value, first: nat, offset: nat, count: nat, r: Result<seq<Value>, RedisError>,
    messages: seq<Value>)
    requires |messages| < TWO_64 && Replies(messages) == messages
    requires r.Ok? ==>
               && offset + count > 0 && r == Conclude(Gather(messages, offset, count))
               && Replies(messages) == Own(answers, first, offset + count)
    ensures OwnResult(answers, first, Many(offset, count), r)
  {
    hide Gather, Select, SkippedErrors;
    if r.Ok? {
      GatherExact(messages, offset, count);
      RepliesLength(messages);
      RepliesLength(messages[offset..]);
      assert PushFree(messages[offset..]);
      NoErrors(messages[..offset]);
      assert r.value == messages[offset..] == Own(answers, first + offset, count);
      assert messages[..offset] == Own(answers, first, offset);
    }
  }

  ghost predicate DistinctAnswers(answers: nat -> Value) {
    forall i: nat, j: nat | i != j :: answers(i) != answers(j)
  }

  /** A request that skips no replies: a single command or a plain pipeline. */
  predicate Plain(c: Call) {
    c.One? || c.offset == 0
  }

  /** What a plain request returns, pushes or not. */
  lemma {:induction false} PlainResult(
    answers: nat -> Value, first: nat, paid: nat, c: Call, r: Result<seq<Value>, RedisError>, messages: seq<Value>)
    requires Plain(c) && r.Ok? && Shifted(answers, first, paid, c, r, messages)
    ensures paid <= first && Commands(c) > 0 && r.value == Own(answers, first - paid, Commands(c))
    ensures OwnResult(answers, first, c, r) <==> r.value == Own(answers, first, Commands(c))
  {
    hide Gather, Select;
    if c.Many? {
      GatherExact(messages, 0, c.count);
      assert messages[0..] == messages;
    } else {
      assert Own(answers, first, 1) == [answers(first)] && Own(answers, first - paid, 1) == [answers(first - paid)];
    }
  }

  /**
   If the server never gives the same answer twice, a single command or plain pipeline
   that succeeds is given its own replies if and only if no push was met while in debt,
   up to and including this request; after the first such push every later one is wrong.
   */
  lemma {:induction false} OwnReplyExactly(
    answers: nat -> Value, choices: seq<Choice>, calls: seq<Call>, i: nat, k: nat,
    r: Result<seq<Value>, RedisError>, messages: seq<Value>)
    requires DistinctAnswers(answers) && FitCalls(choices, calls) && i <= k < |calls| && Plain(calls[k]) && r.Ok?
    requires Shifted(answers, FirstOf(calls, k), PushesInDebt(answers, choices, calls, k + 1), calls[k], r, messages)
    ensures OwnResult(answers, FirstOf(calls, k), calls[k], r) <==> PushesInDebt(answers, choices, calls, k + 1) == 0
    ensures PushesInDebt(answers, choices, calls, i) > 0 ==> !OwnResult(answers, FirstOf(calls, k), calls[k], r)
  {
    hide AfterCalls, FirstOf, FitCalls, OwnResult, Shifted;
    PaidGrows(answers, choices, calls, i, k + 1);
    var first, paid, n := FirstOf(calls, k), PushesInDebt(answers, choices, calls, k + 1), Commands(calls[k]);
    PlainResult(answers, first, paid, calls[k], r, messages);
    assert Own(answers, first, n)[0] == answers(first) && Own(answers, first - paid, n)[0] == answers(first - paid);
  }
}
