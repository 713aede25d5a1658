/**
 Leaving the subscribed state: UNSUBSCRIBE and PUNSUBSCRIBE are sent together and
 their replies drained, among whatever the server still publishes. After the messages
 that arrive the socket falls silent, ends, or holds malformed bytes, which the decoder
 does not move past.
 */
module Drain {
  import opened Resp
  import opened Text
  import opened Wire
  import opened Command
  import opened Pipelines
  import Sync = SyncConnection

  // --------------------------------------------------------------- conversions

  /** UTF-8 validation, and the casts of a floating-point number to an integer and to a byte. */
  datatype Foreign = Foreign(utf8: bytes -> bool, truncate: bytes -> int, truncateByte: bytes -> byte)

  /** A reply without the attributes around it. */
  function Inner(v: Value): Value {
    if v.Attribute? then v.inner else v
  }

  function ToInteger(fo: Foreign, v: Value): Option<int> {
    match Inner(v)
    case Int(n) => Some(n)
    case SimpleString(text) => ParseI64(text)
    case BulkString(data) => if fo.utf8(data) then ParseI64(data) else None
    case Double(digits) => Some(fo.truncate(digits))
    case _ => None
  }

  /** Rust's `str::parse::<u8>`: no minus sign, not even in front of zero. */
  function ParseU8(s: bytes): Option<byte> {
    var n := if s != [] && s[0] == MINUS then None else ParseI64(s);
    if n.Some? && 0 <= n.value < 256 then Some(n.value as byte) else None
  }

  function ToByte(fo: Foreign, v: Value): Option<byte> {
    match Inner(v)
    case Int(n) => Some((n % 256) as byte)
    case SimpleString(text) => ParseU8(text)
    case BulkString(data) => if fo.utf8(data) then ParseU8(data) else None
    case Double(digits) => Some(fo.truncateByte(digits))
    case _ => None
  }

  function AllToBytes(fo: Foreign, vs: seq<Value>): Option<bytes> {
    if vs == [] then Some([])
    else
      var first, others := ToByte(fo, vs[0]), AllToBytes(fo, vs[1..]);
      if first.None? || others.None? then None else Some([first.value] + others.value)
  }

  function ToBytes(fo: Foreign, v: Value): Option<bytes> {
    match v
    case BulkString(data) => Some(data)
    case Array(items) => AllToBytes(fo, items)
    case Set(members) => AllToBytes(fo, members)
    case Map(pairs) => if pairs == [] then Some([]) else None
    case Nil => Some([])
    case _ => None
  }

  /** The kind and the count of an array reply, if it has three elements that convert. */
  function Tuple(fo: Foreign, items: seq<Value>): Option<(bytes, int)> {
    if |items| != 3 || items[1].Error? then None
    else
      var kind, num := ToBytes(fo, items[0]), ToInteger(fo, items[2]);
      if kind.None? || num.None? then None else Some((kind.value, num.value))
  }

  // -------------------------------------------------------------- one reply's effect

  /** The two flags of the drain loop, and whether to leave it. */
  datatype Effect = Seen(unsub: bool, punsub: bool, cleared: bool) | Fatal(error: RedisError)

  function Resp2Cleared(unsub: bool, punsub: bool, kind: bytes, num: int): Effect {
    var u := unsub || (kind != [] && kind[0] == 'u' as byte);
    var p := punsub || (kind != [] && kind[0] == 'p' as byte);
    Seen(u, p, u && p && num == 0)
  }

  function Resp3Cleared(unsub: bool, punsub: bool, kind: PushKind, num: int): Effect {
    var u, p := unsub || kind.Unsubscribe?, punsub || kind.PUnsubscribe?;
    Seen(u, p, u && p && num == 0)
  }

  function NoSubCleared(unsub: bool, punsub: bool, e: ServerError): Effect {
    var u := unsub || (e.detail.Some? && Ascii("'unsub") <= e.detail.value);
    var p := punsub || (e.detail.Some? && Ascii("'punsub") <= e.detail.value);
    Seen(u, p, u && p)
  }

  function Handle(fo: Foreign, unsub: bool, punsub: bool, v: Value): Effect {
    match v
    case Push(kind, payload) =>
      if |payload| >= 2 && payload[1].Int? then Resp3Cleared(unsub, punsub, kind, payload[1].n)
      else Seen(unsub, punsub, false)
    case Error(e) =>
      if e.Known? && e.kind == NoSub then NoSubCleared(unsub, punsub, e) else Fatal(Server(e))
    case Array(items) =>
      (match Tuple(fo, items)
       case None => Fatal(ParseFailure)
       case Some(t) => Resp2Cleared(unsub, punsub, t.0, t.1))
    case _ => Fatal(Client)
  }

  // ---------------------------------------------------------------------- the loop

  /** How a drain ends: cleared or failed with `rest` unread, or out of messages with some still overdue. */
  datatype End = Cleared(rest: seq<Value>) | Failed(error: RedisError, rest: seq<Value>) | Waiting(overdue: nat)

  /** What the loop makes of a message stream. */
  function Drained(fo: Foreign, unsub: bool, punsub: bool, s: seq<Value>): End
    decreases s
  {
    if s == [] then Waiting(0)
    else
      match Handle(fo, unsub, punsub, s[0])
      case Fatal(e) => Failed(e, s[1..])
      case Seen(u, p, cleared) => if cleared then Cleared(s[1..]) else Drained(fo, u, p, s[1..])
  }

  /** With `debt` overdue messages in front. */
  function DrainedFrom(fo: Foreign, unsub: bool, punsub: bool, debt: nat, s: seq<Value>): End {
    if debt <= |s| then Drained(fo, unsub, punsub, s[debt..]) else Waiting(debt - |s|)
  }

  function DrainedPastDebt(fo: Foreign, debt: nat, s: seq<Value>): End {
    DrainedFrom(fo, false, false, debt, s)
  }

  /** What the socket holds after the messages. */
  datatype Outlook = Silence | EndOfStream | Malformed

  /** How a read fails when the messages are used up with `debt` still overdue, and the debt it leaves. */
  function Exhausted(outlook: Outlook, debt: nat): (RedisError, nat) {
    match outlook
    case Silence => (Io, debt + 1)
    case EndOfStream => (ConnectionClosed, debt)
    case Malformed => (ParseFailure, 0)
  }

  /** What is left of the messages after `n` of them. */
  function Past(s: seq<Value>, n: nat): seq<Value> {
    if n <= |s| then s[n..] else []
  }

  lemma {:induction false} PastNone(s: seq<Value>)
    ensures Past(s, 0) == s
  {
  }

  lemma {:induction false} PastStep(s: seq<Value>, n: nat)
    ensures
      if Past(s, n) == [] then n >= |s| && Past(s, n + 1) == []
      else n < |s| && Past(s, n)[0] == s[n] && Past(s, n)[1..] == Past(s, n + 1) == s[n + 1..]
  {
  }

  class PubSubConnection {
    var inbox: seq<Value>
    const outlook: Outlook
    var sent: seq<bytes>
    var messagesToSkip: nat
    var pubsub: bool

    /** Sends a command, if the transport takes it. */
    method SendBytes(input: bytes, accepted: bool) returns (r: Result<(), RedisError>)
      modifies this`sent
      ensures r == (if accepted then Ok(()) else Err(Io)) && sent == old(sent) + if accepted then [input] else []
    {
      if !accepted {
        return Err(Io);
      }
      sent := sent + [input];
      r := Ok(());
    }

    /**
     The next message past the overdue ones. When none is left a timeout adds to the debt,
     the end of the stream does not, and malformed bytes pay for all that is overdue.
     */
    method RecvResponse() returns (r: Result<Value, RedisError>)
      modifies this`inbox, this`messagesToSkip
      ensures
        var debt, was := old(messagesToSkip), old(inbox);
        if debt < |was| then r == Ok(was[debt]) && inbox == was[debt + 1..] && messagesToSkip == 0
        else
          var (e, left) := Exhausted(outlook, debt - |was|);
          r == Err(e) && inbox == [] && messagesToSkip == left
    {
      hide Past;
      PastNone(inbox);
      while true
        invariant messagesToSkip <= old(messagesToSkip)
        invariant inbox == Past(old(inbox), old(messagesToSkip) - messagesToSkip)
        invariant old(messagesToSkip) - messagesToSkip > |old(inbox)| ==> outlook.Malformed?
        decreases |inbox|, messagesToSkip
      {
        PastStep(old(inbox), old(messagesToSkip) - messagesToSkip);
        if inbox != [] {
          r := Ok(inbox[0]);
          inbox := inbox[1..];
        } else if outlook.Malformed? {
          r := Err(ParseFailure);
        } else {
          if outlook.Silence? {
            messagesToSkip := messagesToSkip + 1;
          }
          return Err(if outlook.Silence? then Io else ConnectionClosed);
        }
        if messagesToSkip == 0 {
          return;
        }
        messagesToSkip := messagesToSkip - 1;
      }
    }

    /**
     Sends both commands and reads until both are known to be answered in full; overdue
     messages are passed over first, and running out of messages fails as a read does.
     */
    method ClearActiveSubscriptions(fo: Foreign, acceptsFirst: bool, acceptsSecond: bool)
      returns (r: Result<(), RedisError>)
      modifies this`inbox, this`sent, this`messagesToSkip
      ensures
        var unsubscribe, punsubscribe := Encode(Named("UNSUBSCRIBE")), Encode(Named("PUNSUBSCRIBE"));
        sent == old(sent) +
          (if !acceptsFirst then [] else if !acceptsSecond then [unsubscribe] else [unsubscribe, punsubscribe])
      ensures !acceptsFirst || !acceptsSecond ==>
                r == Err(Io) && inbox == old(inbox) && messagesToSkip == old(messagesToSkip)
      ensures acceptsFirst && acceptsSecond ==>
                match DrainedPastDebt(fo, old(messagesToSkip), old(inbox))
                case Cleared(rest) => r == Ok(()) && inbox == rest && messagesToSkip == 0
                case Failed(e, rest) => r == Err(e) && inbox == rest && messagesToSkip == 0
                case Waiting(debt) =>
                  var (e, left) := Exhausted(outlook, debt);
                  r == Err(e) && inbox == [] && messagesToSkip == left
    {
      hide Handle, Encode, Valid, Args, Named;
      var cmd := CmdNamed("UNSUBSCRIBE");
      NamedIs("UNSUBSCRIBE", cmd);
      var unsubscribe := GetPackedCommand(cmd);
      HasArgs(cmd);
      cmd := CmdNamed("PUNSUBSCRIBE");
      NamedIs("PUNSUBSCRIBE", cmd);
      var punsubscribe := GetPackedCommand(cmd);
      HasArgs(cmd);
      r := SendBytes(unsubscribe, acceptsFirst);
      if r.Err? {
        return;
      }
      r := SendBytes(punsubscribe, acceptsSecond);
      if r.Err? {
        return;
      }
      var receivedUnsub, receivedPunsub := false, false;
      while true
        invariant sent == old(sent) + [unsubscribe] + [punsubscribe]
        invariant DrainedFrom(fo, receivedUnsub, receivedPunsub, messagesToSkip, inbox) ==
                  DrainedPastDebt(fo, old(messagesToSkip), old(inbox))
        decreases |inbox|
      {
        var resp := RecvResponse();
        if resp.Err? {
          return Err(resp.error);
        }
        match Handle(fo, receivedUnsub, receivedPunsub, resp.value) {
          case Fatal(e) =>
            return Err(e);
          case Seen(u, p, cleared) =>
            receivedUnsub, receivedPunsub := u, p;
            if cleared {
              return Ok(());
            }
        }
      }
    }

    /** The connection leaves the subscribed state exactly if the drain succeeds. */
    method ExitPubsub(fo: Foreign, acceptsFirst: bool, acceptsSecond: bool) returns (r: Result<(), RedisError>)
      modifies this
      ensures pubsub <==> r.Err?
      ensures r.Ok? <==>
              acceptsFirst && acceptsSecond && DrainedPastDebt(fo, old(messagesToSkip), old(inbox)).Cleared?
      ensures r.Ok? ==> inbox == DrainedPastDebt(fo, old(messagesToSkip), old(inbox)).rest && messagesToSkip == 0
    {
      hide Drained, Encode, Named;
      r := ClearActiveSubscriptions(fo, acceptsFirst, acceptsSecond);
      pubsub := r.Err?;
    }
  }

  lemma {:induction false} HasArgs(c: Stored)
    requires Valid(c) && |Args(c)| > 0
    ensures c.args != []
  {
  }

  // -------------------------------------------------------------- the server's part

  datatype Protocol = Resp2 | Resp3

  /** One confirmation: which command, which name if any, and how many subscriptions remain. */
  function Confirmation(pr: Protocol, pattern: bool, name: Value, remaining: nat): Value {
    if pr == Resp2 then
      Array([BulkString(if pattern then Ascii("punsubscribe") else Ascii("unsubscribe")), name, Int(remaining)])
    else Push(if pattern then PUnsubscribe else Unsubscribe, [name, Int(remaining)])
  }

  /** One confirmation per name, counting down to the `others` that stay. */
  function Countdown(pr: Protocol, pattern: bool, names: seq<bytes>, others: nat): seq<Value> {
    if names == [] then []
    else
      [Confirmation(pr, pattern, BulkString(names[0]), |names| - 1 + others)]
      + Countdown(pr, pattern, names[1..], others)
  }

  /** The error newer servers send outside the subscribed state. */
  function NotSubscribed(pattern: bool, wording: bytes): Value {
    Error(Known(NoSub, Some((if pattern then Ascii("'punsub") else Ascii("'unsub")) + wording)))
  }

  function CommandReplies(pr: Protocol, noSub: Option<bytes>, pattern: bool, names: seq<bytes>, others: nat)
    : seq<Value>
  {
    if names != [] then Countdown(pr, pattern, names, others)
    else if noSub.Some? && others == 0 then [NotSubscribed(pattern, noSub.value)]
    else [Confirmation(pr, pattern, Nil, others)]
  }

  /** Everything the server answers to the two commands. */
  function Answers(pr: Protocol, noSub: Option<bytes>, channels: seq<bytes>, patterns: seq<bytes>): seq<Value> {
    CommandReplies(pr, noSub, false, channels, |patterns|) + CommandReplies(pr, noSub, true, patterns, 0)
  }

  /** Messages that count as an answer to one of the two commands. */
  predicate IsAnswer(fo: Foreign, v: Value) {
    match v
    case Push(kind, payload) => |payload| >= 2 && payload[1].Int? && (kind.Unsubscribe? || kind.PUnsubscribe?)
    case Array(items) =>
      var t := Tuple(fo, items);
      t.Some? && t.value.0 != [] && (t.value.0[0] == 'u' as byte || t.value.0[0] == 'p' as byte)
    case Error(e) => NamesCommand(e)
    case _ => false
  }

  predicate NamesCommand(e: ServerError) {
    && e.Known? && e.kind == NoSub && e.detail.Some?
    && (Ascii("'unsub") <= e.detail.value || Ascii("'punsub") <= e.detail.value)
  }

  /** Other messages that do no harm: on a count of zero they do if both commands have been answered. */
  predicate Noise(fo: Foreign, unsub: bool, punsub: bool, v: Value) {
    && !IsAnswer(fo, v)
    && match v
       case Push(_, payload) => !(|payload| >= 2 && payload[1] == Int(0) && unsub && punsub)
       case Array(items) =>
         var t := Tuple(fo, items);
         t.Some? && !(t.value.1 == 0 && unsub && punsub)
       case Error(e) => e.Known? && e.kind == NoSub && !(unsub && punsub)
       case _ => false
  }

  /** The messages that are not noise when they arrive; what follows the end of the drain is left as it is. */
  function Skim(fo: Foreign, unsub: bool, punsub: bool, s: seq<Value>): seq<Value>
    decreases s
  {
    if s == [] then []
    else if Noise(fo, unsub, punsub, s[0]) then Skim(fo, unsub, punsub, s[1..])
    else
      match Handle(fo, unsub, punsub, s[0])
      case Fatal(_) => s
      case Seen(u, p, cleared) => [s[0]] + if cleared then s[1..] else Skim(fo, u, p, s[1..])
  }

  // ------------------------------------------------------------------- the theorem

  lemma {:induction false} ConfirmationEffect(
      fo: Foreign, pr: Protocol, u: bool, p: bool, pattern: bool, name: Value, n: nat)
    requires name.BulkString? || name.Nil?
    ensures
      var u', p' := u || !pattern, p || pattern;
      Handle(fo, u, p, Confirmation(pr, pattern, name, n)) == Seen(u', p', u' && p' && n == 0)
  {
  }

  /** While no PUNSUBSCRIBE reply was seen, confirmations of UNSUBSCRIBE never end the drain. */
  lemma {:induction false} ChannelsDrain(
      fo: Foreign, pr: Protocol, u: bool, names: seq<bytes>, others: nat, rest: seq<Value>)
    ensures Drained(fo, u, false, Countdown(pr, false, names, others) + rest) ==
            Drained(fo, u || names != [], false, rest)
    decreases names
  {
    hide Handle, Confirmation;
    var s := Countdown(pr, false, names, others) + rest;
    if names == [] {
      assert s == rest;
    } else {
      assert s[0] == Confirmation(pr, false, BulkString(names[0]), |names| - 1 + others);
      assert s[1..] == Countdown(pr, false, names[1..], others) + rest;
      ConfirmationEffect(fo, pr, u, false, false, BulkString(names[0]), |names| - 1 + others);
      ChannelsDrain(fo, pr, true, names[1..], others, rest);
    }
  }

  /** The countdown of the patterns ends the drain on its last confirmation. */
  lemma {:induction false} PatternsDrain(fo: Foreign, pr: Protocol, p: bool, names: seq<bytes>)
    requires names != []
    ensures Drained(fo, true, p, Countdown(pr, true, names, 0)) == Cleared([])
    decreases names
  {
    hide Handle, Confirmation;
    var s := Countdown(pr, true, names, 0);
    ConfirmationEffect(fo, pr, true, p, true, BulkString(names[0]), |names| - 1);
    assert s[0] == Confirmation(pr, true, BulkString(names[0]), |names| - 1);
    assert s[1..] == Countdown(pr, true, names[1..], 0);
    if |names| == 1 {
    } else {
      PatternsDrain(fo, pr, true, names[1..]);
    }
  }

  /** Without names there is one reply, and it counts like the last confirmation. */
  lemma {:induction false} SoleReply(
      fo: Foreign, pr: Protocol, noSub: Option<bytes>, pattern: bool, others: nat)
    requires pattern ==> others == 0
    ensures
      var s := CommandReplies(pr, noSub, pattern, [], others);
      |s| == 1 && Handle(fo, pattern, false, s[0]) == Seen(true, pattern, pattern)
  {
    if noSub.Some? && others == 0 {
      var detail := (if pattern then Ascii("'punsub") else Ascii("'unsub")) + noSub.value;
      assert detail[1] == if pattern then 'p' as byte else 'u' as byte;
      assert Ascii("'punsub")[1] == 'p' as byte && Ascii("'unsub")[1] == 'u' as byte;
    }
  }

  lemma {:induction false} AnswersDrain(
      fo: Foreign,
      pr: Protocol, noSub: Option<bytes>, channels: seq<bytes>, patterns: seq<bytes>)
    ensures Drained(fo, false, false, Answers(pr, noSub, channels, patterns)) == Cleared([])
  {
    hide Handle, Countdown;
    var first := CommandReplies(pr, noSub, false, channels, |patterns|);
    var second := CommandReplies(pr, noSub, true, patterns, 0);
    assert Drained(fo, false, false, first + second) == Drained(fo, true, false, second) by {
      if channels != [] {
        ChannelsDrain(fo, pr, false, channels, |patterns|, second);
      } else {
        assert (first + second)[0] == first[0] && (first + second)[1..] == second;
        SoleReply(fo, pr, noSub, false, |patterns|);
      }
    }
    if patterns != [] {
      PatternsDrain(fo, pr, false, patterns);
    } else {
      SoleReply(fo, pr, noSub, true, 0);
    }
  }

  /** Noise is exactly what is no answer and leaves the loop as it was, in the state it is in. */
  lemma {:induction false} NoiseIsIgnored(fo: Foreign, u: bool, p: bool, v: Value)
    ensures Noise(fo, u, p, v) <==> !IsAnswer(fo, v) && Handle(fo, u, p, v) == Seen(u, p, false)
  {
    hide Tuple;
  }

  /** A drain that the skimmed stream ends on its last message, the whole stream ends on its last one too. */
  lemma {:induction false} NoiseDoesNotMatter(fo: Foreign, u: bool, p: bool, s: seq<Value>, tail: seq<Value>)
    requires Drained(fo, u, p, Skim(fo, u, p, s)) == Cleared([])
    ensures Drained(fo, u, p, s + tail) == Cleared(tail)
    decreases s
  {
    hide Handle, Noise;
    if s == [] {
    } else {
      assert (s + tail)[0] == s[0] && (s + tail)[1..] == s[1..] + tail;
      var e := Handle(fo, u, p, s[0]);
      if Noise(fo, u, p, s[0]) {
        NoiseIsIgnored(fo, u, p, s[0]);
        NoiseDoesNotMatter(fo, u, p, s[1..], tail);
      } else if e.Seen? {
        var rest := if e.cleared then s[1..] else Skim(fo, e.unsub, e.punsub, s[1..]);
        assert ([s[0]] + rest)[1..] == rest;
        if !e.cleared {
          NoiseDoesNotMatter(fo, e.unsub, e.punsub, s[1..], tail);
        }
      }
    }
  }

  /** A verdict does not depend on what comes later. */
  lemma {:induction false} VerdictStands(fo: Foreign, u: bool, p: bool, s: seq<Value>, more: seq<Value>)
    ensures
      match Drained(fo, u, p, s)
      case Cleared(rest) => Drained(fo, u, p, s + more) == Cleared(rest + more)
      case Failed(e, rest) => Drained(fo, u, p, s + more) == Failed(e, rest + more)
      case Waiting(debt) => debt == 0
    decreases s
  {
    hide Handle;
    if s == [] {
    } else {
      assert (s + more)[0] == s[0] && (s + more)[1..] == s[1..] + more;
      var e := Handle(fo, u, p, s[0]);
      if e.Seen? && !e.cleared {
        VerdictStands(fo, e.unsub, e.punsub, s[1..], more);
      }
    }
  }

  /**
   For every set of channels and patterns, on both protocols, with or without the
   newer error replies, with noise anywhere in between and overdue messages in front:
   the drain reads exactly up to the last answer, leaves everything after it, and after
   any shorter part of the stream it is still waiting.
   */
  lemma {:induction false} DrainIsExact(
      fo: Foreign, pr: Protocol, noSub: Option<bytes>, channels: seq<bytes>, patterns: seq<bytes>,
      overdue: seq<Value>, s: seq<Value>, tail: seq<Value>, k: nat)
    requires Skim(fo, false, false, s) == Answers(pr, noSub, channels, patterns) && k < |s|
    ensures DrainedPastDebt(fo, |overdue|, overdue + s + tail) == Cleared(tail)
    ensures DrainedPastDebt(fo, |overdue|, overdue + s[..k]) == Waiting(0)
  {
    hide Handle, Noise, Skim, Answers, Drained;
    AnswersDrain(fo, pr, noSub, channels, patterns);
    NoiseDoesNotMatter(fo, false, false, s, tail);
    NoiseDoesNotMatter(fo, false, false, s, []);
    VerdictStands(fo, false, false, s[..k], s[k..]);
    assert s[..k] + s[k..] == s && s + [] == s;
    assert (overdue + s + tail)[|overdue|..] == s + tail && (overdue + s[..k])[|overdue|..] == s[..k];
  }

  /** No answer is noise, so a stream without noise is one of those above. */
  lemma {:induction false} AnswersAreNotNoise(
      fo: Foreign, pr: Protocol, noSub: Option<bytes>, channels: seq<bytes>, patterns: seq<bytes>)
    ensures
      var s := Answers(pr, noSub, channels, patterns);
      Skim(fo, false, false, s) == s && s != []
  {
    hide IsAnswer;
    var a, b := CommandReplies(pr, noSub, false, channels, |patterns|), CommandReplies(pr, noSub, true, patterns, 0);
    RepliesAreAnswers(fo, pr, noSub, false, channels, |patterns|);
    RepliesAreAnswers(fo, pr, noSub, true, patterns, 0);
    NothingToSkim(fo, false, false, a + b);
  }

  lemma {:induction false} RepliesAreAnswers(
      fo: Foreign, pr: Protocol, noSub: Option<bytes>, pattern: bool, names: seq<bytes>, others: nat)
    ensures
      var s := CommandReplies(pr, noSub, pattern, names, others);
      s != [] && forall i | 0 <= i < |s| :: IsAnswer(fo, s[i])
  {
    hide IsAnswer;
    if names != [] {
      CountdownAnswers(fo, pr, pattern, names, others);
    } else if noSub.Some? && others == 0 {
      ErrorAnswers(fo, pattern, noSub.value);
    } else {
      ConfirmationAnswers(fo, pr, pattern, Nil, others);
    }
  }

  lemma {:induction false} ConfirmationAnswers(fo: Foreign, pr: Protocol, pattern: bool, name: Value, n: nat)
    requires name.BulkString? || name.Nil?
    ensures IsAnswer(fo, Confirmation(pr, pattern, name, n))
  {
  }

  lemma {:induction false} ErrorAnswers(fo: Foreign, pattern: bool, wording: bytes)
    ensures IsAnswer(fo, NotSubscribed(pattern, wording))
  {
  }

  lemma {:induction false} CountdownAnswers(fo: Foreign, pr: Protocol, pattern: bool, names: seq<bytes>, others: nat)
    ensures
      var s := Countdown(pr, pattern, names, others);
      |s| == |names| && forall i | 0 <= i < |s| :: IsAnswer(fo, s[i])
    decreases names
  {
    hide IsAnswer, Confirmation;
    if names == [] {
    } else {
      ConfirmationAnswers(fo, pr, pattern, BulkString(names[0]), |names| - 1 + others);
      CountdownAnswers(fo, pr, pattern, names[1..], others);
    }
  }

  lemma {:induction false} NothingToSkim(fo: Foreign, u: bool, p: bool, s: seq<Value>)
    requires forall i | 0 <= i < |s| :: IsAnswer(fo, s[i])
    ensures Skim(fo, u, p, s) == s
    decreases s
  {
    hide IsAnswer, Handle;
    if s == [] {
    } else {
      var e := Handle(fo, u, p, s[0]);
      if e.Seen? && !e.cleared {
        NothingToSkim(fo, e.unsub, e.punsub, s[1..]);
      }
    }
  }

  // --------------------------------------------------------- exactly which streams

  /** The messages that count as answers, whatever stands between them. */
  function Only(fo: Foreign, s: seq<Value>): seq<Value> {
    if s == [] then [] else (if IsAnswer(fo, s[0]) then [s[0]] else []) + Only(fo, s[1..])
  }

  /** Ends with an answer. */
  predicate EndsInAnswer(fo: Foreign, s: seq<Value>) {
    s != [] && IsAnswer(fo, s[|s| - 1])
  }

  /** What is no answer leaves both flags alone: it fails the drain, ends it, or is noise. */
  lemma {:induction false} OthersKeepFlags(fo: Foreign, u: bool, p: bool, v: Value)
    requires !IsAnswer(fo, v)
    ensures
      var e := Handle(fo, u, p, v);
      e.Seen? ==> e.unsub == u && e.punsub == p && (!e.cleared ==> Noise(fo, u, p, v))
  {
    hide Tuple;
  }

  /** A drain that is cleared has read something. */
  lemma {:induction false} ClearingReads(fo: Foreign, u: bool, p: bool, s: seq<Value>)
    ensures Drained(fo, u, p, s).Cleared? ==> |Drained(fo, u, p, s).rest| < |s|
    decreases s
  {
    hide Handle;
    if s == [] {
    } else {
      var e := Handle(fo, u, p, s[0]);
      if e.Seen? && !e.cleared {
        ClearingReads(fo, e.unsub, e.punsub, s[1..]);
      }
    }
  }

  /** If the drain reads up to the last answer, everything else before it was noise when it came. */
  lemma {:induction false} ClearedMeansSkimmed(fo: Foreign, u: bool, p: bool, s: seq<Value>, tail: seq<Value>)
    requires EndsInAnswer(fo, s) && Drained(fo, u, p, s + tail) == Cleared(tail)
    ensures Skim(fo, u, p, s) == Only(fo, s)
    decreases s
  {
    hide Handle, Noise, IsAnswer;
    assert (s + tail)[0] == s[0] && (s + tail)[1..] == s[1..] + tail;
    var e := Handle(fo, u, p, s[0]);
    NoiseIsIgnored(fo, u, p, s[0]);
    if !IsAnswer(fo, s[0]) {
      OthersKeepFlags(fo, u, p, s[0]);
    }
    if e.cleared {
      assert |s[1..] + tail| == |tail|;
      OnlyLast(fo, s);
    } else {
      ClearingReads(fo, e.unsub, e.punsub, s[1..] + tail);
      assert s[1..] != [] && s[1..][|s| - 2] == s[|s| - 1];
      ClearedMeansSkimmed(fo, e.unsub, e.punsub, s[1..], tail);
    }
  }

  lemma {:induction false} OnlyLast(fo: Foreign, s: seq<Value>)
    requires |s| == 1 && IsAnswer(fo, s[0])
    ensures Only(fo, s) == s
  {
    hide IsAnswer;
    assert s[1..] == [] && [s[0]] + [] == s;
  }

  /**
   For every stream whose answers are the server's, in order, with anything at all between
   them: the drain reads exactly up to the last answer if and only if everything else was
   noise when it came.
   */
  lemma {:induction false} DrainedExactlyWhen(
      fo: Foreign, pr: Protocol, noSub: Option<bytes>, channels: seq<bytes>, patterns: seq<bytes>,
      s: seq<Value>, tail: seq<Value>)
    requires EndsInAnswer(fo, s) && Only(fo, s) == Answers(pr, noSub, channels, patterns)
    ensures Drained(fo, false, false, s + tail) == Cleared(tail) <==>
            Skim(fo, false, false, s) == Answers(pr, noSub, channels, patterns)
  {
    hide Handle, Noise, Skim, Answers, Drained, Only;
    if Skim(fo, false, false, s) == Answers(pr, noSub, channels, patterns) {
      AnswersDrain(fo, pr, noSub, channels, patterns);
      NoiseDoesNotMatter(fo, false, false, s, tail);
    } else if Drained(fo, false, false, s + tail) == Cleared(tail) {
      ClearedMeansSkimmed(fo, false, false, s, tail);
    }
  }

  // ------------------------------------------------------ published messages on RESP3

  /** A push that confirms nothing and has no number in second place, as published messages are. */
  predicate MessagePush(v: Value) {
    v.Push? && !v.kind.Unsubscribe? && !v.kind.PUnsubscribe? && (|v.payload| < 2 || !v.payload[1].Int?)
  }

  lemma {:induction false} MessagePushIsNoise(fo: Foreign, u: bool, p: bool, v: Value)
    requires MessagePush(v)
    ensures Noise(fo, u, p, v) && !IsAnswer(fo, v)
  {
  }

  predicate MessagesAmongAnswers(fo: Foreign, s: seq<Value>) {
    forall i | 0 <= i < |s| :: IsAnswer(fo, s[i]) || MessagePush(s[i])
  }

  /** Such pushes leave nothing but the answers, in every state. */
  lemma {:induction false} MessagesSkimmed(fo: Foreign, u: bool, p: bool, s: seq<Value>, tail: seq<Value>)
    requires MessagesAmongAnswers(fo, s) && Drained(fo, u, p, Only(fo, s)) == Cleared([]) && EndsInAnswer(fo, s)
    ensures Drained(fo, u, p, s + tail) == Cleared(tail)
    decreases s
  {
    hide Handle, Noise, IsAnswer, MessagePush;
    assert (s + tail)[0] == s[0] && (s + tail)[1..] == s[1..] + tail;
    assert MessagesAmongAnswers(fo, s[1..]);
    var e := Handle(fo, u, p, s[0]);
    assert |s| > 1 ==> s[1..][|s| - 2] == s[|s| - 1];
    if IsAnswer(fo, s[0]) {
      var others := Only(fo, s[1..]);
      assert Only(fo, s)[0] == s[0] && Only(fo, s)[1..] == others;
      if e.Seen? && e.cleared && |s| > 1 {
        OnlyKeepsLast(fo, s[1..]);
        assert false;
      } else if e.Seen? && !e.cleared {
        if |s| > 1 {
          MessagesSkimmed(fo, e.unsub, e.punsub, s[1..], tail);
        }
      }
    } else {
      MessagePushIsNoise(fo, u, p, s[0]);
      NoiseIsIgnored(fo, u, p, s[0]);
      assert [] + Only(fo, s[1..]) == Only(fo, s[1..]);
      MessagesSkimmed(fo, u, p, s[1..], tail);
    }
  }

  lemma {:induction false} OnlyKeepsLast(fo: Foreign, s: seq<Value>)
    requires EndsInAnswer(fo, s)
    ensures Only(fo, s) != []
    decreases s
  {
    hide IsAnswer;
    if |s| == 1 {
    } else {
      assert s[1..][|s| - 2] == s[|s| - 1];
      OnlyKeepsLast(fo, s[1..]);
    }
  }

  /** On RESP3 messages may be published anywhere among the answers: the drain is exact. */
  lemma {:induction false} MessagesDoNoHarm(
      fo: Foreign, pr: Protocol, noSub: Option<bytes>, channels: seq<bytes>, patterns: seq<bytes>,
      s: seq<Value>, tail: seq<Value>)
    requires EndsInAnswer(fo, s) && Only(fo, s) == Answers(pr, noSub, channels, patterns)
    requires MessagesAmongAnswers(fo, s)
    ensures Drained(fo, false, false, s + tail) == Cleared(tail)
  {
    hide Handle, Drained, Only, Answers, MessagesAmongAnswers, EndsInAnswer;
    AnswersDrain(fo, pr, noSub, channels, patterns);
    MessagesSkimmed(fo, false, false, s, tail);
  }

  // ------------------------------------------------------ published messages on RESP2

  function Published(channel: bytes, payload: bytes): Value {
    Array([BulkString(Ascii("message")), BulkString(channel), BulkString(payload)])
  }

  function PublishedToPattern(pattern: bytes, channel: bytes, payload: bytes): Value {
    Array([BulkString(Ascii("pmessage")), BulkString(pattern), BulkString(channel), BulkString(payload)])
  }

  /** A payload that reads as an integer. */
  function Numeral(fo: Foreign, payload: bytes): Option<int> {
    if fo.utf8(payload) then ParseI64(payload) else None
  }

  /**
   A message published to a channel fails the drain exactly if its payload is not a
   numeral. A numeral other than zero is passed over in every state; zero is passed
   over unless both commands have had an answer, and then ends the drain early.
   */
  lemma {:induction false} PublishedMessage(
      fo: Foreign, u: bool, p: bool, channel: bytes, payload: bytes, rest: seq<Value>)
    ensures
      var n, s := Numeral(fo, payload), [Published(channel, payload)] + rest;
      Drained(fo, u, p, s) ==
        if n.None? then Failed(ParseFailure, rest)
        else if n == Some(0) && u && p then Cleared(rest)
        else Drained(fo, u, p, rest)
    ensures Noise(fo, u, p, Published(channel, payload)) <==>
            Numeral(fo, payload).Some? && !(Numeral(fo, payload) == Some(0) && u && p)
  {
    hide ParseI64;
    var s := [Published(channel, payload)] + rest;
    assert s[0] == Published(channel, payload) && s[1..] == rest;
    assert Ascii("message")[0] == 109;
  }

  /** One published to a pattern has four elements and always fails the drain. */
  lemma {:induction false} PatternMessageFails(
      fo: Foreign, u: bool, p: bool, pattern: bytes, channel: bytes, payload: bytes, rest: seq<Value>)
    ensures Drained(fo, u, p, [PublishedToPattern(pattern, channel, payload)] + rest) == Failed(ParseFailure, rest)
  {
    var s := [PublishedToPattern(pattern, channel, payload)] + rest;
    assert s[0] == PublishedToPattern(pattern, channel, payload) && s[1..] == rest;
  }

  // ------------------------------------------------------------------ what fails a drain

  /**
   The drain fails at once, in every state, on an error with another code than NOSUB, with
   that error; on an array that is no triple of kind, anything and count; and on every
   reply that is no push, error or array. On nothing else does it fail.
   */
  lemma {:induction false} FailsExactly(fo: Foreign, u: bool, p: bool, v: Value, rest: seq<Value>)
    ensures
      var s := [v] + rest;
      match v
      case Push(_, _) => !Handle(fo, u, p, v).Fatal?
      case Error(Known(NoSub, _)) => !Handle(fo, u, p, v).Fatal?
      case Error(e) => Drained(fo, u, p, s) == Failed(Server(e), rest)
      case Array(items) =>
        if Tuple(fo, items).None? then Drained(fo, u, p, s) == Failed(ParseFailure, rest)
        else !Handle(fo, u, p, v).Fatal?
      case _ => Drained(fo, u, p, s) == Failed(Client, rest)
  {
    hide Tuple;
    var s := [v] + rest;
    assert s[0] == v && s[1..] == rest;
  }

  // ------------------------------------------------------- what the conversions accept

  /** Unsigned decimal notation: a plus sign if wanted, zeros, and the digits. */
  ghost predicate Unsigned(s: bytes, b: byte, k: nat) {
    s == Zeros(k) + Decimal(b as nat) || s == ['+' as byte] + Zeros(k) + Decimal(b as nat)
  }

  ghost predicate BareByte(fo: Foreign, v: Value, b: byte) {
    match v
    case Int(n) => exists m :: n == 256 * m + b as int
    case SimpleString(text) => exists k :: Unsigned(text, b, k)
    case BulkString(data) => fo.utf8(data) && exists k :: Unsigned(data, b, k)
    case Double(digits) => b == fo.truncateByte(digits)
    case _ => false
  }

  /** A value that stands for a byte, with or without attributes around it. */
  ghost predicate StandsForByte(fo: Foreign, v: Value, b: byte) {
    BareByte(fo, v, b) || exists inner, attributes :: v == Attribute(inner, attributes) && BareByte(fo, inner, b)
  }

  ghost predicate BareInteger(fo: Foreign, v: Value, n: int) {
    match v
    case Int(i) => i == n
    case SimpleString(text) => -TWO_63 <= n < TWO_63 && exists k :: Written(text, n, k)
    case BulkString(data) => fo.utf8(data) && -TWO_63 <= n < TWO_63 && exists k :: Written(data, n, k)
    case Double(digits) => n == fo.truncate(digits)
    case _ => false
  }

  ghost predicate StandsForInteger(fo: Foreign, v: Value, n: int) {
    BareInteger(fo, v, n) || exists inner, attributes :: v == Attribute(inner, attributes) && BareInteger(fo, inner, n)
  }

  ghost predicate EachStandsFor(fo: Foreign, vs: seq<Value>, bs: bytes) {
    |vs| == |bs| && forall i | 0 <= i < |vs| :: StandsForByte(fo, vs[i], bs[i])
  }

  /** A value that stands for a byte string: one, a list or set of bytes, or nothing at all. */
  ghost predicate StandsForBytes(fo: Foreign, v: Value, bs: bytes) {
    || v == BulkString(bs)
    || (exists vs :: v == Array(vs) && EachStandsFor(fo, vs, bs))
    || (exists vs :: v == Set(vs) && EachStandsFor(fo, vs, bs))
    || (bs == [] && (v == Nil || v == Map([])))
  }

  lemma {:induction false} UnsignedExact(s: bytes, b: byte)
    ensures ParseU8(s) == Some(b) <==> exists k :: Unsigned(s, b, k)
  {
    hide ParseI64, Decimal, Zeros;
    NumeralExact(s, b as int);
    if ParseU8(s) == Some(b) {
      var k :| Written(s, b as int, k);
      assert Unsigned(s, b, k);
    }
    if k :| Unsigned(s, b, k) {
      assert Written(s, b as int, k);
      DigitsRead(k, b as nat);
      assert s[0] == '+' as byte || s == Zeros(k) + Decimal(b as nat);
    }
  }

  lemma {:induction false} BareByteExact(fo: Foreign, v: Value, b: byte)
    requires !v.Attribute?
    ensures ToByte(fo, v) == Some(b) <==> BareByte(fo, v, b)
  {
    hide ParseU8, Unsigned;
    match v {
      case Int(n) =>
        if (n % 256) as byte == b {
          assert n == 256 * (n / 256) + b as int;
        }
      case SimpleString(text) => UnsignedExact(text, b);
      case BulkString(data) => UnsignedExact(data, b);
      case _ =>
    }
  }

  lemma {:induction false} ByteExact(fo: Foreign, v: Value, b: byte)
    ensures ToByte(fo, v) == Some(b) <==> StandsForByte(fo, v, b)
  {
    hide BareByte, ParseU8;
    if v.Attribute? {
      assert v == Attribute(v.inner, v.attributes);
      NoByte(fo, v, b);
      if v.inner.Attribute? {
        NoByte(fo, v.inner, b);
      } else {
        BareByteExact(fo, v.inner, b);
      }
    } else {
      BareByteExact(fo, v, b);
    }
  }

  lemma {:induction false} NoByte(fo: Foreign, v: Value, b: byte)
    requires v.Attribute?
    ensures !BareByte(fo, v, b)
  {
  }

  lemma {:induction false} BareIntegerExact(fo: Foreign, v: Value, n: int)
    requires !v.Attribute?
    ensures ToInteger(fo, v) == Some(n) <==> BareInteger(fo, v, n)
  {
    hide ParseI64, Written;
    match v {
      case SimpleString(text) => NumeralExact(text, n);
      case BulkString(data) => NumeralExact(data, n);
      case _ =>
    }
  }

  lemma {:induction false} IntegerExact(fo: Foreign, v: Value, n: int)
    ensures ToInteger(fo, v) == Some(n) <==> StandsForInteger(fo, v, n)
  {
    hide BareInteger, ParseI64;
    if v.Attribute? {
      assert v == Attribute(v.inner, v.attributes);
      NoInteger(fo, v, n);
      if v.inner.Attribute? {
        NoInteger(fo, v.inner, n);
      } else {
        BareIntegerExact(fo, v.inner, n);
      }
    } else {
      BareIntegerExact(fo, v, n);
    }
  }

  lemma {:induction false} NoInteger(fo: Foreign, v: Value, n: int)
    requires v.Attribute?
    ensures !BareInteger(fo, v, n)
  {
  }

  lemma {:induction false} EachByteExact(fo: Foreign, vs: seq<Value>, bs: bytes)
    ensures AllToBytes(fo, vs) == Some(bs) <==> EachStandsFor(fo, vs, bs)
    decreases vs
  {
    hide ToByte, StandsForByte;
    if vs == [] || bs == [] {
    } else {
      ByteExact(fo, vs[0], bs[0]);
      EachByteExact(fo, vs[1..], bs[1..]);
      assert bs == [bs[0]] + bs[1..];
      assert EachStandsFor(fo, vs, bs) <==>
             StandsForByte(fo, vs[0], bs[0]) && EachStandsFor(fo, vs[1..], bs[1..]) by {
        if EachStandsFor(fo, vs[1..], bs[1..]) {
          assert forall i | 0 < i < |vs| :: vs[i] == vs[1..][i - 1] && bs[i] == bs[1..][i - 1];
        }
      }
    }
  }

  lemma {:induction false} BytesExact(fo: Foreign, v: Value, bs: bytes)
    ensures ToBytes(fo, v) == Some(bs) <==> StandsForBytes(fo, v, bs)
  {
    hide AllToBytes, EachStandsFor;
    match v {
      case Array(items) => EachByteExact(fo, items, bs);
      case Set(members) => EachByteExact(fo, members, bs);
      case _ =>
    }
  }

  /**
   An array is read as a confirmation's kind and count exactly if it has three elements, of
   which the first stands for that kind, the second is no error, and the third stands for
   that count.
   */
  lemma {:induction false} TupleExact(fo: Foreign, items: seq<Value>, kind: bytes, num: int)
    ensures Tuple(fo, items) == Some((kind, num)) <==>
            && |items| == 3 && !items[1].Error?
            && StandsForBytes(fo, items[0], kind) && StandsForInteger(fo, items[2], num)
  {
    hide ToBytes, ToInteger, StandsForBytes, StandsForInteger;
    if |items| == 3 {
      BytesExact(fo, items[0], kind);
      IntegerExact(fo, items[2], num);
    }
  }

  /** What counts as an answer is exactly what marks one of the commands as answered when none was. */
  lemma {:induction false} AnswersSetAFlag(fo: Foreign, v: Value)
    ensures IsAnswer(fo, v) <==>
            var e := Handle(fo, false, false, v); e.Seen? && (e.unsub || e.punsub)
  {
    hide Tuple;
  }

  /** Answers come as arrays or errors on RESP2, and as pushes or errors on RESP3. */
  lemma {:induction false} AnswerForms(
      pr: Protocol, noSub: Option<bytes>, channels: seq<bytes>, patterns: seq<bytes>, i: nat)
    requires i < |Answers(pr, noSub, channels, patterns)|
    ensures
      var v := Answers(pr, noSub, channels, patterns)[i];
      v.Error? || if pr == Resp2 then v.Array? else v.Push?
  {
    hide Countdown;
    CountdownForms(pr, false, channels, |patterns|);
    CountdownForms(pr, true, patterns, 0);
  }

  lemma {:induction false} CountdownForms(pr: Protocol, pattern: bool, names: seq<bytes>, others: nat)
    ensures
      forall v | v in Countdown(pr, pattern, names, others) :: if pr == Resp2 then v.Array? else v.Push?
    decreases names
  {
    if names == [] {
    } else {
      CountdownForms(pr, pattern, names[1..], others);
    }
  }

  // --------------------------------------------------------- the reads of a connection

  /** A peer that delivers these messages as replies, and then does what the outlook says. */
  function PeerFor(s: seq<Value>, from: nat, outlook: Outlook): Sync.Peer
    requires from <= |s|
  {
    var choice :=
      match outlook case Silence => Sync.TimeOut case EndOfStream => Sync.HangUp case Malformed => Sync.Garble;
    Sync.Peer(|s|, from, false, false, seq(|s| - from, _ => Sync.Deliver) + [choice])
  }

  function At(s: seq<Value>): nat -> Value {
    (i: nat) => if i < |s| then s[i] else Nil
  }

  /**
   What a read of the drain gives is what a read of the blocking connection gives on the same
   messages: the first message past the debt, or the same failure with the same debt left.
   */
  lemma {:induction false} ReadsAsConnection(s: seq<Value>, from: nat, debt: nat, outlook: Outlook, b: Sync.Books)
    requires from <= |s| && b.debt == debt && b.peer == PeerFor(s, from, outlook)
    ensures
      var (m, b') := Sync.NextPastDebt(At(s), b);
      if debt < |s| - from then m == Sync.Got(s[from + debt]) && b'.debt == 0
      else
        var (e, left) := Exhausted(outlook, debt - (|s| - from));
        !m.Got? && Sync.FailureOf(m) == e && b'.debt == left
    decreases |s| - from
  {
    hide Sync.NextPastDebt;
    Sync.DebtStep(At(s), b);
    var (m, p) := Sync.NextMessage(At(s), b.peer);
    if from < |s| {
      assert b.peer.choices[0] == Sync.Deliver && b.peer.choices[1..] == PeerFor(s, from + 1, outlook).choices;
      assert m == Sync.Got(s[from]) && p == PeerFor(s, from + 1, outlook);
      if debt > 0 {
        ReadsAsConnection(s, from + 1, debt - 1, outlook, Sync.Pay(b, m, p));
      }
    } else if outlook.Malformed? && debt > 0 {
      Sync.MalformedPaysTheDebt(At(s), Sync.Pay(b, m, p));
    }
  }
}
