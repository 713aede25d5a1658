/**
 Which replies belong to which request, and what they amount to: the reference
 that both connection types are measured against.
 */
module Matching {
  import opened Resp

  /** A single command, or a pipeline that skips replies and then keeps some. */
  datatype Shape = Single | Batch(skip: nat, count: nat, isTransaction: bool)

  /** A request on the wire; `output` names the caller waiting for it, if any. */
  datatype Req = Req(output: Option<nat>, shape: Shape)

  /** How many replies a request takes; a batch that wants to keep none still waits for one. */
  function Count(s: Shape): nat {
    match s
    case Single => 1
    case Batch(skip, count, _) => skip + if count == 0 then 1 else count
  }

  /** The counts of a batch are machine words. */
  predicate GoodShape(s: Shape) {
    Count(s) < TWO_64
  }

  /** The errors among skipped replies, indexed by command: reply 0 answers MULTI. */
  function SkippedErrors(rs: seq<Value>): (es: seq<(int, ServerError)>)
    requires |rs| < TWO_64
  {
    if rs == [] then []
    else
      var last := |rs| - 1;
      var before := SkippedErrors(rs[..last]);
      match rs[last]
      case Error(e) => before + [(SubUsize(last, 1), e)]
      case _ => before
  }

  /** What a request's own replies mean to its caller. */
  function Answer(s: Shape, rs: seq<Value>): Result<Value, RedisError>
    requires GoodShape(s) && |rs| == Count(s)
  {
    match s
    case Single => Ok(rs[0])
    case Batch(skip, _, isTransaction) =>
      var errors := if isTransaction then SkippedErrors(rs[..skip]) else [];
      if errors == [] then Ok(Array(rs[skip..])) else Err(TransactionAborted(errors))
  }

  lemma {:induction false} SkippedErrorsStep(rs: seq<Value>, v: Value)
    requires |rs| + 1 < TWO_64
    ensures SkippedErrors(rs + [v]) ==
            SkippedErrors(rs) + if v.Error? then [(SubUsize(|rs|, 1), v.error)] else []
  {
    assert (rs + [v])[..|rs|] == rs;
    assert SkippedErrors(rs) + [] == SkippedErrors(rs);
  }

  /** Where the errors are, first to last. */
  function ErrorPositions(rs: seq<Value>): seq<nat> {
    if rs == [] then []
    else
      var last := |rs| - 1;
      var before := ErrorPositions(rs[..last]);
      if rs[last].Error? then before + [last] else before
  }

  lemma {:induction false} ErrorPositionsStep(rs: seq<Value>, v: Value)
    ensures ErrorPositions(rs + [v]) == ErrorPositions(rs) + if v.Error? then [|rs|] else []
  {
    assert (rs + [v])[..|rs|] == rs;
  }

  /** The positions are exactly those of the errors, each once, in increasing order. */
  lemma {:induction false} ErrorPositionsExact(rs: seq<Value>)
    ensures forall j :: j in ErrorPositions(rs) <==> 0 <= j < |rs| && rs[j].Error?
    ensures forall a, b | 0 <= a < b < |ErrorPositions(rs)| :: ErrorPositions(rs)[a] < ErrorPositions(rs)[b]
  {
    hide ErrorPositions;
    if rs == [] {
      assert ErrorPositions([]) == [] by { NoPositions(); }
    } else {
      var init, v := rs[..|rs| - 1], rs[|rs| - 1];
      assert rs == init + [v];
      ErrorPositionsExact(init);
      ErrorPositionsStep(init, v);
      assert forall k | 0 <= k < |ErrorPositions(init)| :: ErrorPositions(init)[k] in ErrorPositions(init);
    }
  }

  lemma {:induction false} NoPositions()
    ensures ErrorPositions([]) == []
  {
  }

  /** The command a skipped reply answers; the reply to MULTI answers none, and its index wraps around. */
  function CommandIndex(j: nat): int {
    if j == 0 then TWO_64 - 1 else j - 1
  }

  /**
   A transaction reports exactly the errors of its skipped replies, one entry each and
   in their order, with the index of the command each one answers; an error to MULTI
   itself has none, and its index wraps around to the largest machine word.
   */
  lemma {:induction false} SkippedErrorsExact(rs: seq<Value>)
    requires |rs| < TWO_64
    ensures
      var es, at := SkippedErrors(rs), ErrorPositions(rs);
      && |es| == |at|
      && forall k | 0 <= k < |es| :: at[k] < |rs| && rs[at[k]].Error? && es[k] == (CommandIndex(at[k]), rs[at[k]].error)
  {
    hide SkippedErrors, ErrorPositions;
    if rs == [] {
      NoPositions();
      NothingSkipped();
    } else {
      var init, v := rs[..|rs| - 1], rs[|rs| - 1];
      assert rs == init + [v];
      SkippedErrorsExact(init);
      SkippedErrorsStep(init, v);
      ErrorPositionsStep(init, v);
    }
  }

  lemma {:induction false} NothingSkipped()
    ensures SkippedErrors([]) == []
  {
  }

  /** No errors are reported exactly when there are none. */
  lemma {:induction false} NoErrors(rs: seq<Value>)
    requires |rs| < TWO_64
    ensures SkippedErrors(rs) == [] <==> forall j | 0 <= j < |rs| :: !rs[j].Error?
  {
    hide SkippedErrors, ErrorPositions;
    SkippedErrorsExact(rs);
    ErrorPositionsExact(rs);
    var es, at := SkippedErrors(rs), ErrorPositions(rs);
    assert forall j | 0 <= j < |rs| && rs[j].Error? :: j in at;
    assert es != [] ==> rs[at[0]].Error?;
  }

  // ------------------------------------------------------------------ what counts

  /** The blocking connection takes everything but pushes for a reply. */
  predicate IsReply(v: Value) { !v.Push? }

  /** The multiplexed one also takes pushes that confirm a subscription. */
  predicate Solicited(v: Value) { v.Push? ==> v.kind.HasReply() }

  /** The messages of a stream that count, in order. */
  function Select(keep: Value -> bool, messages: seq<Value>): seq<Value> {
    if messages == [] then []
    else
      var before, last := Select(keep, messages[..|messages| - 1]), messages[|messages| - 1];
      if keep(last) then before + [last] else before
  }

  function Replies(messages: seq<Value>): seq<Value> { Select(IsReply, messages) }

  function Asked(messages: seq<Value>): seq<Value> { Select(Solicited, messages) }

  ghost predicate AllKept(keep: Value -> bool, messages: seq<Value>) {
    forall i | 0 <= i < |messages| :: keep(messages[i])
  }

  lemma {:induction false} SelectStep(keep: Value -> bool, messages: seq<Value>, v: Value)
    ensures Select(keep, messages + [v]) == if keep(v) then Select(keep, messages) + [v] else Select(keep, messages)
  {
    assert (messages + [v])[..|messages|] == messages;
  }

  lemma {:induction false} SelectNothing(keep: Value -> bool)
    ensures Select(keep, []) == []
  {
  }

  lemma {:induction false} SelectConcat(keep: Value -> bool, a: seq<Value>, b: seq<Value>)
    ensures Select(keep, a + b) == Select(keep, a) + Select(keep, b)
  {
    hide Select;
    if b == [] {
      SelectNothing(keep);
      assert a + b == a;
    } else {
      var init, m := b[..|b| - 1], b[|b| - 1];
      assert init + [m] == b && (a + init) + [m] == a + b;
      SelectConcat(keep, a, init);
      SelectStep(keep, a + init, m);
      SelectStep(keep, init, m);
    }
  }

  /** What counts is everything exactly when everything counts. */
  lemma {:induction false} SelectLength(keep: Value -> bool, a: seq<Value>)
    ensures |Select(keep, a)| <= |a| && AllKept(keep, Select(keep, a))
    ensures |Select(keep, a)| == |a| <==> AllKept(keep, a)
    ensures AllKept(keep, a) ==> Select(keep, a) == a
  {
    hide Select;
    if a == [] {
      SelectNothing(keep);
    } else {
      var init, m := a[..|a| - 1], a[|a| - 1];
      assert init + [m] == a;
      SelectLength(keep, init);
      SelectStep(keep, init, m);
      assert AllKept(keep, a) <==> AllKept(keep, init) && keep(m);
    }
  }

  /** Every reply is also asked for, so selecting replies can be done in two steps. */
  lemma {:induction false} RepliesAmongAsked(messages: seq<Value>)
    ensures Replies(Asked(messages)) == Replies(messages) && |Replies(messages)| <= |Asked(messages)|
  {
    hide Select;
    if messages == [] {
      SelectNothing(IsReply);
      SelectNothing(Solicited);
    } else {
      var init, m := messages[..|messages| - 1], messages[|messages| - 1];
      assert init + [m] == messages;
      RepliesAmongAsked(init);
      SelectStep(Solicited, init, m);
      SelectStep(IsReply, init, m);
      if Solicited(m) {
        SelectStep(IsReply, Asked(init), m);
      }
    }
  }
}
