/**
 Two implementations of one job: the blocking loop and the multiplexed aggregator,
 fed the same messages. The blocking loop passes over every push; the aggregator
 takes a push that confirms a subscription for a reply, and never sees the others.
 */
module Agreement {
  import opened Resp
  import opened Matching
  import opened SyncConnection

  /** Position of the last server error, or -1. */
  function LastError(rs: seq<Value>): (j: int)
    ensures -1 <= j < |rs|
    ensures j >= 0 ==> rs[j].Error?
  {
    if rs == [] then -1
    else if rs[|rs| - 1].Error? then |rs| - 1
    else LastError(rs[..|rs| - 1])
  }

  /** What the multiplexed connection returns for a batch: the list inside the array, or the error. */
  function AsyncResult(s: Shape, rs: seq<Value>): Result<seq<Value>, RedisError>
    requires s.Batch? && GoodShape(s) && |rs| == Count(s)
  {
    match Answer(s, rs)
    case Ok(v) => Ok(if v.Array? then v.items else [v])
    case Err(e) => Err(e)
  }

  /** The messages the aggregator takes for the replies of a request with this shape. */
  function Taken(s: Shape, messages: seq<Value>): (rs: seq<Value>)
    requires Count(s) <= |Asked(messages)|
    ensures |rs| == Count(s)
  {
    Asked(messages)[..Count(s)]
  }

  // --------------------------------------------------------------- small facts

  lemma {:induction false} Nothing()
    ensures SkippedErrors([]) == [] && LastError([]) == -1
  {
  }

  lemma {:induction false} LastErrorStep(rs: seq<Value>, v: Value)
    ensures LastError(rs + [v]) == if v.Error? then |rs| else LastError(rs)
  {
    assert (rs + [v])[..|rs|] == rs;
  }

  /** A selection that keeps every error. */
  ghost predicate KeepsErrors(keep: Value -> bool) {
    forall v: Value | v.Error? :: keep(v)
  }

  /** The reported errors end with the last one; selecting changes their indices, not how many there are. */
  lemma {:induction false} ErrorsOf(keep: Value -> bool, rs: seq<Value>)
    requires |rs| < TWO_64 && KeepsErrors(keep)
    ensures SkippedErrors(rs) == [] <==> LastError(rs) < 0
    ensures LastError(rs) >= 0 ==>
              var es := SkippedErrors(rs); es != [] && es[|es| - 1].0 == SubUsize(LastError(rs), 1)
    ensures |Select(keep, rs)| < TWO_64 && |SkippedErrors(Select(keep, rs))| == |SkippedErrors(rs)|
  {
    hide Select, SkippedErrors, LastError;
    Nothing();
    SelectNothing(keep);
    SelectLength(keep, rs);
    if rs == [] {
    } else {
      var init, m := rs[..|rs| - 1], rs[|rs| - 1];
      assert init + [m] == rs;
      ErrorsOf(keep, init);
      SelectLength(keep, init);
      SelectStep(keep, init, m);
      LastErrorStep(init, m);
      SkippedErrorsStep(init, m);
      if keep(m) {
        SkippedErrorsStep(Select(keep, init), m);
      }
    }
  }

  lemma {:induction false} ErrorsConcat(a: seq<Value>, b: seq<Value>)
    requires |a| + |b| < TWO_64
    ensures |SkippedErrors(a + b)| == |SkippedErrors(a)| + |SkippedErrors(b)|
    ensures LastError(b) < 0 ==> SkippedErrors(a + b) == SkippedErrors(a) && LastError(a + b) == LastError(a)
    ensures LastError(b) >= 0 ==> LastError(a + b) == |a| + LastError(b)
  {
    hide SkippedErrors, LastError;
    Nothing();
    if b == [] {
      assert a + b == a;
    } else {
      var init, m := b[..|b| - 1], b[|b| - 1];
      assert init + [m] == b && (a + init) + [m] == a + b;
      ErrorsConcat(a, init);
      SkippedErrorsStep(a + init, m);
      SkippedErrorsStep(init, m);
      LastErrorStep(a + init, m);
      LastErrorStep(init, m);
    }
  }

  /** The last error moves forward by what is left out before it. */
  lemma {:induction false} LastErrorShifts(keep: Value -> bool, s: seq<Value>)
    requires |s| < TWO_64 && LastError(s) >= 0 && KeepsErrors(keep)
    ensures LastError(Select(keep, s)) == |Select(keep, s[..LastError(s)])|
  {
    hide Select, LastError;
    Nothing();
    var j := LastError(s);
    var init, m := s[..|s| - 1], s[|s| - 1];
    assert init + [m] == s;
    SelectStep(keep, init, m);
    LastErrorStep(init, m);
    if keep(m) {
      LastErrorStep(Select(keep, init), m);
    }
    if m.Error? {
    } else {
      LastErrorShifts(keep, init);
      assert init[..j] == s[..j];
    }
  }

  lemma {:induction false} AfterLastError(s: seq<Value>)
    requires |s| < TWO_64
    ensures LastError(s[LastError(s) + 1..]) < 0
  {
    hide LastError;
    Nothing();
    var j := LastError(s);
    if s == [] {
      assert s[j + 1..] == [];
    } else {
      var init, m := s[..|s| - 1], s[|s| - 1];
      assert init + [m] == s;
      LastErrorStep(init, m);
      if m.Error? {
        assert s[j + 1..] == [];
      } else {
        AfterLastError(init);
        assert s[j + 1..] == init[j + 1..] + [m];
        LastErrorStep(init[j + 1..], m);
      }
    }
  }

  // ------------------------------------------------------------- aborted transactions

  /** What is left out after the last error does no harm: the transaction is aborted alike. */
  lemma {:induction false} SameErrors(keep: Value -> bool, s: seq<Value>, more: seq<Value>)
    requires |s| + |more| < TWO_64 && KeepsErrors(keep)
    requires
      var last := LastError(Select(keep, s) + more);
      0 <= last < |s| && AllKept(keep, s[..last + 1])
    ensures |Select(keep, s)| <= |s| && SkippedErrors(s) == SkippedErrors(Select(keep, s) + more)
  {
    hide Select, SkippedErrors, LastError;
    SelectLength(keep, s);
    var a := Select(keep, s) + more;
    var last := LastError(a);
    var head, rest := s[..last + 1], s[last + 1..];
    var others := Select(keep, rest);
    assert s == head + rest;
    SelectConcat(keep, head, rest);
    SelectLength(keep, head);
    SelectLength(keep, rest);
    assert a == head + (others + more);
    assert a[..last + 1] == head && a[last + 1..] == others + more;
    AfterLastError(a);
    NoLateErrors(keep, head, rest, more);
  }

  lemma {:induction false} NoLateErrors(keep: Value -> bool, head: seq<Value>, rest: seq<Value>, more: seq<Value>)
    requires |head| + |rest| + |more| < TWO_64 && KeepsErrors(keep) && |Select(keep, rest)| <= |rest|
    requires LastError(Select(keep, rest) + more) < 0
    ensures SkippedErrors(head + rest) == SkippedErrors(head) == SkippedErrors(head + (Select(keep, rest) + more))
  {
    hide Select, SkippedErrors, LastError;
    var others := Select(keep, rest);
    ErrorsConcat(head, others + more);
    ErrorsConcat(others, more);
    ErrorsOf(keep, rest);
    ErrorsOf(keep, others);
    ErrorsOf(keep, others + more);
    ErrorsConcat(head, rest);
  }

  /** Equal error lists leave no room for anything left out before the last error. */
  lemma {:induction false} EqualErrorsMeanAllKept(keep: Value -> bool, s: seq<Value>, more: seq<Value>)
    requires |s| + |more| < TWO_64 && |Select(keep, s)| <= |s| && KeepsErrors(keep)
    requires SkippedErrors(s) == SkippedErrors(Select(keep, s) + more) != []
    ensures
      var last := LastError(Select(keep, s) + more);
      0 <= last < |s| && AllKept(keep, s[..last + 1])
  {
    hide Select, SkippedErrors, LastError;
    ErrorsOf(keep, s);
    ErrorsConcat(Select(keep, s), more);
    ErrorsOf(keep, more);
    ErrorsOf(keep, Select(keep, s) + more);
    LastErrorShifts(keep, s);
    var j := LastError(s);
    SelectLength(keep, s[..j]);
    assert j == LastError(Select(keep, s) + more);
    assert forall i | 0 <= i < j :: s[..j][i] == s[i];
  }

  /**
   The errors among the first messages `s` and among as many selected ones: equal and
   not empty exactly when nothing was left out before the last of them.
   */
  lemma {:induction false} ErrorListsAgree(keep: Value -> bool, s: seq<Value>, more: seq<Value>)
    requires |s| + |more| < TWO_64 && |Select(keep, s)| + |more| == |s| && KeepsErrors(keep)
    ensures
      var a := Select(keep, s) + more;
      && (SkippedErrors(a) == [] ==> SkippedErrors(s) == [])
      && (SkippedErrors(a) == [] <==> LastError(a) < 0)
      && (LastError(a) >= 0 ==>
            (SkippedErrors(s) == SkippedErrors(a) <==> AllKept(keep, s[..LastError(a) + 1])))
  {
    hide Select, SkippedErrors, LastError;
    var a := Select(keep, s) + more;
    var last := LastError(a);
    ErrorsOf(keep, a);
    ErrorsOf(keep, s);
    ErrorsConcat(Select(keep, s), more);
    if last >= 0 {
      if SkippedErrors(s) == SkippedErrors(a) {
        EqualErrorsMeanAllKept(keep, s, more);
      }
      if AllKept(keep, s[..last + 1]) {
        SameErrors(keep, s, more);
      }
    }
  }

  // ---------------------------------------------------------------- kept values

  /**
   Without errors the blocking loop keeps the replies after the first `offset`
   messages, the aggregator what it takes after the first `offset` of those: the same
   exactly when no push is among the first messages or among those taken.
   */
  lemma {:induction false} KeptAgree(messages: seq<Value>, offset: nat, n: nat)
    requires offset <= n == |Replies(messages)| <= |Asked(messages)| && offset <= |messages|
    ensures Replies(messages[offset..]) == Asked(messages)[offset..n] <==>
            PushFree(messages[..offset]) && PushFree(Asked(messages)[..n])
  {
    hide Select;
    var s, t, a := messages[..offset], messages[offset..], Asked(messages);
    assert messages == s + t;
    SelectConcat(IsReply, s, t);
    SelectConcat(Solicited, s, t);
    RepliesLength(s);
    SelectLength(IsReply, t);
    if PushFree(s) && PushFree(a[..n]) {
      SelectLength(Solicited, s);
      assert a == s + Asked(t) && a[offset..n] == Asked(t)[..n - offset];
      KeptFrom(t, n - offset);
    }
    if Replies(t) == a[offset..n] {
      SelectLength(Solicited, s);
      assert a[..offset] == s && a[..n] == s + Replies(t);
    }
  }

  lemma {:induction false} KeptFrom(t: seq<Value>, count: nat)
    requires count == |Replies(t)| <= |Asked(t)| && PushFree(Asked(t)[..count])
    ensures Replies(t) == Asked(t)[..count]
  {
    hide Select;
    var b := Asked(t);
    RepliesAmongAsked(t);
    assert b == b[..count] + b[count..];
    SelectConcat(IsReply, b[..count], b[count..]);
    RepliesLength(b[..count]);
    assert |Replies(b[count..])| == 0;
  }

  // ---------------------------------------------------------------- the theorem

  /**
   When the two agree. If a skipped message that the aggregator takes is an error: no
   unasked push came before the last such error. Otherwise: no push of any kind among
   the first `offset` messages, and none that confirms a subscription among the
   messages the aggregator takes.
   */
  ghost predicate PushesHarmless(messages: seq<Value>, s: Shape)
    requires s.Batch? && Count(s) <= |Asked(messages)|
  {
    var taken := Taken(s, messages);
    var last := LastError(taken[..s.skip]);
    SelectLength(Solicited, messages);
    if last >= 0 then AllKept(Solicited, messages[..last + 1])
    else PushFree(messages[..s.skip]) && PushFree(taken)
  }

  /** Names for the parts of one stream. */
  lemma {:induction false} Parts(messages: seq<Value>, offset: nat, n: nat)
    requires |messages| < TWO_64 && offset <= n <= |Asked(messages)|
    ensures
      offset <= |messages| &&
      var s, t := messages[..offset], messages[offset..];
      var k := offset - |Asked(s)|;
      && 0 <= k <= |Asked(t)| && messages == s + t
      && Asked(messages)[..n][..offset] == Asked(s) + Asked(t)[..k]
  {
    hide Select;
    SelectLength(Solicited, messages);
    var s, t := messages[..offset], messages[offset..];
    assert messages == s + t;
    SelectConcat(Solicited, s, t);
    SelectLength(Solicited, s);
    SelectLength(Solicited, t);
  }

  lemma {:induction false} SolicitedKeepsErrors()
    ensures KeepsErrors(Solicited)
  {
  }

  /**
   For every message stream without transport errors that answers a batch in full, the
   blocking loop and the aggregator return the same value list, or the same aborted
   transaction with the same command indices, exactly when the pushes are harmless.
   */
  lemma {:induction false} SyncAsyncAgree(messages: seq<Value>, shape: Shape)
    requires shape.Batch? && GoodShape(shape) && shape.count > 0 && (shape.skip > 0 ==> shape.isTransaction)
    requires |messages| < TWO_64 && |Replies(messages)| == Count(shape)
    ensures Count(shape) <= |Asked(messages)|
    ensures PushesHarmless(messages, shape) <==>
            Conclude(Gather(messages, shape.skip, shape.count)) == AsyncResult(shape, Taken(shape, messages))
  {
    hide Select, Gather, SkippedErrors, LastError, PushFree, AllKept, AsyncResult, Conclude;
    var offset, n := shape.skip, Count(shape);
    RepliesAmongAsked(messages);
    Parts(messages, offset, n);
    var s, t := messages[..offset], messages[offset..];
    var more := Asked(t)[..offset - |Asked(s)|];
    GatherExact(messages, offset, shape.count);
    SolicitedKeepsErrors();
    SelectLength(Solicited, t);
    ErrorListsAgree(Solicited, s, more);
    KeptAgree(messages, offset, n);
    var taken := Taken(shape, messages);
    var last := LastError(taken[..offset]);
    assert taken[..offset] == Asked(s) + more && taken[offset..] == Asked(messages)[offset..n];
    assert last >= 0 ==> messages[..last + 1] == s[..last + 1];
    ResultsAgree(shape, taken, Gather(messages, offset, shape.count));
  }

  /** Both results are the errors if there are any, and else the kept values. */
  lemma {:induction false} ResultsAgree(shape: Shape, taken: seq<Value>, g: Gathered)
    requires shape.Batch? && GoodShape(shape) && |taken| == Count(shape) && (shape.skip > 0 ==> shape.isTransaction)
    ensures
      var errors := SkippedErrors(taken[..shape.skip]);
      Conclude(g) == AsyncResult(shape, taken) <==>
        if errors == [] then g.errors == [] && g.rv == taken[shape.skip..] else g.errors == errors
  {
    hide SkippedErrors;
    assert shape.skip == 0 ==> taken[..shape.skip] == [];
    Nothing();
  }

  // ------------------------------------------------------------------ where they differ

  /** A push in front of EXEC's reply: the blocking loop returns a QUEUED too many. */
  lemma {:induction false} EarlyPushDisagrees(queued: Value, push: Value, exec: Value)
    requires queued.SimpleString? && push.Push? && !push.kind.HasReply() && exec.Array?
    ensures
      var messages, shape := [Okay, push, queued, exec], Batch(2, 1, true);
      && Asked(messages) == [Okay, queued, exec]
      && Conclude(Gather(messages, 2, 1)) == Ok([queued, exec])
      && AsyncResult(shape, Taken(shape, messages)) == Ok([exec])
  {
    hide Select, SkippedErrors, Gather;
    var m: seq<Value> := [Okay, push, queued, exec];
    GatherExact(m, 2, 1);
    SelectTwo(IsReply, queued, exec);
    SelectTwo(Solicited, Okay, push);
    SelectTwo(Solicited, queued, exec);
    SelectConcat(Solicited, [Okay, push], [queued, exec]);
    assert m == [Okay, push] + [queued, exec];
    assert m[..2] == [Okay, push] && m[2..] == [queued, exec];
    assert Asked(m) == [Okay, queued, exec];
    assert [Okay, queued, exec][..3] == [Okay, queued, exec];
    assert [Okay, queued, exec][..2] == [Okay, queued] && [Okay, queued, exec][2..] == [exec];
    assert [queued] + [exec] == [queued, exec] && [Okay] + [] == [Okay];
    assert [Okay] + [queued, exec] == [Okay, queued, exec];
    NoErrors([Okay, push]);
    NoErrors([Okay, queued]);
  }

  /** A confirmed subscription in front of a reply: the aggregator takes it for the reply. */
  lemma {:induction false} ConfirmationDisagrees(push: Value, reply: Value)
    requires push.Push? && push.kind.HasReply() && !reply.Push?
    ensures
      var messages, shape := [push, reply], Batch(0, 1, false);
      && Asked(messages) == messages
      && Conclude(Gather(messages, 0, 1)) == Ok([reply])
      && AsyncResult(shape, Taken(shape, messages)) == Ok([push])
  {
    hide Select, SkippedErrors, Gather;
    var m := [push, reply];
    GatherExact(m, 0, 1);
    SelectTwo(IsReply, push, reply);
    SelectTwo(Solicited, push, reply);
    assert [] + [reply] == [reply] && [push] + [reply] == m;
    assert m[0..] == m && m[..0] == [] && m[..1] == [push] && [push][0..] == [push];
    Nothing();
  }

  lemma {:induction false} SelectTwo(keep: Value -> bool, v: Value, w: Value)
    ensures Select(keep, [v, w]) == (if keep(v) then [v] else []) + (if keep(w) then [w] else [])
  {
    hide Select;
    SelectNothing(keep);
    SelectStep(keep, [], v);
    SelectStep(keep, [v], w);
    assert [] + [v] == [v] && [v] + [w] == [v, w];
  }
}
