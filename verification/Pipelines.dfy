/**
 Pipelines: their packed form, the ignored commands, and how the replies are
 composed into the caller's result. Conversion of the final value into the type
 the caller asked for is left to that type.
 */
module Pipelines {
  import opened Resp
  import opened Text
  import opened Parser
  import opened Wire
  import opened Command
  import opened Codec
  import opened Replies

  class Pipeline {
    var commands: seq<Stored>
    var transactionMode: bool
    var ignored: set<nat>
    var ignoreErrors: bool

    /** Ignored indices lie below the command count. */
    ghost predicate Valid()
      reads this
    {
      && (forall i | i in ignored :: i < |commands|)
      && (forall i | 0 <= i < |commands| :: Command.Valid(commands[i]))
    }

    constructor ()
      ensures Valid() && commands == [] && ignored == {} && !transactionMode && !ignoreErrors
    {
      commands, ignored, transactionMode, ignoreErrors := [], {}, false, false;
    }

    method Atomic()
      modifies this`transactionMode
      ensures transactionMode
    {
      transactionMode := true;
    }

    method IgnoreErrors()
      modifies this`ignoreErrors
      ensures ignoreErrors
    {
      ignoreErrors := true;
    }

    method AddCommand(c: Stored)
      requires Valid() && Command.Valid(c)
      modifies this`commands
      ensures Valid() && commands == old(commands) + [c]
    {
      commands := commands + [c];
    }

    /** Marks the command added last; on an empty pipeline it does nothing. */
    method Ignore()
      requires Valid()
      modifies this`ignored
      ensures Valid()
      ensures ignored == old(ignored) + if commands == [] then {} else {|commands| - 1}
    {
      if |commands| > 0 {
        ignored := ignored + {|commands| - 1};
      }
    }

    method Clear()
      modifies this`commands, this`ignored
      ensures Valid() && commands == [] && ignored == {}
    {
      commands, ignored := [], {};
    }
  }

  // --------------------------------------------------------------- packed form

  /** The commands a pipeline sends, in order. */
  function Requests(cmds: seq<Stored>, atomic: bool): (vs: seq<Value>)
    requires forall i | 0 <= i < |cmds| :: Command.Valid(cmds[i])
  {
    if atomic then [Named("MULTI")] + Bodies(cmds) + [Named("EXEC")] else Bodies(cmds)
  }

  function Bodies(cmds: seq<Stored>): (vs: seq<Value>)
    requires forall i | 0 <= i < |cmds| :: Command.Valid(cmds[i])
    ensures |vs| == |cmds|
  {
    seq(|cmds|, i requires 0 <= i < |cmds| => Request(Args(cmds[i]), CursorOf(cmds[i])))
  }

  /** A command that is only a name. */
  function Named(name: string): Value {
    Request([Simple(Ascii(name))], 0)
  }

  method CmdNamed(name: string) returns (c: Stored)
    ensures Command.Valid(c) && Args(c) == [Simple(Ascii(name))] && CursorOf(c) == 0
  {
    var cmd := new Cmd();
    cmd.WriteArg(Ascii(name));
    c := cmd.View();
  }

  lemma {:induction false} EncodeConcat(vs: seq<Value>, ws: seq<Value>)
    ensures EncodeAll(vs + ws) == EncodeAll(vs) + EncodeAll(ws)
  {
    hide Encode, EncodeAll;
    if ws == [] {
      EmptyBulks();
      assert vs + ws == vs;
    } else {
      var init, w := ws[..|ws| - 1], ws[|ws| - 1];
      EncodeConcat(vs, init);
      EncodeOneMore(vs + init, w);
      EncodeOneMore(init, w);
      assert vs + init + [w] == vs + ws && init + [w] == ws;
    }
  }

  lemma {:induction false} EncodeSingle(v: Value)
    ensures EncodeAll([v]) == Encode(v)
  {
    EncodeOneMore([], v);
    assert [] + [v] == [v];
    assert EncodeAll([]) + Encode(v) == Encode(v);
  }

  /** The parts of an encoded transaction. */
  lemma {:induction false} RequestsEncode(cmds: seq<Stored>, atomic: bool)
    requires forall i | 0 <= i < |cmds| :: Command.Valid(cmds[i])
    ensures EncodeAll(Requests(cmds, atomic)) ==
            if atomic then Encode(Named("MULTI")) + EncodeAll(Bodies(cmds)) + Encode(Named("EXEC"))
            else EncodeAll(Bodies(cmds))
  {
    hide Encode, EncodeAll;
    var multi, exec := Named("MULTI"), Named("EXEC");
    EncodeSingle(multi);
    EncodeSingle(exec);
    EncodeConcat([multi], Bodies(cmds));
    EncodeConcat([multi] + Bodies(cmds), [exec]);
  }

  /**
   Appends the packed pipeline to `rv`. `reserved` is the space asked for
   beforehand: exactly the bytes that are then written.
   */
  method WritePipeline(rv: bytes, cmds: seq<Stored>, atomic: bool) returns (out: bytes, reserved: nat)
    requires forall i | 0 <= i < |cmds| :: Command.Valid(cmds[i])
    ensures out == rv + EncodeAll(Requests(cmds, atomic))
    ensures reserved == |out| - |rv|
  {
    hide Encode, EncodeAll, Bodies, Requests, Named;
    RequestsEncode(cmds, atomic);
    reserved := SumLengths(cmds);
    out := rv;
    if atomic {
      var multi := CmdNamed("MULTI");
      var exec := CmdNamed("EXEC");
      var multiLen := CmdLen(multi);
      var execLen := CmdLen(exec);
      reserved := multiLen + execLen + reserved;
      NamedIs("MULTI", multi);
      NamedIs("EXEC", exec);
      out := WriteCommand(out, Args(multi), CursorOf(multi));
      out := WriteAll(out, cmds);
      out := WriteCommand(out, Args(exec), CursorOf(exec));
      assert out == rv + (Encode(Named("MULTI")) + EncodeAll(Bodies(cmds)) + Encode(Named("EXEC")));
    } else {
      out := WriteAll(out, cmds);
    }
  }

  lemma {:induction false} NamedIs(name: string, c: Stored)
    requires Command.Valid(c) && Args(c) == [Simple(Ascii(name))] && CursorOf(c) == 0
    ensures Request(Args(c), CursorOf(c)) == Named(name) && Packed(c) == Encode(Named(name))
  {
    RequestIsShallow(Args(c), 0);
  }

  method SumLengths(cmds: seq<Stored>) returns (total: nat)
    requires forall i | 0 <= i < |cmds| :: Command.Valid(cmds[i])
    ensures total == |EncodeAll(Bodies(cmds))|
  {
    hide Encode, EncodeAll, Request;
    total := 0;
    EmptyBulks();
    assert Bodies(cmds)[..0] == [];
    for i := 0 to |cmds|
      invariant total == |EncodeAll(Bodies(cmds)[..i])|
    {
      EncodeOneMore(Bodies(cmds)[..i], Bodies(cmds)[i]);
      assert Bodies(cmds)[..i] + [Bodies(cmds)[i]] == Bodies(cmds)[..i + 1];
      var n := CmdLen(cmds[i]);
      total := total + n;
    }
    assert Bodies(cmds)[..|cmds|] == Bodies(cmds);
  }

  method WriteAll(rv: bytes, cmds: seq<Stored>) returns (out: bytes)
    requires forall i | 0 <= i < |cmds| :: Command.Valid(cmds[i])
    ensures out == rv + EncodeAll(Bodies(cmds))
  {
    hide Encode, EncodeAll, Request;
    out := rv;
    EmptyBulks();
    assert Bodies(cmds)[..0] == [];
    for i := 0 to |cmds|
      invariant out == rv + EncodeAll(Bodies(cmds)[..i])
    {
      EncodeOneMore(Bodies(cmds)[..i], Bodies(cmds)[i]);
      assert Bodies(cmds)[..i] + [Bodies(cmds)[i]] == Bodies(cmds)[..i + 1];
      out := WriteCommand(out, Args(cmds[i]), CursorOf(cmds[i]));
    }
    assert Bodies(cmds)[..|cmds|] == Bodies(cmds);
  }

  // ------------------------------------------------------------- wire round trip

  lemma {:induction false} DecodeEncoded(lv: Leaves, vs: seq<Value>, t: bytes)
    requires AcceptsAscii(lv) && WellFormedAll(lv, vs) && FrameDepthAll(vs) <= 100
    ensures DecodeAll(lv, EncodeAll(vs) + t) == Prepend(vs, DecodeAll(lv, t))
  {
    hide Parse, Encode, WellFormed, FrameDepth;
    if vs == [] {
      assert EncodeAll(vs) + t == t;
      PrependNothing(DecodeAll(lv, t));
    } else {
      var tail := EncodeAll(vs[1..]) + t;
      assert EncodeAll(vs) + t == Encode(vs[0]) + tail;
      ValueRoundTrip(lv, vs[0], tail);
      DecodeUnfolds(lv, EncodeAll(vs) + t);
      DecodeEncoded(lv, vs[1..], t);
      PrependAssoc([vs[0]], vs[1..], DecodeAll(lv, t));
      assert [vs[0]] + vs[1..] == vs;
    }
  }

  lemma {:induction false} BulksWellFormed(lv: Leaves, vs: seq<Value>)
    requires forall i | 0 <= i < |vs| :: vs[i].BulkString? && |vs[i].data| < TWO_63
    ensures WellFormedAll(lv, vs)
  {
    if vs == [] {
    } else {
      BulksWellFormed(lv, vs[1..]);
    }
  }

  lemma {:induction false} RequestsWellFormed(lv: Leaves, vs: seq<Value>)
    requires forall i | 0 <= i < |vs| :: IsRequest(vs[i])
    ensures WellFormedAll(lv, vs) && FrameDepthAll(vs) <= 2
  {
    if vs == [] {
    } else {
      BulksWellFormed(lv, vs[0].items);
      BulksAreShallow(vs[0].items);
      RequestsWellFormed(lv, vs[1..]);
    }
  }

  /** An array of bulk strings of machine size. */
  ghost predicate IsRequest(v: Value) {
    && v.Array? && |v.items| < TWO_63
    && forall i | 0 <= i < |v.items| :: v.items[i].BulkString? && |v.items[i].data| < TWO_63
  }

  /**
   A packed command followed by any bytes decodes to an array of its arguments, in order
   and byte for byte, with the cursor in its place, and leaves exactly those bytes.
   */
  lemma {:induction false} RequestCarries(lv: Leaves, c: Stored, t: bytes)
    requires AcceptsAscii(lv) && Command.Valid(c) && MachineSized(c)
    ensures var p := Parse(lv, Packed(c) + t); p.Done? && p.rest == t && Carries(p.value, c)
  {
    hide Args, MachineSized, IsRequest, Parse, Encode, Carries, AcceptsAscii, WellFormed, FrameDepth, Request;
    var v := Request(Args(c), CursorOf(c));
    RequestHolds(c);
    CommandIsRequest(c);
    RequestIsWellFormed(lv, v);
    ValueRoundTrip(lv, v, t);
  }

  lemma {:induction false} RequestIsWellFormed(lv: Leaves, v: Value)
    requires IsRequest(v)
    ensures WellFormed(lv, v) && FrameDepth(v) <= 2
  {
    BulksWellFormed(lv, v.items);
    BulksAreShallow(v.items);
  }

  /**
   The wire round trip: a packed pipeline followed by any bytes decodes to one array per
   command, holding its arguments and its cursor, MULTI first and EXEC last when atomic,
   and then to whatever the following bytes decode to.
   */
  lemma {:induction false} PipelineRoundTrip(lv: Leaves, cmds: seq<Stored>, atomic: bool, t: bytes)
    requires AcceptsAscii(lv)
    requires forall i | 0 <= i < |cmds| :: Command.Valid(cmds[i]) && MachineSized(cmds[i])
    ensures DecodeAll(lv, EncodeAll(Requests(cmds, atomic)) + t) == Prepend(Requests(cmds, atomic), DecodeAll(lv, t))
    ensures |Requests(cmds, atomic)| == |cmds| + if atomic then 2 else 0
    ensures forall i | 0 <= i < |cmds| ::
              Requests(cmds, atomic)[if atomic then i + 1 else i] == Request(Args(cmds[i]), CursorOf(cmds[i]))
    ensures forall i | 0 <= i < |cmds| :: Carries(Requests(cmds, atomic)[if atomic then i + 1 else i], cmds[i])
    ensures atomic ==>
              && Requests(cmds, atomic)[0] == Array([BulkString(Ascii("MULTI"))])
              && Requests(cmds, atomic)[|cmds| + 1] == Array([BulkString(Ascii("EXEC"))])
  {
    hide EncodeAll, WellFormedAll, FrameDepthAll, DecodeAll, Prepend, IsRequest, Carries, Args;
    var vs := Requests(cmds, atomic);
    forall i | 0 <= i < |vs| ensures IsRequest(vs[i]) {
      RequestAt(cmds, atomic, i);
    }
    RequestsWellFormed(lv, vs);
    DecodeEncoded(lv, vs, t);
    NamedHolds("MULTI");
    NamedHolds("EXEC");
    forall i | 0 <= i < |cmds| ensures Carries(vs[if atomic then i + 1 else i], cmds[i]) {
      RequestHolds(cmds[i]);
    }
  }

  lemma {:induction false} NamedHolds(name: string)
    ensures Named(name) == Array([BulkString(Ascii(name))])
  {
    assert Named(name).items == [BulkString(Ascii(name))];
  }

  lemma {:induction false} RequestAt(cmds: seq<Stored>, atomic: bool, i: nat)
    requires forall k | 0 <= k < |cmds| :: Command.Valid(cmds[k]) && MachineSized(cmds[k])
    requires i < |Requests(cmds, atomic)|
    ensures IsRequest(Requests(cmds, atomic)[i])
  {
    hide Args, MachineSized, IsRequest, Request, Named;
    var k := if atomic then i - 1 else i;
    if 0 <= k < |cmds| {
      CommandIsRequest(cmds[k]);
    } else {
      NameIsRequest(if i == 0 then "MULTI" else "EXEC");
    }
  }

  lemma {:induction false} CommandIsRequest(c: Stored)
    requires Command.Valid(c) && MachineSized(c)
    ensures IsRequest(Request(Args(c), CursorOf(c)))
  {
    hide ArgsFrom;
    forall i | 0 <= i < |c.args| ensures |Request(Args(c), CursorOf(c)).items[i].data| < TWO_63 {
      RequestIsSmall(c, i);
    }
  }

  lemma {:induction false} NameIsRequest(name: string)
    requires |name| < TWO_63
    ensures IsRequest(Named(name))
  {
  }

  // ------------------------------------------------------------ composing results

  /** What composition looks at in a pipeline. */
  datatype Options = Options(transaction: bool, ignored: set<nat>, ignoreErrors: bool)

  /** The replies that are not ignored; `base` is the index of the first one. */
  function Filter(resp: seq<Value>, ignored: set<nat>, base: nat := 0): seq<Value> {
    if resp == [] then []
    else
      var others := Filter(resp[1..], ignored, base + 1);
      if base in ignored then others else [resp[0]] + others
  }

  function FilterIgnoredResults(resp: seq<Value>, ignored: set<nat>): seq<Value> {
    if ignored == {} then resp else Filter(resp, ignored)
  }

  /** How many of the indices from `base` to `i` are not ignored. */
  function KeptBefore(ignored: set<nat>, base: nat, i: nat): nat
    requires base <= i
    decreases i - base
  {
    if base == i then 0 else (if base in ignored then 0 else 1) + KeptBefore(ignored, base + 1, i)
  }

  /**
   Filtering keeps exactly the replies whose index is not ignored, in order: the
   reply at `i` lands after the kept ones before it, and nothing else is there.
   */
  lemma {:induction false} FilterKeeps(resp: seq<Value>, ignored: set<nat>, base: nat, i: nat)
    requires i < |resp| && base + i !in ignored
    ensures |Filter(resp, ignored, base)| == KeptBefore(ignored, base, base + |resp|)
    ensures
      var k := KeptBefore(ignored, base, base + i);
      k < |Filter(resp, ignored, base)| && Filter(resp, ignored, base)[k] == resp[i]
  {
    FilterLength(resp[1..], ignored, base + 1);
    if i == 0 {
    } else {
      FilterKeeps(resp[1..], ignored, base + 1, i - 1);
    }
  }

  lemma {:induction false} FilterLength(resp: seq<Value>, ignored: set<nat>, base: nat)
    ensures |Filter(resp, ignored, base)| == KeptBefore(ignored, base, base + |resp|)
  {
    if resp == [] {
    } else {
      FilterLength(resp[1..], ignored, base + 1);
    }
  }

  /** The shortcut for an empty ignore set agrees with the filter. */
  lemma {:induction false} FilterNothing(resp: seq<Value>, base: nat)
    ensures Filter(resp, {}, base) == resp
  {
    if resp == [] {
    } else {
      FilterNothing(resp[1..], base + 1);
    }
  }

  /** The top-level errors with their positions. */
  function TopErrors(resp: seq<Value>, base: nat := 0): seq<(int, ServerError)> {
    if resp == [] then []
    else
      var others := TopErrors(resp[1..], base + 1);
      match resp[0]
      case Error(e) => [(base, e)] + others
      case _ => others
  }

  /** The list holds exactly the top-level errors, at their positions, in increasing order. */
  lemma {:induction false} TopErrorsExact(resp: seq<Value>, base: nat)
    ensures forall i, e :: (i, e) in TopErrors(resp, base) <==> base <= i < base + |resp| && resp[i - base] == Error(e)
    ensures forall a, b | 0 <= a < b < |TopErrors(resp, base)| ::
              TopErrors(resp, base)[a].0 < TopErrors(resp, base)[b].0
  {
    hide TopErrors;
    forall i, e
      ensures (i, e) in TopErrors(resp, base) <==> base <= i < base + |resp| && resp[i - base] == Error(e)
    {
      TopErrorListed(resp, base, i, e);
    }
    forall a, b | 0 <= a < b < |TopErrors(resp, base)|
      ensures TopErrors(resp, base)[a].0 < TopErrors(resp, base)[b].0
    {
      TopErrorsOrdered(resp, base, a, b);
    }
  }

  lemma {:induction false} TopErrorListed(resp: seq<Value>, base: nat, i: int, e: ServerError)
    ensures (i, e) in TopErrors(resp, base) <==> base <= i < base + |resp| && resp[i - base] == Error(e)
  {
    if resp == [] {
    } else {
      TopErrorListed(resp[1..], base + 1, i, e);
      var others := TopErrors(resp[1..], base + 1);
      assert (i, e) in TopErrors(resp, base) <==> (i, e) in others || (i == base && resp[0] == Error(e));
    }
  }

  lemma {:induction false} TopErrorsOrdered(resp: seq<Value>, base: nat, a: nat, b: nat)
    requires a < b < |TopErrors(resp, base)|
    ensures base <= TopErrors(resp, base)[a].0 < TopErrors(resp, base)[b].0
  {
    var others := TopErrors(resp[1..], base + 1);
    if !resp[0].Error? {
      TopErrorsOrdered(resp[1..], base + 1, a, b);
    } else if a == 0 {
      assert (others[b - 1].0, others[b - 1].1) in others;
      TopErrorListed(resp[1..], base + 1, others[b - 1].0, others[b - 1].1);
    } else {
      TopErrorsOrdered(resp[1..], base + 1, a - 1, b - 1);
    }
  }

  function Compose(o: Options, response: seq<Value>): Result<Value, RedisError> {
    var kept := FilterIgnoredResults(response, o.ignored);
    if o.ignoreErrors then Ok(Array(kept))
    else if TopErrors(response) == [] then ExtractError(Array(kept))
    else Err(PipelineErrors(TopErrors(response)))
  }

  function CompleteRequest(o: Options, response: seq<Value>): Result<Value, RedisError> {
    if !o.transaction then Compose(o, response)
    else if response == [] then Err(UnexpectedReturnType)
    else
      match response[|response| - 1]
      case Nil => Ok(Nil)
      case Array(items) => Compose(o, items)
      case _ => Err(UnexpectedReturnType)
  }

  /**
   Without `ignore_errors`: an error listing the top-level errors exactly when
   there is one, ignored positions included; otherwise the kept replies, exactly
   when no server error sits in them at any depth, and else the first such error.
   With `ignore_errors`: always the kept replies.
   */
  lemma {:induction false} ComposeExact(o: Options, response: seq<Value>)
    ensures
      var r, kept := Compose(o, response), Filter(response, o.ignored);
      if o.ignoreErrors then r == Ok(Array(kept))
      else if exists i | 0 <= i < |response| :: response[i].Error? then
        r == Err(PipelineErrors(TopErrors(response))) && TopErrors(response) != []
      else r == FirstErrorOr(ErrorsInAll(kept), Array(kept))
  {
    hide ErrorsIn, ExtractError, ErrorsInAll, TopErrors, Filter;
    if o.ignored == {} {
      FilterNothing(response, 0);
    }
    TopErrorsExact(response, 0);
    var kept := Filter(response, o.ignored);
    ExtractErrorExact(Array(kept));
    ErrorsOfArray(kept);
    assert forall i | 0 <= i < |response| && response[i].Error? :: (i, response[i].error) in TopErrors(response);
    assert TopErrors(response) != [] ==> (TopErrors(response)[0].0, TopErrors(response)[0].1) in TopErrors(response);
  }

  lemma {:induction false} ErrorsOfArray(vs: seq<Value>)
    ensures ErrorsIn(Array(vs)) == ErrorsInAll(vs)
  {
  }
}
