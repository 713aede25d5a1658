/**
 The two transaction functions as the loops they are, run among other clients: each
 takes exactly the steps of the interleaved system, so its theorems hold of them.
 */
module TransactionLoop {
  import opened Resp
  import opened Transaction

  /** `w` is where `steps[..used]` leads. */
  ghost predicate Reached(w0: World, steps: seq<Step>, used: nat, w: World) {
    Good(w0) && used <= |steps| && w == Run(w0, steps[..used])
  }

  lemma {:induction false} ReachedStep(w0: World, steps: seq<Step>, used: nat, w: World)
    requires Reached(w0, steps, used, w) && used < |steps|
    ensures Good(w) && Reached(w0, steps, used + 1, Next(w, steps[used]))
  {
    RunStep(w0, steps[..used], steps[used]);
    assert steps[..used] + [steps[used]] == steps[..used + 1];
  }

  lemma {:induction false} ReachedHonest(w0: World, steps: seq<Step>, used: nat, w: World, i: nat)
    requires Reached(w0, steps, used, w) && Accounted(w0) && Conserved(w0)
    requires i < |w.clients| && w.clients[i].pc.Returned?
    ensures Honest(Call(w.clients[i].pc.ok, w.clients[i].own))
  {
    RunAccounts(w0, steps[..used]);
    assert OwnFits(w.clients[i]);
  }

  /** The other clients run until it is client `i`'s turn. */
  method Turn(ghost w0: World, before: World, i: nat, steps: seq<Step>, from: nat)
    returns (w: World, used: nat, fate: Option<Fate>)
    requires Reached(w0, steps, from, before) && i < |before.clients|
    ensures Reached(w0, steps, used, w) && Good(w) && from <= used
    ensures |w.clients| == |before.clients| && w.clients[i] == before.clients[i]
    ensures match fate
            case Some(f) => used < |steps| && steps[used] == Step(i, f)
            case None => used == |steps|
  {
    hide Run, ClientStep;
    w, used, fate := before, from, None;
    while used < |steps| && steps[used].who != i
      invariant from <= used && Reached(w0, steps, used, w) && Good(w)
      invariant |w.clients| == |before.clients| && w.clients[i] == before.clients[i]
    {
      ReachedStep(w0, steps, used, w);
      w, used := Next(w, steps[used]), used + 1;
    }
    if used < |steps| {
      fate := Some(steps[used].fate);
    }
  }

  /** The caller's closure: read the counter, then write one more in MULTI/EXEC, or give up. */
  method Closure(ghost w0: World, before: World, i: nat, steps: seq<Step>, from: nat)
    returns (w: World, used: nat, verdict: Option<Verdict>)
    requires Reached(w0, steps, from, before) && Good(before) && i < |before.clients| && before.clients[i].pc == AtRead
    ensures Reached(w0, steps, used, w) && Good(w) && from <= used && |w.clients| == |before.clients|
    ensures match verdict
            case Some(v) =>
              from < used && w.clients[i].pc == AfterClosure(before.clients[i].mode, v)
              && w.clients[i].mode == before.clients[i].mode
            case None => used == |steps|
  {
    hide Run;
    var fate;
    w, used, fate := Turn(w0, before, i, steps, from);
    verdict := None;
    if fate.None? {
      return;
    }
    ReachedStep(w0, steps, used, w);
    var me, seen := w.clients[i], w.server.counter;
    used := used + 1;
    if fate.value != Answered {
      w, verdict := Advance(w, i, w.server, me.(pc := AfterClosure(me.mode, Failure))), Some(Failure);
      return;
    }
    w := Advance(w, i, w.server, me.(pc := AtExec(seen)));
    w, used, fate := Turn(w0, w, i, steps, used);
    if fate.None? {
      return;
    }
    ReachedStep(w0, steps, used, w);
    me, used := w.clients[i], used + 1;
    if fate.value == NeverSent || fate.value.GivesUp? {
      verdict := Some(if fate.value == GivesUp(false) then Retry else Failure);
      w := Advance(w, i, w.server, me.(pc := AfterClosure(me.mode, verdict.value)));
      return;
    }
    var stale := w.server.watch[me.conn] == Dirty;
    verdict := Some(if fate.value == ReplyLost then Failure else if stale then Retry else Success);
    w := Advance(w, i, ServeExec(w.server, me.conn, seen + 1),
               me.(pc := AfterClosure(me.mode, verdict.value), own := if stale then me.own else me.own + 1));
  }

  /** The blocking loop; `None` means that the run ended before the call did. */
  method BlockingTransaction(ghost w0: World, before: World, i: nat, steps: seq<Step>, from: nat)
    returns (w: World, used: nat, result: Option<bool>)
    requires Reached(w0, steps, from, before) && Good(before) && i < |before.clients|
    requires Accounted(w0) && Conserved(w0)
    requires before.clients[i].mode == Blocking && before.clients[i].pc == AtWatch
    ensures Reached(w0, steps, used, w) && |w.clients| == |before.clients|
    ensures match result
            case Some(ok) => w.clients[i].pc == Returned(ok) && Honest(Call(ok, w.clients[i].own))
            case None => used == |steps|
  {
    hide Run, Accounted, Conserved, Honest;
    w, used, result := before, from, None;
    while true
      invariant from <= used && Reached(w0, steps, used, w) && Good(w) && |w.clients| == |before.clients|
      invariant used <= |steps| && w.clients[i].mode == Blocking && w.clients[i].pc == AtWatch
      decreases |steps| - used
    {
      var fate, verdict;
      w, used, fate := Turn(w0, w, i, steps, used);
      if fate.None? {
        return;
      }
      ReachedStep(w0, steps, used, w);
      var me := w.clients[i];
      var server := if Sent(fate.value) then ServeWatch(w.server, me.conn) else w.server;
      used := used + 1;
      if fate.value != Answered {
        w, result := Advance(w, i, server, me.(pc := Returned(false))), Some(false);
        ReachedHonest(w0, steps, used, w, i);
        return;
      }
      w := Advance(w, i, server, me.(pc := AtRead));
      w, used, verdict := Closure(w0, w, i, steps, used);
      if verdict.None? {
        return;
      }
      if verdict.value == Failure {
        result := Some(false);
        ReachedHonest(w0, steps, used, w, i);
        return;
      }
      if verdict.value == Success {
        w, used, fate := Turn(w0, w, i, steps, used);
        if fate.None? {
          return;
        }
        ReachedStep(w0, steps, used, w);
        me := w.clients[i];
        server := if Sent(fate.value) then ServeUnwatch(w.server, me.conn) else w.server;
        result := Some(fate.value == Answered);
        w, used := Advance(w, i, server, me.(pc := Returned(result.value))), used + 1;
        ReachedHonest(w0, steps, used, w, i);
        return;
      }
    }
  }

  /** The asynchronous loop: UNWATCH after every closure, whatever comes of it. */
  method AsyncTransaction(ghost w0: World, before: World, i: nat, steps: seq<Step>, from: nat)
    returns (w: World, used: nat, result: Option<bool>)
    requires Reached(w0, steps, from, before) && Good(before) && i < |before.clients|
    requires Accounted(w0) && Conserved(w0)
    requires before.clients[i].mode == Asynchronous && before.clients[i].pc == AtWatch
    ensures Reached(w0, steps, used, w) && |w.clients| == |before.clients|
    ensures match result
            case Some(ok) => w.clients[i].pc == Returned(ok) && Honest(Call(ok, w.clients[i].own))
            case None => used == |steps|
  {
    hide Run, Accounted, Conserved, Honest;
    w, used, result := before, from, None;
    while true
      invariant from <= used && Reached(w0, steps, used, w) && Good(w) && |w.clients| == |before.clients|
      invariant used <= |steps| && w.clients[i].mode == Asynchronous && w.clients[i].pc == AtWatch
      decreases |steps| - used
    {
      var fate, verdict;
      w, used, fate := Turn(w0, w, i, steps, used);
      if fate.None? {
        return;
      }
      ReachedStep(w0, steps, used, w);
      var me := w.clients[i];
      var server := if Sent(fate.value) then ServeWatch(w.server, me.conn) else w.server;
      used := used + 1;
      if fate.value != Answered {
        w, result := Advance(w, i, server, me.(pc := Returned(false))), Some(false);
        ReachedHonest(w0, steps, used, w, i);
        return;
      }
      w := Advance(w, i, server, me.(pc := AtRead));
      w, used, verdict := Closure(w0, w, i, steps, used);
      if verdict.None? {
        return;
      }
      w, used, fate := Turn(w0, w, i, steps, used);
      if fate.None? {
        return;
      }
      ReachedStep(w0, steps, used, w);
      me := w.clients[i];
      server := if Sent(fate.value) then ServeUnwatch(w.server, me.conn) else w.server;
      used := used + 1;
      if verdict.value == Retry {
        w := Advance(w, i, server, me.(pc := AtWatch));
      } else {
        result := Some(verdict.value == Success);
        w := Advance(w, i, server, me.(pc := Returned(result.value)));
        ReachedHonest(w0, steps, used, w, i);
        return;
      }
    }
  }
}
