/**
 Reconnection in the connection manager: commands and the disconnection listener
 race to replace a lost connection by compare-and-swap.
 */
module Manager {
  import opened Resp

  /** Why a replacement was attempted: a command failed, or a disconnection push came from `source`. */
  datatype Cause = CommandFailed(caller: nat) | Disconnected(source: nat)

  /** A successful swap of one connection generation for a new one. */
  datatype Swap = Swap(before: nat, after: nat, cause: Cause)

  /** The shared slot: the current generation, identities handed out, attempts started, and swaps made. */
  datatype Slot = Slot(connection: nat, issued: nat, spawned: seq<nat>, swaps: seq<Swap>)

  const INITIAL := Slot(0, 1, [], [])

  /** Build a new generation and put it in place of `guard`, if that is still there; only then start connecting. */
  function Reconnect(s: Slot, guard: nat, cause: Cause): Slot {
    var id := s.issued;
    if s.connection == guard then
      Slot(id, id + 1, s.spawned + [id], s.swaps + [Swap(guard, id, cause)])
    else s.(issued := id + 1)
  }

  class ConnectionManager {
    var slot: Slot
    var forwarded: seq<PushKind>

    constructor ()
      ensures slot == INITIAL && forwarded == []
    {
      slot, forwarded := INITIAL, [];
    }

    /** The compare-and-swap, then the decision to connect from the value it found. */
    method TryReconnect(guard: nat, cause: Cause)
      modifies this`slot
      ensures slot == Reconnect(old(slot), guard, cause)
    {
      var id, prev := slot.issued, slot.connection;
      slot := slot.(issued := id + 1);
      if slot.connection == guard {
        slot := slot.(connection := id, swaps := slot.swaps + [Swap(guard, id, cause)]);
      }
      if prev == guard {
        slot := slot.(spawned := slot.spawned + [id]);
      }
    }

    /** The listener's loop: reconnect on each disconnection, hand every push on if there is someone to take it. */
    method CheckForDisconnectPushes(pushes: seq<PushKind>, source: nat, hasSender: bool)
      requires Chain(slot.swaps, slot.connection) && Sound(slot)
      modifies this
      ensures forwarded == old(forwarded) + if hasSender then pushes else []
      ensures Chain(slot.swaps, slot.connection) && Sound(slot)
      ensures |slot.swaps| == |old(slot).swaps| + multiset(pushes)[Disconnection]
    {
      hide Chain;
      for i := 0 to |pushes|
        invariant forwarded == old(forwarded) + if hasSender then pushes[..i] else []
        invariant Chain(slot.swaps, slot.connection) && Sound(slot)
        invariant |slot.swaps| == |old(slot).swaps| + multiset(pushes[..i])[Disconnection]
      {
        assert pushes[..i + 1] == pushes[..i] + [pushes[i]];
        if pushes[i] == Disconnection {
          ReconnectKeeps(slot, slot.connection, Disconnected(source));
          TryReconnect(slot.connection, Disconnected(source));
        }
        if hasSender {
          forwarded := forwarded + [pushes[i]];
        }
      }
      assert pushes[..|pushes|] == pushes;
    }
  }

  // -------------------------------------------------------- the chain of generations

  /** The swaps lead from generation 0 to `last`, each one replacing what the one before put there. */
  predicate Chain(swaps: seq<Swap>, last: nat)
    decreases |swaps|
  {
    if swaps == [] then last == 0
    else
      var s := swaps[|swaps| - 1];
      s.after == last && s.before < s.after && Chain(swaps[..|swaps| - 1], s.before)
  }

  /** Attempts started are exactly the swaps, and identities are never reused. */
  predicate Sound(s: Slot) {
    && s.connection < s.issued && |s.spawned| == |s.swaps|
    && forall k | 0 <= k < |s.swaps| :: s.spawned[k] == s.swaps[k].after
  }

  lemma {:induction false} ReconnectKeeps(s: Slot, guard: nat, cause: Cause)
    requires Chain(s.swaps, s.connection) && Sound(s)
    ensures
      var t := Reconnect(s, guard, cause);
      && Chain(t.swaps, t.connection) && Sound(t)
      && (guard <= s.connection ==> guard < t.connection)
      && (s.connection == guard ==> t.swaps == s.swaps + [Swap(guard, t.connection, cause)])
      && (s.connection != guard ==> t == s.(issued := t.issued))
  {
    var swap := Swap(guard, s.issued, cause);
    assert (s.swaps + [swap])[..|s.swaps|] == s.swaps;
  }

  /** Along a chain generations only grow, so none is replaced twice. */
  lemma {:induction false} OneSuccessor(swaps: seq<Swap>, last: nat)
    requires Chain(swaps, last)
    ensures forall a | 0 <= a < |swaps| :: swaps[a].before < swaps[a].after <= last
    ensures forall a, b | 0 <= a < b < |swaps| :: swaps[a].after <= swaps[b].before && swaps[a].before < swaps[b].before
  {
    if swaps == [] {
    } else {
      var init, s := swaps[..|swaps| - 1], swaps[|swaps| - 1];
      OneSuccessor(init, s.before);
      assert forall a | 0 <= a < |init| :: init[a] == swaps[a];
    }
  }

  // ------------------------------------------------------------------- every run

  /** Callers hold the generation they loaded; the listener also knows who sent the push. */
  datatype World = World(slot: Slot, guards: map<nat, nat>, listener: Option<(nat, nat)>, reported: set<nat>)

  /** Loading and swapping are separate steps, so anything can happen in between. */
  datatype Event =
    | Load(caller: nat)
    | Succeed(caller: nat)
    | Fail(caller: nat)
    | PushArrives(source: nat)
    | PushSwaps

  function Next(w: World, e: Event): World {
    match e
    case Load(i) => w.(guards := w.guards[i := w.slot.connection])
    case Succeed(i) => w.(guards := w.guards - {i})
    case Fail(i) =>
      if i !in w.guards then w
      else
        World(Reconnect(w.slot, w.guards[i], CommandFailed(i)), w.guards - {i}, w.listener, w.reported + {w.guards[i]})
    case PushArrives(source) => w.(listener := Some((source, w.slot.connection)))
    case PushSwaps =>
      if w.listener.None? then w
      else
        var (source, guard) := w.listener.value;
        World(Reconnect(w.slot, guard, Disconnected(source)), w.guards, None, w.reported + {guard})
  }

  function Run(events: seq<Event>): World {
    if events == [] then World(INITIAL, map[], None, {})
    else Next(Run(events[..|events| - 1]), events[|events| - 1])
  }

  /** Every generation there has been. */
  predicate Existed(s: Slot, g: nat) {
    g == s.connection || exists k | 0 <= k < |s.swaps| :: s.swaps[k].before == g
  }

  ghost predicate Replaced(s: Slot, g: nat) {
    exists k | 0 <= k < |s.swaps| :: s.swaps[k].before == g
  }

  ghost predicate Inv(w: World) {
    && Chain(w.slot.swaps, w.slot.connection) && Sound(w.slot)
    && (forall i | i in w.guards :: Existed(w.slot, w.guards[i]))
    && (w.listener.Some? ==> Existed(w.slot, w.listener.value.1))
    && (forall g :: g in w.reported <==> Replaced(w.slot, g))
  }

  lemma {:induction false} ReconnectTracks(s: Slot, guard: nat, cause: Cause, g: nat)
    requires Chain(s.swaps, s.connection) && Sound(s) && Existed(s, guard)
    ensures
      var t := Reconnect(s, guard, cause);
      && (Existed(s, g) ==> Existed(t, g))
      && (Replaced(t, g) <==> Replaced(s, g) || g == guard)
  {
    var t := Reconnect(s, guard, cause);
    if s.connection == guard {
      assert t.swaps[|s.swaps|].before == guard;
      assert forall k | 0 <= k < |s.swaps| :: t.swaps[k] == s.swaps[k];
    }
  }

  lemma {:induction false} InvStep(w: World, e: Event)
    requires Inv(w)
    ensures Inv(Next(w, e))
  {
    hide Chain, Sound, Existed, Replaced, Reconnect;
    if e.Fail? && e.caller in w.guards {
      var guard, cause := w.guards[e.caller], CommandFailed(e.caller);
      ReconnectKeeps(w.slot, guard, cause);
      forall g ensures Existed(w.slot, g) ==> Existed(Reconnect(w.slot, guard, cause), g) {
        ReconnectTracks(w.slot, guard, cause, g);
      }
      forall g ensures Replaced(Reconnect(w.slot, guard, cause), g) <==> Replaced(w.slot, g) || g == guard {
        ReconnectTracks(w.slot, guard, cause, g);
      }
    } else if e.PushSwaps? && w.listener.Some? {
      var (source, guard) := w.listener.value;
      var cause := Disconnected(source);
      ReconnectKeeps(w.slot, guard, cause);
      forall g ensures Existed(w.slot, g) ==> Existed(Reconnect(w.slot, guard, cause), g) {
        ReconnectTracks(w.slot, guard, cause, g);
      }
      forall g ensures Replaced(Reconnect(w.slot, guard, cause), g) <==> Replaced(w.slot, g) || g == guard {
        ReconnectTracks(w.slot, guard, cause, g);
      }
    } else {
      CurrentExists(w.slot);
    }
  }

  lemma {:induction false} CurrentExists(s: Slot)
    ensures Existed(s, s.connection)
  {
  }

  lemma {:induction false} RunInv(events: seq<Event>)
    ensures Inv(Run(events))
  {
    hide Next;
    if events == [] {
    } else {
      RunInv(events[..|events| - 1]);
      InvStep(Run(events[..|events| - 1]), events[|events| - 1]);
    }
  }

  /** The generations that were replaced. */
  function Befores(swaps: seq<Swap>): set<nat> {
    set k | 0 <= k < |swaps| :: swaps[k].before
  }

  lemma {:induction false} DistinctBefores(swaps: seq<Swap>, last: nat)
    requires Chain(swaps, last)
    ensures |Befores(swaps)| == |swaps|
  {
    if swaps == [] {
    } else {
      var init, s := swaps[..|swaps| - 1], swaps[|swaps| - 1];
      DistinctBefores(init, s.before);
      OneSuccessor(swaps, last);
      assert Befores(swaps) == Befores(init) + {s.before} by {
        assert forall k | 0 <= k < |init| :: init[k] == swaps[k];
      }
    }
  }

  /**
   Over every interleaving: the generations form a chain in which none has two
   successors; connection attempts started are exactly the swaps; a generation has
   been replaced exactly if someone who had loaded it reported it lost, so there are
   as many attempts as lost generations, however many reported each.
   */
  lemma {:induction false} SingleFlight(events: seq<Event>)
    ensures
      var w := Run(events);
      var swaps := w.slot.swaps;
      && Chain(swaps, w.slot.connection)
      && (forall a, b | 0 <= a < b < |swaps| :: swaps[a].before != swaps[b].before)
      && |w.slot.spawned| == |swaps| && (forall k | 0 <= k < |swaps| :: w.slot.spawned[k] == swaps[k].after)
      && Befores(swaps) == w.reported && |swaps| == |w.reported|
  {
    hide Run, Chain;
    RunInv(events);
    var w := Run(events);
    OneSuccessor(w.slot.swaps, w.slot.connection);
    DistinctBefores(w.slot.swaps, w.slot.connection);
    assert forall g :: Replaced(w.slot, g) <==> g in Befores(w.slot.swaps);
  }

  /** A command's failure replaces the generation it loaded if that is still current, and otherwise changes nothing. */
  lemma {:induction false} FailureReplacesItsOwn(events: seq<Event>, i: nat)
    requires i in Run(events).guards
    ensures
      var w, t := Run(events), Run(events + [Fail(i)]);
      && w.guards[i] <= w.slot.connection && w.guards[i] < t.slot.connection
      && (w.guards[i] < w.slot.connection ==> t.slot.connection == w.slot.connection && t.slot.swaps == w.slot.swaps)
      && (w.guards[i] == w.slot.connection ==>
            t.slot.swaps == w.slot.swaps + [Swap(w.guards[i], t.slot.connection, CommandFailed(i))])
  {
    hide Chain;
    RunInv(events);
    var w := Run(events);
    assert (events + [Fail(i)])[..|events|] == events;
    OneSuccessor(w.slot.swaps, w.slot.connection);
    assert Existed(w.slot, w.guards[i]);
    ReconnectKeeps(w.slot, w.guards[i], CommandFailed(i));
  }

  /** Every swap a command made replaced the generation that command had loaded. */
  lemma {:induction false} CommandSwapsWhatItLoaded(events: seq<Event>, k: nat)
    requires k < |Run(events).slot.swaps| && Run(events).slot.swaps[k].cause.CommandFailed?
    ensures
      var swap := Run(events).slot.swaps[k];
      exists n | 0 <= n < |events| ::
        && events[n] == Fail(swap.cause.caller)
        && swap.cause.caller in Run(events[..n]).guards && Run(events[..n]).guards[swap.cause.caller] == swap.before
  {
    hide Run, Reconnect;
    var last := |events| - 1;
    EmptyRun();
    assert events != [];
    var init, e := events[..last], events[last];
    assert events == init + [e];
    RunStep(init, e);
    var w := Run(init);
    if k < |w.slot.swaps| {
      SwapsKeep(init, e, k);
      CommandSwapsWhatItLoaded(init, k);
      var swap := w.slot.swaps[k];
      var n :| 0 <= n < |init| && init[n] == Fail(swap.cause.caller) &&
               swap.cause.caller in Run(init[..n]).guards && Run(init[..n]).guards[swap.cause.caller] == swap.before;
      assert init[..n] == events[..n] && events[n] == init[n];
    } else {
      NewSwap(init, e, k);
    }
  }

  lemma {:induction false} EmptyRun()
    ensures Run([]).slot.swaps == []
  {
  }

  lemma {:induction false} SwapsKeep(events: seq<Event>, e: Event, k: nat)
    requires k < |Run(events).slot.swaps|
    ensures k < |Run(events + [e]).slot.swaps| && Run(events + [e]).slot.swaps[k] == Run(events).slot.swaps[k]
  {
    hide Run;
    RunStep(events, e);
  }

  /** A swap that a command made is of the generation in its guard. */
  lemma {:induction false} NewSwap(events: seq<Event>, e: Event, k: nat)
    requires |Run(events).slot.swaps| <= k < |Run(events + [e]).slot.swaps|
    requires Run(events + [e]).slot.swaps[k].cause.CommandFailed?
    ensures
      var w, swap := Run(events), Run(events + [e]).slot.swaps[k];
      e == Fail(swap.cause.caller) && e.caller in w.guards && w.guards[e.caller] == swap.before
  {
    hide Run;
    RunStep(events, e);
  }

  lemma {:induction false} RunStep(events: seq<Event>, e: Event)
    ensures Run(events + [e]) == Next(Run(events), e)
  {
    assert (events + [e])[..|events|] == events;
  }

  /** A swap puts a newer generation in place, anything else leaves the current one. */
  lemma {:induction false} SwapsMoveForward(events: seq<Event>, e: Event)
    ensures
      var s, t := Run(events).slot, Run(events + [e]).slot;
      || (t.connection == s.connection && t.swaps == s.swaps)
      || (t.connection > s.connection && |t.swaps| == |s.swaps| + 1)
  {
    hide Run, Chain;
    RunInv(events);
    RunStep(events, e);
    var w := Run(events);
    if e.Fail? && e.caller in w.guards {
      ReconnectKeeps(w.slot, w.guards[e.caller], CommandFailed(e.caller));
    } else if e.PushSwaps? && w.listener.Some? {
      ReconnectKeeps(w.slot, w.listener.value.1, Disconnected(w.listener.value.0));
    }
  }

  /** Over any stretch of a run the same generation is current exactly if there was no swap. */
  lemma {:induction false} SameGeneration(events: seq<Event>, more: seq<Event>)
    ensures
      var s, t := Run(events).slot, Run(events + more).slot;
      && s.connection <= t.connection && |s.swaps| <= |t.swaps|
      && (s.connection == t.connection <==> |s.swaps| == |t.swaps|)
  {
    hide Run;
    if more == [] {
      assert events + more == events;
    } else {
      var init, e := more[..|more| - 1], more[|more| - 1];
      SameGeneration(events, init);
      SwapsMoveForward(events + init, e);
      assert events + init + [e] == events + more;
    }
  }

  /** While the listener is between its load and its swap. */
  predicate Undisturbed(more: seq<Event>) {
    forall i | 0 <= i < |more| :: !more[i].PushArrives? && !more[i].PushSwaps?
  }

  lemma {:induction false} ListenerKeeps(events: seq<Event>, more: seq<Event>)
    requires Undisturbed(more)
    ensures Run(events + more).listener == Run(events).listener
  {
    hide Run, Reconnect;
    if more == [] {
      assert events + more == events;
    } else {
      var init, e := more[..|more| - 1], more[|more| - 1];
      ListenerKeeps(events, init);
      RunStep(events + init, e);
      assert events + init + [e] == events + more;
    }
  }

  /**
   The listener loads afresh. Over every run: handling the push of a disconnected
   `source` replaces some other generation if and only if `source` was no longer
   current when the push was taken in, and no swap came before the listener's own.
   */
  lemma {:induction false} PushReplacesAnother(events: seq<Event>, source: nat, more: seq<Event>)
    requires Undisturbed(more)
    ensures
      var start, before := Run(events).slot, Run(events + [PushArrives(source)] + more).slot;
      var after := Run(events + [PushArrives(source)] + more + [PushSwaps]).slot;
      (after.connection != before.connection && before.connection != source) <==>
      (start.connection != source && |before.swaps| == |start.swaps|)
  {
    hide Run, Chain;
    var taken := events + [PushArrives(source)];
    RunStep(events, PushArrives(source));
    ListenerKeeps(taken, more);
    SameGeneration(taken, more);
    RunStep(taken + more, PushSwaps);
    RunInv(taken + more);
    ReconnectKeeps(Run(taken + more).slot, Run(events).slot.connection, Disconnected(source));
  }

  /** It does happen: a command has already replaced generation 0 when its disconnection is handled. */
  lemma {:induction false} HealthyConnectionReplaced()
    ensures Run([Load(0), Fail(0), PushArrives(0), PushSwaps]).slot.swaps ==
            [Swap(0, 1, CommandFailed(0)), Swap(1, 2, Disconnected(0))]
  {
    var a, b, c, d := [Load(0)], [Load(0), Fail(0)], [Load(0), Fail(0), PushArrives(0)],
                      [Load(0), Fail(0), PushArrives(0), PushSwaps];
    assert a[..0] == [] && b[..1] == a && c[..2] == b && d[..3] == c;
    assert Run(a) == World(INITIAL, map[0 := 0], None, {});
    assert Run(b).slot == Slot(1, 2, [1], [Swap(0, 1, CommandFailed(0))]);
    assert Run(c).listener == Some((0, 1)) && Run(c).slot == Run(b).slot;
    assert Run(d) == Next(Run(c), PushSwaps);
  }

  // ------------------------------------------------------- commands and what they load

  /** Nothing this caller does. */
  predicate NotOf(more: seq<Event>, i: nat) {
    forall k | 0 <= k < |more| :: more[k] != Load(i) && more[k] != Succeed(i) && more[k] != Fail(i)
  }

  lemma {:induction false} GuardKeeps(events: seq<Event>, more: seq<Event>, i: nat)
    requires NotOf(more, i) && i in Run(events).guards
    ensures i in Run(events + more).guards && Run(events + more).guards[i] == Run(events).guards[i]
  {
    hide Run, Reconnect;
    if more == [] {
      assert events + more == events;
    } else {
      var init, e := more[..|more| - 1], more[|more| - 1];
      GuardKeeps(events, init, i);
      RunStep(events + init, e);
      assert events + init + [e] == events + more;
    }
  }

  /**
   Over every run: a command that loads the connection, is overtaken by anything, and then
   fails replaces the generation that was current when it loaded, if and only if nobody
   replaced that one in between; a command that succeeds replaces nothing, and neither does
   one that is over.
   */
  lemma {:induction false} CommandReplacesLoaded(events: seq<Event>, i: nat, more: seq<Event>)
    requires NotOf(more, i)
    ensures
      var loaded := Run(events).slot.connection;
      var before := Run(events + [Load(i)] + more).slot;
      var after := Run(events + [Load(i)] + more + [Fail(i)]).slot;
      && (|before.swaps| == |Run(events).slot.swaps| ==>
            after.swaps == before.swaps + [Swap(loaded, after.connection, CommandFailed(i))])
      && (|before.swaps| != |Run(events).slot.swaps| ==>
            after.swaps == before.swaps && after.connection == before.connection)
      && Run(events + [Load(i)] + more + [Succeed(i)]).slot == before
      && Run(events + [Load(i)] + more + [Succeed(i)] + [Fail(i)]).slot == before
      && Run(events + [Load(i)] + more + [Fail(i)] + [Fail(i)]).slot == after
  {
    hide Run, Chain;
    var taken := events + [Load(i)];
    RunStep(events, Load(i));
    GuardKeeps(taken, more, i);
    SameGeneration(taken, more);
    RunStep(taken + more, Fail(i));
    RunStep(taken + more, Succeed(i));
    RunStep(taken + more + [Succeed(i)], Fail(i));
    RunStep(taken + more + [Fail(i)], Fail(i));
    RunInv(taken + more);
    ReconnectKeeps(Run(taken + more).slot, Run(events).slot.connection, CommandFailed(i));
  }
}
