/**
 The concurrency limiter of the multiplexed connection: single requests take one
 permit, pipelines take as many as they can get up to their size.
 */
module Permits {
  import opened Resp

  /** How many permits a pipeline of `count` replies tries to hold. */
  function PermitVecCapacity(count: nat, limit: nat): (c: nat)
    ensures limit > 0 ==> var most := if count >= 1 then count else 1; c == if most <= limit then most else limit
  {
    var least := if count <= limit then count else limit;
    if least >= 1 then least else 1
  }

  class Semaphore {
    var free: nat

    constructor (n: nat)
      ensures free == n
    {
      free := n;
    }

    /** Waiting is over: there is a permit. */
    method Acquire()
      requires free > 0
      modifies this
      ensures free == old(free) - 1
    {
      free := free - 1;
    }

    method TryAcquire() returns (ok: bool)
      modifies this
      ensures ok == (old(free) > 0)
      ensures free == if ok then old(free) - 1 else old(free)
    {
      ok := free > 0;
      if ok {
        free := free - 1;
      }
    }
  }

  class ConcurrencyLimiter {
    const limit: nat
    const semaphore: Semaphore

    constructor (limit: nat)
      requires limit > 0
      ensures this.limit == limit && fresh(semaphore) && semaphore.free == limit
    {
      this.limit := limit;
      semaphore := new Semaphore(limit);
    }

    /** A pipeline's permits, when nobody interferes: all there are, up to its capacity. */
    method AcquireMany(count: nat) returns (permits: nat)
      requires 0 < semaphore.free <= limit
      modifies semaphore
      ensures permits + semaphore.free == old(semaphore.free)
      ensures permits == if PermitVecCapacity(count, limit) <= old(semaphore.free)
                         then PermitVecCapacity(count, limit) else old(semaphore.free)
    {
      var capacity := PermitVecCapacity(count, limit);
      semaphore.Acquire();
      permits := 1;
      for i := 1 to capacity
        invariant permits == i && permits + semaphore.free == old(semaphore.free)
      {
        var ok := semaphore.TryAcquire();
        if !ok {
          break;
        }
        permits := permits + 1;
      }
    }
  }

  /** No limit means no limiter; a limit of zero is refused. */
  method BuildConcurrencyLimiter(limit: Option<nat>) returns (r: Result<Option<ConcurrencyLimiter>, RedisError>)
    ensures r.Err? <==> limit == Some(0)
    ensures r.Ok? ==> (r.value.Some? <==> limit.Some?)
    ensures r.Ok? && r.value.Some? ==> r.value.value.limit == limit.value && r.value.value.semaphore.free == limit.value
  {
    match limit {
      case None =>
        r := Ok(None);
      case Some(n) =>
        if n == 0 {
          return Err(Client);
        }
        var l := new ConcurrencyLimiter(n);
        r := Ok(Some(l));
    }
  }

  // ------------------------------------------------------------- every interleaving

  datatype Job = Single | Pipelined(count: nat) | Bypassing

  /** Where a request stands; permits are given back on completion and on cancellation alike. */
  datatype Phase = Waiting | Gathering(held: nat) | Running(held: nat) | Over

  datatype Request = Request(job: Job, phase: Phase)

  datatype World = World(limit: nat, free: nat, requests: seq<Request>)

  /** Each `try_acquire` is a step of its own, so other requests come in between. */
  datatype Event = Submit(job: Job) | Acquire(i: nat) | TryOne(i: nat) | Leave(i: nat)

  function Held(r: Request): nat {
    match r.phase
    case Gathering(h) => h
    case Running(h) => h
    case _ => 0
  }

  function TotalHeld(rs: seq<Request>): nat {
    if rs == [] then 0 else Held(rs[0]) + TotalHeld(rs[1..])
  }

  function SetPhase(w: World, i: nat, phase: Phase, free: nat): World
    requires i < |w.requests|
  {
    w.(requests := w.requests[i := w.requests[i].(phase := phase)], free := free)
  }

  function Next(w: World, e: Event): World {
    if e.Submit? then
      w.(requests := w.requests + [Request(e.job, if e.job.Bypassing? then Running(0) else Waiting)])
    else if e.i >= |w.requests| then w
    else
      var r := w.requests[e.i];
      match e
      case Acquire(i) =>
        if r.phase != Waiting || w.free == 0 then w
        else SetPhase(w, i, if r.job.Single? then Running(1) else Gathering(1), w.free - 1)
      case TryOne(i) =>
        if !r.phase.Gathering? || !r.job.Pipelined? then w
        else if r.phase.held < PermitVecCapacity(r.job.count, w.limit) && w.free > 0 then
          SetPhase(w, i, Gathering(r.phase.held + 1), w.free - 1)
        else SetPhase(w, i, Running(r.phase.held), w.free)
      case Leave(i) => SetPhase(w, i, Over, w.free + Held(r))
  }

  function Run(limit: nat, events: seq<Event>): World {
    if events == [] then World(limit, limit, [])
    else Next(Run(limit, events[..|events| - 1]), events[|events| - 1])
  }

  /** A request past its first permit holds at least one and at most its capacity. */
  predicate Fits(r: Request, limit: nat) {
    match r.phase
    case Waiting => !r.job.Bypassing?
    case Gathering(h) => r.job.Pipelined? && 1 <= h <= PermitVecCapacity(r.job.count, limit)
    case Running(h) =>
      (match r.job
       case Single => h == 1
       case Pipelined(count) => 1 <= h <= PermitVecCapacity(count, limit)
       case Bypassing => h == 0)
    case Over => true
  }

  predicate Inv(w: World) {
    && w.limit > 0 && w.free + TotalHeld(w.requests) == w.limit
    && forall i | 0 <= i < |w.requests| :: Fits(w.requests[i], w.limit)
  }

  lemma {:induction false} TotalHeldUpdate(rs: seq<Request>, i: nat, r: Request)
    requires i < |rs|
    ensures TotalHeld(rs[i := r]) + Held(rs[i]) == TotalHeld(rs) + Held(r)
  {
    if i == 0 {
      assert rs[i := r][1..] == rs[1..];
    } else {
      TotalHeldUpdate(rs[1..], i - 1, r);
      assert rs[i := r][1..] == rs[1..][i - 1 := r];
    }
  }

  lemma {:induction false} TotalHeldAppend(rs: seq<Request>, r: Request)
    ensures TotalHeld(rs + [r]) == TotalHeld(rs) + Held(r)
  {
    if rs == [] {
      assert rs + [r] == [r];
    } else {
      TotalHeldAppend(rs[1..], r);
      assert (rs + [r])[1..] == rs[1..] + [r];
    }
  }

  lemma {:induction false} InvStep(w: World, e: Event)
    requires Inv(w)
    ensures Inv(Next(w, e)) && Next(w, e).limit == w.limit
  {
    hide TotalHeld, PermitVecCapacity;
    var v := Next(w, e);
    if e.Submit? {
      TotalHeldAppend(w.requests, v.requests[|w.requests|]);
    } else if e.i < |w.requests| {
      assert Fits(w.requests[e.i], w.limit);
      TotalHeldUpdate(w.requests, e.i, v.requests[e.i]);
      assert v.requests == w.requests[e.i := v.requests[e.i]];
    }
  }

  lemma {:induction false} RunInv(limit: nat, events: seq<Event>)
    requires limit > 0
    ensures Inv(Run(limit, events)) && Run(limit, events).limit == limit
  {
    hide Next, Fits;
    if events == [] {
    } else {
      RunInv(limit, events[..|events| - 1]);
      InvStep(Run(limit, events[..|events| - 1]), events[|events| - 1]);
    }
  }

  /** Requests that are past their first permit. */
  function InProgress(rs: seq<Request>): nat {
    if rs == [] then 0
    else
      var limited := !rs[0].job.Bypassing? && (rs[0].phase.Gathering? || rs[0].phase.Running?);
      (if limited then 1 else 0) + InProgress(rs[1..])
  }

  lemma {:induction false} EachHoldsOne(rs: seq<Request>, limit: nat)
    requires forall i | 0 <= i < |rs| :: Fits(rs[i], limit)
    ensures InProgress(rs) <= TotalHeld(rs)
  {
    if rs == [] {
    } else {
      assert Fits(rs[0], limit);
      EachHoldsOne(rs[1..], limit);
    }
  }

  lemma {:induction false} SomeoneHolds(rs: seq<Request>) returns (j: nat)
    requires TotalHeld(rs) > 0
    ensures j < |rs| && Held(rs[j]) > 0
  {
    if Held(rs[0]) > 0 {
      j := 0;
    } else {
      var k := SomeoneHolds(rs[1..]);
      j := k + 1;
    }
  }

  /**
   Over every interleaving of single, pipelined, bypassing and cancelled requests:
   held and free permits add up to the limit; a limited request in progress holds at
   least one and at most the smaller of its size and the limit; at most `limit` of
   them are in progress; and a request waits only while another one holds a permit.
   */
  lemma {:induction false} PermitsConserved(limit: nat, events: seq<Event>)
    requires limit > 0
    ensures
      var w := Run(limit, events);
      && w.free + TotalHeld(w.requests) == limit
      && (forall i | 0 <= i < |w.requests| :: Fits(w.requests[i], limit))
      && InProgress(w.requests) <= limit
      && (w.free == 0 ==> exists j | 0 <= j < |w.requests| :: Held(w.requests[j]) > 0 && w.requests[j].phase != Waiting)
  {
    hide Run, Fits;
    RunInv(limit, events);
    var w := Run(limit, events);
    EachHoldsOne(w.requests, limit);
    if w.free == 0 {
      var j := SomeoneHolds(w.requests);
      assert w.requests[j].phase != Waiting;
    }
  }

  /** A pipeline that starts with fewer permits than its capacity found none free. */
  lemma {:induction false} ShortOnlyWhenExhausted(limit: nat, events: seq<Event>, i: nat)
    requires limit > 0 && i < |Run(limit, events).requests|
    requires Run(limit, events).requests[i].phase.Gathering? && Run(limit, events).requests[i].job.Pipelined?
    ensures
      var w, v := Run(limit, events), Run(limit, events + [TryOne(i)]);
      var capacity := PermitVecCapacity(w.requests[i].job.count, limit);
      v.requests[i].phase.Running? <==> w.requests[i].phase.held == capacity || w.free == 0
  {
    hide PermitVecCapacity;
    RunInv(limit, events);
    var w := Run(limit, events);
    assert Fits(w.requests[i], limit);
    assert (events + [TryOne(i)])[..|events|] == events;
  }

  /** When all requests are over, every permit is back. */
  lemma {:induction false} AllPermitsReturn(limit: nat, events: seq<Event>)
    requires limit > 0
    requires forall i | 0 <= i < |Run(limit, events).requests| :: Run(limit, events).requests[i].phase == Over
    ensures Run(limit, events).free == limit
  {
    hide Run;
    RunInv(limit, events);
    NothingHeld(Run(limit, events).requests);
  }

  lemma {:induction false} NothingHeld(rs: seq<Request>)
    requires forall i | 0 <= i < |rs| :: rs[i].phase == Over
    ensures TotalHeld(rs) == 0
  {
    if rs == [] {
    } else {
      NothingHeld(rs[1..]);
    }
  }

  // -------------------------------------------------------------------- progress

  lemma {:induction false} RunStep(limit: nat, events: seq<Event>, e: Event)
    ensures Run(limit, events + [e]) == Next(Run(limit, events), e)
  {
    assert (events + [e])[..|events|] == events;
  }

  /** A request that needs no permit runs at once, any other one waits; nobody else notices. */
  lemma {:induction false} SubmissionWaits(limit: nat, events: seq<Event>, job: Job)
    ensures
      var w, v := Run(limit, events), Run(limit, events + [Submit(job)]);
      && v.free == w.free && v.requests[..|w.requests|] == w.requests && |v.requests| == |w.requests| + 1
      && v.requests[|w.requests|] == Request(job, if job == Bypassing then Running(0) else Waiting)
  {
    hide Run;
    RunStep(limit, events, Submit(job));
  }

  /** A waiting request gets a permit exactly if one is free; a single command then runs. */
  lemma {:induction false} WaiterServed(limit: nat, events: seq<Event>, i: nat)
    requires limit > 0 && i < |Run(limit, events).requests| && Run(limit, events).requests[i].phase == Waiting
    ensures
      var w, v := Run(limit, events), Run(limit, events + [Acquire(i)]);
      && |v.requests| == |w.requests| && (v.requests[i].phase != Waiting <==> w.free > 0)
      && (w.free > 0 ==>
            && v.free == w.free - 1 && Held(v.requests[i]) == 1
            && (w.requests[i].job == Single ==> v.requests[i].phase == Running(1)))
      && (w.free == 0 ==> v == w)
  {
    hide Run;
    RunStep(limit, events, Acquire(i));
    RunInv(limit, events);
    assert Fits(Run(limit, events).requests[i], limit);
  }

  /** Completion and cancellation give back all that was held. */
  lemma {:induction false} LeavingFrees(limit: nat, events: seq<Event>, i: nat)
    requires i < |Run(limit, events).requests|
    ensures
      var w, v := Run(limit, events), Run(limit, events + [Leave(i)]);
      && |v.requests| == |w.requests| && v.requests[i].phase == Over && Held(v.requests[i]) == 0
      && v.free == w.free + Held(w.requests[i])
      && forall j | 0 <= j < |w.requests| && j != i :: v.requests[j] == w.requests[j]
  {
    hide Run;
    RunStep(limit, events, Leave(i));
  }

  /** Whoever leaves in the second part of a run was running, so none was cut short. */
  ghost predicate OnlyFinished(limit: nat, events: seq<Event>, more: seq<Event>) {
    forall k | 0 <= k < |more| && more[k].Leave? ::
      more[k].i < |Run(limit, events + more[..k]).requests| &&
      Run(limit, events + more[..k]).requests[more[k].i].phase.Running?
  }

  /** Permits a pipeline may still try for. */
  function Missing(r: Request, limit: nat): int {
    if r.job.Pipelined? && r.phase.Gathering? then PermitVecCapacity(r.job.count, limit) - r.phase.held else 0
  }

  /** A pipeline that has its first permit starts on its own, whatever the others hold. */
  lemma {:induction false} GathererStarts(limit: nat, events: seq<Event>, i: nat) returns (more: seq<Event>)
    requires limit > 0 && i < |Run(limit, events).requests| && Run(limit, events).requests[i].phase.Gathering?
    ensures forall k | 0 <= k < |more| :: more[k] == TryOne(i)
    ensures
      var w, v := Run(limit, events), Run(limit, events + more);
      && |v.requests| == |w.requests| && v.requests[i].phase.Running? && v.requests[i].job == w.requests[i].job
      && forall j | 0 <= j < |w.requests| && j != i :: v.requests[j] == w.requests[j]
    decreases Missing(Run(limit, events).requests[i], limit)
  {
    hide Run, PermitVecCapacity;
    var w, e := Run(limit, events), TryOne(i);
    RunInv(limit, events);
    assert Fits(w.requests[i], limit);
    RunStep(limit, events, e);
    var v := Run(limit, events + [e]);
    if v.requests[i].phase.Running? {
      more := [e];
    } else {
      var later := GathererStarts(limit, events + [e], i);
      more := [e] + later;
      assert events + more == events + [e] + later;
    }
  }

  /**
   No deadlock: from every point of every run any waiting request can still get its permit
   while the others only finish what they do.
   */
  lemma {:induction false} NoDeadlock(limit: nat, events: seq<Event>, i: nat) returns (more: seq<Event>)
    requires limit > 0 && i < |Run(limit, events).requests| && Run(limit, events).requests[i].phase == Waiting
    ensures OnlyFinished(limit, events, more)
    ensures i < |Run(limit, events + more).requests| && Held(Run(limit, events + more).requests[i]) == 1
  {
    hide Run, PermitVecCapacity;
    var w := Run(limit, events);
    RunInv(limit, events);
    if w.free > 0 {
      WaiterServed(limit, events, i);
      more := [Acquire(i)];
    } else {
      var j := SomeoneHolds(w.requests);
      var start: seq<Event> := [];
      if w.requests[j].phase.Gathering? {
        start := GathererStarts(limit, events, j);
      } else {
        assert events + start == events;
      }
      var ready := events + start;
      RunInv(limit, ready);
      assert Fits(Run(limit, ready).requests[j], limit) && Fits(w.requests[j], limit);
      assert Held(Run(limit, ready).requests[j]) > 0 && Run(limit, ready).requests[j].phase.Running?;
      LeavingFrees(limit, ready, j);
      WaiterServed(limit, ready + [Leave(j)], i);
      more := start + [Leave(j)] + [Acquire(i)];
      assert events + more == ready + [Leave(j)] + [Acquire(i)];
      assert more[..|start|] == start && more[|start|] == Leave(j);
    }
  }
}
