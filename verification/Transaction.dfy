/**
 The optimistic transaction loop: WATCH, read, write in MULTI/EXEC, retry. Clients
 that each increment one counter through it are interleaved in every possible way,
 with requests and replies lost anywhere.
 */
module Transaction {
  import opened Resp

  // ------------------------------------------------------------------ the server

  /** What the server remembers about WATCH on one connection. */
  datatype Watch = Free | Clean | Dirty

  /** The counter, the number of committed EXECs, and the watch of each connection. */
  datatype Server = Server(counter: int, commits: nat, watch: seq<Watch>)

  /** A write dirties every connection that watches. */
  function Touch(watch: seq<Watch>): seq<Watch> {
    seq(|watch|, c requires 0 <= c < |watch| => if watch[c] == Clean then Dirty else watch[c])
  }

  function ServeWatch(sv: Server, c: nat): Server
    requires c < |sv.watch|
  {
    if sv.watch[c] == Free then sv.(watch := sv.watch[c := Clean]) else sv
  }

  function ServeUnwatch(sv: Server, c: nat): Server
    requires c < |sv.watch|
  {
    sv.(watch := sv.watch[c := Free])
  }

  /** EXEC of one SET: discarded if a watched key changed; either way the watch is gone. */
  function ServeExec(sv: Server, c: nat, value: int): Server
    requires c < |sv.watch|
  {
    var released := sv.watch[c := Free];
    if sv.watch[c] == Dirty then sv.(watch := released)
    else Server.Server(value, sv.commits + 1, Touch(released))
  }

  // ----------------------------------------------------------------- the clients

  /** The blocking loop and the asynchronous one. */
  datatype Mode = Blocking | Asynchronous

  /** What the caller's closure hands back: a result, a reason to retry, or an error. */
  datatype Verdict = Success | Retry | Failure

  /** The next thing a client does. */
  datatype Pc =
    | Idle
    | AtWatch
    | AtRead
    | AtExec(seen: int)
    | AtUnwatch(verdict: Verdict)
    | Returned(ok: bool)

  /** A client, its connection, and how many EXECs its current call has committed. */
  datatype Client = Client(conn: nat, mode: Mode, pc: Pc, own: nat)

  /** What becomes of a request; the closure may also give up instead of sending EXEC. */
  datatype Fate = Answered | ReplyLost | NeverSent | GivesUp(error: bool)

  /** A finished call: what it returned and how often it committed. */
  datatype Call = Call(ok: bool, commits: nat)

  /** The server and one client after that client's step. */
  datatype Local = Local(server: Server, client: Client)

  predicate Sent(f: Fate) {
    f == Answered || f == ReplyLost
  }

  /** The closure is done: the blocking loop only sends UNWATCH for a result. */
  function AfterClosure(mode: Mode, verdict: Verdict): Pc {
    if mode == Asynchronous || verdict == Success then AtUnwatch(verdict)
    else if verdict == Retry then AtWatch
    else Returned(false)
  }

  /** UNWATCH is done: the blocking loop insists on its reply, the other ignores it. */
  function AfterUnwatch(mode: Mode, verdict: Verdict, f: Fate): Pc {
    if mode == Blocking then Returned(f == Answered)
    else
      match verdict
      case Success => Returned(true)
      case Retry => AtWatch
      case Failure => Returned(false)
  }

  function ExecStep(sv: Server, c: Client, seen: int, f: Fate): Local
    requires c.conn < |sv.watch|
  {
    if Sent(f) then
      var stale := sv.watch[c.conn] == Dirty;
      var verdict := if f == ReplyLost then Failure else if stale then Retry else Success;
      Local(ServeExec(sv, c.conn, seen + 1),
            c.(pc := AfterClosure(c.mode, verdict), own := if stale then c.own else c.own + 1))
    else
      Local(sv, c.(pc := AfterClosure(c.mode, if f == GivesUp(false) then Retry else Failure)))
  }

  /** One step of one client, and the server's part in it. */
  function ClientStep(sv: Server, c: Client, f: Fate): Local
    requires c.conn < |sv.watch|
  {
    match c.pc
    case Idle => Local(sv, c.(pc := AtWatch, own := 0))
    case Returned(_) => Local(sv, c.(pc := AtWatch, own := 0))
    case AtWatch =>
      Local(if Sent(f) then ServeWatch(sv, c.conn) else sv, c.(pc := if f == Answered then AtRead else Returned(false)))
    case AtRead =>
      Local(sv, c.(pc := if f == Answered then AtExec(sv.counter) else AfterClosure(c.mode, Failure)))
    case AtExec(seen) => ExecStep(sv, c, seen, f)
    case AtUnwatch(verdict) =>
      Local(if Sent(f) then ServeUnwatch(sv, c.conn) else sv, c.(pc := AfterUnwatch(c.mode, verdict, f)))
  }

  // -------------------------------------------------------------------- whole runs

  datatype World = World(server: Server, clients: seq<Client>, finished: seq<Call>)

  datatype Step = Step(who: nat, fate: Fate)

  predicate Good(w: World) {
    forall i | 0 <= i < |w.clients| :: w.clients[i].conn < |w.server.watch|
  }

  /** The world after client `i` moved; a call that returns goes into the record. */
  function Advance(w: World, i: nat, server: Server, client: Client): World
    requires i < |w.clients|
  {
    World(server, w.clients[i := client],
          if client.pc.Returned? then w.finished + [Call(client.pc.ok, client.own)] else w.finished)
  }

  function Next(w: World, s: Step): World
    requires Good(w)
  {
    if s.who >= |w.clients| then w
    else
      var l := ClientStep(w.server, w.clients[s.who], s.fate);
      Advance(w, s.who, l.server, l.client)
  }

  /** A whole run; every interleaving with every loss is some `steps`. */
  function Run(w: World, steps: seq<Step>): (v: World)
    requires Good(w)
    ensures Good(v) && SamePopulation(w, v)
    decreases |steps|
  {
    if steps == [] then w
    else
      var before := Run(w, steps[..|steps| - 1]);
      StepKeepsPopulation(before, steps[|steps| - 1]);
      Next(before, steps[|steps| - 1])
  }

  predicate SamePopulation(w: World, v: World) {
    && |v.clients| == |w.clients| && |v.server.watch| == |w.server.watch|
    && forall i | 0 <= i < |w.clients| ::
         v.clients[i].conn == w.clients[i].conn && v.clients[i].mode == w.clients[i].mode
  }

  lemma {:induction false} StepKeepsPopulation(w: World, s: Step)
    requires Good(w)
    ensures Good(Next(w, s)) && SamePopulation(w, Next(w, s))
  {
  }

  lemma {:induction false} RunStep(w: World, steps: seq<Step>, s: Step)
    requires Good(w)
    ensures Run(w, steps + [s]) == Next(Run(w, steps), s)
  {
    assert (steps + [s])[..|steps|] == steps;
  }

  /** Clients on existing connections. */
  predicate Connected(clients: seq<Client>, connections: nat) {
    forall i | 0 <= i < |clients| :: clients[i].conn < connections
  }

  /** Before a run: nobody watches, nobody has called. */
  function Start(clients: seq<Client>, connections: nat, counter: int): (w: World)
    requires Connected(clients, connections)
    ensures Good(w)
  {
    World(Server.Server(counter, 0, seq(connections, _ => Free)),
          seq(|clients|, i requires 0 <= i < |clients| => clients[i].(pc := Idle, own := 0)), [])
  }

  // ------------------------------------------------------ at most one commit a call

  /** How often the current call can have committed, by what it does next. */
  predicate OwnFits(c: Client) {
    match c.pc
    case Idle => c.own == 0
    case AtWatch => c.own == 0
    case AtRead => c.own == 0
    case AtExec(_) => c.own == 0
    case AtUnwatch(Success) => c.own == 1
    case AtUnwatch(Retry) => c.mode == Asynchronous && c.own == 0
    case AtUnwatch(Failure) => c.mode == Asynchronous && c.own <= 1
    case Returned(ok) => Honest(Call(ok, c.own))
  }

  /** A call commits at most once, and exactly once if it returned a result. */
  predicate Honest(c: Call) {
    c.commits <= 1 && (c.ok ==> c.commits == 1)
  }

  /** Whatever the connections, every client and every finished call is within bounds. */
  predicate Accounted(w: World) {
    && (forall i | 0 <= i < |w.clients| :: OwnFits(w.clients[i]))
    && (forall k | 0 <= k < |w.finished| :: Honest(w.finished[k]))
  }

  lemma {:induction false} OwnStep(sv: Server, c: Client, f: Fate)
    requires c.conn < |sv.watch| && OwnFits(c)
    ensures OwnFits(ClientStep(sv, c, f).client)
  {
  }

  lemma {:induction false} AccountedStep(w: World, s: Step)
    requires Good(w) && Accounted(w)
    ensures Accounted(Next(w, s))
  {
    hide ClientStep;
    if s.who < |w.clients| {
      OwnStep(w.server, w.clients[s.who], s.fate);
    }
  }

  /** Commits of the calls under way. */
  function Running(clients: seq<Client>): nat {
    if clients == [] then 0
    else (if clients[0].pc.Returned? then 0 else clients[0].own) + Running(clients[1..])
  }

  function Total(finished: seq<Call>): nat {
    if finished == [] then 0 else Total(finished[..|finished| - 1]) + finished[|finished| - 1].commits
  }

  lemma {:induction false} RunningUpdate(clients: seq<Client>, i: nat, c: Client)
    requires i < |clients|
    ensures Running(clients[i := c]) + (if clients[i].pc.Returned? then 0 else clients[i].own) ==
            Running(clients) + if c.pc.Returned? then 0 else c.own
  {
    if i == 0 {
      assert clients[i := c][1..] == clients[1..];
    } else {
      RunningUpdate(clients[1..], i - 1, c);
      assert clients[i := c][1..] == clients[1..][i - 1 := c];
    }
  }

  /** Every commit belongs to exactly one call. */
  predicate Conserved(w: World) {
    w.server.commits == Total(w.finished) + Running(w.clients)
  }

  lemma {:induction false} CommitsStep(sv: Server, c: Client, f: Fate)
    requires c.conn < |sv.watch| && OwnFits(c)
    ensures
      var l := ClientStep(sv, c, f);
      l.server.commits - sv.commits == l.client.own - if c.pc.Returned? then 0 else c.own
  {
  }

  lemma {:induction false} ConservedStep(w: World, s: Step)
    requires Good(w) && Accounted(w) && Conserved(w)
    ensures Conserved(Next(w, s))
  {
    hide ClientStep, Running, OwnFits, Honest;
    if s.who < |w.clients| {
      var l := ClientStep(w.server, w.clients[s.who], s.fate);
      RunningUpdate(w.clients, s.who, l.client);
      CommitsStep(w.server, w.clients[s.who], s.fate);
      assert forall k: Call :: (w.finished + [k])[..|w.finished|] == w.finished;
    }
  }

  // ----------------------------------------------------------------- no lost update

  predicate OwnConnections(clients: seq<Client>) {
    forall i, j | 0 <= i < j < |clients| :: clients[i].conn != clients[j].conn
  }

  /** A client about to write watches, and what it read is current unless the server knows better. */
  predicate Guarded(sv: Server, c: Client) {
    && c.conn < |sv.watch|
    && (c.pc == AtRead ==> sv.watch[c.conn] != Free)
    && (c.pc.AtExec? ==>
          sv.watch[c.conn] != Free && (sv.watch[c.conn] == Clean ==> c.pc.seen == sv.counter))
  }

  predicate Consistent(w: World, start: int) {
    && w.server.counter == start + w.server.commits
    && forall i | 0 <= i < |w.clients| :: Guarded(w.server, w.clients[i])
  }

  lemma {:induction false} GuardedStep(sv: Server, c: Client, f: Fate)
    requires Guarded(sv, c)
    ensures
      var l := ClientStep(sv, c, f);
      Guarded(l.server, l.client) && l.server.counter - sv.counter == l.server.commits - sv.commits
  {
  }

  /** A step on another connection leaves a guarded client guarded. */
  lemma {:induction false} OthersStayGuarded(sv: Server, c: Client, f: Fate, d: Client)
    requires Guarded(sv, c) && Guarded(sv, d) && c.conn != d.conn
    ensures Guarded(ClientStep(sv, c, f).server, d)
  {
  }

  lemma {:induction false} ConsistentStep(w: World, start: int, s: Step)
    requires Good(w) && OwnConnections(w.clients) && Consistent(w, start)
    ensures Consistent(Next(w, s), start)
  {
    hide ClientStep, Guarded;
    if s.who < |w.clients| {
      var c, v := w.clients[s.who], Next(w, s);
      GuardedStep(w.server, c, s.fate);
      forall i | 0 <= i < |v.clients| ensures Guarded(v.server, v.clients[i]) {
        if i != s.who {
          OthersStayGuarded(w.server, c, s.fate, w.clients[i]);
        }
      }
    }
  }

  // ------------------------------------------------------------------- the theorems

  /**
   Over every run, on any assignment of connections: each finished call committed at
   most once, each that returned a result committed exactly once, and the calls
   together account for every commit.
   */
  lemma {:induction false} EachCallCommitsOnce(clients: seq<Client>, connections: nat, start: int, steps: seq<Step>)
    requires Connected(clients, connections)
    ensures
      var w := Run(Start(clients, connections, start), steps);
      Accounted(w) && Conserved(w)
  {
    hide Run, OwnFits, Start;
    StartGood(clients, connections, start);
    StartConserved(clients, connections, start);
    RunAccounts(Start(clients, connections, start), steps);
  }

  lemma {:induction false} RunAccounts(w: World, steps: seq<Step>)
    requires Good(w) && Accounted(w) && Conserved(w)
    ensures Accounted(Run(w, steps)) && Conserved(Run(w, steps))
  {
    hide Next, OwnFits, Honest;
    if steps == [] {
    } else {
      var init, s := steps[..|steps| - 1], steps[|steps| - 1];
      RunAccounts(w, init);
      AccountedStep(Run(w, init), s);
      ConservedStep(Run(w, init), s);
    }
  }

  lemma {:induction false} StartGood(clients: seq<Client>, connections: nat, start: int)
    requires Connected(clients, connections)
    ensures
      var w := Start(clients, connections, start);
      Good(w) && Accounted(w) && Consistent(w, start) && (OwnConnections(w.clients) <==> OwnConnections(clients))
  {
    var w := Start(clients, connections, start);
    assert forall i | 0 <= i < |clients| :: w.clients[i].conn == clients[i].conn;
    if OwnConnections(w.clients) {
      forall i, j | 0 <= i < j < |clients| ensures clients[i].conn != clients[j].conn {
        assert w.clients[i].conn != w.clients[j].conn;
      }
    }
  }

  lemma {:induction false} StartConserved(clients: seq<Client>, connections: nat, start: int)
    requires Connected(clients, connections)
    ensures Conserved(Start(clients, connections, start))
  {
    var w := Start(clients, connections, start);
    NothingRuns(w.clients);
  }

  lemma {:induction false} NothingRuns(clients: seq<Client>)
    requires forall i | 0 <= i < |clients| :: clients[i].own == 0
    ensures Running(clients) == 0
  {
    if clients == [] {
    } else {
      NothingRuns(clients[1..]);
    }
  }

  lemma {:induction false} RunConsistent(clients: seq<Client>, connections: nat, start: int, steps: seq<Step>)
    requires Connected(clients, connections) && OwnConnections(clients)
    ensures Consistent(Run(Start(clients, connections, start), steps), start)
  {
    hide Next, Guarded, Start;
    StartGood(clients, connections, start);
    if steps == [] {
    } else {
      var init, s := steps[..|steps| - 1], steps[|steps| - 1];
      RunConsistent(clients, connections, start, init);
      var w := Run(Start(clients, connections, start), init);
      SamePopulationKeepsConnections(Start(clients, connections, start), w);
      ConsistentStep(w, start, s);
    }
  }

  lemma {:induction false} SamePopulationKeepsConnections(w: World, v: World)
    requires SamePopulation(w, v) && OwnConnections(w.clients)
    ensures OwnConnections(v.clients)
  {
    forall i, j | 0 <= i < j < |v.clients| ensures v.clients[i].conn != v.clients[j].conn {
      assert w.clients[i].conn != w.clients[j].conn;
    }
  }

  /** In every run from every start the counter has grown by the committed EXECs. */
  ghost predicate NeverLoses(clients: seq<Client>, connections: nat)
    requires Connected(clients, connections)
  {
    forall start: int, steps: seq<Step> :: KeepsCount(clients, connections, start, steps)
  }

  predicate KeepsCount(clients: seq<Client>, connections: nat, start: int, steps: seq<Step>)
    requires Connected(clients, connections)
  {
    var server := Run(Start(clients, connections, start), steps).server;
    server.counter == start + server.commits
  }

  /** No update is lost, in any run, exactly when no two clients share a connection. */
  lemma {:induction false} NoLostUpdate(clients: seq<Client>, connections: nat)
    requires Connected(clients, connections)
    ensures NeverLoses(clients, connections) <==> OwnConnections(clients)
  {
    hide Start, Run, Guarded;
    if OwnConnections(clients) {
      forall start: int, steps: seq<Step> ensures KeepsCount(clients, connections, start, steps) {
        RunConsistent(clients, connections, start, steps);
      }
    } else {
      var i, j :| 0 <= i < j < |clients| && clients[i].conn == clients[j].conn;
      var steps := SharedConnectionLoses(clients, connections, i, j);
      assert !KeepsCount(clients, connections, 0, steps);
    }
  }

  /** Three answered steps take a client from the start of its call to its EXEC. */
  lemma {:induction false} ReachesExec(w: World, i: nat, steps: seq<Step>) returns (longer: seq<Step>)
    requires Good(w) && i < |w.clients|
    requires var v := Run(w, steps); v.clients[i].pc == Idle && v.server.watch[v.clients[i].conn] != Dirty
    ensures
      var v, u := Run(w, steps), Run(w, longer);
      && u.clients == v.clients[i := v.clients[i].(pc := AtExec(v.server.counter), own := 0)]
      && u.server == v.server.(watch := v.server.watch[v.clients[i].conn := Clean])
  {
    hide Run;
    var s := Step(i, Answered);
    var v := Run(w, steps);
    RunStep(w, steps, s);
    RunStep(w, steps + [s], s);
    RunStep(w, steps + [s] + [s], s);
    longer := steps + [s] + [s] + [s];
    var u := Run(w, longer);
    assert u.server.watch == v.server.watch[v.clients[i].conn := Clean];
  }

  /** Two clients on one connection: both read, both commit, and the counter has moved by one. */
  lemma {:induction false} SharedConnectionLoses(clients: seq<Client>, connections: nat, i: nat, j: nat)
    returns (steps: seq<Step>)
    requires Connected(clients, connections) && i < j < |clients| && clients[i].conn == clients[j].conn
    ensures
      var server := Run(Start(clients, connections, 0), steps).server;
      server.counter == 1 && server.commits == 2
  {
    hide Run, Guarded, OwnFits, Honest;
    StartGood(clients, connections, 0);
    var w := Start(clients, connections, 0);
    RunNothing(w);
    var one := ReachesExec(w, i, []);
    var two := ReachesExec(w, j, one);
    RunStep(w, two, Step(i, Answered));
    RunStep(w, two + [Step(i, Answered)], Step(j, Answered));
    steps := two + [Step(i, Answered)] + [Step(j, Answered)];
  }

  lemma {:induction false} RunNothing(w: World)
    requires Good(w)
    ensures Run(w, []) == w
  {
  }

  // ---------------------------------------------------------- conflicts and failures

  /**
   The commits the server had seen when the present watch of connection `c` began, if it
   watches; read off the run alone.
   */
  function Baseline(w: World, steps: seq<Step>, c: nat): Option<nat>
    requires Good(w) && c < |w.server.watch|
  {
    if steps == [] then None
    else
      var init := steps[..|steps| - 1];
      var before, after := Run(w, init).server, Run(w, steps).server;
      if after.watch[c] == Free then None
      else if before.watch[c] == Free then Some(after.commits)
      else Baseline(w, init, c)
  }

  lemma {:induction false} WatchStep(sv: Server, client: Client, f: Fate, c: nat)
    requires client.conn < |sv.watch| && c < |sv.watch|
    ensures
      var after := ClientStep(sv, client, f).server;
      && |after.watch| == |sv.watch| && after.commits >= sv.commits
      && (sv.watch[c] == Free ==> after.watch[c] != Dirty)
      && (sv.watch[c] == Clean && after.watch[c] != Free ==> (after.watch[c] == Dirty <==> after.commits > sv.commits))
      && (sv.watch[c] == Dirty ==> after.watch[c] != Clean)
  {
  }

  /** Over every run: a connection's watch is dirty exactly if there was a commit since it began. */
  lemma {:induction false} DirtyExactly(w: World, steps: seq<Step>, c: nat)
    requires Good(w) && c < |w.server.watch| && w.server.watch[c] == Free
    ensures
      var sv, since := Run(w, steps).server, Baseline(w, steps, c);
      && (sv.watch[c] == Free <==> since.None?)
      && (since.Some? ==> since.value <= sv.commits && (sv.watch[c] == Dirty <==> since.value < sv.commits))
  {
    hide ClientStep, Run;
    if steps == [] {
      RunNothing(w);
    } else {
      var init, s := steps[..|steps| - 1], steps[|steps| - 1];
      DirtyExactly(w, init, c);
      assert init + [s] == steps;
      RunStep(w, init, s);
      var v := Run(w, init);
      if s.who < |v.clients| {
        WatchStep(v.server, v.clients[s.who], s.fate, c);
      }
    }
  }

  /**
   Over every run, what an answered EXEC does. If another commit came since the watch began
   it is discarded: nothing changes but the watch, which is gone, and the client starts over
   at WATCH, in the asynchronous loop after an UNWATCH. Otherwise it commits, and the client
   goes on to UNWATCH with a result.
   */
  lemma {:induction false} ConflictsAreRetried(
      clients: seq<Client>, connections: nat, start: int, steps: seq<Step>, i: nat, f: Fate)
    requires Connected(clients, connections) && i < |clients|
    requires Run(Start(clients, connections, start), steps).clients[i].pc.AtExec?
    ensures
      var w0 := Start(clients, connections, start);
      var w, v := Run(w0, steps), Run(w0, steps + [Step(i, Answered)]);
      var me, after := w.clients[i], v.clients[i];
      var since := Baseline(w0, steps, me.conn);
      && v.server.watch[me.conn] == Free
      && if since.Some? && since.value < w.server.commits then
           && v.server.counter == w.server.counter && v.server.commits == w.server.commits && after.own == me.own
           && (me.mode == Blocking ==> after.pc == AtWatch)
           && (me.mode == Asynchronous ==>
                 !after.pc.Returned? &&
                 Run(w0, steps + [Step(i, Answered)] + [Step(i, f)]).clients[i].pc == AtWatch)
         else
           && v.server.counter == me.pc.seen + 1 && v.server.commits == w.server.commits + 1
           && after.own == me.own + 1 && !after.pc.Returned?
           && Run(w0, steps + [Step(i, Answered)] + [Step(i, Answered)]).clients[i].pc == Returned(true)
  {
    hide Run, Baseline, Start;
    var w0 := Start(clients, connections, start);
    StartWatches(clients, connections, start);
    var conn := Run(w0, steps).clients[i].conn;
    DirtyExactly(w0, steps, conn);
    RunStep(w0, steps, Step(i, Answered));
    RunStep(w0, steps + [Step(i, Answered)], Step(i, Answered));
    RunStep(w0, steps + [Step(i, Answered)], Step(i, f));
  }

  lemma {:induction false} StartWatches(clients: seq<Client>, connections: nat, start: int)
    requires Connected(clients, connections)
    ensures
      var w := Start(clients, connections, start);
      && Good(w) && |w.server.watch| == connections && |w.clients| == |clients|
      && (forall c | 0 <= c < connections :: w.server.watch[c] == Free)
      && (forall i | 0 <= i < |clients| :: w.clients[i].pc == Idle)
  {
  }

  /** A request that fails its call: any that is not answered, but for a closure's retry and an ignored UNWATCH. */
  predicate Fails(c: Client, f: Fate) {
    match c.pc
    case AtWatch => f != Answered
    case AtRead => f != Answered
    case AtExec(_) => f != Answered && f != GivesUp(false)
    case AtUnwatch(_) => c.mode == Blocking && f != Answered
    case _ => false
  }

  /** Whether a request of client `i` has failed its present or last call; read off the run alone. */
  predicate Failed(w: World, steps: seq<Step>, i: nat)
    requires Good(w) && i < |w.clients|
  {
    if steps == [] then false
    else
      var init, s := steps[..|steps| - 1], steps[|steps| - 1];
      var me := Run(w, init).clients[i];
      if s.who != i then Failed(w, init, i)
      else !me.pc.Idle? && !me.pc.Returned? && (Failed(w, init, i) || Fails(me, s.fate))
  }

  /** What a client is about to do if its call has failed: hand the error back, UNWATCH before it if it must. */
  predicate HandsBackError(pc: Pc) {
    pc == Returned(false) || pc == AtUnwatch(Failure)
  }

  lemma {:induction false} FailureStep(sv: Server, c: Client, f: Fate)
    requires c.conn < |sv.watch| && OwnFits(c)
    ensures
      HandsBackError(ClientStep(sv, c, f).client.pc) <==>
      !c.pc.Idle? && !c.pc.Returned? && (HandsBackError(c.pc) || Fails(c, f))
  {
  }

  /**
   Over every run a call ends in an error if and only if one of its own requests failed:
   a conflict, however often it comes, is none.
   */
  lemma {:induction false} ErrorsHaveACause(w: World, steps: seq<Step>, i: nat)
    requires Good(w) && Accounted(w) && Conserved(w) && i < |w.clients| && w.clients[i].pc == Idle
    ensures HandsBackError(Run(w, steps).clients[i].pc) <==> Failed(w, steps, i)
  {
    hide ClientStep, Run, OwnFits, Honest, Fails, HandsBackError;
    if steps == [] {
      RunNothing(w);
      assert !HandsBackError(Idle) by { IdleIsFine(); }
    } else {
      var init, s := steps[..|steps| - 1], steps[|steps| - 1];
      ErrorsHaveACause(w, init, i);
      assert init + [s] == steps;
      RunStep(w, init, s);
      RunAccounts(w, init);
      var v := Run(w, init);
      if s.who == i {
        FailureStep(v.server, v.clients[i], s.fate);
      }
    }
  }

  lemma {:induction false} IdleIsFine()
    ensures !HandsBackError(Idle)
  {
  }

  /** A client that nobody disturbs commits its increment and returns a result, in five steps. */
  lemma {:induction false} AloneSucceeds(w: World, i: nat)
    requires Good(w) && i < |w.clients| && w.clients[i].pc == Idle && w.server.watch[w.clients[i].conn] == Free
    ensures
      var s := Step(i, Answered);
      var v := Run(w, [s, s, s, s, s]);
      && v.clients[i] == w.clients[i].(pc := Returned(true), own := 1)
      && v.server.counter == w.server.counter + 1 && v.server.commits == w.server.commits + 1
      && v.server.watch[w.clients[i].conn] == Free && v.finished == w.finished + [Call(true, 1)]
  {
    hide Run;
    RunNothing(w);
    var s := Step(i, Answered);
    var none: seq<Step> := [];
    RunStep(w, none, s);
    RunStep(w, none + [s], s);
    RunStep(w, none + [s] + [s], s);
    RunStep(w, none + [s] + [s] + [s], s);
    RunStep(w, none + [s] + [s] + [s] + [s], s);
    assert none + [s] + [s] + [s] + [s] + [s] == [s, s, s, s, s];
  }

  /** Every step of client `i` is answered, or is its closure asking for a retry instead of EXEC. */
  ghost predicate NothingFails(w: World, steps: seq<Step>, i: nat)
    requires Good(w) && i < |w.clients|
  {
    forall k | 0 <= k < |steps| && steps[k].who == i ::
      || steps[k].fate == Answered
      || (steps[k].fate == GivesUp(false) && Run(w, steps[..k]).clients[i].pc.AtExec?)
  }

  lemma {:induction false} NothingFailed(w: World, steps: seq<Step>, i: nat)
    requires Good(w) && i < |w.clients| && NothingFails(w, steps, i)
    ensures !Failed(w, steps, i)
  {
    hide Run;
    if steps == [] {
    } else {
      var init, last := steps[..|steps| - 1], |steps| - 1;
      forall k | 0 <= k < |init| && init[k].who == i
        ensures init[k].fate == Answered ||
                (init[k].fate == GivesUp(false) && Run(w, init[..k]).clients[i].pc.AtExec?)
      {
        assert init[k] == steps[k] && init[..k] == steps[..k];
      }
      NothingFailed(w, init, i);
      assert steps[..last] == init;
    }
  }

  /** Over every run, a client whose requests are all answered never returns an error, whatever conflicts it meets. */
  lemma {:induction false} AnsweredNeverFails(
      clients: seq<Client>, connections: nat, start: int, steps: seq<Step>, i: nat)
    requires Connected(clients, connections) && i < |clients|
    requires NothingFails(Start(clients, connections, start), steps, i)
    ensures Run(Start(clients, connections, start), steps).clients[i].pc != Returned(false)
  {
    hide Run, Start, Failed, NothingFails, OwnFits, Honest;
    StartGood(clients, connections, start);
    StartConserved(clients, connections, start);
    StartWatches(clients, connections, start);
    var w := Start(clients, connections, start);
    NothingFailed(w, steps, i);
    ErrorsHaveACause(w, steps, i);
  }

  /**
   Over every run, a closure that gives up at EXEC sends nothing. The asynchronous loop then
   lets go of the watch as soon as its UNWATCH reaches the server; the blocking one keeps it,
   and its next WATCH does not begin a new one.
   */
  lemma {:induction false} GivingUp(
      clients: seq<Client>, connections: nat, start: int, steps: seq<Step>, i: nat, error: bool, f: Fate)
    requires Connected(clients, connections) && i < |clients|
    requires Run(Start(clients, connections, start), steps).clients[i].pc.AtExec?
    ensures
      var w0 := Start(clients, connections, start);
      var w, v := Run(w0, steps), Run(w0, steps + [Step(i, GivesUp(error))]);
      var u := Run(w0, steps + [Step(i, GivesUp(error))] + [Step(i, f)]);
      var me := w.clients[i];
      && v.server == w.server
      && (me.mode == Asynchronous ==>
            && u.clients[i].pc == (if error then Returned(false) else AtWatch)
            && u.server.watch[me.conn] ==
               if f == Answered || f == ReplyLost then Free else w.server.watch[me.conn])
      && (me.mode == Blocking && error ==> v.clients[i].pc == Returned(false))
      && (me.mode == Blocking && !error && w.server.watch[me.conn] != Free ==> u.server == w.server)
  {
    hide Run, Start;
    var w0 := Start(clients, connections, start);
    StartWatches(clients, connections, start);
    RunStep(w0, steps, Step(i, GivesUp(error)));
    RunStep(w0, steps + [Step(i, GivesUp(error))], Step(i, f));
  }
}
