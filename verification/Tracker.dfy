/**
 The subscription tracker of the connection manager: what it remembers after any
 history of requests, and the pipeline that restores it after a reconnection.
 */
module Tracker {
  import opened Resp
  import opened Text
  import Command

  type Arg = Command.Arg<bytes>

  datatype Kind = Channels | Shards | Patterns

  /** A request that changes subscriptions; `additive` tells subscribing from unsubscribing. */
  datatype Request = Request(kind: Kind, additive: bool, names: seq<bytes>)

  /** What is subscribed, by kind. */
  datatype Sets = Sets(channels: set<bytes>, shards: set<bytes>, patterns: set<bytes>) {
    function Of(kind: Kind): set<bytes> {
      match kind
      case Channels => channels
      case Shards => shards
      case Patterns => patterns
    }

    function With(kind: Kind, names: set<bytes>): Sets {
      match kind
      case Channels => this.(channels := names)
      case Shards => this.(shards := names)
      case Patterns => this.(patterns := names)
    }
  }

  const NOTHING := Sets({}, {}, {})

  function Names(s: seq<bytes>): set<bytes> {
    set x | x in s
  }

  function Apply(s: Sets, r: Request): Sets {
    s.With(r.kind, if r.additive then s.Of(r.kind) + Names(r.names) else s.Of(r.kind) - Names(r.names))
  }

  /** What is tracked after a whole history. */
  function Track(s: Sets, history: seq<Request>): Sets {
    if history == [] then s
    else Apply(Track(s, history[..|history| - 1]), history[|history| - 1])
  }

  // ------------------------------------------------------- from commands to requests

  function Lower(b: byte): byte {
    if 65 <= b <= 90 then b + 32 else b
  }

  predicate EqIgnoreAsciiCase(a: bytes, b: bytes) {
    |a| == |b| && forall i | 0 <= i < |a| :: Lower(a[i]) == Lower(b[i])
  }

  function CommandName(kind: Kind, additive: bool): bytes {
    match kind
    case Channels => if additive then Ascii("SUBSCRIBE") else Ascii("UNSUBSCRIBE")
    case Shards => if additive then Ascii("SSUBSCRIBE") else Ascii("SUNSUBSCRIBE")
    case Patterns => if additive then Ascii("PSUBSCRIBE") else Ascii("PUNSUBSCRIBE")
  }

  /** No two of the six names are equal, in whatever case. */
  lemma {:induction false} NamesDiffer(k: Kind, a: bool, l: Kind, b: bool)
    ensures EqIgnoreAsciiCase(CommandName(k, a), CommandName(l, b)) <==> k == l && a == b
  {
    var x, y := CommandName(k, a), CommandName(l, b);
    assert Lower(x[0]) == Lower(y[0]) || !EqIgnoreAsciiCase(x, y);
  }

  /** The plain arguments; a cursor placeholder names nothing. */
  function SimpleArgs(args: seq<Arg>): seq<bytes> {
    if args == [] then []
    else
      var others := SimpleArgs(args[1..]);
      match args[0]
      case Simple(b) => [b] + others
      case Cursor => others
  }

  function ToRequest(utf8: bytes -> bool, args: seq<Arg>): Option<Request> {
    if args == [] || args[0].Cursor? || !utf8(args[0].value) then None
    else
      var name, names := args[0].value, SimpleArgs(args[1..]);
      if EqIgnoreAsciiCase(name, CommandName(Channels, true)) then Some(Request(Channels, true, names))
      else if EqIgnoreAsciiCase(name, CommandName(Patterns, true)) then Some(Request(Patterns, true, names))
      else if EqIgnoreAsciiCase(name, CommandName(Shards, true)) then Some(Request(Shards, true, names))
      else if EqIgnoreAsciiCase(name, CommandName(Channels, false)) then Some(Request(Channels, false, names))
      else if EqIgnoreAsciiCase(name, CommandName(Patterns, false)) then Some(Request(Patterns, false, names))
      else if EqIgnoreAsciiCase(name, CommandName(Shards, false)) then Some(Request(Shards, false, names))
      else None
  }

  /** The names of the six commands, in capitals. */
  function NameOf(kind: Kind, additive: bool): string {
    match (kind, additive)
    case (Channels, true) => "SUBSCRIBE"
    case (Channels, false) => "UNSUBSCRIBE"
    case (Patterns, true) => "PSUBSCRIBE"
    case (Patterns, false) => "PUNSUBSCRIBE"
    case (Shards, true) => "SSUBSCRIBE"
    case (Shards, false) => "SUNSUBSCRIBE"
  }

  /** `n` spells a word in capitals, each letter large or small. */
  predicate Spells(n: bytes, word: string) {
    |n| == |word| && forall i | 0 <= i < |word| :: n[i] as int == word[i] as int || n[i] as int == word[i] as int + 32
  }

  predicate AllCapitals(word: string) {
    forall i | 0 <= i < |word| :: 'A' <= word[i] <= 'Z'
  }

  lemma {:induction false} NamesAreCapitals(kind: Kind, additive: bool)
    ensures AllCapitals(NameOf(kind, additive)) && CommandName(kind, additive) == Ascii(NameOf(kind, additive))
  {
  }

  lemma {:induction false} SpellingExact(n: bytes, word: string)
    requires AllCapitals(word)
    ensures Spells(n, word) <==> EqIgnoreAsciiCase(n, Ascii(word))
  {
    if |n| == |word| {
      forall i | 0 <= i < |word|
        ensures (n[i] as int == word[i] as int || n[i] as int == word[i] as int + 32) <==>
                Lower(n[i]) == Lower(Ascii(word)[i])
      {
      }
    }
  }

  lemma {:induction false} SpellsOneName(n: bytes, k: Kind, a: bool, l: Kind, b: bool)
    requires Spells(n, NameOf(k, a)) && Spells(n, NameOf(l, b))
    ensures k == l && a == b
  {
    hide CommandName, NameOf;
    NamesAreCapitals(k, a);
    NamesAreCapitals(l, b);
    SpellingExact(n, NameOf(k, a));
    SpellingExact(n, NameOf(l, b));
    NamesDiffer(k, a, l, b);
  }

  /**
   A command is read as a request exactly if its name is text and spells one of the six
   names in whatever case: the request of that kind and direction, for the arguments that
   are no cursor placeholders.
   */
  lemma {:induction false} RequestExact(utf8: bytes -> bool, args: seq<Arg>, kind: Kind, additive: bool)
    ensures args == [] || args[0].Cursor? ==> ToRequest(utf8, args) == None
    ensures args != [] && args[0].Simple? ==>
              var n := args[0].value;
              && (utf8(n) && Spells(n, NameOf(kind, additive)) ==>
                    ToRequest(utf8, args) == Some(Request(kind, additive, SimpleArgs(args[1..]))))
              && (!utf8(n) || (forall k: Kind, a: bool :: !Spells(n, NameOf(k, a))) ==> ToRequest(utf8, args) == None)
  {
    hide CommandName, NameOf, EqIgnoreAsciiCase, Spells, SimpleArgs;
    if args != [] && args[0].Simple? {
      var n := args[0].value;
      forall k: Kind, a: bool ensures EqIgnoreAsciiCase(n, CommandName(k, a)) <==> Spells(n, NameOf(k, a)) {
        NamesAreCapitals(k, a);
        SpellingExact(n, NameOf(k, a));
      }
      if Spells(n, NameOf(kind, additive)) {
        forall k: Kind, a: bool ensures Spells(n, NameOf(k, a)) ==> k == kind && a == additive {
          if Spells(n, NameOf(k, a)) {
            SpellsOneName(n, kind, additive, k, a);
          }
        }
      }
    }
  }

  /** The names of a request are its arguments in order, and a placeholder among them changes nothing. */
  lemma {:induction false} PlaceholdersDropOut(a: seq<bytes>, b: seq<bytes>)
    ensures SimpleArgs(AsArgs(a)) == a
    ensures SimpleArgs(AsArgs(a) + [Command.Arg<bytes>.Cursor] + AsArgs(b)) == a + b
  {
    var args := AsArgs(a) + [Command.Arg<bytes>.Cursor] + AsArgs(b);
    ArgsReadBack(a);
    if a == [] {
      assert args[0] == Command.Arg<bytes>.Cursor && args[1..] == AsArgs(b);
      ArgsReadBack(b);
    } else {
      PlaceholdersDropOut(a[1..], b);
      assert AsArgs(a)[1..] == AsArgs(a[1..]);
      assert args[0] == Command.Simple(a[0]);
      assert args[1..] == AsArgs(a[1..]) + [Command.Arg<bytes>.Cursor] + AsArgs(b);
      assert [a[0]] + (a[1..] + b) == a + b;
    }
  }

  /** The requests among a list of commands. */
  function Requests(utf8: bytes -> bool, commands: seq<seq<Arg>>): seq<Request> {
    if commands == [] then []
    else
      var before := Requests(utf8, commands[..|commands| - 1]);
      match ToRequest(utf8, commands[|commands| - 1])
      case None => before
      case Some(r) => before + [r]
  }

  // ----------------------------------------------------------------- the tracker

  class SubscriptionTracker {
    var subscriptions: set<bytes>
    var sSubscriptions: set<bytes>
    var pSubscriptions: set<bytes>

    constructor ()
      ensures View() == NOTHING
    {
      subscriptions, sSubscriptions, pSubscriptions := {}, {}, {};
    }

    function View(): Sets
      reads this
    {
      Sets(subscriptions, sSubscriptions, pSubscriptions)
    }

    method UpdateWithRequest(r: Request)
      modifies this
      ensures View() == Apply(old(View()), r)
    {
      var s := View().Of(r.kind);
      if r.additive {
        for i := 0 to |r.names|
          invariant s == old(View().Of(r.kind)) + Names(r.names[..i])
        {
          s := s + {r.names[i]};
        }
      } else {
        for i := 0 to |r.names|
          invariant s == old(View().Of(r.kind)) - Names(r.names[..i])
        {
          s := s - {r.names[i]};
        }
      }
      assert r.names[..|r.names|] == r.names;
      match r.kind {
        case Channels => subscriptions := s;
        case Shards => sSubscriptions := s;
        case Patterns => pSubscriptions := s;
      }
    }

    method UpdateWithCmd(utf8: bytes -> bool, args: seq<Arg>)
      modifies this
      ensures View() == Track(old(View()), Requests(utf8, [args]))
    {
      var r := ToRequest(utf8, args);
      assert Requests(utf8, [args]) == if r.None? then [] else [r.value];
      if r.Some? {
        UpdateWithRequest(r.value);
      }
    }

    /** The commands that restore the tracked sets, names in the order the hash sets yield them. */
    method GetSubscriptionPipeline() returns (commands: seq<seq<Arg>>, c: seq<bytes>, s: seq<bytes>, p: seq<bytes>)
      ensures Listing(c, subscriptions) && Listing(s, sSubscriptions) && Listing(p, pSubscriptions)
      ensures commands == Resubscription(c, s, p)
    {
      commands, c, s, p := [], [], [], [];
      if subscriptions != {} {
        var cmd;
        cmd, c := AppendAll([Command.Simple(CommandName(Channels, true))], subscriptions);
        commands := commands + [cmd];
      }
      if sSubscriptions != {} {
        var cmd;
        cmd, s := AppendAll([Command.Simple(CommandName(Shards, true))], sSubscriptions);
        commands := commands + [cmd];
      }
      if pSubscriptions != {} {
        var cmd;
        cmd, p := AppendAll([Command.Simple(CommandName(Patterns, true))], pSubscriptions);
        commands := commands + [cmd];
      }
    }
  }

  /** `order` lists the set, each name once. */
  predicate Listing(order: seq<bytes>, names: set<bytes>) {
    Names(order) == names && forall i, j | 0 <= i < j < |order| :: order[i] != order[j]
  }

  function AsArgs(names: seq<bytes>): seq<Arg> {
    seq(|names|, i requires 0 <= i < |names| => Command.Simple(names[i]))
  }

  lemma {:induction false} EmptyListing()
    ensures Listing([], {}) && AsArgs([]) == []
  {
  }

  lemma {:induction false} ListingStep(order: seq<bytes>, names: set<bytes>, name: bytes)
    requires Listing(order, names) && name !in names
    ensures Listing(order + [name], names + {name})
    ensures AsArgs(order + [name]) == AsArgs(order) + [Command.Simple(name)]
  {
    assert Names(order + [name]) == Names(order) + {name};
    assert forall i | 0 <= i < |order| :: order[i] in Names(order);
  }

  /** Iterates over a set in whatever order it yields its elements. */
  method AppendAll(cmd: seq<Arg>, names: set<bytes>) returns (args: seq<Arg>, order: seq<bytes>)
    ensures Listing(order, names) && args == cmd + AsArgs(order)
  {
    hide Listing, AsArgs;
    args, order := cmd, [];
    var left := names;
    EmptyListing();
    assert names - left == {} && cmd + [] == cmd;
    while left != {}
      invariant left <= names && Listing(order, names - left)
      invariant args == cmd + AsArgs(order)
      decreases |left|
    {
      var name :| name in left;
      ListingStep(order, names - left, name);
      assert names - (left - {name}) == (names - left) + {name};
      args, order, left := args + [Command.Simple(name)], order + [name], left - {name};
    }
    assert names - left == names;
  }

  function Resubscribe(kind: Kind, order: seq<bytes>): seq<seq<Arg>> {
    if order == [] then [] else [[Command.Simple(CommandName(kind, true))] + AsArgs(order)]
  }

  function Resubscription(c: seq<bytes>, s: seq<bytes>, p: seq<bytes>): seq<seq<Arg>> {
    Resubscribe(Channels, c) + Resubscribe(Shards, s) + Resubscribe(Patterns, p)
  }

  // ----------------------------------------------------------------- what is tracked

  /** Position of the last request of this kind that names `name`, or -1. */
  function LastNaming(history: seq<Request>, kind: Kind, name: bytes): (i: int)
    ensures -1 <= i < |history|
  {
    var last := |history| - 1;
    if history == [] || (history[last].kind == kind && name in history[last].names) then last
    else LastNaming(history[..last], kind, name)
  }

  /** After any history a name is tracked exactly when the last request of its kind naming it subscribed to it. */
  lemma {:induction false} TrackedExactly(history: seq<Request>, kind: Kind, name: bytes)
    ensures
      var i := LastNaming(history, kind, name);
      name in Track(NOTHING, history).Of(kind) <==> i >= 0 && history[i].additive
  {
    if history == [] {
    } else {
      TrackedExactly(history[..|history| - 1], kind, name);
    }
  }

  lemma {:induction false} TrackConcat(s: Sets, a: seq<Request>, b: seq<Request>)
    ensures Track(s, a + b) == Track(Track(s, a), b)
  {
    if b == [] {
      assert a + b == a;
    } else {
      TrackConcat(s, a, b[..|b| - 1]);
      assert (a + b)[..|a + b| - 1] == a + b[..|b| - 1];
    }
  }

  lemma {:induction false} RequestsConcat(utf8: bytes -> bool, a: seq<seq<Arg>>, b: seq<seq<Arg>>)
    ensures Requests(utf8, a + b) == Requests(utf8, a) + Requests(utf8, b)
  {
    if b == [] {
      assert a + b == a;
    } else {
      RequestsConcat(utf8, a, b[..|b| - 1]);
      assert (a + b)[..|a + b| - 1] == a + b[..|b| - 1];
    }
  }

  /** Every run of commands through the tracker leaves what their requests amount to. */
  method TrackCommands(utf8: bytes -> bool, commands: seq<seq<Arg>>) returns (t: SubscriptionTracker)
    ensures t.View() == Track(NOTHING, Requests(utf8, commands))
  {
    hide ToRequest, Apply;
    t := new SubscriptionTracker();
    for i := 0 to |commands|
      invariant fresh(t) && t.View() == Track(NOTHING, Requests(utf8, commands[..i]))
    {
      t.UpdateWithCmd(utf8, commands[i]);
      RequestsConcat(utf8, commands[..i], [commands[i]]);
      TrackConcat(NOTHING, Requests(utf8, commands[..i]), Requests(utf8, [commands[i]]));
      assert commands[..i] + [commands[i]] == commands[..i + 1];
    }
    assert commands[..|commands|] == commands;
  }

  // ----------------------------------------------------------------- replay

  /** The command names are text. */
  predicate ReadsNames(utf8: bytes -> bool) {
    forall kind: Kind, additive: bool :: utf8(CommandName(kind, additive))
  }

  lemma {:induction false} ArgsReadBack(names: seq<bytes>)
    ensures SimpleArgs(AsArgs(names)) == names
  {
    if names == [] {
    } else {
      ArgsReadBack(names[1..]);
      assert AsArgs(names)[1..] == AsArgs(names[1..]);
    }
  }

  lemma {:induction false} ResubscribeReadsBack(utf8: bytes -> bool, kind: Kind, order: seq<bytes>)
    requires ReadsNames(utf8)
    ensures Requests(utf8, Resubscribe(kind, order)) == if order == [] then [] else [Request(kind, true, order)]
  {
    hide EqIgnoreAsciiCase, CommandName;
    if order != [] {
      var cmd := [Command.Simple(CommandName(kind, true))] + AsArgs(order);
      assert cmd[1..] == AsArgs(order);
      ArgsReadBack(order);
      NamesDiffer(kind, true, Channels, true);
      NamesDiffer(kind, true, Patterns, true);
      NamesDiffer(kind, true, Shards, true);
      assert ToRequest(utf8, cmd) == Some(Request(kind, true, order));
      assert Requests(utf8, [cmd]) == [Request(kind, true, order)];
    }
  }

  /** Feeding the generated commands to an empty tracker rebuilds the sets, whatever order they were listed in. */
  lemma {:induction false} ReplayRebuilds(utf8: bytes -> bool, sets: Sets, c: seq<bytes>, s: seq<bytes>, p: seq<bytes>)
    requires ReadsNames(utf8) && Listing(c, sets.channels) && Listing(s, sets.shards) && Listing(p, sets.patterns)
    ensures Track(NOTHING, Requests(utf8, Resubscription(c, s, p))) == sets
  {
    var a, b, d := Resubscribe(Channels, c), Resubscribe(Shards, s), Resubscribe(Patterns, p);
    RequestsConcat(utf8, a, b);
    RequestsConcat(utf8, a + b, d);
    TrackConcat(NOTHING, Requests(utf8, a), Requests(utf8, b));
    TrackConcat(NOTHING, Requests(utf8, a + b), Requests(utf8, d));
    ReplayOne(utf8, NOTHING, Channels, c);
    ReplayOne(utf8, NOTHING.(channels := Names(c)), Shards, s);
    ReplayOne(utf8, NOTHING.(channels := Names(c), shards := Names(s)), Patterns, p);
  }

  lemma {:induction false} ReplayOne(utf8: bytes -> bool, before: Sets, kind: Kind, order: seq<bytes>)
    requires ReadsNames(utf8) && before.Of(kind) == {}
    ensures Track(before, Requests(utf8, Resubscribe(kind, order))) == before.With(kind, Names(order))
  {
    ResubscribeReadsBack(utf8, kind, order);
    if order != [] {
      var r := Request(kind, true, order);
      assert [r][..0] == [] && Track(before, [r]) == Apply(before, r);
    }
  }

  // -------------------------------------------------------------- the server's view

  /** What the server does: unsubscribing without names unsubscribes from everything of the kind. */
  function ServerApply(s: Sets, r: Request): Sets {
    if !r.additive && r.names == [] then s.With(r.kind, {}) else Apply(s, r)
  }

  /** What the server holds after a whole history. */
  function ServerTrack(s: Sets, history: seq<Request>): Sets {
    if history == [] then s
    else ServerApply(ServerTrack(s, history[..|history| - 1]), history[|history| - 1])
  }

  predicate Bare(r: Request) {
    !r.additive && r.names == []
  }

  /** Position of the last unsubscription of this kind without names, or -1. */
  function LastBare(history: seq<Request>, kind: Kind): (i: int)
    ensures -1 <= i < |history|
    ensures i >= 0 ==> Bare(history[i]) && history[i].kind == kind
  {
    var last := |history| - 1;
    if history == [] || (Bare(history[last]) && history[last].kind == kind) then last
    else LastBare(history[..last], kind)
  }

  /** The server holds a name exactly when it is tracked and no bare unsubscription came after its last naming. */
  lemma {:induction false} ServerHoldsExactly(history: seq<Request>, kind: Kind, name: bytes)
    ensures
      var i := LastNaming(history, kind, name);
      name in ServerTrack(NOTHING, history).Of(kind) <==> i >= 0 && history[i].additive && LastBare(history, kind) < i
  {
    if history == [] {
    } else {
      ServerHoldsExactly(history[..|history| - 1], kind, name);
    }
  }

  /** The last naming is one, and none comes later. */
  lemma {:induction false} LastNamingExact(history: seq<Request>, kind: Kind, name: bytes, j: nat)
    ensures
      var i := LastNaming(history, kind, name);
      && (i >= 0 ==> history[i].kind == kind && name in history[i].names)
      && (i < j < |history| ==> history[j].kind != kind || name !in history[j].names)
  {
    if history == [] {
    } else {
      LastNamingExact(history[..|history| - 1], kind, name, j);
    }
  }

  lemma {:induction false} LastBareExact(history: seq<Request>, kind: Kind, j: nat)
    requires LastBare(history, kind) < j < |history|
    ensures !Bare(history[j]) || history[j].kind != kind
  {
    if history == [] {
    } else if j < |history| - 1 {
      LastBareExact(history[..|history| - 1], kind, j);
    }
  }

  /** What is named in a prefix and not later is named last there. */
  lemma {:induction false} LastNamingInPrefix(history: seq<Request>, kind: Kind, name: bytes, k: nat)
    requires LastNaming(history, kind, name) < k <= |history|
    ensures LastNaming(history[..k], kind, name) == LastNaming(history, kind, name)
  {
    if k == |history| {
      assert history[..k] == history;
    } else {
      LastNamingInPrefix(history[..|history| - 1], kind, name, k);
      assert history[..|history| - 1][..k] == history[..k];
    }
  }

  /** A kind is unsubscribed from without names while this name of it is tracked. */
  predicate Dropped(history: seq<Request>, i: nat, name: bytes)
    requires i < |history|
  {
    Bare(history[i]) && name in Track(NOTHING, history[..i]).Of(history[i].kind)
  }

  /** A later request of the same kind names this one again. */
  predicate NamedAgain(history: seq<Request>, i: nat, name: bytes)
    requires i < |history|
  {
    exists j | i < j < |history| :: history[j].kind == history[i].kind && name in history[j].names
  }

  /** Whatever is tracked when a kind is unsubscribed from without names is named again later. */
  ghost predicate AllNamedAgain(history: seq<Request>) {
    forall i, name | 0 <= i < |history| && Dropped(history, i, name) :: NamedAgain(history, i, name)
  }

  /** One name of one kind: tracker and server differ on it exactly if some bare unsubscription was its last word. */
  lemma {:induction false} DifferOnName(history: seq<Request>, kind: Kind, name: bytes) returns (i: int)
    ensures name in ServerTrack(NOTHING, history).Of(kind) ==> name in Track(NOTHING, history).Of(kind)
    ensures name in Track(NOTHING, history).Of(kind) && name !in ServerTrack(NOTHING, history).Of(kind) ==>
              && 0 <= i < |history| && history[i].kind == kind
              && Dropped(history, i, name) && !NamedAgain(history, i, name)
  {
    hide Track, ServerTrack, LastNaming, LastBare;
    TrackedExactly(history, kind, name);
    ServerHoldsExactly(history, kind, name);
    i := LastBare(history, kind);
    var n := LastNaming(history, kind, name);
    LastNamingExact(history, kind, name, 0);
    if n >= 0 && history[n].additive && i >= n {
      LastNamingInPrefix(history, kind, name, i);
      TrackedExactly(history[..i], kind, name);
      forall j | i < j < |history| ensures history[j].kind != kind || name !in history[j].names {
        LastNamingExact(history, kind, name, j);
      }
    }
  }

  /** A bare unsubscription after which a tracked name is not named again leaves the two different. */
  lemma {:induction false} DifferForGood(history: seq<Request>, i: nat, name: bytes)
    requires i < |history| && Dropped(history, i, name)
    requires !NamedAgain(history, i, name)
    ensures name in Track(NOTHING, history).Of(history[i].kind)
    ensures name !in ServerTrack(NOTHING, history).Of(history[i].kind)
  {
    hide Track, ServerTrack, LastNaming, LastBare;
    var kind := history[i].kind;
    TrackedExactly(history, kind, name);
    ServerHoldsExactly(history, kind, name);
    TrackedExactly(history[..i], kind, name);
    var n := LastNaming(history, kind, name);
    LastNamingExact(history, kind, name, 0);
    assert n != i;
    assert n <= i;
    LastNamingInPrefix(history, kind, name, i);
    if LastBare(history, kind) < i {
      LastBareExact(history, kind, i);
    }
  }

  /**
   After any history the tracker holds what the server holds if and only if, for each
   unsubscription without names, every name of its kind tracked at that point is named
   again by a later request of that kind.
   */
  lemma {:induction false} TrackerFollowsServer(history: seq<Request>)
    ensures Track(NOTHING, history) == ServerTrack(NOTHING, history) <==> AllNamedAgain(history)
  {
    hide Track, ServerTrack, NamedAgain;
    var t, s := Track(NOTHING, history), ServerTrack(NOTHING, history);
    if AllNamedAgain(history) {
      forall kind: Kind, name ensures name in t.Of(kind) <==> name in s.Of(kind) {
        var i := DifferOnName(history, kind, name);
      }
      SameSets(t, s);
    }
    if t == s {
      forall i, name | 0 <= i < |history| && Dropped(history, i, name)
        ensures NamedAgain(history, i, name)
      {
        if !NamedAgain(history, i, name) {
          DifferForGood(history, i, name);
        }
      }
    }
  }

  lemma {:induction false} SameSets(t: Sets, s: Sets)
    requires forall kind: Kind, name: bytes :: name in t.Of(kind) <==> name in s.Of(kind)
    ensures t == s
  {
    assert t.Of(Channels) == s.Of(Channels);
    assert t.Of(Shards) == s.Of(Shards);
    assert t.Of(Patterns) == s.Of(Patterns);
  }

  /** A subscription, then an unsubscription without names: the tracker would restore what the server dropped. */
  lemma {:induction false} BareUnsubscriptionForgotten(kind: Kind, name: bytes)
    ensures
      var history := [Request(kind, true, [name]), Request(kind, false, [])];
      && Track(NOTHING, history) == NOTHING.With(kind, {name})
      && ServerTrack(NOTHING, history) == NOTHING
      && !AllNamedAgain(history)
  {
    var one, two := Request(kind, true, [name]), Request(kind, false, []);
    var history := [one, two];
    assert history[..1] == [one] && [one][..0] == [];
    assert Names([name]) == {name} && Names([]) == {};
    assert Track(NOTHING, [one]) == NOTHING.With(kind, {name});
    assert ServerTrack(NOTHING, [one]) == NOTHING.With(kind, {name});
    assert Track(NOTHING, history) == Apply(NOTHING.With(kind, {name}), two);
    assert Dropped(history, 1, name);
    assert !NamedAgain(history, 1, name);
  }
}
