/**
 Cursor iteration: SCAN-like commands are repeated with the cursor of the last reply
 until the server answers with cursor zero.
 */
module Scan {
  import opened Resp
  import opened Parser
  import opened Wire
  import opened Command
  import opened Pipelines

  type Reply = Result<Value, RedisError>

  /** A cursor and the items of a batch, each converted or failed on its own. */
  datatype Page = Page(cursor: nat, items: seq<Reply>)

  /** Conversion of a reply to a cursor with its items, and to a plain list. */
  datatype Convert = Convert(page: Value -> Option<Page>, plain: Value -> Option<seq<Reply>>)

  function PageOf(cv: Convert, r: Reply): Result<Page, RedisError> {
    match r
    case Err(e) => Err(e)
    case Ok(v) =>
      match cv.page(v)
      case None => Err(ParseFailure)
      case Some(p) => Ok(p)
  }

  /** An array of a string and an array. */
  predicate LooksLikeCursor(v: Value) {
    v.Array? && |v.items| == 2 && v.items[0].BulkString? && v.items[1].Array?
  }

  /** The first reply may also be a plain list, which ends the iteration. */
  function FirstPage(cv: Convert, v: Value): Result<Page, RedisError> {
    if LooksLikeCursor(v) then PageOf(cv, Ok(v))
    else
      match cv.plain(v)
      case None => Err(ParseFailure)
      case Some(items) => Ok(Page(0, items))
  }

  // -------------------------------------------------------------- the specification

  /** What an iteration produced and asks for, and what it leaves of the server's replies. */
  datatype Course = Course(produced: seq<Reply>, asked: seq<nat>, left: seq<Reply>, cursor: nat)

  /** From a cursor on, as long as there are replies; a failed request is reported and repeated. */
  function Paging(cv: Convert, cursor: nat, script: seq<Reply>): Course
    decreases |script|
  {
    if cursor == 0 || script == [] then Course([], [], script, cursor)
    else
      match PageOf(cv, script[0])
      case Err(e) => Ask([Err(e)], cursor, Paging(cv, cursor, script[1..]))
      case Ok(p) => Ask(p.items, cursor, Paging(cv, p.cursor, script[1..]))
  }

  function Ask(produced: seq<Reply>, cursor: nat, later: Course): Course {
    later.(produced := produced + later.produced, asked := [cursor] + later.asked)
  }

  /** All that is to come with a batch in hand. */
  function Ahead(cv: Convert, batch: seq<Reply>, cursor: nat, script: seq<Reply>): Course {
    var p := Paging(cv, cursor, script);
    p.(produced := batch + p.produced)
  }

  /** `later` is what remains of `course` after `items` were produced and the cursors `asked` sent. */
  predicate Continues(course: Course, items: seq<Reply>, asked: seq<nat>, later: Course) {
    && course.produced == items + later.produced && course.asked == asked + later.asked
    && course.left == later.left && course.cursor == later.cursor
  }

  lemma {:induction false} TakeFromBatch(cv: Convert, batch: seq<Reply>, cursor: nat, script: seq<Reply>)
    requires batch != []
    ensures Continues(Ahead(cv, batch, cursor, script), [batch[0]], [], Ahead(cv, batch[1..], cursor, script))
  {
    hide Paging;
    assert batch == [batch[0]] + batch[1..];
  }

  lemma {:induction false} TakePage(cv: Convert, cursor: nat, script: seq<Reply>)
    requires cursor != 0 && script != []
    ensures
      match PageOf(cv, script[0])
      case Err(e) => Continues(Ahead(cv, [], cursor, script), [Err(e)], [cursor], Ahead(cv, [], cursor, script[1..]))
      case Ok(p) => Continues(Ahead(cv, [], cursor, script), [], [cursor], Ahead(cv, p.items, p.cursor, script[1..]))
  {
  }

  lemma {:induction false} TakeNothing(cv: Convert, cursor: nat, script: seq<Reply>)
    requires cursor == 0 || script == []
    ensures Ahead(cv, [], cursor, script) == Course([], [], script, cursor)
  {
  }

  lemma {:induction false} ContinuesTwice(
      a: Course, xs: seq<Reply>, ps: seq<nat>, b: Course, ys: seq<Reply>, qs: seq<nat>, c: Course)
    requires Continues(a, xs, ps, b) && Continues(b, ys, qs, c)
    ensures Continues(a, xs + ys, ps + qs, c)
  {
  }

  lemma {:induction false} ContinuesOn(a: Course, ps: seq<nat>, b: Course, ys: seq<Reply>, qs: seq<nat>, c: Course)
    requires Continues(a, [], ps, b) && Continues(b, ys, qs, c)
    ensures Continues(a, ys, ps + qs, c) && (ys != [] ==> a.produced != [] && a.produced[0] == ys[0])
  {
    ContinuesTwice(a, [], ps, b, ys, qs, c);
    assert [] + ys == ys;
  }

  lemma {:induction false} ContinuesEnd(a: Course, ps: seq<nat>, b: Course)
    requires Continues(a, [], ps, b) && b.produced == [] && b.asked == []
    ensures a == Course([], ps, b.left, b.cursor)
  {
  }

  lemma {:induction false} ContinuesHere(a: Course)
    ensures Continues(a, [], [], a)
  {
  }

  /** The bytes sent for a list of cursors are the command with each cursor in turn. */
  predicate Carried(cmd: Stored, cursors: seq<nat>, sent: seq<bytes>) {
    && Valid(cmd) && |sent| == |cursors|
    && forall i | 0 <= i < |sent| :: sent[i] == Packed(cmd.(cursor := Some(cursors[i])))
  }

  lemma {:induction false} CarriedStep(cmd: Stored, cursors: seq<nat>, sent: seq<bytes>, next: Option<nat>)
    requires Carried(cmd, cursors, sent) && cmd.cursor.Some?
    ensures Carried(cmd.(cursor := next), cursors + [cmd.cursor.value], sent + [Packed(cmd)])
  {
    assert cmd == cmd.(cursor := Some(cmd.cursor.value));
  }

  /**
   What a server reads from the request with number `i`: the command's arguments, and in
   the cursor's place the cursor with that number.
   */
  lemma {:induction false} CarriedReads(
      lv: Leaves, cmd: Stored, cursors: seq<nat>, sent: seq<bytes>, i: nat, t: bytes)
    requires Carried(cmd, cursors, sent) && i < |sent| && AcceptsAscii(lv) && MachineSized(cmd) && cursors[i] < TWO_64
    ensures
      var p, c := Parse(lv, sent[i] + t), cmd.(cursor := Some(cursors[i]));
      Valid(c) && Args(c) == Args(cmd) && p.Done? && p.rest == t && Carries(p.value, c)
  {
    hide Packed, Parse, Carries, AcceptsAscii;
    RequestCarries(lv, cmd.(cursor := Some(cursors[i])), t);
  }

  lemma {:induction false} ValidWithCursor(cmd: Stored, cursor: Option<nat>)
    requires Valid(cmd)
    ensures Valid(cmd.(cursor := cursor))
  {
  }

  lemma {:induction false} PackedNotEmpty(cmd: Stored)
    requires Valid(cmd)
    ensures Packed(cmd) != []
  {
  }

  // ----------------------------------------------------------------- the iterator

  /** A connection: the replies still to come, and the requests sent. */
  class Server {
    var script: seq<Reply>
    var sent: seq<bytes>

    method Request(input: bytes) returns (r: Reply)
      modifies this
      ensures input == [] ==> r == Err(EmptyCommand) && sent == old(sent) && script == old(script)
      ensures input != [] ==> sent == old(sent) + [input]
      ensures input != [] && old(script) == [] ==> r == Err(ConnectionClosed) && script == []
      ensures input != [] && old(script) != [] ==> r == old(script)[0] && script == old(script)[1..]
    {
      if input == [] {
        return Err(EmptyCommand);
      }
      sent := sent + [input];
      if script == [] {
        return Err(ConnectionClosed);
      }
      r, script := script[0], script[1..];
    }
  }

  class CheckedIter {
    var batch: seq<Reply>
    var cmd: Stored
    const server: Server
    ghost var asked: seq<nat>
    ghost var sent: seq<bytes>

    constructor (batch: seq<Reply>, cmd: Stored, server: Server)
      requires Command.Valid(cmd) && cmd.args != [] && cmd.cursor.Some?
      ensures Valid() && this.batch == batch && this.cmd == cmd && this.server == server
      ensures asked == [] && sent == []
    {
      this.batch, this.cmd, this.server := batch, cmd, server;
      asked, sent := [], [];
    }

    /** What this iterator sent is the command with the cursors it asked for. */
    ghost predicate Valid()
      reads this
    {
      Carried(cmd, asked, sent) && Command.Valid(cmd) && cmd.args != [] && cmd.cursor.Some?
    }

    ghost function Remaining(cv: Convert): Course
      reads this, server
      requires Valid()
    {
      Ahead(cv, batch, cmd.cursor.value, server.script)
    }

    /** Sends the command with its current cursor; a page replaces cursor and batch. */
    method Fetch(cv: Convert) returns (error: Option<RedisError>)
      requires Valid() && batch == []
      modifies this, server
      ensures Valid() && cmd == old(cmd).(cursor := cmd.cursor)
      ensures asked == old(asked) + [old(cmd).cursor.value]
      ensures sent == old(sent) + [Packed(old(cmd))] && server.sent == old(server.sent) + [Packed(old(cmd))]
      ensures
        if old(server.script) == [] then
          error == Some(ConnectionClosed) && server.script == [] && batch == [] && cmd == old(cmd)
        else
          && server.script == old(server.script)[1..]
          && match PageOf(cv, old(server.script)[0])
             case Err(e) => error == Some(e) && batch == [] && cmd == old(cmd)
             case Ok(p) => error == None && batch == p.items && cmd.cursor == Some(p.cursor)
    {
      hide Carried, Packed, Command.Valid;
      var packed := GetPackedCommand(cmd);
      PackedNotEmpty(cmd);
      var reply := server.Request(packed);
      var page := PageOf(cv, reply);
      var next := if page.Ok? then Some(page.value.cursor) else cmd.cursor;
      CarriedStep(cmd, asked, sent, next);
      ValidWithCursor(cmd, next);
      asked, sent := asked + [cmd.cursor.value], sent + [packed];
      match page {
        case Err(e) =>
          error := Some(e);
        case Ok(p) =>
          cmd, batch, error := cmd.(cursor := next), p.items, None;
      }
    }

    /** The next item: from the batch, or from the first page that has one. */
    method Next(cv: Convert) returns (item: Option<Reply>, ghost cursors: seq<nat>)
      requires Valid()
      modifies this, server
      ensures Valid() && cmd == old(cmd).(cursor := cmd.cursor)
      ensures asked == old(asked) + cursors
      ensures exists bs :: sent == old(sent) + bs && server.sent == old(server.sent) + bs
      ensures
        var was := old(Remaining(cv));
        if was.produced != [] then
          item == Some(was.produced[0]) && Continues(was, [was.produced[0]], cursors, Remaining(cv))
        else if was.cursor == 0 then
          item == None && Continues(was, [], cursors, Remaining(cv)) && Remaining(cv).asked == []
        else
          && item == Some(Err(ConnectionClosed)) && cursors == was.asked + [was.cursor]
          && Remaining(cv) == Course([], [], [], was.cursor)
    {
      hide Paging, Ahead, Carried, Packed, Command.Valid, PageOf, Continues;
      ghost var bs: seq<bytes>, was := [], Remaining(cv);
      cursors := [];
      ContinuesHere(was);
      while true
        invariant Valid() && cmd == old(cmd).(cursor := cmd.cursor)
        invariant asked == old(asked) + cursors
        invariant sent == old(sent) + bs && server.sent == old(server.sent) + bs
        invariant Continues(was, [], cursors, Remaining(cv))
        decreases |server.script|, |batch|
      {
        ghost var here := Remaining(cv);
        if batch != [] {
          TakeFromBatch(cv, batch, cmd.cursor.value, server.script);
          item := Some(batch[0]);
          batch := batch[1..];
          ContinuesOn(was, cursors, here, [item.value], [], Remaining(cv));
          assert cursors + [] == cursors;
          return;
        }
        if cmd.cursor.value == 0 {
          TakeNothing(cv, 0, server.script);
          ContinuesEnd(was, cursors, here);
          return None, cursors;
        }
        ghost var before, script := cmd, server.script;
        if script == [] {
          TakeNothing(cv, before.cursor.value, script);
          ContinuesEnd(was, cursors, here);
        } else {
          TakePage(cv, before.cursor.value, script);
        }
        var error := Fetch(cv);
        bs := bs + [Packed(before)];
        assert sent == old(sent) + bs && server.sent == old(server.sent) + bs;
        if script != [] {
          ghost var items := if error.Some? then [Err(error.value)] else [];
          ContinuesOn(was, cursors, here, items, [before.cursor.value], Remaining(cv));
        }
        cursors := cursors + [before.cursor.value];
        if error.Some? {
          return Some(Err(error.value)), cursors;
        }
      }
    }
  }

  /** What the call with number `i` gives: items, then the end, or an error each time if no reply is left. */
  function ItemAt(course: Course, i: nat): Option<Reply> {
    if i < |course.produced| then Some(course.produced[i])
    else if course.cursor == 0 then None
    else Some(Err(ConnectionClosed))
  }

  /** The cursors sent by `i` calls that went past the last item. */
  function AskedPast(course: Course, i: nat): seq<nat>
    requires |course.produced| <= i
  {
    course.asked + seq(i - |course.produced|, _ => course.cursor)
  }

  /** After `i` calls of an iterator that started with `course`; its connection carried what it asked for. */
  ghost predicate Along(it: CheckedIter, cv: Convert, start: Stored, base: seq<bytes>, course: Course, i: nat)
    reads it, it.server
  {
    && it.Valid() && it.cmd == start.(cursor := it.cmd.cursor) && it.server.sent == base + it.sent
    && if i <= |course.produced| then Continues(course, course.produced[..i], it.asked, it.Remaining(cv))
       else
         && course.cursor != 0 && it.Remaining(cv) == Course([], [], [], course.cursor)
         && it.asked == AskedPast(course, i)
  }

  lemma {:induction false} AlongStart(it: CheckedIter, cv: Convert)
    requires it.Valid() && it.sent == [] && it.asked == []
    ensures Along(it, cv, it.cmd, it.server.sent, it.Remaining(cv), 0)
  {
    hide Ahead, Carried, Command.Valid;
    assert it.Remaining(cv).produced[..0] == [];
  }

  /** One more call of `next`. */
  method Advance(
    it: CheckedIter, cv: Convert, ghost start: Stored, ghost base: seq<bytes>, ghost course: Course, ghost i: nat)
    returns (item: Option<Reply>)
    requires Along(it, cv, start, base, course, i)
    modifies it, it.server
    ensures item == ItemAt(course, i)
    ensures Along(it, cv, start, base, course, if item.None? then i else i + 1)
    ensures item.None? ==> it.Remaining(cv).asked == []
  {
    hide Ahead, Carried, Command.Valid, Packed;
    ghost var before, asked := it.Remaining(cv), it.asked;
    ghost var cursors;
    item, cursors := it.Next(cv);
    if i < |course.produced| {
      ContinuesTwice(course, course.produced[..i], asked, before, [before.produced[0]], cursors, it.Remaining(cv));
      assert course.produced[..i + 1] == course.produced[..i] + [before.produced[0]];
    } else if course.cursor == 0 {
      ContinuesTwice(course, course.produced[..i], asked, before, [], cursors, it.Remaining(cv));
      assert course.produced[..i] + [] == course.produced[..i];
    } else {
      assert asked + (before.asked + [course.cursor]) == AskedPast(course, i + 1);
    }
  }

  /** Any number of calls, whatever the server replies: each gives what the course says, and the end comes there. */
  method Take(it: CheckedIter, cv: Convert, n: nat) returns (items: seq<Reply>, ended: bool)
    requires it.Valid() && it.sent == [] && it.asked == []
    modifies it, it.server
    ensures
      var course := old(it.Remaining(cv));
      && |items| <= n && (ended <==> |items| < n)
      && (forall i | 0 <= i < |items| :: Some(items[i]) == ItemAt(course, i))
      && (ended ==> ItemAt(course, |items|) == None)
      && Along(it, cv, old(it.cmd), old(it.server.sent), course, |items|)
  {
    hide Ahead, Carried, Command.Valid, Along;
    items, ended := [], false;
    ghost var start, base, course := it.cmd, it.server.sent, it.Remaining(cv);
    AlongStart(it, cv);
    while |items| < n
      invariant |items| <= n && !ended && Along(it, cv, start, base, course, |items|)
      invariant forall i | 0 <= i < |items| :: Some(items[i]) == ItemAt(course, i)
    {
      var item := Advance(it, cv, start, base, course, |items|);
      if item.None? {
        return items, true;
      }
      items := items + [item.value];
    }
  }

  /** The caller's loop over an iterator, until it says it is done; it is, if the replies reach cursor zero. */
  method Collect(it: CheckedIter, cv: Convert) returns (items: seq<Reply>)
    requires it.Valid() && it.sent == [] && it.asked == [] && it.Remaining(cv).cursor == 0
    modifies it, it.server
    ensures items == old(it.Remaining(cv)).produced && it.server.script == old(it.Remaining(cv)).left
    ensures exists bs ::
              Carried(old(it.cmd), old(it.Remaining(cv)).asked, bs) && it.server.sent == old(it.server.sent) + bs
  {
    hide Ahead, Carried, Command.Valid;
    items := [];
    ghost var start, base, course := it.cmd, it.server.sent, it.Remaining(cv);
    assert course.produced[..0] == [];
    while true
      invariant Along(it, cv, start, base, course, |items|) && items <= course.produced
      decreases |course.produced| - |items|
    {
      var item := Advance(it, cv, start, base, course, |items|);
      if item.None? {
        break;
      }
      items := items + [item.value];
    }
    CourseEnds(cv, it.batch, it.cmd.cursor.value, it.server.script);
    CarriedAnyCursor(it.cmd, it.asked, it.sent, start.cursor);
    assert it.cmd.(cursor := start.cursor) == start && course.asked == it.asked;
    assert Carried(start, course.asked, it.sent);
  }

  lemma {:induction false} CourseEnds(cv: Convert, batch: seq<Reply>, cursor: nat, script: seq<Reply>)
    requires Ahead(cv, batch, cursor, script).asked == []
    ensures Ahead(cv, batch, cursor, script).left == script
  {
  }

  lemma {:induction false} CarriedAnyCursor(cmd: Stored, cursors: seq<nat>, sent: seq<bytes>, cursor: Option<nat>)
    requires Carried(cmd, cursors, sent)
    ensures Carried(cmd.(cursor := cursor), cursors, sent)
  {
  }

  /** The first request, and the batch and cursor its reply leaves. */
  method Iter(cmd: Stored, server: Server, cv: Convert) returns (r: Result<CheckedIter, RedisError>)
    requires Valid(cmd)
    modifies server
    ensures cmd.args == [] ==>
              r == Err(EmptyCommand) && server.sent == old(server.sent) && server.script == old(server.script)
    ensures cmd.args != [] ==> server.sent == old(server.sent) + [Packed(cmd)]
    ensures cmd.args != [] && old(server.script) == [] ==> r == Err(ConnectionClosed)
    ensures cmd.args != [] && old(server.script) != [] ==>
              && server.script == old(server.script)[1..]
              && match old(server.script)[0]
                 case Err(e) => r == Err(e)
                 case Ok(v) =>
                   match FirstPage(cv, v)
                   case Err(e) => r == Err(e)
                   case Ok(p) =>
                     && r.Ok? && fresh(r.value) && r.value.server == server && r.value.Valid()
                     && r.value.batch == p.items && r.value.cmd == cmd.(cursor := Some(p.cursor))
                     && r.value.sent == [] && r.value.asked == []
  {
    hide Packed, Valid, FirstPage;
    var input := GetPackedCommand(cmd);
    PackedNotEmpty(cmd);
    var reply := server.Request(input);
    if reply.Err? {
      return Err(reply.error);
    }
    var page := FirstPage(cv, reply.value);
    if page.Err? {
      return Err(page.error);
    }
    ValidWithCursor(cmd, Some(page.value.cursor));
    var it := new CheckedIter(page.value.items, cmd.(cursor := Some(page.value.cursor)), server);
    r := Ok(it);
  }

  // ---------------------------------------------------------------- what it amounts to

  /** Replies that are all pages. */
  predicate AllPages(cv: Convert, script: seq<Reply>, pages: seq<Page>) {
    |pages| == |script| && forall i | 0 <= i < |script| :: PageOf(cv, script[i]) == Ok(pages[i])
  }

  function Items(pages: seq<Page>): seq<Reply> {
    if pages == [] then [] else pages[0].items + Items(pages[1..])
  }

  function Cursors(pages: seq<Page>): seq<nat> {
    seq(|pages|, i requires 0 <= i < |pages| => pages[i].cursor)
  }

  /**
   For every list of pages, empty ones included, with the first zero cursor on page
   `k`: the iteration produces exactly the items of the pages up to it, its requests
   carry the starting cursor and then each page's cursor, and no reply after that page
   is asked for.
   */
  lemma {:induction false} PagesUpToZero(cv: Convert, cursor: nat, script: seq<Reply>, pages: seq<Page>, k: nat)
    requires AllPages(cv, script, pages) && cursor != 0 && k < |pages|
    requires pages[k].cursor == 0 && forall i | 0 <= i < k :: pages[i].cursor != 0
    ensures Paging(cv, cursor, script) ==
            Course(Items(pages[..k + 1]), [cursor] + Cursors(pages[..k]), script[k + 1..], 0)
    decreases k
  {
    hide PageOf;
    assert pages[..k + 1][0] == pages[0] && pages[..k + 1][1..] == pages[1..][..k];
    assert PageOf(cv, script[0]) == Ok(pages[0]);
    if k == 0 {
      assert Items(pages[1..][..0]) == [];
      assert Paging(cv, 0, script[1..]) == Course([], [], script[1..], 0);
      assert pages[..0] == [] && Cursors([]) == [];
    } else {
      PagesUpToZero(cv, pages[0].cursor, script[1..], pages[1..], k - 1);
      assert Cursors(pages[..k]) == [pages[0].cursor] + Cursors(pages[1..][..k - 1]);
      assert script[1..][k..] == script[k + 1..];
    }
  }

  lemma {:induction false} FirstPageOnly(cv: Convert, pages: seq<Page>, k: nat, script: seq<Reply>)
    requires k < |pages| && AllPages(cv, script, pages[1..])
    requires pages[k].cursor == 0 && forall i | 0 <= i < k :: pages[i].cursor != 0
    ensures Ahead(cv, pages[0].items, pages[0].cursor, script) ==
            Course(Items(pages[..k + 1]), Cursors(pages[..k]), script[k..], 0)
  {
    hide PageOf;
    assert pages[..k + 1][0] == pages[0] && pages[..k + 1][1..] == pages[1..][..k];
    if k == 0 {
      assert Items(pages[1..][..0]) == [] && pages[0].items + [] == pages[0].items;
      assert Cursors(pages[..0]) == [] && script[0..] == script;
    } else {
      PagesUpToZero(cv, pages[0].cursor, script, pages[1..], k - 1);
      assert Cursors(pages[..k]) == [pages[0].cursor] + Cursors(pages[1..][..k - 1]);
    }
  }

  /**
   A whole scan: if the server's replies are pages and page `k` is the first with
   cursor zero, be it the very first one, the caller gets exactly the items of the
   pages up to it. The first request is the command as given, each further one carries
   the cursor of the reply before it, and no reply after page `k` is asked for.
   */
  method ScanAll(cmd: Stored, server: Server, cv: Convert, ghost pages: seq<Page>, ghost k: nat)
    returns (r: Result<seq<Reply>, RedisError>)
    requires Valid(cmd) && cmd.args != [] && k < |pages| == |server.script|
    requires server.script[0].Ok? && FirstPage(cv, server.script[0].value) == Ok(pages[0])
    requires AllPages(cv, server.script[1..], pages[1..])
    requires pages[k].cursor == 0 && forall i | 0 <= i < k :: pages[i].cursor != 0
    modifies server
    ensures r == Ok(Items(pages[..k + 1])) && server.script == old(server.script)[k + 1..]
    ensures exists bs ::
              Carried(cmd, Cursors(pages[..k]), bs) && server.sent == old(server.sent) + [Packed(cmd)] + bs
  {
    hide Packed, Carried, Valid, FirstPage, Ahead, Items, Cursors, PageOf;
    FirstPageOnly(cv, pages, k, server.script[1..]);
    assert server.script[1..][k..] == server.script[k + 1..];
    var it := Iter(cmd, server, cv);
    var items := Collect(it.value, cv);
    ghost var bs :| Carried(cmd.(cursor := Some(pages[0].cursor)), Cursors(pages[..k]), bs) &&
                    server.sent == old(server.sent) + [Packed(cmd)] + bs;
    CarriedAnyCursor(cmd.(cursor := Some(pages[0].cursor)), Cursors(pages[..k]), bs, cmd.cursor);
    assert cmd.(cursor := Some(pages[0].cursor)).(cursor := cmd.cursor) == cmd;
    r := Ok(items);
  }

  /** The items among what was produced. */
  function Values(rs: seq<Reply>): seq<Value> {
    if rs == [] then []
    else if rs[0].Ok? then [rs[0].value] + Values(rs[1..])
    else Values(rs[1..])
  }

  lemma {:induction false} ValuesConcat(a: seq<Reply>, b: seq<Reply>)
    ensures Values(a + b) == Values(a) + Values(b)
  {
    if a == [] {
      assert a + b == b;
    } else {
      ValuesConcat(a[1..], b);
      assert (a + b)[1..] == a[1..] + b;
    }
  }

  function WithoutErrors(cv: Convert, script: seq<Reply>): seq<Reply> {
    if script == [] then []
    else if PageOf(cv, script[0]).Ok? then [script[0]] + WithoutErrors(cv, script[1..])
    else WithoutErrors(cv, script[1..])
  }

  /** Failed requests lose nothing: the same items come as if the failures had not happened. */
  lemma {:induction false} ErrorsLoseNothing(cv: Convert, cursor: nat, script: seq<Reply>)
    ensures
      var with, without := Paging(cv, cursor, script), Paging(cv, cursor, WithoutErrors(cv, script));
      Values(with.produced) == Values(without.produced) && with.cursor == without.cursor
    decreases |script|
  {
    hide PageOf;
    if cursor == 0 || script == [] {
    } else {
      var page, clean := PageOf(cv, script[0]), WithoutErrors(cv, script);
      if page.Ok? {
        ErrorsLoseNothing(cv, page.value.cursor, script[1..]);
        assert clean[0] == script[0] && clean[1..] == WithoutErrors(cv, script[1..]);
        ValuesConcat(page.value.items, Paging(cv, page.value.cursor, script[1..]).produced);
        ValuesConcat(page.value.items, Paging(cv, page.value.cursor, clean[1..]).produced);
      } else {
        ErrorsLoseNothing(cv, cursor, script[1..]);
        var later := Paging(cv, cursor, script[1..]).produced;
        assert ([Err(page.error)] + later)[1..] == later;
      }
    }
  }

  /**
   The first reply is a page exactly if it is an array of two, a bulk string and an array;
   it then goes through the same conversion as every later page. Any other reply is the
   whole list, after which nothing is asked for.
   */
  lemma {:induction false} FirstReplyExact(cv: Convert, v: Value)
    ensures
      if exists cursor, items :: v == Array([BulkString(cursor), Array(items)]) then
        FirstPage(cv, v) == match cv.page(v) case None => Err(ParseFailure) case Some(p) => Ok(p)
      else
        FirstPage(cv, v) == match cv.plain(v) case None => Err(ParseFailure) case Some(list) => Ok(Page(0, list))
  {
    if LooksLikeCursor(v) {
      assert v == Array([BulkString(v.items[0].data), Array(v.items[1].items)]);
    } else {
      forall cursor, items ensures v != Array([BulkString(cursor), Array(items)]) {
        assert LooksLikeCursor(Array([BulkString(cursor), Array(items)]));
      }
    }
  }
}
