/**
 Commands: arguments kept as one byte buffer plus end offsets, their exact
 encoded length, and the bytes they are sent as.
 */
module Command {
  import opened Resp
  import opened Text
  import opened Parser
  import opened Wire

  datatype Arg<+T> = Simple(value: T) | Cursor

  /** The stored form of a command: end offsets of the arguments in one buffer. */
  datatype Stored = Stored(data: bytes, args: seq<Arg<nat>>, cursor: Option<nat>)

  /** The offsets mark consecutive pieces of a buffer of length `end`, from `prev` on. */
  predicate LaidOut(args: seq<Arg<nat>>, prev: nat, end: nat) {
    if args == [] then prev == end
    else
      match args[0]
      case Simple(i) => prev <= i <= end && LaidOut(args[1..], i, end)
      case Cursor => LaidOut(args[1..], prev, end)
  }

  predicate Valid(c: Stored) {
    LaidOut(c.args, 0, |c.data|)
  }

  /** The arguments from offset `prev` on, as the iterator hands them out. */
  function ArgsFrom(data: bytes, args: seq<Arg<nat>>, prev: nat): (r: seq<Arg<bytes>>)
    requires LaidOut(args, prev, |data|)
    ensures |r| == |args|
  {
    if args == [] then []
    else
      match args[0]
      case Simple(i) => LaidOutBounds(args[1..], i, |data|); [Simple(data[prev..i])] + ArgsFrom(data, args[1..], i)
      case Cursor => [Arg<bytes>.Cursor] + ArgsFrom(data, args[1..], prev)
  }

  lemma {:induction false} LaidOutBounds(args: seq<Arg<nat>>, prev: nat, end: nat)
    requires LaidOut(args, prev, end)
    ensures prev <= end
  {
    if args == [] {
    } else {
      LaidOutBounds(args[1..], if args[0].Simple? then args[0].value else prev, end);
    }
  }

  function Args(c: Stored): seq<Arg<bytes>>
    requires Valid(c)
  {
    ArgsFrom(c.data, c.args, 0)
  }

  lemma {:induction false} AppendSimple(data: bytes, args: seq<Arg<nat>>, prev: nat, arg: bytes)
    requires LaidOut(args, prev, |data|)
    ensures
      var args' := args + [Simple(|data| + |arg|)];
      && LaidOut(args', prev, |data + arg|)
      && ArgsFrom(data + arg, args', prev) == ArgsFrom(data, args, prev) + [Simple(arg)]
  {
    var args' := args + [Simple(|data| + |arg|)];
    LaidOutBounds(args, prev, |data|);
    if args == [] {
      assert args'[1..] == [];
      assert (data + arg)[|data|..|data| + |arg|] == arg;
    } else {
      assert args'[1..] == args[1..] + [Simple(|data| + |arg|)];
      var next := if args[0].Simple? then args[0].value else prev;
      AppendSimple(data, args[1..], next, arg);
      LaidOutBounds(args[1..], next, |data|);
      assert (data + arg)[prev..next] == data[prev..next];
    }
  }

  lemma {:induction false} AppendCursor(data: bytes, args: seq<Arg<nat>>, prev: nat)
    requires LaidOut(args, prev, |data|)
    ensures
      var args' := args + [Arg<nat>.Cursor];
      LaidOut(args', prev, |data|) && ArgsFrom(data, args', prev) == ArgsFrom(data, args, prev) + [Arg<bytes>.Cursor]
  {
    var args' := args + [Arg<nat>.Cursor];
    if args == [] {
      assert args'[1..] == [];
    } else {
      assert args'[1..] == args[1..] + [Arg<nat>.Cursor];
      AppendCursor(data, args[1..], if args[0].Simple? then args[0].value else prev);
    }
  }

  /** The command builder. */
  class Cmd {
    var data: bytes
    var args: seq<Arg<nat>>
    var cursor: Option<nat>
    var noResponse: bool
    var skipConcurrencyLimit: bool

    function View(): Stored
      reads this
    {
      Stored(data, args, cursor)
    }

    constructor ()
      ensures View() == Stored([], [], None) && Valid(View()) && Args(View()) == []
      ensures !noResponse && !skipConcurrencyLimit
    {
      data, args, cursor := [], [], None;
      noResponse, skipConcurrencyLimit := false, false;
    }

    method WriteArg(arg: bytes)
      requires Valid(View())
      modifies this`data, this`args
      ensures Valid(View()) && Args(View()) == old(Args(View())) + [Simple(arg)]
      ensures data == old(data) + arg
    {
      AppendSimple(data, args, 0, arg);
      data := data + arg;
      args := args + [Simple(|data|)];
    }

    method CursorArg(c: nat)
      requires Valid(View())
      modifies this`args, this`cursor
      ensures Valid(View()) && Args(View()) == old(Args(View())) + [Arg<bytes>.Cursor] && cursor == Some(c)
    {
      AppendCursor(data, args, 0);
      cursor := Some(c);
      args := args + [Arg<nat>.Cursor];
    }

    method Clear()
      modifies this
      ensures View() == Stored([], [], None) && Valid(View()) && Args(View()) == []
      ensures !noResponse && !skipConcurrencyLimit
    {
      data, args, cursor := [], [], None;
      noResponse, skipConcurrencyLimit := false, false;
    }
  }

  /** A run of builder calls. */
  datatype BuilderCall = Write(arg: bytes) | AddCursor(cursor: nat)

  /** Every sequence of builder calls leaves exactly the arguments it was given, in order. */
  method Build(calls: seq<BuilderCall>) returns (c: Stored)
    ensures Valid(c) && |Args(c)| == |calls|
    ensures forall i | 0 <= i < |calls| ::
              Args(c)[i] == if calls[i].Write? then Simple(calls[i].arg) else Arg<bytes>.Cursor
    ensures forall i | 0 <= i < |calls| && calls[i].AddCursor? ::
              (forall j | i < j < |calls| :: !calls[j].AddCursor?) ==> c.cursor == Some(calls[i].cursor)
  {
    var cmd := new Cmd();
    var k := 0;
    while k < |calls|
      invariant 0 <= k <= |calls| && fresh(cmd) && Valid(cmd.View()) && |Args(cmd.View())| == k
      invariant forall i | 0 <= i < k ::
                  Args(cmd.View())[i] == if calls[i].Write? then Simple(calls[i].arg) else Arg<bytes>.Cursor
      invariant forall i | 0 <= i < k && calls[i].AddCursor? ::
                  (forall j | i < j < k :: !calls[j].AddCursor?) ==> cmd.cursor == Some(calls[i].cursor)
    {
      match calls[k] {
        case Write(arg) => cmd.WriteArg(arg);
        case AddCursor(cursor) => cmd.CursorArg(cursor);
      }
      k := k + 1;
    }
    c := cmd.View();
  }

  // ------------------------------------------------------------- encoded form

  /** The bytes an argument is sent as. */
  function ArgBytes(arg: Arg<bytes>, cursor: nat): bytes {
    match arg
    case Simple(val) => val
    case Cursor => Decimal(cursor)
  }

  /** A command as the server sees it: an array of bulk strings. */
  function Request(args: seq<Arg<bytes>>, cursor: nat): (v: Value)
    ensures v.Array? && |v.items| == |args|
  {
    Array(Bulks(args, cursor))
  }

  function Bulks(args: seq<Arg<bytes>>, cursor: nat): (vs: seq<Value>)
    ensures |vs| == |args|
  {
    seq(|args|, i requires 0 <= i < |args| => BulkString(ArgBytes(args[i], cursor)))
  }

  lemma {:induction false} BulksAreShallow(vs: seq<Value>)
    requires forall i | 0 <= i < |vs| :: vs[i].BulkString?
    ensures FrameDepthAll(vs) <= 1
  {
    if vs == [] {
    } else {
      BulksAreShallow(vs[1..]);
    }
  }

  lemma {:induction false} RequestIsShallow(args: seq<Arg<bytes>>, cursor: nat)
    ensures FrameDepth(Request(args, cursor)) <= 2
  {
    BulksAreShallow(Bulks(args, cursor));
  }

  function CursorOf(c: Stored): nat { if c.cursor.Some? then c.cursor.value else 0 }

  /** What a stored command is on the wire. */
  function Packed(c: Stored): bytes
    requires Valid(c)
  {
    Encode(Request(Args(c), CursorOf(c)))
  }

  lemma {:induction false} DecimalByFours(v: nat)
    ensures v < 10 ==> |Decimal(v)| == 1
    ensures 10 <= v < 100 ==> |Decimal(v)| == 2
    ensures 100 <= v < 1000 ==> |Decimal(v)| == 3
    ensures 1000 <= v < 10000 ==> |Decimal(v)| == 4
    ensures v >= 10000 ==> |Decimal(v)| == 4 + |Decimal(v / 10000)|
  {
    var a := v / 10;
    var b := a / 10;
    var c := b / 10;
    var d := c / 10;
    assert d == v / 10000;
    assert v >= 10 ==> |Decimal(v)| == |Decimal(a)| + 1;
    assert a >= 10 ==> |Decimal(a)| == |Decimal(b)| + 1;
    assert b >= 10 ==> |Decimal(b)| == |Decimal(c)| + 1;
    assert c >= 10 ==> |Decimal(c)| == |Decimal(d)| + 1;
  }

  /** The four-digits-at-a-time counter counts the digits that are printed. */
  method CountDigits(v: nat) returns (result: nat)
    ensures result == |Decimal(v)|
  {
    var rest := v;
    result := 1;
    while true
      invariant result + |Decimal(rest)| == |Decimal(v)| + 1
      decreases rest
    {
      DecimalByFours(rest);
      if rest < 10 { return result; }
      if rest < 100 { return result + 1; }
      if rest < 1000 { return result + 2; }
      if rest < 10000 { return result + 3; }
      rest := rest / 10000;
      result := result + 4;
    }
  }

  method BulkLen(len: nat) returns (r: nat)
    ensures r == |Header(TAG_BULK, len)| + len + 2
  {
    var digits := CountDigits(len);
    r := 1 + digits + 2 + len + 2;
  }

  /** Encoding one more argument. */
  lemma {:induction false} EncodeOneMore(vs: seq<Value>, v: Value)
    ensures EncodeAll(vs + [v]) == EncodeAll(vs) + Encode(v)
  {
    hide Encode;
    var ws := vs + [v];
    if vs == [] {
      assert ws == [v] && ws[1..] == [];
      assert EncodeAll(ws) == Encode(v) + [];
    } else {
      assert ws[1..] == vs[1..] + [v];
      EncodeOneMore(vs[1..], v);
      assert Encode(vs[0]) + (EncodeAll(vs[1..]) + Encode(v)) == Encode(vs[0]) + EncodeAll(vs[1..]) + Encode(v);
    }
  }

  lemma {:induction false} BulksStep(args: seq<Arg<bytes>>, cursor: nat, i: nat)
    requires i < |args|
    ensures
      var before, after := Bulks(args[..i], cursor), Bulks(args[..i + 1], cursor);
      var data := ArgBytes(args[i], cursor);
      EncodeAll(after) == EncodeAll(before) + (Header(TAG_BULK, |data|) + Line(data))
  {
    hide EncodeAll, Header;
    var before, after := Bulks(args[..i], cursor), Bulks(args[..i + 1], cursor);
    assert after == before + [BulkString(ArgBytes(args[i], cursor))];
    EncodeOneMore(before, BulkString(ArgBytes(args[i], cursor)));
  }

  lemma {:induction false} BulksDone(args: seq<Arg<bytes>>, cursor: nat)
    ensures Encode(Request(args, cursor)) == Header(TAG_ARRAY, |args|) + EncodeAll(Bulks(args, cursor))
    ensures args[..|args|] == args && Bulks(args[..0], cursor) == []
  {
  }

  /** The announced length is the length of the encoding. */
  method ArgsLen(args: seq<Arg<bytes>>, cursor: nat) returns (totlen: nat)
    ensures totlen == |Encode(Request(args, cursor))|
  {
    hide EncodeAll, Encode, Bulks;
    BulksDone(args, cursor);
    EmptyBulks();
    var digits := CountDigits(|args|);
    totlen := 1 + digits + 2;
    for i := 0 to |args|
      invariant totlen == |Header(TAG_ARRAY, |args|)| + |EncodeAll(Bulks(args[..i], cursor))|
    {
      BulksStep(args, cursor, i);
      var len := |ArgBytes(args[i], cursor)|;
      if args[i].Cursor? {
        len := CountDigits(cursor);
      }
      var bulk := BulkLen(len);
      totlen := totlen + bulk;
    }
  }

  lemma {:induction false} EmptyBulks()
    ensures EncodeAll([]) == []
  {
  }

  lemma {:induction false} HeaderBytes(before: bytes, tag: byte, n: nat)
    ensures before + [tag] + Decimal(n) + CRLF == before + Header(tag, n)
  {
  }

  /** Appends the encoding of a command to `cmd`. */
  method WriteCommand(cmd: bytes, args: seq<Arg<bytes>>, cursor: nat) returns (out: bytes)
    ensures out == cmd + Encode(Request(args, cursor))
  {
    hide EncodeAll, Encode, Bulks, Header, Decimal;
    BulksDone(args, cursor);
    EmptyBulks();
    out := cmd + [TAG_ARRAY] + Decimal(|args|) + CRLF;
    HeaderBytes(cmd, TAG_ARRAY, |args|);
    assert out == cmd + Header(TAG_ARRAY, |args|) + [];
    for i := 0 to |args|
      invariant out == cmd + Header(TAG_ARRAY, |args|) + EncodeAll(Bulks(args[..i], cursor))
    {
      BulksStep(args, cursor, i);
      var data := ArgBytes(args[i], cursor);
      ghost var before := out;
      out := out + [TAG_BULK] + Decimal(|data|) + CRLF;
      HeaderBytes(before, TAG_BULK, |data|);
      out := out + data + CRLF;
      assert out == before + (Header(TAG_BULK, |data|) + Line(data));
    }
  }

  /** `cmd_len`: the space reserved for a command is exactly what writing it fills. */
  method CmdLen(c: Stored) returns (n: nat)
    requires Valid(c)
    ensures n == |Packed(c)|
  {
    n := ArgsLen(Args(c), CursorOf(c));
  }

  method GetPackedCommand(c: Stored) returns (out: bytes)
    requires Valid(c)
    ensures out == if c.args == [] then [] else Packed(c)
  {
    out := [];
    if c.args != [] {
      out := WriteCommand([], Args(c), CursorOf(c));
    }
  }

  // --------------------------------------------------------- what a request holds

  /** Decimal notation of a cursor. */
  ghost predicate CursorText(data: bytes, cursor: nat) {
    && data != [] && AllDigits(data) && DigitsValue(data) == cursor && (|data| > 1 ==> data[0] != '0' as byte)
    && (cursor < TWO_63 ==> ParseI64(data) == Some(cursor))
  }

  /** An array of the arguments, each as it is, and the cursor in the place kept for it: zero if none is set. */
  ghost predicate Carries(v: Value, c: Stored)
    requires Valid(c)
  {
    && v.Array? && |v.items| == |Args(c)|
    && forall i | 0 <= i < |v.items| ::
         match Args(c)[i]
         case Simple(arg) => v.items[i] == BulkString(arg)
         case Cursor =>
           v.items[i].BulkString? && CursorText(v.items[i].data, if c.cursor.Some? then c.cursor.value else 0)
  }

  /** Lengths and cursor are machine words, as the vectors of the source guarantee. */
  predicate MachineSized(c: Stored) {
    |c.args| < TWO_63 && |c.data| < TWO_63 && (c.cursor.Some? ==> c.cursor.value < TWO_64)
  }

  lemma {:induction false} DecimalIsShort(n: nat)
    ensures |Decimal(n)| <= n / 10 + 1
    ensures n > 0 ==> Decimal(n)[0] != ZERO
  {
    if n < 10 {
    } else {
      DecimalIsShort(n / 10);
    }
  }

  lemma {:induction false} CursorPrinted(n: nat)
    ensures CursorText(Decimal(n), n)
  {
    hide Decimal, ParseI64, DigitsValue, AllDigits;
    DigitsValueOfDecimal(n);
    if n < TWO_63 {
      ParsePrinted(n);
    }
    DecimalByFours(n);
    DecimalIsShort(n);
  }

  lemma {:induction false} ArgsAreShort(data: bytes, args: seq<Arg<nat>>, prev: nat, i: nat)
    requires LaidOut(args, prev, |data|) && i < |args|
    ensures var arg := ArgsFrom(data, args, prev)[i]; arg.Simple? ==> |arg.value| <= |data|
  {
    LaidOutBounds(args, prev, |data|);
    if args[0].Simple? {
      LaidOutBounds(args[1..], args[0].value, |data|);
    }
    if i == 0 {
    } else {
      ArgsAreShort(data, args[1..], if args[0].Simple? then args[0].value else prev, i - 1);
    }
  }

  lemma {:induction false} RequestHolds(c: Stored)
    requires Valid(c)
    ensures Carries(Request(Args(c), CursorOf(c)), c)
  {
    hide Args, CursorText, Decimal;
    CursorPrinted(CursorOf(c));
  }

  lemma {:induction false} RequestIsSmall(c: Stored, i: nat)
    requires Valid(c) && MachineSized(c) && i < |c.args|
    ensures |Request(Args(c), CursorOf(c)).items[i].data| < TWO_63
  {
    hide ArgsFrom, LaidOut, Decimal;
    ArgsAreShort(c.data, c.args, 0, i);
    DecimalIsShort(CursorOf(c));
  }

  // --------------------------------------------------------- argument by index

  datatype Indexed = Missing | Found(arg: bytes) | InvertedSlice

  /** `arg_idx`, with the slice that starts after its end, which panics, made explicit. */
  function ArgIdx(c: Stored, idx: nat): Indexed {
    if idx >= |c.args| then Missing
    else
      var start := if idx == 0 then 0 else Offset(c.args[idx - 1]);
      var end := Offset(c.args[idx]);
      if start == 0 && end == 0 then Missing
      else if start <= end <= |c.data| then Found(c.data[start..end])
      else InvertedSlice
  }

  function Offset(arg: Arg<nat>): nat {
    if arg.Simple? then arg.value else 0
  }

  /** Where the argument at `idx` starts: the end of the last simple argument before it. */
  function StartOf(args: seq<Arg<nat>>, prev: nat, idx: nat): nat
    requires idx <= |args|
  {
    if idx == 0 then prev
    else StartOf(args[1..], if args[0].Simple? then args[0].value else prev, idx - 1)
  }

  lemma {:induction false} ArgAt(data: bytes, args: seq<Arg<nat>>, prev: nat, idx: nat)
    requires LaidOut(args, prev, |data|) && idx < |args|
    ensures
      var start := StartOf(args, prev, idx);
      && prev <= start <= |data|
      && (args[idx].Simple? ==> start <= args[idx].value <= |data| &&
                                ArgsFrom(data, args, prev)[idx] == Simple(data[start..args[idx].value]))
      && (args[idx].Cursor? ==> ArgsFrom(data, args, prev)[idx].Cursor?)
      && (idx > 0 && args[idx - 1].Simple? ==> start == args[idx - 1].value)
  {
    LaidOutBounds(args, prev, |data|);
    if idx == 0 {
    } else {
      var next := if args[0].Simple? then args[0].value else prev;
      ArgAt(data, args[1..], next, idx - 1);
    }
  }

  /**
   `arg_idx` finds the argument that the iterator has there exactly when it is a
   non-cursor that ends past the start of the buffer and its predecessor is not a
   cursor standing after some bytes. It leaves the buffer exactly when asked for
   a cursor that follows bytes.
   */
  lemma {:induction false} ArgIdxExact(c: Stored, idx: nat)
    requires Valid(c) && idx < |c.args|
    ensures
      (Args(c)[idx].Simple? && ArgIdx(c, idx) == Found(Args(c)[idx].value)) <==>
        && c.args[idx].Simple? && c.args[idx].value > 0
        && (idx == 0 || c.args[idx - 1].Simple? || StartOf(c.args, 0, idx) == 0)
    ensures ArgIdx(c, idx) == InvertedSlice <==>
            c.args[idx].Cursor? && idx > 0 && c.args[idx - 1].Simple? && c.args[idx - 1].value > 0
  {
    hide ArgsFrom, LaidOut, StartOf;
    ArgAt(c.data, c.args, 0, idx);
    StartAtZero(c.args);
    if c.args[idx].Simple? {
      var end, start := c.args[idx].value, StartOf(c.args, 0, idx);
      var from := if idx == 0 then 0 else Offset(c.args[idx - 1]);
      assert from == start || from == 0;
      SliceStart(c.data, from, start, end);
    }
  }

  lemma {:induction false} SliceStart(data: bytes, a: nat, b: nat, end: nat)
    requires a <= end <= |data| && b <= end
    ensures data[a..end] == data[b..end] <==> a == b
  {
    assert |data[a..end]| == end - a && |data[b..end]| == end - b;
  }

  lemma {:induction false} StartAtZero(args: seq<Arg<nat>>)
    ensures StartOf(args, 0, 0) == 0
  {
  }

  /** Without cursors and with a non-empty name, `arg_idx` and the iterator agree everywhere. */
  lemma {:induction false} ArgIdxWithoutCursors(c: Stored, idx: nat)
    requires Valid(c)
    requires forall i | 0 <= i < |c.args| :: c.args[i].Simple?
    requires c.args != [] && Args(c)[0] != Simple([])
    ensures idx < |c.args| ==> Args(c)[idx].Simple? && ArgIdx(c, idx) == Found(Args(c)[idx].value)
    ensures idx >= |c.args| ==> ArgIdx(c, idx) == Missing
  {
    hide ArgsFrom, LaidOut, StartOf;
    if idx < |c.args| {
      ArgAt(c.data, c.args, 0, 0);
      StartAtZero(c.args);
      EndsGrow(c, idx);
      ArgIdxExact(c, idx);
      ArgAt(c.data, c.args, 0, idx);
    }
  }

  lemma {:induction false} EndsGrow(c: Stored, idx: nat)
    requires Valid(c) && idx < |c.args|
    requires forall i | 0 <= i < |c.args| :: c.args[i].Simple?
    ensures c.args[0].value <= c.args[idx].value
  {
    hide ArgsFrom, LaidOut, StartOf;
    if idx == 0 {
    } else {
      EndsGrow(c, idx - 1);
      ArgAt(c.data, c.args, 0, idx);
    }
  }

  /** A SCAN with its cursor in second place: asking for the cursor slices from 4 to 0. */
  lemma {:induction false} ArgIdxOnScan()
    ensures
      var scan := Stored(Ascii("SCAN"), [Simple(4), Cursor], Some(0));
      Valid(scan) && ArgIdx(scan, 0) == Found(Ascii("SCAN")) && ArgIdx(scan, 1) == InvertedSlice
  {
    var args: seq<Arg<nat>> := [Simple(4), Cursor];
    assert args[1..] == [Cursor] && args[1..][1..] == [];
    assert Ascii("SCAN")[0..4] == Ascii("SCAN");
  }
}
