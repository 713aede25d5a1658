/**
 Replies as a server writes them, and the round trip through the parser: a
 well-formed value comes back unchanged exactly when its frame nests at most 100
 levels; a deeper frame is rejected.
 */
module Wire {
  import opened Resp
  import opened Text
  import opened Parser
  import opened Names
  import opened Framing
  import opened Nesting

  function Line(s: bytes): bytes { s + CRLF }

  function Header(tag: byte, n: int): bytes { [tag] + Line(PrintInt(n)) }

  function Blob(tag: byte, text: bytes): bytes { Header(tag, |text|) + Line(text) }

  /** A value as a server writes it; foreign numbers are the text they were read from. */
  function Encode(v: Value): (s: bytes)
    ensures s != []
    decreases v, 0
  {
    match v
    case Nil => Header(TAG_BULK, -1)
    case Int(n) => Header(TAG_INT, n)
    case BulkString(data) => Header(TAG_BULK, |data|) + Line(data)
    case Okay => [TAG_SIMPLE] + Line(Ascii("OK"))
    case SimpleString(text) => [TAG_SIMPLE] + Line(text)
    case Boolean(flag) => [TAG_BOOLEAN] + Line(Ascii(if flag then "t" else "f"))
    case Error(e) => [TAG_ERROR] + Line(ErrorText(e))
    case Double(digits) => [TAG_DOUBLE] + Line(digits)
    case BigNumber(digits) => [TAG_BIG_NUMBER] + Line(digits)
    case VerbatimString(format, content) => Blob(TAG_VERBATIM, VerbatimText(format, content))
    case Array(items) => Header(TAG_ARRAY, |items|) + EncodeAll(items)
    case Set(members) => Header(TAG_SET, |members|) + EncodeAll(members)
    case Map(pairs) => Header(TAG_MAP, |pairs|) + EncodePairs(pairs)
    case Attribute(inner, attributes) =>
      Header(TAG_ATTRIBUTE, |attributes|) + (EncodePairs(attributes) + Encode(inner))
    case Push(kind, payload) =>
      Header(TAG_PUSH, |payload| + 1) + ([TAG_SIMPLE] + Line(PushName(kind)) + EncodeAll(payload))
  }

  function EncodeAll(vs: seq<Value>): bytes
    decreases vs, 1
  {
    if vs == [] then [] else Encode(vs[0]) + EncodeAll(vs[1..])
  }

  function EncodePair(p: Pair): bytes
    decreases p, 1
  {
    Encode(p.key) + Encode(p.value)
  }

  function EncodePairs(ps: seq<Pair>): bytes
    decreases ps, 1
  {
    if ps == [] then [] else EncodePair(ps[0]) + EncodePairs(ps[1..])
  }

  /** Nesting of the frame; the kind of a push is an element of its own. */
  function FrameDepth(v: Value): (d: nat)
    ensures d >= 1
    decreases v, 0
  {
    match v
    case Array(items) => 1 + FrameDepthAll(items)
    case Set(members) => 1 + FrameDepthAll(members)
    case Map(pairs) => 1 + FrameDepthPairs(pairs)
    case Attribute(inner, attributes) => 1 + Max(FrameDepth(inner), FrameDepthPairs(attributes))
    case Push(_, payload) => 1 + Max(1, FrameDepthAll(payload))
    case _ => 1
  }

  function FrameDepthAll(vs: seq<Value>): nat
    decreases vs, 1
  {
    if vs == [] then 0 else Max(FrameDepth(vs[0]), FrameDepthAll(vs[1..]))
  }

  function FrameDepthPair(p: Pair): nat
    decreases p, 1
  {
    Max(FrameDepth(p.key), FrameDepth(p.value))
  }

  function FrameDepthPairs(ps: seq<Pair>): nat
    decreases ps, 1
  {
    if ps == [] then 0 else Max(FrameDepthPair(ps[0]), FrameDepthPairs(ps[1..]))
  }

  // ------------------------------------------------------------ well-formedness

  ghost predicate AcceptsAscii(lv: Leaves) {
    forall s: bytes | IsAscii(s) :: lv.utf8(s)
  }

  ghost predicate IsAscii(s: bytes) {
    forall i | 0 <= i < |s| :: s[i] < 128
  }

  /** Text that can stand on a line of its own. */
  ghost predicate GoodLine(lv: Leaves, s: bytes) {
    OneLine(s) && lv.utf8(s)
  }

  /** The length is a machine length. */
  predicate GoodLength(n: int) {
    0 <= n < TWO_63
  }

  /** Text that can stand in a length-prefixed payload. */
  ghost predicate GoodBlob(lv: Leaves, text: bytes) {
    GoodLength(|text|) && lv.lossy(text) == text
  }

  /** What the types and the protocol guarantee of a value, beyond its shape. */
  ghost predicate WellFormed(lv: Leaves, v: Value)
    decreases v, 0
  {
    match v
    case Int(n) => -TWO_63 <= n < TWO_63
    case BulkString(data) => GoodLength(|data|)
    case SimpleString(text) => GoodLine(lv, text) && text != Ascii("OK")
    case Error(e) => GoodLine(lv, ErrorText(e)) && PlainError(e)
    case Double(digits) => GoodLine(lv, digits) && Trim(digits) == digits && lv.double(digits)
    case BigNumber(digits) => GoodLine(lv, digits) && lv.bigNumber(digits)
    case VerbatimString(format, content) => GoodBlob(lv, VerbatimText(format, content)) && PlainFormat(format)
    case Array(items) => GoodLength(|items|) && WellFormedAll(lv, items)
    case Set(members) => GoodLength(|members|) && WellFormedAll(lv, members)
    case Map(pairs) => GoodLength(|pairs|) && WellFormedPairs(lv, pairs)
    case Attribute(inner, attributes) =>
      GoodLength(|attributes|) && WellFormed(lv, inner) && WellFormedPairs(lv, attributes)
    case Push(kind, payload) =>
      && GoodLength(|payload| + 1) && WellFormedAll(lv, payload)
      && GoodLine(lv, PushName(kind)) && PushName(kind) != Ascii("OK") && PlainKind(kind)
    case _ => true
  }

  ghost predicate WellFormedAll(lv: Leaves, vs: seq<Value>)
    decreases vs, 1
  {
    vs == [] || (WellFormed(lv, vs[0]) && WellFormedAll(lv, vs[1..]))
  }

  ghost predicate WellFormedPair(lv: Leaves, p: Pair)
    decreases p, 1
  {
    WellFormed(lv, p.key) && WellFormed(lv, p.value)
  }

  ghost predicate WellFormedPairs(lv: Leaves, ps: seq<Pair>)
    decreases ps, 1
  {
    ps == [] || (WellFormedPair(lv, ps[0]) && WellFormedPairs(lv, ps[1..]))
  }

  // ---------------------------------------------------------- reading back lines

  lemma {:induction false} LineReadsBack(lv: Leaves, line: bytes, t: bytes)
    requires GoodLine(lv, line)
    ensures ParseLine(lv, Line(line) + t) == Done(line, t)
  {
    FindCrlfOfLine(line, t);
    var s := Line(line) + t;
    assert s[..|line|] == line && s[|line| + 2..] == t;
  }

  lemma {:induction false} IntReadsBack(lv: Leaves, i: int, t: bytes)
    requires AcceptsAscii(lv) && -TWO_63 <= i < TWO_63
    ensures ParseInt(lv, Line(PrintInt(i)) + t) == Done(i, t)
  {
    IntLineReadsBack(lv, i, t);
  }

  lemma {:induction false} PrintIntIsAscii(i: int)
    ensures IsAscii(PrintInt(i))
  {
    DecimalDigits(if i < 0 then -i else i);
    assert forall b: byte | IsDigit(b) :: b < 128;
  }

  lemma {:induction false} TakeReadsBack(data: bytes, t: bytes)
    ensures TakeCrlf(|data|, Line(data) + t) == Done(data, t)
  {
    var s := Line(data) + t;
    assert s[..|data|] == data && s[|data| + 2..] == t;
  }

  /** Every reply without elements reads back. */
  lemma {:induction false} LeafReadsBack(lv: Leaves, v: Value, t: bytes)
    requires AcceptsAscii(lv) && WellFormed(lv, v) && IsLeaf(v)
    ensures var s := Encode(v); !IsAggregate(s[0]) && ParseLeaf(lv, s[0], s[1..] + t) == Done(v, t)
  {
    hide ParseLine, ParseInt, ParseBlob, TakeCrlf, PrintInt, AcceptsAscii, Blob;
    hide VerbatimText, PlainFormat, ToVerbatim;
    var s := Encode(v);
    match v {
      case Nil =>
        assert s[1..] == Line(PrintInt(-1));
        IntReadsBack(lv, -1, t);
      case BulkString(data) =>
        assert s[1..] + t == Line(PrintInt(|data|)) + (Line(data) + t);
        IntReadsBack(lv, |data|, Line(data) + t);
        TakeReadsBack(data, t);
      case VerbatimString(format, content) =>
        BlobReadsBack(lv, TAG_VERBATIM, VerbatimText(format, content), t);
        VerbatimReadsBack(format, content);
      case _ =>
        LineLeafReadsBack(lv, v, t);
    }
  }

  /** Those of one line. */
  lemma {:induction false} LineLeafReadsBack(lv: Leaves, v: Value, t: bytes)
    requires AcceptsAscii(lv) && WellFormed(lv, v) && IsLeaf(v) && !v.Nil? && !v.BulkString? && !v.VerbatimString?
    ensures var s := Encode(v); !IsAggregate(s[0]) && ParseLeaf(lv, s[0], s[1..] + t) == Done(v, t)
  {
    hide ParseLine, PrintInt, AcceptsAscii, ErrorText, ErrParser, PlainError, Trim;
    var s := Encode(v);
    match v {
      case Int(n) =>
        assert s[1..] == Line(PrintInt(n));
        IntLineReadsBack(lv, n, t);
      case Okay =>
        assert s[1..] == Line(Ascii("OK"));
        WordReadsBack(lv, "OK", t);
      case SimpleString(text) =>
        assert s[1..] == Line(text);
        LineReadsBack(lv, text, t);
      case Boolean(flag) =>
        assert s[1..] == Line(Ascii(if flag then "t" else "f"));
        WordReadsBack(lv, if flag then "t" else "f", t);
        assert Ascii("t")[0] == 116 && Ascii("f")[0] == 102;
      case Error(e) =>
        assert s[1..] == Line(ErrorText(e));
        LineReadsBack(lv, ErrorText(e), t);
        ErrorReadsBack(e);
      case Double(digits) =>
        assert s[1..] == Line(digits);
        LineReadsBack(lv, digits, t);
      case BigNumber(digits) =>
        assert s[1..] == Line(digits);
        LineReadsBack(lv, digits, t);
    }
  }

  lemma {:induction false} BlobReadsBack(lv: Leaves, tag: byte, text: bytes, t: bytes)
    requires AcceptsAscii(lv) && GoodBlob(lv, text)
    ensures var s := Blob(tag, text); s[0] == tag && ParseBlob(lv, s[1..] + t) == Done(text, t)
  {
    hide ParseInt, TakeCrlf, PrintInt, AcceptsAscii;
    var s := Blob(tag, text);
    assert s[1..] + t == Line(PrintInt(|text|)) + (Line(text) + t);
    IntReadsBack(lv, |text|, Line(text) + t);
    TakeReadsBack(text, t);
  }

  /** The other form of an error reply, with a length, is read as the same error. */
  lemma {:induction false} BlobErrorReadsBack(lv: Leaves, e: ServerError, t: bytes)
    requires AcceptsAscii(lv) && GoodBlob(lv, ErrorText(e)) && PlainError(e)
    ensures Parse(lv, Blob(TAG_BLOB_ERROR, ErrorText(e)) + t) == Done(Error(e), t)
  {
    hide ParseBlob, ErrorText, ErrParser, PlainError, AcceptsAscii;
    var s := Blob(TAG_BLOB_ERROR, ErrorText(e));
    BlobReadsBack(lv, TAG_BLOB_ERROR, ErrorText(e), t);
    ErrorReadsBack(e);
    assert (s + t)[0] == s[0] && (s + t)[1..] == s[1..] + t;
  }

  /**
   The repository's own encoder announces three bytes more than the content of a verbatim
   text, one short of a three-letter format and its colon. Such a frame is rejected,
   whatever the text and whatever follows.
   */
  lemma {:induction false} ShortLengthRejected(lv: Leaves, text: bytes, t: bytes)
    requires AcceptsAscii(lv) && 0 < |text| < TWO_63
    ensures Parse(lv, Header(TAG_VERBATIM, |text| - 1) + Line(text) + t) == Bad
  {
    hide ParseInt, PrintInt, AcceptsAscii;
    var s := Header(TAG_VERBATIM, |text| - 1) + Line(text) + t;
    var rest := Line(text) + t;
    assert s[0] == TAG_VERBATIM && s[1..] == Line(PrintInt(|text| - 1)) + rest;
    IntReadsBack(lv, |text| - 1, rest);
    assert rest[|text|] == CRLF[0] != CRLF[1];
  }

  /** Verbatim text as the repository's own encoder frames it. */
  function EncoderVerbatim(f: VerbatimFormat, content: bytes): bytes {
    Header(TAG_VERBATIM, 3 + |content|) + Line(VerbatimText(f, content))
  }

  /** It reads back exactly if the name of the format has two letters. */
  lemma {:induction false} EncoderVerbatimReadsBack(lv: Leaves, f: VerbatimFormat, content: bytes, t: bytes)
    requires AcceptsAscii(lv) && GoodBlob(lv, VerbatimText(f, content)) && PlainFormat(f) && 3 + |content| < TWO_63
    ensures Parse(lv, EncoderVerbatim(f, content) + t) == Done(VerbatimString(f, content), t) <==>
            |FormatName(f)| == 2
  {
    hide PlainFormat, AcceptsAscii, ParseBlob, ToVerbatim, PrintInt;
    var text, n := VerbatimText(f, content), 3 + |content|;
    var s := EncoderVerbatim(f, content);
    LengthDecidesRest(lv, n, text, t);
    assert (s + t)[0] == TAG_VERBATIM && (s + t)[1..] == Header(TAG_VERBATIM, n)[1..] + Line(text) + t;
    if n == |text| {
      BlobReadsBack(lv, TAG_VERBATIM, text, t);
      VerbatimReadsBack(f, content);
      assert s == Blob(TAG_VERBATIM, text) && (s + t)[1..] == s[1..] + t;
    }
  }

  /** A payload framed with a wrong length is not what is taken off the stream. */
  lemma {:induction false} LengthDecidesRest(lv: Leaves, n: nat, text: bytes, t: bytes)
    requires AcceptsAscii(lv) && n < TWO_63
    ensures
      var p := ParseBlob(lv, Header(TAG_VERBATIM, n)[1..] + Line(text) + t);
      p.Done? && p.rest == t ==> n == |text|
  {
    hide ParseInt, PrintInt, AcceptsAscii;
    var rest := Line(text) + t;
    assert Header(TAG_VERBATIM, n)[1..] + Line(text) + t == Line(PrintInt(n)) + rest;
    IntReadsBack(lv, n, rest);
  }

  /** A value of one line or one payload. */
  predicate IsLeaf(v: Value) {
    || v.Nil? || v.Int? || v.BulkString? || v.Okay? || v.SimpleString? || v.Boolean? || v.Error?
    || v.Double? || v.BigNumber? || v.VerbatimString?
  }

  lemma {:induction false} IntLineReadsBack(lv: Leaves, i: int, t: bytes)
    requires AcceptsAscii(lv) && -TWO_63 <= i < TWO_63
    ensures ParseLine(lv, Line(PrintInt(i)) + t) == Done(PrintInt(i), t)
    ensures ParseI64(Trim(PrintInt(i))) == Some(i)
  {
    PrintIntIsOneLine(i);
    PrintIntIsAscii(i);
    PrintParseI64(i);
    LineReadsBack(lv, PrintInt(i), t);
  }

  lemma {:induction false} WordReadsBack(lv: Leaves, word: string, t: bytes)
    requires AcceptsAscii(lv) && (forall i | 0 <= i < |word| :: 13 as char < word[i] < 128 as char)
    ensures ParseLine(lv, Line(Ascii(word)) + t) == Done(Ascii(word), t)
  {
    hide ParseLine;
    var w := Ascii(word);
    assert IsAscii(w);
    assert forall j | 0 <= j < |w| :: w[j] == word[j] as byte > 13;
    LineReadsBack(lv, w, t);
  }

  // ------------------------------------------------------------- the round trip

  /** What reading back must give: the value if its frame fits below level `count`, else a rejection. */
  ghost function Verdict<T>(depth: nat, count: int, value: T, t: bytes): Parsed<T> {
    if depth + count <= MAX_RECURSE_DEPTH + 1 then Done(value, t) else Bad
  }

  /** Parsing `a + b` elements is parsing `a` of them and then `b`. */
  lemma {:induction false} ItemsAppend(lv: Leaves, s: bytes, a: nat, b: nat, count: int)
    requires count <= MAX_RECURSE_DEPTH + 1
    ensures
      var p := ParseItems(lv, s, a, count);
      ParseItems(lv, s, a + b, count) ==
        if p.Done? then Append(p.value, ParseItems(lv, p.rest, b, count)) else p
    decreases a
  {
    hide ParseValue;
    if a == 0 {
      AppendNothing(ParseItems(lv, s, b, count));
    } else {
      var v := ParseValue(lv, s, count);
      if v.Done? {
        ItemsAppend(lv, v.rest, a - 1, b, count);
        var q := ParseItems(lv, v.rest, a - 1, count);
        if q.Done? {
          AppendCons(v, q.value, ParseItems(lv, q.rest, b, count));
        }
      }
    }
  }

  function Append(vs: seq<Value>, p: Parsed<seq<Value>>): Parsed<seq<Value>> {
    if p.Done? then Done(vs + p.value, p.rest) else p
  }

  lemma {:induction false} AppendNothing(p: Parsed<seq<Value>>)
    ensures Append([], p) == p
  {
    assert p.Done? ==> [] + p.value == p.value;
  }

  lemma {:induction false} AppendCons(v: Parsed<Value>, vs: seq<Value>, p: Parsed<seq<Value>>)
    requires v.Done?
    ensures Cons(v, Append(vs, p)) == Append([v.value] + vs, p)
  {
    assert p.Done? ==> [v.value] + (vs + p.value) == ([v.value] + vs) + p.value;
  }

  /** The elements of a frame, in wire order. */
  function Flat(ps: seq<Pair>): (vs: seq<Value>)
    ensures |vs| == 2 * |ps|
  {
    if ps == [] then [] else [ps[0].key, ps[0].value] + Flat(ps[1..])
  }

  lemma {:induction false} PairsOfFlat(ps: seq<Pair>, tail: seq<Value>)
    requires |tail| < 2
    ensures Pairs(Flat(ps) + tail) == ps
  {
    if ps == [] {
    } else {
      PairsOfFlat(ps[1..], tail);
      var vs := Flat(ps) + tail;
      assert vs[0] == ps[0].key && vs[1] == ps[0].value;
      assert vs[2..] == Flat(ps[1..]) + tail;
    }
  }

  lemma {:induction false} RoundTripAt(lv: Leaves, v: Value, t: bytes, count: int)
    requires AcceptsAscii(lv) && WellFormed(lv, v)
    requires count <= MAX_RECURSE_DEPTH + 1
    ensures ParseValue(lv, Encode(v) + t, count) == Verdict(FrameDepth(v), count, v, t)
    decreases v, 4
  {
    hide ParseValue;
    if count > MAX_RECURSE_DEPTH {
      TooDeep(lv, Encode(v) + t);
    } else if IsLeaf(v) {
      LeafRoundTrip(lv, v, t, count);
    } else if v.Array? || v.Set? {
      SequenceRoundTrip(lv, v, t, count);
    } else if v.Map? {
      MapRoundTrip(lv, v, t, count);
    } else if v.Attribute? {
      AttributeRoundTrip(lv, v, t, count);
    } else {
      PushRoundTrip(lv, v, t, count);
    }
  }

  /** One level below the limit any first byte is rejected. */
  lemma {:induction false} TooDeep(lv: Leaves, s: bytes)
    requires s != []
    ensures ParseValue(lv, s, MAX_RECURSE_DEPTH + 1) == Bad
  {
  }

  lemma {:induction false} LeafRoundTrip(lv: Leaves, v: Value, t: bytes, count: int)
    requires AcceptsAscii(lv) && WellFormed(lv, v) && IsLeaf(v)
    requires count <= MAX_RECURSE_DEPTH
    ensures FrameDepth(v) == 1 && ParseValue(lv, Encode(v) + t, count) == Done(v, t)
  {
    hide ParseLeaf, Encode, WellFormed;
    var s := Encode(v);
    assert (s + t)[0] == s[0] && (s + t)[1..] == s[1..] + t;
    LeafReadsBack(lv, v, t);
  }

  /** Parsing one element is parsing one value. */
  lemma {:induction false} SingleItem(lv: Leaves, s: bytes, count: int)
    requires count <= MAX_RECURSE_DEPTH + 1
    ensures ParseItems(lv, s, 1, count) ==
            match ParseValue(lv, s, count)
            case More => More
            case Bad => Bad
            case Done(v, rest) => Done([v], rest)
  {
    hide ParseValue;
    var p := ParseValue(lv, s, count);
    if p.Done? {
      assert ParseItems(lv, p.rest, 0, count) == Done([], p.rest);
      assert [p.value] + [] == [p.value];
    }
  }

  /** A header asks for its elements, which are parsed from what follows it. */
  lemma {:induction false} HeaderReadsBack(lv: Leaves, tag: byte, n: nat, body: bytes, t: bytes, count: int)
    requires AcceptsAscii(lv) && IsAggregate(tag) && n < TWO_63 && (tag == TAG_PUSH ==> n > 0)
    requires count <= MAX_RECURSE_DEPTH
    ensures
      ParseValue(lv, Header(tag, n) + body + t, count) ==
        Assemble(lv, tag, ParseItems(lv, body + t, Wanted(tag, n), count + 1))
  {
    hide ParseItems, Assemble, ParseInt, ParseLeaf, PrintInt, AcceptsAscii;
    var s := Header(tag, n) + body + t;
    assert s[0] == tag && s[1..] == Line(PrintInt(n)) + (body + t);
    IntReadsBack(lv, n, body + t);
  }

  function Wanted(tag: byte, n: nat): nat {
    if tag == TAG_MAP then 2 * n else if tag == TAG_ATTRIBUTE then 2 * n + 1 else n
  }

  lemma {:induction false} ItemsRoundTrip(lv: Leaves, vs: seq<Value>, t: bytes, count: int)
    requires AcceptsAscii(lv) && WellFormedAll(lv, vs)
    requires count <= MAX_RECURSE_DEPTH + 1
    ensures ParseItems(lv, EncodeAll(vs) + t, |vs|, count) == Verdict(FrameDepthAll(vs), count, vs, t)
    decreases vs, 1
  {
    hide ParseValue, FrameDepth, WellFormed, Encode;
    if vs == [] {
      assert EncodeAll(vs) + t == t;
    } else {
      var tail := EncodeAll(vs[1..]) + t;
      assert EncodeAll(vs) + t == Encode(vs[0]) + tail;
      RoundTripAt(lv, vs[0], tail, count);
      ItemsRoundTrip(lv, vs[1..], t, count);
      assert [vs[0]] + vs[1..] == vs;
    }
  }

  lemma {:induction false} PairRoundTrip(lv: Leaves, p: Pair, t: bytes, count: int)
    requires AcceptsAscii(lv) && WellFormedPair(lv, p)
    requires count <= MAX_RECURSE_DEPTH + 1
    ensures ParseItems(lv, EncodePair(p) + t, 2, count) == Verdict(FrameDepthPair(p), count, [p.key, p.value], t)
    decreases p, 1
  {
    hide ParseValue, ParseItems, FrameDepth, WellFormed, Encode;
    var tail := Encode(p.value) + t;
    assert EncodePair(p) + t == Encode(p.key) + tail;
    RoundTripAt(lv, p.key, tail, count);
    RoundTripAt(lv, p.value, t, count);
    SingleItem(lv, EncodePair(p) + t, count);
    SingleItem(lv, tail, count);
    ItemsAppend(lv, EncodePair(p) + t, 1, 1, count);
    assert [p.key] + [p.value] == [p.key, p.value];
  }

  lemma {:induction false} PairsRoundTrip(lv: Leaves, ps: seq<Pair>, t: bytes, count: int)
    requires AcceptsAscii(lv) && WellFormedPairs(lv, ps)
    requires count <= MAX_RECURSE_DEPTH + 1
    ensures ParseItems(lv, EncodePairs(ps) + t, 2 * |ps|, count) == Verdict(FrameDepthPairs(ps), count, Flat(ps), t)
    decreases ps, 1
  {
    hide ParseValue, FrameDepthPair, WellFormedPair, EncodePair;
    if ps == [] {
      assert EncodePairs(ps) + t == t;
    } else {
      var tail := EncodePairs(ps[1..]) + t;
      assert EncodePairs(ps) + t == EncodePair(ps[0]) + tail;
      PairRoundTrip(lv, ps[0], tail, count);
      PairsRoundTrip(lv, ps[1..], t, count);
      ItemsAppend(lv, EncodePairs(ps) + t, 2, 2 * |ps[1..]|, count);
    }
  }

  lemma {:induction false} SequenceRoundTrip(lv: Leaves, v: Value, t: bytes, count: int)
    requires AcceptsAscii(lv) && (v.Array? || v.Set?) && WellFormed(lv, v)
    requires count <= MAX_RECURSE_DEPTH
    ensures ParseValue(lv, Encode(v) + t, count) == Verdict(FrameDepth(v), count, v, t)
    decreases v, 3
  {
    hide ParseValue, ParseItems, EncodeAll, WellFormedAll, FrameDepthAll, Header;
    var items := if v.Array? then v.items else v.members;
    ItemsRoundTrip(lv, items, t, count + 1);
    HeaderReadsBack(lv, if v.Array? then TAG_ARRAY else TAG_SET, |items|, EncodeAll(items), t, count);
  }

  lemma {:induction false} MapRoundTrip(lv: Leaves, v: Value, t: bytes, count: int)
    requires AcceptsAscii(lv) && v.Map? && WellFormed(lv, v)
    requires count <= MAX_RECURSE_DEPTH
    ensures ParseValue(lv, Encode(v) + t, count) == Verdict(FrameDepth(v), count, v, t)
    decreases v, 3
  {
    hide ParseValue, ParseItems, EncodePairs, WellFormedPairs, FrameDepthPairs, Header, Flat, Pairs;
    PairsRoundTrip(lv, v.pairs, t, count + 1);
    HeaderReadsBack(lv, TAG_MAP, |v.pairs|, EncodePairs(v.pairs), t, count);
    PairsOfFlat(v.pairs, []);
    assert Flat(v.pairs) + [] == Flat(v.pairs);
  }

  lemma {:induction false} AttributeRoundTrip(lv: Leaves, v: Value, t: bytes, count: int)
    requires AcceptsAscii(lv) && v.Attribute? && WellFormed(lv, v)
    requires count <= MAX_RECURSE_DEPTH
    ensures ParseValue(lv, Encode(v) + t, count) == Verdict(FrameDepth(v), count, v, t)
    decreases v, 3
  {
    hide ParseValue, ParseItems, EncodePairs, WellFormedPairs, FrameDepthPairs, Header, Flat, Pairs;
    var ps, inner := v.attributes, v.inner;
    var body := EncodePairs(ps) + Encode(inner);
    AttributeBody(lv, inner, ps, t, count + 1);
    HeaderReadsBack(lv, TAG_ATTRIBUTE, |ps|, body, t, count);
    PairsOfFlat(ps, [inner]);
  }

  lemma {:induction false} AttributeBody(lv: Leaves, inner: Value, ps: seq<Pair>, t: bytes, count: int)
    requires AcceptsAscii(lv) && WellFormed(lv, inner)
    requires WellFormedPairs(lv, ps)
    requires count <= MAX_RECURSE_DEPTH + 1
    ensures ParseItems(lv, EncodePairs(ps) + Encode(inner) + t, 2 * |ps| + 1, count) ==
            Verdict(Max(FrameDepth(inner), FrameDepthPairs(ps)), count, Flat(ps) + [inner], t)
    decreases Attribute(inner, ps), 2
  {
    hide ParseValue, ParseItems, Encode, EncodePairs, FrameDepth, FrameDepthPairs, Flat;
    hide WellFormed, WellFormedPairs;
    var tail := Encode(inner) + t;
    var s := EncodePairs(ps) + Encode(inner) + t;
    assert s == EncodePairs(ps) + tail;
    PairsRoundTrip(lv, ps, tail, count);
    RoundTripAt(lv, inner, t, count);
    SingleItem(lv, tail, count);
    ItemsAppend(lv, s, 2 * |ps|, 1, count);
  }

  lemma {:induction false} PushRoundTrip(lv: Leaves, v: Value, t: bytes, count: int)
    requires AcceptsAscii(lv) && v.Push? && WellFormed(lv, v)
    requires count <= MAX_RECURSE_DEPTH
    ensures ParseValue(lv, Encode(v) + t, count) == Verdict(FrameDepth(v), count, v, t)
    decreases v, 3
  {
    hide ParseValue, ParseItems, EncodeAll, WellFormedAll, FrameDepthAll, Header, PushName, GetPushKind, PlainKind;
    var name := PushName(v.kind);
    var body := [TAG_SIMPLE] + Line(name) + EncodeAll(v.payload);
    PushBody(lv, name, v.payload, t, count + 1);
    PushKindReadsBack(v.kind);
    HeaderReadsBack(lv, TAG_PUSH, |v.payload| + 1, body, t, count);
    assert ([SimpleString(name)] + v.payload)[1..] == v.payload;
  }

  lemma {:induction false} PushBody(lv: Leaves, name: bytes, vs: seq<Value>, t: bytes, count: int)
    requires AcceptsAscii(lv) && GoodLine(lv, name) && name != Ascii("OK")
    requires WellFormedAll(lv, vs)
    requires count <= MAX_RECURSE_DEPTH + 1
    ensures ParseItems(lv, [TAG_SIMPLE] + Line(name) + EncodeAll(vs) + t, |vs| + 1, count) ==
            Verdict(Max(1, FrameDepthAll(vs)), count, [SimpleString(name)] + vs, t)
    decreases vs, 2
  {
    hide ParseValue, ParseItems, EncodeAll, FrameDepthAll, WellFormedAll;
    var head := SimpleString(name);
    var tail := EncodeAll(vs) + t;
    var s := [TAG_SIMPLE] + Line(name) + EncodeAll(vs) + t;
    assert s == Encode(head) + tail;
    if count > MAX_RECURSE_DEPTH {
      TooDeep(lv, s);
    } else {
      LeafRoundTrip(lv, head, tail, count);
    }
    ItemsRoundTrip(lv, vs, t, count);
    SingleItem(lv, s, count);
    ItemsAppend(lv, s, 1, |vs|, count);
  }

  /**
   The round trip, with anything following the frame: a well-formed value comes
   back, leaving exactly what followed, if and only if its frame nests at most
   100 levels; a deeper frame is rejected.
   */
  lemma {:induction false} ValueRoundTrip(lv: Leaves, v: Value, t: bytes)
    requires AcceptsAscii(lv) && WellFormed(lv, v)
    ensures FrameDepth(v) <= 100 <==> Parse(lv, Encode(v) + t) == Done(v, t)
    ensures FrameDepth(v) > 100 <==> Parse(lv, Encode(v) + t).Bad?
  {
    RoundTripAt(lv, v, t, 1);
  }

  /** On what an encoder writes, the levels the parser meets are the nesting of the frame. */
  lemma {:induction false} LevelsOfEncoding(lv: Leaves, v: Value, t: bytes, count: int)
    requires AcceptsAscii(lv) && WellFormed(lv, v) && count + FrameDepth(v) <= MAX_RECURSE_DEPTH + 1
    ensures Levels(lv, Encode(v) + t, count) == FrameDepth(v)
  {
    hide Encode, FrameDepth, WellFormed, ParseValue, Levels;
    var s, levels, depth := Encode(v) + t, Levels(lv, Encode(v) + t, count), FrameDepth(v);
    RoundTripAt(lv, v, t, count);
    ValueCut(lv, s, count, count);
    RoundTripAt(lv, v, t, MAX_RECURSE_DEPTH + 1 - depth);
    ValueCut(lv, s, count, MAX_RECURSE_DEPTH + 1 - depth);
    RoundTripAt(lv, v, t, MAX_RECURSE_DEPTH + 2 - depth);
    ValueCut(lv, s, count, MAX_RECURSE_DEPTH + 2 - depth);
  }
}
