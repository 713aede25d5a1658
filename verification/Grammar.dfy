/**
 The reply grammar of RESP2 and RESP3, written down on literal bytes and without
 reference to the parser, and the theorem that the parser accepts exactly that
 language: it reads a frame as a value if and only if the grammar says so.
 */
module Grammar {
  import opened Resp
  import opened Text
  import opened Parser
  import opened Names
  import opened Framing
  import opened Wire

  // ------------------------------------------------------------------ the tables

  /** The listed error codes. */
  function CodeText(kind: ServerErrorKind): string {
    match kind
    case ResponseError => "ERR"
    case ExecAbort => "EXECABORT"
    case BusyLoading => "LOADING"
    case NoScript => "NOSCRIPT"
    case Moved => "MOVED"
    case Ask => "ASK"
    case TryAgain => "TRYAGAIN"
    case ClusterDown => "CLUSTERDOWN"
    case CrossSlot => "CROSSSLOT"
    case MasterDown => "MASTERDOWN"
    case ReadOnly => "READONLY"
    case NotBusy => "NOTBUSY"
    case NoSub => "NOSUB"
    case NoPerm => "NOPERM"
  }

  /** The push names a server can send; the client's own notice has none. */
  function NameText(kind: PushKind): Option<string> {
    match kind
    case Invalidate => Some("invalidate")
    case Message => Some("message")
    case PMessage => Some("pmessage")
    case SMessage => Some("smessage")
    case Unsubscribe => Some("unsubscribe")
    case PUnsubscribe => Some("punsubscribe")
    case SUnsubscribe => Some("sunsubscribe")
    case Subscribe => Some("subscribe")
    case PSubscribe => Some("psubscribe")
    case SSubscribe => Some("ssubscribe")
    case Disconnection => None
    case Other(_) => None
  }

  /** `text` is this error: a code, and after a space the detail. */
  ghost predicate SaysError(text: bytes, e: ServerError) {
    match e
    case Known(kind, detail) => text == Joined(Ascii(CodeText(kind)), detail)
    case Extension(code, detail) =>
      && text == Joined(code, detail) && ' ' as byte !in code
      && forall kind: ServerErrorKind :: code != Ascii(CodeText(kind))
  }

  function Joined(code: bytes, detail: Option<bytes>): bytes {
    match detail
    case None => code
    case Some(d) => code + [' ' as byte] + d
  }

  /** `name` is what pushes of this kind are called. */
  ghost predicate Calls(name: bytes, kind: PushKind) {
    match kind
    case Disconnection => false
    case Other(n) => n == name && forall k: PushKind | NameText(k).Some? :: name != Ascii(NameText(k).value)
    case _ => name == Ascii(NameText(kind).value)
  }

  /** `text` is verbatim text: a format, a colon, the content. */
  ghost predicate SaysVerbatim(text: bytes, format: VerbatimFormat, content: bytes) {
    match format
    case Text => text == Ascii("txt:") + content
    case Markdown => text == Ascii("mkd:") + content
    case Unknown(name) =>
      text == name + [':' as byte] + content && ':' as byte !in name && name != Ascii("txt") && name != Ascii("mkd")
  }

  // ----------------------------------------------------------------- the grammar

  const EOL: bytes := ['\r' as byte, '\n' as byte]

  /** A type byte, a line of text, the end of the line, and a body. */
  ghost predicate Headed(lv: Leaves, f: bytes, tag: char, line: bytes, body: bytes) {
    tag < 128 as char && f == [tag as byte] + line + EOL + body && OneLine(line) && lv.utf8(line)
  }

  /** The line is a number, with white space around it allowed. */
  ghost predicate Sized(lv: Leaves, f: bytes, tag: char, n: int, body: bytes) {
    exists line :: Headed(lv, f, tag, line, body) && ParseI64(Trim(line)) == Some(n)
  }

  /** A payload of announced length; the announcement is read as an unsigned machine word. */
  ghost predicate Announced(lv: Leaves, f: bytes, tag: char, text: bytes) {
    exists n: int, payload ::
      && Sized(lv, f, tag, n, payload + EOL) && lv.lossy(payload) == text
      && |payload| == if n < 0 then n + TWO_64 else n
  }

  /** Replies without elements. */
  ghost predicate Plain(lv: Leaves, f: bytes, v: Value) {
    match v
    case Nil =>
      || (exists line :: Headed(lv, f, '_', line, []))
      || (exists tag, n :: Sized(lv, f, tag, n, []) && n < 0 && tag in {'$', '*', '~'})
    case Int(n) => Sized(lv, f, ':', n, [])
    case BulkString(data) => Sized(lv, f, '$', |data|, data + EOL)
    case Okay => Headed(lv, f, '+', Ascii("OK"), [])
    case SimpleString(text) => Headed(lv, f, '+', text, []) && text != Ascii("OK")
    case Boolean(flag) => Headed(lv, f, '#', Ascii(if flag then "t" else "f"), [])
    case Double(digits) => exists line :: Headed(lv, f, ',', line, []) && Trim(line) == digits && lv.double(digits)
    case BigNumber(digits) => Headed(lv, f, '(', digits, []) && lv.bigNumber(digits)
    case Error(e) =>
      || (exists line :: Headed(lv, f, '-', line, []) && SaysError(line, e))
      || (exists text :: Announced(lv, f, '!', text) && SaysError(text, e))
    case VerbatimString(format, content) =>
      exists text :: Announced(lv, f, '=', text) && SaysVerbatim(text, format, content)
    case Push(kind, payload) =>
      kind == Other([]) && payload == [] && exists n :: Sized(lv, f, '>', n, []) && n <= 0
    case _ => false
  }

  /** The first element of a push names its kind. */
  ghost predicate CalledBy(lv: Leaves, first: Value, kind: PushKind) {
    match first
    case BulkString(name) => lv.utf8(name) && Calls(name, kind)
    case SimpleString(name) => Calls(name, kind)
    case _ => false
  }

  /** The announced number and the elements of a reply that has elements. */
  ghost predicate Composed(lv: Leaves, tag: char, n: int, vs: seq<Value>, v: Value) {
    match v
    case Array(items) => tag == '*' && n == |items| && vs == items
    case Set(members) => tag == '~' && n == |members| && vs == members
    case Map(pairs) => tag == '%' && n == |pairs| && vs == Flat(pairs)
    case Attribute(inner, attributes) => tag == '|' && n == |attributes| && vs == Flat(attributes) + [inner]
    case Push(kind, payload) =>
      && tag == '>' && n == |payload| + 1 && |vs| == n && vs[1..] == payload
      && CalledBy(lv, vs[0], kind)
    case _ => false
  }

  /** The frame `f` denotes `v`, nesting at most `room` levels. */
  ghost predicate Denotes(lv: Leaves, f: bytes, v: Value, room: nat)
    decreases room, 0
  {
    && room > 0
    && (|| Plain(lv, f, v)
        || exists tag, n, body, vs ::
             && Sized(lv, f, tag, n, body) && Composed(lv, tag, n, vs, v)
             && DenotesAll(lv, body, vs, room - 1))
  }

  /** Consecutive frames that denote `vs`, one each. */
  ghost predicate DenotesAll(lv: Leaves, b: bytes, vs: seq<Value>, room: nat)
    decreases room, 1 + |vs|
  {
    if vs == [] then b == []
    else
      exists k | 0 <= k <= |b| :: Denotes(lv, b[..k], vs[0], room) && DenotesAll(lv, b[k..], vs[1..], room)
  }

  // -------------------------------------------------------------- the tables agree

  lemma {:induction false} CodesAre(kind: ServerErrorKind)
    ensures ErrorCode(kind) == Ascii(CodeText(kind))
  {
  }

  lemma {:induction false} NamesAre(kind: PushKind)
    ensures NameText(kind).Some? <==> kind in PUSH_KINDS
    ensures NameText(kind).Some? ==> PushName(kind) == Ascii(NameText(kind).value)
  {
    if NameText(kind).Some? {
      PushKindListed(kind);
    }
    KindIsNotDisconnection();
  }

  /** Reading a line's code and detail. */
  lemma {:induction false} SplitJoins(line: bytes)
    ensures var pieces := SplitSpace(line); Joined(pieces.0, pieces.1) == line && SPACE !in pieces.0
  {
    if line == [] {
    } else if line[0] == SPACE {
      assert [] + [SPACE] + line[1..] == line;
    } else {
      SplitJoins(line[1..]);
      var r := SplitSpace(line[1..]);
      assert [line[0]] + line[1..] == line;
      assert Joined([line[0]] + r.0, r.1) == [line[0]] + Joined(r.0, r.1);
    }
  }

  lemma {:induction false} JoinSplits(code: bytes, detail: Option<bytes>)
    requires SPACE !in code
    ensures SplitSpace(Joined(code, detail)) == (code, detail)
  {
    SplitReadsBack(code, detail);
  }

  lemma {:induction false} KindExact(code: bytes)
    ensures
      match KindOfCode(code)
      case Some(kind) => code == Ascii(CodeText(kind))
      case None => forall kind: ServerErrorKind :: code != Ascii(CodeText(kind))
    ensures forall kind: ServerErrorKind | code == Ascii(CodeText(kind)) :: KindOfCode(code) == Some(kind)
  {
    hide ErrorCode, KindOfCode, CodeText;
    KindLookup(code, 0);
    forall kind: ServerErrorKind ensures code == Ascii(CodeText(kind)) ==> KindOfCode(code) == Some(kind) {
      CodesAre(kind);
      if code == Ascii(CodeText(kind)) {
        KindReadsBack(kind);
      }
    }
    if KindOfCode(code).Some? {
      CodesAre(KindOfCode(code).value);
    }
  }

  /** An error reply is read as `e` exactly if that is what it says. */
  lemma {:induction false} ErrorExact(text: bytes, e: ServerError)
    ensures ErrParser(text) == e <==> SaysError(text, e)
  {
    hide KindOfCode, CodeText, Joined, SplitSpace, Ascii;
    SplitJoins(text);
    var pieces := SplitSpace(text);
    KindExact(pieces.0);
    if SaysError(text, e) {
      var code := if e.Known? then Ascii(CodeText(e.kind)) else e.code;
      if e.Known? {
        CodesAre(e.kind);
        CodeHasNoSpace(e.kind);
      }
      JoinSplits(code, e.detail);
    }
  }

  /** A push name is read as `kind` exactly if that is what it calls. */
  lemma {:induction false} KindCalled(name: bytes, kind: PushKind)
    ensures GetPushKind(name) == kind <==> Calls(name, kind)
  {
    hide PushName, GetPushKind, NameText, Ascii, PUSH_KINDS;
    PushLookup(name, 0);
    var r := GetPushKind(name);
    forall k: PushKind ensures NameText(k).Some? ==> (name == Ascii(NameText(k).value) <==> r == k) {
      NamesAre(k);
      if NameText(k).Some? {
        ListedReadsBack(k);
      }
    }
    NamesAre(kind);
    NamesAre(r);
    SpecialNames(kind);
    SpecialNames(r);
    if r.Other? {
      OtherName(r.name);
    }
  }

  lemma {:induction false} SpecialNames(kind: PushKind)
    ensures NameText(kind).None? <==> kind.Disconnection? || kind.Other?
  {
  }

  lemma {:induction false} ListedReadsBack(kind: PushKind)
    requires NameText(kind).Some?
    ensures GetPushKind(PushName(kind)) == kind
  {
    PushKindReadsBack(kind);
  }

  lemma {:induction false} ColonJoins(text: bytes)
    ensures
      match SplitColon(text)
      case None => ':' as byte !in text
      case Some((a, b)) => text == a + [':' as byte] + b && ':' as byte !in a
  {
    if text == [] {
    } else if text[0] == ':' as byte {
      assert [] + [':' as byte] + text[1..] == text;
    } else {
      ColonJoins(text[1..]);
      var r := SplitColon(text[1..]);
      assert [text[0]] + text[1..] == text;
      if r.Some? {
        var (a, b) := r.value;
        assert ([text[0]] + a) + [':' as byte] + b == [text[0]] + (a + [':' as byte] + b);
      }
    }
  }

  /** Verbatim text is read as format and content exactly if that is what it says. */
  lemma {:induction false} VerbatimExact(text: bytes, format: VerbatimFormat, content: bytes)
    ensures ToVerbatim(text) == Some(VerbatimString(format, content)) <==> SaysVerbatim(text, format, content)
  {
    hide SplitColon;
    ColonJoins(text);
    assert Ascii("txt:") == Ascii("txt") + [':' as byte] && Ascii("mkd:") == Ascii("mkd") + [':' as byte];
    assert Ascii("txt")[0] == 116 && Ascii("mkd")[0] == 109;
    assert ':' as byte !in Ascii("txt") && ':' as byte !in Ascii("mkd");
    var name := match format case Text => Ascii("txt") case Markdown => Ascii("mkd") case Unknown(n) => n;
    if SaysVerbatim(text, format, content) {
      ColonReadsBack(name, content);
    }
  }

  // --------------------------------------------------------------- lines and lengths

  /** A line is taken off the stream exactly if it stands there. */
  lemma {:induction false} HeadExact(lv: Leaves, f: bytes, tag: char, line: bytes, body: bytes, t: bytes)
    requires tag < 128 as char
    ensures Headed(lv, f, tag, line, body) <==>
            f != [] && f[0] == tag as byte && ParseLine(lv, f[1..] + t) == Done(line, body + t)
  {
    hide FindCrlf;
    if Headed(lv, f, tag, line, body) {
      assert f[1..] + t == Line(line) + (body + t);
      LineReadsBack(lv, line, body + t);
    }
    if f != [] && f[0] == tag as byte && ParseLine(lv, f[1..] + t) == Done(line, body + t) {
      LineFound(lv, f[1..] + t);
      assert f[1..] + t == (line + EOL + body) + t;
      assert f[1..] == (f[1..] + t)[..|f| - 1] == line + EOL + body;
      assert f == [f[0]] + f[1..];
    }
  }

  lemma {:induction false} LineFound(lv: Leaves, s: bytes)
    requires ParseLine(lv, s).Done?
    ensures var p := ParseLine(lv, s); s == p.value + EOL + p.rest && OneLine(p.value) && lv.utf8(p.value)
  {
    hide FindCrlf;
    FindCrlfIsFirst(s);
    var i := FindCrlf(s).value;
    assert s == s[..i] + EOL + s[i + 2..];
    forall j ensures !CrlfAt(s[..i], j) {
      assert CrlfAt(s[..i], j) ==> CrlfAt(s, j);
    }
  }

  lemma {:induction false} SizedExact(lv: Leaves, f: bytes, tag: char, n: int, body: bytes, t: bytes)
    requires tag < 128 as char
    ensures Sized(lv, f, tag, n, body) <==>
            f != [] && f[0] == tag as byte && ParseInt(lv, f[1..] + t) == Done(n, body + t)
  {
    hide ParseLine, Headed, ParseI64, Trim;
    if Sized(lv, f, tag, n, body) {
      var line :| Headed(lv, f, tag, line, body) && ParseI64(Trim(line)) == Some(n);
      HeadExact(lv, f, tag, line, body, t);
    }
    if f != [] && f[0] == tag as byte && ParseInt(lv, f[1..] + t) == Done(n, body + t) {
      HeadExact(lv, f, tag, ParseLine(lv, f[1..] + t).value, body, t);
    }
  }

  lemma {:induction false} TakeExact(n: nat, s: bytes, data: bytes, t: bytes)
    ensures TakeCrlf(n, s) == Done(data, t) <==> |data| == n && s == data + EOL + t
  {
    var r := data + EOL + t;
    assert |data| == n ==> r[..n] == data && r[n + 2..] == t && r[n] == CR && r[n + 1] == LF;
    if |s| >= n + 2 && s[n] == CR && s[n + 1] == LF {
      assert s == s[..n] + EOL + s[n + 2..];
    }
  }

  /** A tag is an ASCII character. */
  lemma {:induction false} SizedTag(lv: Leaves, f: bytes, tag: char, n: int, body: bytes)
    requires Sized(lv, f, tag, n, body)
    ensures tag < 128 as char && f != [] && f[0] == tag as byte && -TWO_63 <= n < TWO_63
  {
    hide ParseI64, Trim;
  }

  lemma {:induction false} AnnouncedExact(lv: Leaves, f: bytes, tag: char, text: bytes, t: bytes)
    requires tag < 128 as char
    ensures Announced(lv, f, tag, text) <==>
            f != [] && f[0] == tag as byte && ParseBlob(lv, f[1..] + t) == Done(text, t)
  {
    hide ParseInt, TakeCrlf, Sized;
    if Announced(lv, f, tag, text) {
      var n: int, payload :| Sized(lv, f, tag, n, payload + EOL) && lv.lossy(payload) == text
        && |payload| == if n < 0 then n + TWO_64 else n;
      SizedExact(lv, f, tag, n, payload + EOL, t);
      TakeExact(AsUsize(n), payload + EOL + t, payload, t);
    }
    if f != [] && f[0] == tag as byte && ParseBlob(lv, f[1..] + t) == Done(text, t) {
      var p := ParseInt(lv, f[1..] + t);
      var payload := TakeCrlf(AsUsize(p.value), p.rest).value;
      TakeExact(AsUsize(p.value), p.rest, payload, t);
      SizedExact(lv, f, tag, p.value, payload + EOL, t);
    }
  }

  // ------------------------------------------------------------ replies without elements

  lemma {:induction false} HeadedTag(lv: Leaves, f: bytes, tag: char, line: bytes, body: bytes)
    requires Headed(lv, f, tag, line, body)
    ensures tag < 128 as char && f != [] && f[0] == tag as byte
  {
  }

  lemma {:induction false} LineSound(lv: Leaves, f: bytes, v: Value, t: bytes)
    requires f != [] && IsLineTag(f[0]) && ParseLeaf(lv, f[0], f[1..] + t) == Done(v, t)
    ensures Plain(lv, f, v)
  {
    hide ParseLine, Headed, ParseI64, Trim, Announced, ErrParser, SaysError;
    var line, tag := ParseLine(lv, f[1..] + t).value, f[0] as char;
    HeadExact(lv, f, tag, line, [], t);
    assert [] + t == t;
    if v.Error? {
      ErrorExact(line, v.error);
    }
  }

  lemma {:induction false} BulkSound(lv: Leaves, f: bytes, v: Value, t: bytes)
    requires f != [] && f[0] == TAG_BULK && ParseLeaf(lv, f[0], f[1..] + t) == Done(v, t)
    ensures Plain(lv, f, v)
  {
    hide ParseInt, TakeCrlf, Sized, Headed;
    var p := ParseInt(lv, f[1..] + t);
    assert [] + t == t;
    if p.value < 0 {
      SizedExact(lv, f, '$', p.value, [], t);
    } else {
      TakeExact(p.value, p.rest, v.data, t);
      SizedExact(lv, f, '$', p.value, v.data + EOL, t);
    }
  }

  lemma {:induction false} BlobSound(lv: Leaves, f: bytes, v: Value, t: bytes)
    requires f != [] && ParseLeaf(lv, f[0], f[1..] + t) == Done(v, t)
    requires f[0] == TAG_BLOB_ERROR || f[0] == TAG_VERBATIM
    ensures Plain(lv, f, v)
  {
    hide ParseBlob, Announced, ErrParser, SaysError, ToVerbatim, SaysVerbatim, Headed;
    var text := ParseBlob(lv, f[1..] + t).value;
    AnnouncedExact(lv, f, f[0] as char, text, t);
    if v.Error? {
      ErrorExact(text, v.error);
    } else {
      VerbatimExact(text, v.format, v.content);
    }
  }

  lemma {:induction false} LineComplete(lv: Leaves, f: bytes, tag: char, line: bytes, v: Value, t: bytes, count: int)
    requires Headed(lv, f, tag, line, []) && IsLineTag(f[0]) && LineValue(lv, f[0], line) == Some(v)
    requires count <= MAX_RECURSE_DEPTH
    ensures ParseValue(lv, f + t, count) == Done(v, t)
  {
    hide ParseLine, Headed, LineValue;
    HeadedTag(lv, f, tag, line, []);
    HeadExact(lv, f, tag, line, [], t);
    assert [] + t == t && (f + t)[0] == f[0] && (f + t)[1..] == f[1..] + t;
  }

  lemma {:induction false} BlobComplete(lv: Leaves, f: bytes, tag: char, text: bytes, v: Value, t: bytes, count: int)
    requires Announced(lv, f, tag, text) && tag in {'!', '='} && BlobValue(tag as byte, text) == Some(v)
    requires count <= MAX_RECURSE_DEPTH
    ensures ParseValue(lv, f + t, count) == Done(v, t)
  {
    hide ParseBlob, Announced, BlobValue;
    AnnouncedExact(lv, f, tag, text, t);
    assert (f + t)[0] == f[0] && (f + t)[1..] == f[1..] + t;
  }

  /** Nothing but a length: a null, or a push without a kind. */
  lemma {:induction false} LengthComplete(lv: Leaves, f: bytes, tag: char, n: int, v: Value, t: bytes, count: int)
    requires Sized(lv, f, tag, n, []) && count <= MAX_RECURSE_DEPTH
    requires if tag == '>' then n <= 0 && v == Push(Other([]), []) else n < 0 && tag in {'$', '*', '~'} && v == Nil
    ensures ParseValue(lv, f + t, count) == Done(v, t)
  {
    hide ParseInt, Sized;
    SizedExact(lv, f, tag, n, [], t);
    assert [] + t == t && (f + t)[0] == f[0] && (f + t)[1..] == f[1..] + t;
  }

  lemma {:induction false} BulkComplete(lv: Leaves, f: bytes, data: bytes, t: bytes, count: int)
    requires Sized(lv, f, '$', |data|, data + EOL) && count <= MAX_RECURSE_DEPTH
    ensures ParseValue(lv, f + t, count) == Done(BulkString(data), t)
  {
    hide ParseInt, Sized, TakeCrlf;
    SizedExact(lv, f, '$', |data|, data + EOL, t);
    TakeExact(|data|, data + EOL + t, data, t);
    assert (f + t)[0] == f[0] && (f + t)[1..] == f[1..] + t;
  }

  lemma {:induction false} PlainComplete(lv: Leaves, f: bytes, v: Value, t: bytes, count: int)
    requires Plain(lv, f, v) && count <= MAX_RECURSE_DEPTH
    ensures ParseValue(lv, f + t, count) == Done(v, t)
  {
    hide ParseValue, Announced, ErrParser, SaysError, ToVerbatim, SaysVerbatim, ParseI64, Trim;
    match v {
      case Nil =>
        if line :| Headed(lv, f, '_', line, []) {
          LineComplete(lv, f, '_', line, v, t, count);
        } else {
          var tag, n :| Sized(lv, f, tag, n, []) && n < 0 && tag in {'$', '*', '~'};
          LengthComplete(lv, f, tag, n, v, t, count);
        }
      case Int(n) =>
        var line :| Headed(lv, f, ':', line, []) && ParseI64(Trim(line)) == Some(n);
        LineComplete(lv, f, ':', line, v, t, count);
      case BulkString(data) =>
        BulkComplete(lv, f, data, t, count);
      case Okay =>
        LineComplete(lv, f, '+', Ascii("OK"), v, t, count);
      case SimpleString(text) =>
        LineComplete(lv, f, '+', text, v, t, count);
      case Boolean(flag) =>
        assert Ascii("t")[0] == 116 && Ascii("f")[0] == 102;
        LineComplete(lv, f, '#', Ascii(if flag then "t" else "f"), v, t, count);
      case Double(digits) =>
        var line :| Headed(lv, f, ',', line, []) && Trim(line) == digits && lv.double(digits);
        LineComplete(lv, f, ',', line, v, t, count);
      case BigNumber(digits) =>
        LineComplete(lv, f, '(', digits, v, t, count);
      case Error(e) =>
        if line :| Headed(lv, f, '-', line, []) && SaysError(line, e) {
          ErrorExact(line, e);
          LineComplete(lv, f, '-', line, v, t, count);
        } else {
          var text :| Announced(lv, f, '!', text) && SaysError(text, e);
          ErrorExact(text, e);
          BlobComplete(lv, f, '!', text, v, t, count);
        }
      case VerbatimString(format, content) =>
        var text :| Announced(lv, f, '=', text) && SaysVerbatim(text, format, content);
        VerbatimExact(text, format, content);
        BlobComplete(lv, f, '=', text, v, t, count);
      case Push(_, _) =>
        var n :| Sized(lv, f, '>', n, []) && n <= 0;
        LengthComplete(lv, f, '>', n, v, t, count);
    }
  }

  // --------------------------------------------------------------- replies with elements

  lemma {:induction false} FlatOfPairs(vs: seq<Value>)
    ensures Flat(Pairs(vs)) == vs[..2 * (|vs| / 2)]
  {
    if |vs| < 2 {
    } else {
      FlatOfPairs(vs[2..]);
      assert vs[..2] + vs[2..][..2 * (|vs[2..]| / 2)] == vs[..2 * (|vs| / 2)];
    }
  }

  /** Pairs are what the elements give two by two, a last one left over. */
  lemma {:induction false} PairsExact(vs: seq<Value>, pairs: seq<Pair>)
    ensures |vs| / 2 == |pairs| && Pairs(vs) == pairs <==> vs[..2 * (|vs| / 2)] == Flat(pairs)
  {
    hide Flat, Pairs;
    FlatOfPairs(vs);
    if vs[..2 * (|vs| / 2)] == Flat(pairs) {
      var tail := vs[2 * (|vs| / 2)..];
      PairsOfFlat(pairs, tail);
      assert Flat(pairs) + tail == vs;
    }
  }

  lemma {:induction false} PushComposed(lv: Leaves, vs: seq<Value>, kind: PushKind)
    requires vs != []
    ensures CalledBy(lv, vs[0], kind) <==> Build(lv, TAG_PUSH, vs) == Some(Push(kind, vs[1..]))
  {
    hide GetPushKind, Calls;
    if vs[0].BulkString? {
      KindCalled(vs[0].data, kind);
    } else if vs[0].SimpleString? {
      KindCalled(vs[0].text, kind);
    }
  }

  lemma {:induction false} MapComposed(lv: Leaves, n: int, vs: seq<Value>, pairs: seq<Pair>, inner: Value)
    requires -TWO_63 <= n < TWO_63
    ensures n == |pairs| && vs == Flat(pairs) <==>
            PlanFor(TAG_MAP, n) == Collect(|vs|) && Build(lv, TAG_MAP, vs) == Some(Map(pairs))
    ensures n == |pairs| && vs == Flat(pairs) + [inner] <==>
            PlanFor(TAG_ATTRIBUTE, n) == Collect(|vs|) && Build(lv, TAG_ATTRIBUTE, vs) == Some(Attribute(inner, pairs))
  {
    hide Flat, Pairs;
    PairsExact(vs, pairs);
    assert |vs| % 2 == 0 ==> vs[..2 * (|vs| / 2)] == vs;
    assert |vs| % 2 == 1 ==> vs == vs[..2 * (|vs| / 2)] + [vs[|vs| - 1]];
  }

  /** The announced number and the elements decide the value as the grammar says. */
  lemma {:induction false} ComposedExact(lv: Leaves, tag: char, n: int, vs: seq<Value>, v: Value)
    requires tag < 128 as char && -TWO_63 <= n < TWO_63
    ensures Composed(lv, tag, n, vs, v) <==>
            && IsAggregate(tag as byte) && PlanFor(tag as byte, n) == Collect(|vs|)
            && Build(lv, tag as byte, vs) == Some(v)
  {
    hide GetPushKind, CalledBy, Flat, Pairs;
    match v {
      case Map(pairs) => MapComposed(lv, n, vs, pairs, Nil);
      case Attribute(inner, attributes) => MapComposed(lv, n, vs, attributes, inner);
      case Push(kind, payload) =>
        if vs != [] {
          PushComposed(lv, vs, kind);
        }
      case _ =>
    }
  }

  lemma {:induction false} LeafSound(lv: Leaves, f: bytes, v: Value, t: bytes)
    requires f != [] && ParseLeaf(lv, f[0], f[1..] + t) == Done(v, t)
    ensures Plain(lv, f, v)
  {
    hide Plain, ParseBulk, ParseBlob, ParseLine, LineValue, BlobValue;
    if IsLineTag(f[0]) {
      LineSound(lv, f, v, t);
    } else if f[0] == TAG_BULK {
      BulkSound(lv, f, v, t);
    } else {
      BlobSound(lv, f, v, t);
    }
  }

  /** What follows the length line is a body before `t`. */
  lemma {:induction false} BodySound(lv: Leaves, f: bytes, v: Value, t: bytes, count: int)
    requires f != [] && IsAggregate(f[0]) && count <= MAX_RECURSE_DEPTH
    requires ParseBody(lv, f[0], ParseInt(lv, f[1..] + t), count) == Done(v, t)
    ensures Denotes(lv, f, v, MAX_RECURSE_DEPTH + 1 - count)
    decreases MAX_RECURSE_DEPTH + 1 - count, 0
  {
    hide ParseInt, Sized, Build, PlanFor, ParseItems, Composed, Headed, Announced, Calls;
    var p, tag := ParseInt(lv, f[1..] + t), f[0] as char;
    var plan := PlanFor(f[0], p.value);
    if plan.Immediate? {
      SizedExact(lv, f, tag, p.value, [], t);
      assert [] + t == t;
      ImmediateSound(lv, f, p.value, v);
    } else {
      var items := ParseItems(lv, p.rest, plan.n, count + 1);
      ItemsRestIsSuffix(lv, p.rest, plan.n, count + 1);
      var body, vs := p.rest[..|p.rest| - |t|], items.value;
      assert body + t == p.rest;
      SizedExact(lv, f, tag, p.value, body, t);
      ComposedExact(lv, tag, p.value, vs, v);
      ItemsExact(lv, body, vs, t, count + 1);
      assert Sized(lv, f, tag, p.value, body) && Composed(lv, tag, p.value, vs, v);
    }
  }

  lemma {:induction false} ImmediateSound(lv: Leaves, f: bytes, n: int, v: Value)
    requires f != [] && IsAggregate(f[0]) && -TWO_63 <= n < TWO_63 && Sized(lv, f, f[0] as char, n, [])
    requires PlanFor(f[0], n) == Immediate(v)
    ensures Plain(lv, f, v)
  {
    hide Sized, Headed, Announced;
  }

  lemma {:induction false} BodyComplete(
      lv: Leaves, f: bytes, tag: char, n: int, body: bytes, vs: seq<Value>, v: Value, t: bytes, count: int)
    requires count <= MAX_RECURSE_DEPTH && Sized(lv, f, tag, n, body) && Composed(lv, tag, n, vs, v)
    requires DenotesAll(lv, body, vs, MAX_RECURSE_DEPTH - count)
    ensures ParseValue(lv, f + t, count) == Done(v, t)
    decreases MAX_RECURSE_DEPTH + 1 - count, 0
  {
    hide ParseInt, Sized, Build, PlanFor, ParseItems, Composed, DenotesAll;
    SizedTag(lv, f, tag, n, body);
    SizedExact(lv, f, tag, n, body, t);
    ComposedExact(lv, tag, n, vs, v);
    ItemsExact(lv, body, vs, t, count + 1);
    assert (f + t)[0] == f[0] && (f + t)[1..] == f[1..] + t;
  }

  lemma {:induction false} ItemsStep(lv: Leaves, s: bytes, vs: seq<Value>, t: bytes, count: int)
    requires vs != [] && count <= MAX_RECURSE_DEPTH + 1
    ensures ParseItems(lv, s, |vs|, count) == Done(vs, t) <==>
            var first := ParseValue(lv, s, count);
            && first.Done? && first.value == vs[0]
            && ParseItems(lv, first.rest, |vs| - 1, count) == Done(vs[1..], t)
  {
    hide ParseValue;
    var first := ParseValue(lv, s, count);
    if first.Done? {
      var others := ParseItems(lv, first.rest, |vs| - 1, count);
      if others.Done? {
        assert [first.value] + others.value == vs <==> first.value == vs[0] && others.value == vs[1..];
      }
    }
  }

  lemma {:induction false} ItemsSound(lv: Leaves, body: bytes, vs: seq<Value>, t: bytes, count: int)
    requires count <= MAX_RECURSE_DEPTH + 1 && vs != [] && ParseItems(lv, body + t, |vs|, count) == Done(vs, t)
    ensures DenotesAll(lv, body, vs, MAX_RECURSE_DEPTH + 1 - count)
    decreases MAX_RECURSE_DEPTH + 1 - count, 2 + |vs|, 0
  {
    hide ParseValue, ParseItems, Denotes;
    var s := body + t;
    ItemsStep(lv, s, vs, t, count);
    var first := ParseValue(lv, s, count);
    RestIsSuffix(lv, s, count);
    ItemsRestIsSuffix(lv, first.rest, |vs| - 1, count);
    var k := |s| - |first.rest|;
    assert s == body[..k] + (body[k..] + t) && first.rest == body[k..] + t;
    ValueExact(lv, body[..k], vs[0], body[k..] + t, count);
    ItemsExact(lv, body[k..], vs[1..], t, count);
  }

  lemma {:induction false} ItemsComplete(lv: Leaves, body: bytes, vs: seq<Value>, t: bytes, count: int)
    requires count <= MAX_RECURSE_DEPTH + 1 && vs != [] && DenotesAll(lv, body, vs, MAX_RECURSE_DEPTH + 1 - count)
    ensures ParseItems(lv, body + t, |vs|, count) == Done(vs, t)
    decreases MAX_RECURSE_DEPTH + 1 - count, 2 + |vs|, 0
  {
    hide ParseValue, ParseItems, Denotes;
    var s, room := body + t, MAX_RECURSE_DEPTH + 1 - count;
    var k :| 0 <= k <= |body| && Denotes(lv, body[..k], vs[0], room) && DenotesAll(lv, body[k..], vs[1..], room);
    ValueExact(lv, body[..k], vs[0], body[k..] + t, count);
    ItemsExact(lv, body[k..], vs[1..], t, count);
    assert s == body[..k] + (body[k..] + t);
    ItemsStep(lv, s, vs, t, count);
  }

  /** Elements are read one by one exactly if their frames stand there one by one. */
  lemma {:induction false} ItemsExact(lv: Leaves, body: bytes, vs: seq<Value>, t: bytes, count: int)
    requires count <= MAX_RECURSE_DEPTH + 1
    ensures ParseItems(lv, body + t, |vs|, count) == Done(vs, t) <==>
            DenotesAll(lv, body, vs, MAX_RECURSE_DEPTH + 1 - count)
    decreases MAX_RECURSE_DEPTH + 1 - count, 2 + |vs|, 1
  {
    hide ParseValue, Denotes;
    if vs == [] {
      assert body == [] ==> body + t == t;
    } else if ParseItems(lv, body + t, |vs|, count) == Done(vs, t) {
      ItemsSound(lv, body, vs, t, count);
    } else if DenotesAll(lv, body, vs, MAX_RECURSE_DEPTH + 1 - count) {
      ItemsComplete(lv, body, vs, t, count);
    }
  }

  lemma {:induction false} ValueExact(lv: Leaves, f: bytes, v: Value, t: bytes, count: int)
    requires count <= MAX_RECURSE_DEPTH + 1
    ensures ParseValue(lv, f + t, count) == Done(v, t) <==> Denotes(lv, f, v, MAX_RECURSE_DEPTH + 1 - count)
    decreases MAX_RECURSE_DEPTH + 1 - count, 1
  {
    hide ParseBody, ParseLeaf, Plain, Sized, Composed, DenotesAll;
    var s, room := f + t, MAX_RECURSE_DEPTH + 1 - count;
    if ParseValue(lv, s, count) == Done(v, t) {
      assert f != [] && s[0] == f[0] && s[1..] == f[1..] + t;
      if IsAggregate(f[0]) {
        BodySound(lv, f, v, t, count);
      } else {
        LeafSound(lv, f, v, t);
      }
    }
    if Denotes(lv, f, v, room) {
      if Plain(lv, f, v) {
        PlainComplete(lv, f, v, t, count);
      } else {
        var tag, n, body, vs :|
          Sized(lv, f, tag, n, body) && Composed(lv, tag, n, vs, v) && DenotesAll(lv, body, vs, room - 1);
        BodyComplete(lv, f, tag, n, body, vs, v, t, count);
      }
    }
  }

  /**
   The parser is the grammar: for all bytes, leaves and values, a frame followed by
   anything is read as a value, leaving exactly what follows, if and only if the frame
   denotes that value within 100 levels.
   */
  lemma {:induction false} ParserIsGrammar(lv: Leaves, f: bytes, v: Value, t: bytes)
    ensures Parse(lv, f + t) == Done(v, t) <==> Denotes(lv, f, v, 100)
  {
    ValueExact(lv, f, v, t, 1);
  }

  // ---------------------------------------------------------------- what follows from it

  /** The nulls of both protocols: a null line, and a negative length of a string, a list or a set. */
  lemma {:induction false} NullForms(lv: Leaves, tag: char, line: bytes, t: bytes)
    requires OneLine(line) && lv.utf8(line) && tag in {'_', '$', '*', '~'}
    requires tag != '_' ==> ParseI64(Trim(line)).Some? && ParseI64(Trim(line)).value < 0
    ensures Parse(lv, [tag as byte] + line + ['\r' as byte, '\n' as byte] + t) == Done(Nil, t)
  {
    hide ParseI64, Trim, Parse, DenotesAll;
    var f := [tag as byte] + line + EOL;
    assert f == f + [] && Headed(lv, f, tag, line, []);
    assert tag != '_' ==> Sized(lv, f, tag, ParseI64(Trim(line)).value, []);
    ParserIsGrammar(lv, f, Nil, t);
    assert f + t == [tag as byte] + line + ['\r' as byte, '\n' as byte] + t;
  }

  lemma {:induction false} BulkNameItems(lv: Leaves, name: bytes, payload: seq<Value>, t: bytes)
    requires AcceptsAscii(lv) && |name| < TWO_63 && WellFormedAll(lv, payload) && FrameDepthAll(payload) <= 99
    ensures ParseItems(lv, Encode(BulkString(name)) + EncodeAll(payload) + t, |payload| + 1, 2) ==
            Done([BulkString(name)] + payload, t)
  {
    hide Parse, ParseValue, ParseItems, WellFormedAll, EncodeAll, FrameDepthAll, AcceptsAscii, Encode;
    var first, tail, vs := BulkString(name), EncodeAll(payload) + t, [BulkString(name)] + payload;
    RoundTripAt(lv, first, tail, 2);
    ItemsRoundTrip(lv, payload, t, 2);
    assert vs[0] == first && vs[1..] == payload;
    assert Encode(first) + EncodeAll(payload) + t == Encode(first) + tail;
    ItemsStep(lv, Encode(first) + tail, vs, t, 2);
  }

  /** A push whose kind is sent as a bulk string is read like one whose kind is a simple string. */
  lemma {:induction false} BulkNamedPush(lv: Leaves, kind: PushKind, payload: seq<Value>, t: bytes)
    requires AcceptsAscii(lv) && WellFormed(lv, Push(kind, payload)) && FrameDepth(Push(kind, payload)) <= 100
    requires |PushName(kind)| < TWO_63
    ensures
      var name := Encode(BulkString(PushName(kind)));
      Parse(lv, Header('>' as byte, |payload| + 1) + (name + EncodeAll(payload)) + t) == Done(Push(kind, payload), t)
  {
    hide ParseValue, ParseItems, PlainKind, WellFormedAll, EncodeAll, FrameDepthAll, AcceptsAscii, Header, Encode;
    hide PushName, GetPushKind;
    var name := PushName(kind);
    var body, vs := Encode(BulkString(name)) + EncodeAll(payload), [BulkString(name)] + payload;
    HeaderReadsBack(lv, '>' as byte, |payload| + 1, body, t, 1);
    BulkNameItems(lv, name, payload, t);
    PushKindReadsBack(kind);
    assert vs[0] == BulkString(name) && vs[1..] == payload;
  }

  // ------------------------------------------------------------------------ rejections

  const TAGS: set<char> := {'+', ':', '$', '*', '%', '|', '~', '-', '_', ',', '#', '!', '=', '(', '>'}

  /** No reply starts with any other byte. */
  lemma {:induction false} UnknownTagRejected(lv: Leaves, b: byte, t: bytes)
    requires b as char !in TAGS
    ensures Parse(lv, [b] + t) == Bad
  {
    hide ParseItems;
    assert ([b] + t)[0] == b;
  }

  /** What a line can be wrong about, by type; such a reply is an error as soon as the line is complete. */
  ghost predicate WrongLine(lv: Leaves, tag: char, line: bytes) {
    || !lv.utf8(line)
    || (tag in {':', '$', '*', '~', '%', '|', '>', '!', '='} && ParseI64(Trim(line)).None?)
    || (tag in {'%', '|'} && ParseI64(Trim(line)).Some? && ParseI64(Trim(line)).value < 0)
    || (tag == '#' && line != Ascii("t") && line != Ascii("f"))
    || (tag == ',' && !lv.double(Trim(line)))
    || (tag == '(' && !lv.bigNumber(line))
  }

  lemma {:induction false} LineThere(lv: Leaves, line: bytes, t: bytes)
    requires OneLine(line)
    ensures ParseLine(lv, line + EOL + t) == if lv.utf8(line) then Done(line, t) else Bad
  {
    hide FindCrlf;
    FindCrlfOfLine(line, t);
    var s := line + EOL + t;
    assert s[..|line|] == line && s[|line| + 2..] == t;
  }

  lemma {:induction false} WrongLineRejected(lv: Leaves, tag: char, line: bytes, t: bytes)
    requires tag in TAGS && OneLine(line) && WrongLine(lv, tag, line)
    ensures Parse(lv, [tag as byte] + line + EOL + t) == Bad
  {
    hide ParseI64, Trim, ParseLine, ParseItems, TakeCrlf;
    var s := [tag as byte] + line + EOL + t;
    LineThere(lv, line, t);
    assert s[0] == tag as byte && s[1..] == line + EOL + t;
    if tag in {'*', '~', '%', '|', '>'} {
      assert IsAggregate(s[0]);
      assert ParseBody(lv, s[0], ParseInt(lv, s[1..]), 1) == Bad;
    } else if tag in {'$', '!', '='} {
      assert ParseInt(lv, s[1..]) == Bad;
      assert ParseLeaf(lv, s[0], s[1..]) == Bad;
    } else {
      assert IsLineTag(s[0]);
      assert ParseLeaf(lv, s[0], s[1..]) == Bad;
    }
  }

  /** A payload that does not end where it was announced to end is an error as soon as that shows. */
  lemma {:induction false} WrongEndRejected(lv: Leaves, tag: char, line: bytes, payload: bytes, t: bytes)
    requires tag in {'$', '!', '='} && OneLine(line) && lv.utf8(line) && ParseI64(Trim(line)) == Some(|payload|)
    requires t != [] && (t[0] != '\r' as byte || (|t| > 1 && t[1] != '\n' as byte))
    ensures Parse(lv, [tag as byte] + line + EOL + payload + t) == Bad
  {
    hide ParseI64, Trim, ParseLine, ParseItems;
    var s, rest := [tag as byte] + line + EOL + payload + t, payload + t;
    LineThere(lv, line, rest);
    assert s[0] == tag as byte && s[1..] == line + EOL + rest;
    assert rest[|payload|] == t[0] && (|t| > 1 ==> rest[|payload| + 1] == t[1]);
    assert ParseLeaf(lv, s[0], s[1..]) == Bad;
  }

  // ------------------------------------------------------------------- confirmations

  /** The push names that answer a request. */
  const CONFIRMATIONS: set<string> :=
    {"subscribe", "psubscribe", "ssubscribe", "unsubscribe", "punsubscribe", "sunsubscribe"}

  predicate EndsIn(text: string, end: string) {
    |end| <= |text| && forall i | 0 <= i < |end| :: text[|text| - |end| + i] == end[i]
  }

  /** A push answers a request exactly if its name is one of these six. */
  lemma {:induction false} ConfirmationNames(kind: PushKind)
    ensures kind.HasReply() <==> NameText(kind).Some? && NameText(kind).value in CONFIRMATIONS
  {
    if NameText(kind).Some? {
      var name := NameText(kind).value;
      assert name in CONFIRMATIONS ==> name[|name| - 1] == 'e' && name[|name| - 2] == 'b';
    }
  }

  /** They are the listed names that end in "subscribe". */
  lemma {:induction false} ConfirmationsSubscribe(kind: PushKind)
    requires NameText(kind).Some?
    ensures NameText(kind).value in CONFIRMATIONS <==> EndsIn(NameText(kind).value, "subscribe")
  {
    var name, end := NameText(kind).value, "subscribe";
    if name !in CONFIRMATIONS {
      assert |name| >= 9 ==> name[|name| - 9 + 7] != end[7];
    }
  }
}
