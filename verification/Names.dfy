/**
 The tables of error codes and push names: printing a kind and looking the text
 up again is the identity exactly on the kinds a server can announce.
 */
module Names {
  import opened Resp
  import opened Text
  import opened Parser

  /** Length and first letter of a code; no two known codes share both. */
  function CodeSignature(kind: ServerErrorKind): (nat, byte) {
    match kind
    case ResponseError => (3, 69)
    case ExecAbort => (9, 69)
    case BusyLoading => (7, 76)
    case NoScript => (8, 78)
    case Moved => (5, 77)
    case Ask => (3, 65)
    case TryAgain => (8, 84)
    case ClusterDown => (11, 67)
    case CrossSlot => (9, 67)
    case MasterDown => (10, 77)
    case ReadOnly => (8, 82)
    case NotBusy => (7, 78)
    case NoSub => (5, 78)
    case NoPerm => (6, 78)
  }

  lemma {:induction false} CodeHasSignature(kind: ServerErrorKind)
    ensures var code := ErrorCode(kind); code != [] && CodeSignature(kind) == (|code|, code[0])
  {
  }

  lemma {:induction false} CodeHasNoSpace(kind: ServerErrorKind)
    ensures SPACE !in ErrorCode(kind)
  {
  }

  predicate IsKnownCode(code: bytes) {
    exists i | 0 <= i < |ERROR_KINDS| :: ErrorCode(ERROR_KINDS[i]) == code
  }

  lemma {:induction false} CodeIsKnown(kind: ServerErrorKind)
    ensures kind in ERROR_KINDS && IsKnownCode(ErrorCode(kind))
  {
    hide ErrorCode;
    assert ERROR_KINDS[0] == ResponseError && ERROR_KINDS[1] == ExecAbort && ERROR_KINDS[2] == BusyLoading;
    assert ERROR_KINDS[3] == NoScript && ERROR_KINDS[4] == Moved && ERROR_KINDS[5] == Ask;
    assert ERROR_KINDS[6] == TryAgain && ERROR_KINDS[7] == ClusterDown && ERROR_KINDS[8] == CrossSlot;
    assert ERROR_KINDS[9] == MasterDown && ERROR_KINDS[10] == ReadOnly && ERROR_KINDS[11] == NotBusy;
    assert ERROR_KINDS[12] == NoSub && ERROR_KINDS[13] == NoPerm;
    var i :| 0 <= i < |ERROR_KINDS| && ERROR_KINDS[i] == kind;
    assert ErrorCode(ERROR_KINDS[i]) == ErrorCode(kind);
  }

  lemma {:induction false} KindLookup(code: bytes, from: nat)
    requires from <= |ERROR_KINDS|
    ensures var r := KindOfCode(code, from);
            && (r.Some? ==> ErrorCode(r.value) == code)
            && (r.None? ==> forall i | from <= i < |ERROR_KINDS| :: ErrorCode(ERROR_KINDS[i]) != code)
    decreases |ERROR_KINDS| - from
  {
    hide ErrorCode;
    if from == |ERROR_KINDS| {
    } else {
      KindLookup(code, from + 1);
    }
  }

  lemma {:induction false} SignaturesDiffer(a: ServerErrorKind, b: ServerErrorKind)
    requires CodeSignature(a) == CodeSignature(b)
    ensures a == b
  {
  }

  lemma {:induction false} KindReadsBack(kind: ServerErrorKind)
    ensures KindOfCode(ErrorCode(kind)) == Some(kind)
  {
    hide ErrorCode, KindOfCode, CodeSignature;
    KindLookup(ErrorCode(kind), 0);
    CodeIsKnown(kind);
    var r := KindOfCode(ErrorCode(kind));
    assert r.Some?;
    CodeHasSignature(kind);
    CodeHasSignature(r.value);
    SignaturesDiffer(kind, r.value);
  }

  lemma {:induction false} SplitReadsBack(code: bytes, detail: Option<bytes>)
    requires SPACE !in code
    ensures SplitSpace(if detail.None? then code else code + [SPACE] + detail.value) == (code, detail)
  {
    var line := if detail.None? then code else code + [SPACE] + detail.value;
    if code == [] {
      assert detail.Some? ==> line[1..] == detail.value;
    } else {
      SplitReadsBack(code[1..], detail);
      assert line[1..] == if detail.None? then code[1..] else code[1..] + [SPACE] + detail.value;
      assert [code[0]] + code[1..] == code;
    }
  }

  lemma {:induction false} SplitHasNoSpace(line: bytes)
    ensures SPACE !in SplitSpace(line).0
  {
    if line == [] || line[0] == SPACE {
    } else {
      SplitHasNoSpace(line[1..]);
    }
  }

  /** An error a reply can carry: an unlisted code is one word that the table does not hold. */
  ghost predicate PlainError(e: ServerError) {
    e.Extension? ==> SPACE !in e.code && !IsKnownCode(e.code)
  }

  /** Printing an error reply and reading it gives the error back, exactly for those. */
  lemma {:induction false} ErrorReadsBack(e: ServerError)
    ensures PlainError(e) <==> ErrParser(ErrorText(e)) == e
  {
    hide ErrorCode, KindOfCode;
    if e.Known? {
      CodeHasNoSpace(e.kind);
      KindReadsBack(e.kind);
      SplitReadsBack(ErrorCode(e.kind), e.detail);
    } else {
      if SPACE !in e.code {
        SplitReadsBack(e.code, e.detail);
        KindLookup(e.code, 0);
        if KindOfCode(e.code).Some? {
          CodeIsKnown(KindOfCode(e.code).value);
        }
      } else {
        SplitHasNoSpace(ErrorText(e));
      }
    }
  }

  /** An error reply's line, without its type byte. */
  function ErrorText(e: ServerError): bytes {
    var code := if e.Known? then ErrorCode(e.kind) else e.code;
    if e.detail.None? then code else code + [SPACE] + e.detail.value
  }

  // -------------------------------------------------------------- push names

  function NameSignature(kind: PushKind): (nat, byte)
    requires !kind.Other?
  {
    match kind
    case Disconnection => (13, 100)
    case Invalidate => (10, 105)
    case Message => (7, 109)
    case PMessage => (8, 112)
    case SMessage => (8, 115)
    case Unsubscribe => (11, 117)
    case PUnsubscribe => (12, 112)
    case SUnsubscribe => (12, 115)
    case Subscribe => (9, 115)
    case PSubscribe => (10, 112)
    case SSubscribe => (10, 115)
  }

  lemma {:induction false} NameHasSignature(kind: PushKind)
    requires !kind.Other?
    ensures var name := PushName(kind); name != [] && NameSignature(kind) == (|name|, name[0])
  {
  }

  lemma {:induction false} PushKindListed(kind: PushKind)
    requires !kind.Other? && !kind.Disconnection?
    ensures kind in PUSH_KINDS
  {
    assert PUSH_KINDS[0] == Invalidate && PUSH_KINDS[1] == Message && PUSH_KINDS[2] == PMessage;
    assert PUSH_KINDS[3] == SMessage && PUSH_KINDS[4] == Unsubscribe && PUSH_KINDS[5] == PUnsubscribe;
    assert PUSH_KINDS[6] == SUnsubscribe && PUSH_KINDS[7] == Subscribe && PUSH_KINDS[8] == PSubscribe;
    assert PUSH_KINDS[9] == SSubscribe;
  }

  /** The lookup answers with the name asked for, and with a listed kind whenever one has it. */
  lemma {:induction false} PushLookup(name: bytes, from: nat)
    requires from <= |PUSH_KINDS|
    ensures var kind := GetPushKind(name, from);
            && PushName(kind) == name
            && (kind.Other? ==> forall i | from <= i < |PUSH_KINDS| :: PushName(PUSH_KINDS[i]) != name)
            && (!kind.Other? ==> kind in PUSH_KINDS)
    decreases |PUSH_KINDS| - from
  {
    hide PushName;
    if from < |PUSH_KINDS| {
      PushLookup(name, from + 1);
    } else {
      OtherName(name);
    }
  }

  lemma {:induction false} OtherName(name: bytes)
    ensures PushName(Other(name)) == name
  {
  }

  predicate IsListedName(name: bytes) {
    exists i | 0 <= i < |PUSH_KINDS| :: PushName(PUSH_KINDS[i]) == name
  }

  /** A kind a server can announce: not the client's own notice, and no alias of a listed one. */
  ghost predicate PlainKind(kind: PushKind) {
    !kind.Disconnection? && (kind.Other? ==> !IsListedName(kind.name))
  }

  lemma {:induction false} KindIsNotDisconnection()
    ensures Disconnection !in PUSH_KINDS && forall i | 0 <= i < |PUSH_KINDS| :: !PUSH_KINDS[i].Other?
  {
  }

  /** Printing a push kind and looking its name up gives the kind back, exactly for those. */
  lemma {:induction false} PushKindReadsBack(kind: PushKind)
    ensures PlainKind(kind) <==> GetPushKind(PushName(kind)) == kind
  {
    hide PushName, GetPushKind;
    PushLookup(PushName(kind), 0);
    KindIsNotDisconnection();
    var r := GetPushKind(PushName(kind));
    if kind.Other? {
      OtherName(kind.name);
      if r != kind {
        if r.Other? { OtherName(r.name); }
        var i :| 0 <= i < |PUSH_KINDS| && PUSH_KINDS[i] == r;
        assert PushName(PUSH_KINDS[i]) == kind.name;
      }
    } else if !kind.Disconnection? {
      PushKindListed(kind);
      assert !r.Other?;
      NameHasSignature(kind);
      NameHasSignature(r);
    }
  }

  // -------------------------------------------------------------- verbatim text

  const COLON: byte := 58

  function FormatName(f: VerbatimFormat): bytes {
    match f
    case Text => Ascii("txt")
    case Markdown => Ascii("mkd")
    case Unknown(name) => name
  }

  function VerbatimText(f: VerbatimFormat, content: bytes): bytes {
    FormatName(f) + [COLON] + content
  }

  /** A format a reply can name: not an alias of a known one, and without a colon. */
  ghost predicate PlainFormat(f: VerbatimFormat) {
    f.Unknown? ==> f.name != Ascii("txt") && f.name != Ascii("mkd") && COLON !in f.name
  }

  lemma {:induction false} ColonReadsBack(format: bytes, content: bytes)
    requires COLON !in format
    ensures SplitColon(format + [COLON] + content) == Some((format, content))
  {
    var text := format + [COLON] + content;
    if format == [] {
      assert text[1..] == content;
    } else {
      ColonReadsBack(format[1..], content);
      assert text[1..] == format[1..] + [COLON] + content;
      assert [format[0]] + format[1..] == format;
    }
  }

  lemma {:induction false} SplitHasNoColon(text: bytes)
    ensures SplitColon(text).Some? ==> COLON !in SplitColon(text).value.0
  {
    if text == [] {
    } else {
      SplitHasNoColon(text[1..]);
    }
  }

  /** Printing verbatim text and reading it gives it back, exactly for plain formats. */
  lemma {:induction false} VerbatimReadsBack(f: VerbatimFormat, content: bytes)
    ensures PlainFormat(f) <==> ToVerbatim(VerbatimText(f, content)) == Some(VerbatimString(f, content))
  {
    assert Ascii("txt")[0] == 116 && Ascii("mkd")[0] == 109;
    assert COLON !in Ascii("txt") && COLON !in Ascii("mkd");
    if COLON !in FormatName(f) {
      ColonReadsBack(FormatName(f), content);
    } else {
      SplitHasNoColon(VerbatimText(f, content));
    }
  }
}
