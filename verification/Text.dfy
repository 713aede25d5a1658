/**
 Text on the wire: decimal printing and `i64` reading, trimming, and the search
 for the end of a line.
 */
module Text {
  import opened Resp

  const CR: byte := 13
  const LF: byte := 10
  const SPACE: byte := 32
  const PLUS: byte := 43
  const MINUS: byte := 45
  const ZERO: byte := 48

  const CRLF: bytes := [CR, LF]

  /** The bytes of an ASCII string; a character outside ASCII becomes '?'. */
  function Ascii(s: string): (b: bytes)
    ensures |b| == |s|
  {
    seq(|s|, i requires 0 <= i < |s| => if s[i] < 128 as char then s[i] as byte else 63)
  }

  // ---------------------------------------------------------------- decimals

  /** Decimal digits without leading zeros, as `itoa` prints them. */
  function Decimal(n: nat): (s: bytes)
    ensures |s| > 0
  {
    if n < 10 then [ZERO + n as byte] else Decimal(n / 10) + [ZERO + (n % 10) as byte]
  }

  lemma {:induction false} DecimalDigits(n: nat)
    ensures AllDigits(Decimal(n))
  {
    if n < 10 {
    } else {
      DecimalDigits(n / 10);
    }
  }

  function PrintInt(i: int): bytes {
    if i < 0 then [MINUS] + Decimal(-i) else Decimal(i)
  }

  predicate IsDigit(b: byte) {
    48 <= b <= 57
  }

  predicate AllDigits(s: bytes) {
    forall i | 0 <= i < |s| :: IsDigit(s[i])
  }

  function DigitsValue(s: bytes): nat
    requires AllDigits(s)
  {
    if s == [] then 0 else DigitsValue(s[..|s| - 1]) * 10 + (s[|s| - 1] - ZERO) as nat
  }

  /** Rust's `str::parse::<i64>`: an optional sign, at least one digit, no overflow. */
  function ParseI64(s: bytes): (r: Option<int>)
    ensures r.Some? ==> -TWO_63 <= r.value < TWO_63
  {
    var negative := s != [] && s[0] == MINUS;
    var digits := if s != [] && (s[0] == MINUS || s[0] == PLUS) then s[1..] else s;
    if digits == [] || !AllDigits(digits) then None
    else
      var magnitude: int := DigitsValue(digits);
      var v := if negative then -magnitude else magnitude;
      if -TWO_63 <= v < TWO_63 then Some(v) else None
  }

  lemma {:induction false} DigitsValueOfDecimal(n: nat)
    ensures AllDigits(Decimal(n)) && DigitsValue(Decimal(n)) == n
  {
    var s := Decimal(n);
    DecimalDigits(n);
    if n < 10 {
      assert s[..|s| - 1] == [];
    } else {
      DigitsValueOfDecimal(n / 10);
      assert s[..|s| - 1] == Decimal(n / 10);
    }
  }

  function Zeros(k: nat): bytes {
    seq(k, _ => ZERO)
  }

  lemma {:induction false} LeadingZeros(k: nat, s: bytes)
    requires AllDigits(s)
    ensures AllDigits(Zeros(k) + s) && DigitsValue(Zeros(k) + s) == DigitsValue(s)
  {
    var t := Zeros(k) + s;
    if s == [] {
      if k > 0 {
        assert t[..|t| - 1] == Zeros(k - 1) + [];
        LeadingZeros(k - 1, []);
      }
    } else {
      assert t[..|t| - 1] == Zeros(k) + s[..|s| - 1];
      LeadingZeros(k, s[..|s| - 1]);
    }
  }

  lemma {:induction false} DecimalStep(m: nat, c: nat)
    requires m > 0 && c < 10
    ensures Decimal(m * 10 + c) == Decimal(m) + [ZERO + c as byte]
  {
    assert (m * 10 + c) / 10 == m && (m * 10 + c) % 10 == c;
  }

  /** Any digits are zeros and then the decimal notation of their value. */
  lemma {:induction false} DigitsAreDecimal(s: bytes) returns (k: nat)
    requires s != [] && AllDigits(s)
    ensures s == Zeros(k) + Decimal(DigitsValue(s))
  {
    var init, last := s[..|s| - 1], s[|s| - 1];
    assert s == init + [last] && IsDigit(last);
    if init == [] {
      k := 0;
      assert DigitsValue(init) == 0 && Decimal((last - ZERO) as nat) == [last];
      assert s == Zeros(0) + [last];
    } else {
      k := DigitsAreDecimal(init);
      var m, c := DigitsValue(init), (last - ZERO) as nat;
      assert DigitsValue(s) == m * 10 + c;
      if m == 0 {
        assert Decimal(0) == [ZERO];
        assert init == Zeros(k) + [ZERO] == Zeros(k + 1);
        k := k + 1;
        assert Decimal(c) == [last];
      } else {
        DecimalStep(m, c);
        assert s == Zeros(k) + Decimal(m) + [last] == Zeros(k) + (Decimal(m) + [last]);
      }
    }
  }

  /** How a number may be written: a sign if wanted, zeros, and its decimal notation. */
  ghost predicate Written(s: bytes, v: int, k: nat) {
    || (v >= 0 && s == Zeros(k) + Decimal(v))
    || (v >= 0 && s == ['+' as byte] + Zeros(k) + Decimal(v))
    || (v <= 0 && s == ['-' as byte] + Zeros(k) + Decimal(-v))
  }

  lemma {:induction false} DigitsRead(k: nat, n: nat)
    ensures
      var s := Zeros(k) + Decimal(n);
      s != [] && AllDigits(s) && DigitsValue(s) == n && IsDigit(s[0])
  {
    DigitsValueOfDecimal(n);
    LeadingZeros(k, Decimal(n));
    assert IsDigit((Zeros(k) + Decimal(n))[0]);
  }

  lemma {:induction false} ReadIsWritten(s: bytes)
    requires ParseI64(s).Some?
    ensures exists k :: Written(s, ParseI64(s).value, k)
  {
    hide Decimal, DigitsValue, Zeros, AllDigits;
    var signed := s[0] == MINUS || s[0] == PLUS;
    var digits := if signed then s[1..] else s;
    var k := DigitsAreDecimal(digits);
    var n := DigitsValue(digits);
    if signed {
      assert s == [s[0]] + digits == [s[0]] + Zeros(k) + Decimal(n);
    }
    assert Written(s, ParseI64(s).value, k);
  }

  lemma {:induction false} WrittenIsRead(s: bytes, v: int, k: nat)
    requires Written(s, v, k) && -TWO_63 <= v < TWO_63
    ensures ParseI64(s) == Some(v)
  {
    hide Decimal, DigitsValue, Zeros, AllDigits, Written;
    var n := if v < 0 then -v else v;
    DigitsRead(k, n);
    var plain := Zeros(k) + Decimal(n);
    WrittenForms(s, v, k);
    if s != plain {
      assert s[1..] == plain;
    }
  }

  lemma {:induction false} WrittenForms(s: bytes, v: int, k: nat)
    requires Written(s, v, k)
    ensures
      var plain := Zeros(k) + Decimal(if v < 0 then -v else v);
      (v >= 0 && s == plain) || (v >= 0 && s == [PLUS] + plain) || (v <= 0 && s == [MINUS] + plain)
  {
    hide Decimal, Zeros;
    var plain := Zeros(k) + Decimal(if v < 0 then -v else v);
    assert forall b: byte :: [b] + Zeros(k) + Decimal(if v < 0 then -v else v) == [b] + plain;
  }

  /** A text is read as an integer exactly if it is one in 64 bits, written in one of those ways. */
  lemma {:induction false} NumeralExact(s: bytes, v: int)
    ensures ParseI64(s) == Some(v) <==> -TWO_63 <= v < TWO_63 && exists k :: Written(s, v, k)
  {
    hide Decimal, Zeros, Written, ParseI64;
    if ParseI64(s) == Some(v) {
      ReadIsWritten(s);
    }
    if k :| Written(s, v, k) && -TWO_63 <= v < TWO_63 {
      WrittenIsRead(s, v, k);
    }
  }

  // ---------------------------------------------------------------- trimming

  /** Length of the Unicode white-space character that `s` starts with, or 0. */
  function LeadingSpace(s: bytes): (k: nat)
    ensures k <= |s|
  {
    if |s| >= 1 && (9 <= s[0] <= 13 || s[0] == SPACE) then 1
    else if |s| >= 2 && WideSpace2(s[0], s[1]) then 2
    else if |s| >= 3 && WideSpace3(s[0], s[1], s[2]) then 3
    else 0
  }

  /** Length of the Unicode white-space character that `s` ends with, or 0. */
  function TrailingSpace(s: bytes): (k: nat)
    ensures k <= |s|
  {
    var n := |s|;
    if n >= 1 && (9 <= s[n-1] <= 13 || s[n-1] == SPACE) then 1
    else if n >= 2 && WideSpace2(s[n-2], s[n-1]) then 2
    else if n >= 3 && WideSpace3(s[n-3], s[n-2], s[n-1]) then 3
    else 0
  }

  predicate WideSpace2(a: byte, b: byte) {
    a == 0xC2 && (b == 0x85 || b == 0xA0)
  }

  predicate WideSpace3(a: byte, b: byte, c: byte) {
    || (a == 0xE1 && b == 0x9A && c == 0x80)
    || (a == 0xE2 && b == 0x80 && (0x80 <= c <= 0x8A || c == 0xA8 || c == 0xA9 || c == 0xAF))
    || (a == 0xE2 && b == 0x81 && c == 0x9F)
    || (a == 0xE3 && b == 0x80 && c == 0x80)
  }

  function TrimStart(s: bytes): bytes {
    var k := LeadingSpace(s);
    if k == 0 then s else TrimStart(s[k..])
  }

  function TrimEnd(s: bytes): bytes {
    var k := TrailingSpace(s);
    if k == 0 then s else TrimEnd(s[..|s| - k])
  }

  /** Rust's `str::trim`. */
  function Trim(s: bytes): bytes {
    TrimEnd(TrimStart(s))
  }

  /** The UTF-8 encoding of a code point of the basic plane. */
  function Utf8(cp: nat): bytes
    requires cp < 0x1_0000
  {
    if cp < 0x80 then [cp as byte]
    else if cp < 0x800 then [(0xC0 + cp / 0x40) as byte, (0x80 + cp % 0x40) as byte]
    else [(0xE0 + cp / 0x1000) as byte, (0x80 + cp / 0x40 % 0x40) as byte, (0x80 + cp % 0x40) as byte]
  }

  /** The code points with the Unicode property White_Space. */
  predicate IsWhite(cp: nat) {
    || 0x9 <= cp <= 0xD || cp == 0x20 || cp == 0x85 || cp == 0xA0 || cp == 0x1680 || 0x2000 <= cp <= 0x200A
    || cp == 0x2028 || cp == 0x2029 || cp == 0x202F || cp == 0x205F || cp == 0x3000
  }

  /** `c` is one white-space character. */
  ghost predicate WhiteChar(c: bytes) {
    exists cp: nat | cp < 0x1_0000 :: IsWhite(cp) && c == Utf8(cp)
  }

  /** The white-space characters by their bytes. */
  predicate WhiteByBytes(c: bytes) {
    || (|c| == 1 && (9 <= c[0] <= 13 || c[0] == SPACE))
    || (|c| == 2 && WideSpace2(c[0], c[1]))
    || (|c| == 3 && WideSpace3(c[0], c[1], c[2]))
  }

  lemma {:induction false} Wide(cp: nat)
    requires 0x2000 <= cp < 0x2040
    ensures Utf8(cp) == [0xE2, 0x80, (cp - 0x1F80) as byte]
  {
    assert cp / 0x1000 == 2 && cp / 0x40 == 0x80 && cp % 0x40 == cp - 0x2000;
  }

  lemma {:induction false} Others()
    ensures Utf8(0x85) == [0xC2, 0x85] && Utf8(0xA0) == [0xC2, 0xA0] && Utf8(0x1680) == [0xE1, 0x9A, 0x80]
    ensures Utf8(0x205F) == [0xE2, 0x81, 0x9F] && Utf8(0x3000) == [0xE3, 0x80, 0x80]
  {
  }

  lemma {:induction false} WhiteBytes(c: bytes)
    requires WhiteByBytes(c)
    ensures WhiteChar(c)
  {
    hide Utf8;
    Others();
    if |c| == 1 {
      Single(c[0]);
      assert IsWhite(c[0] as nat);
    } else if |c| == 3 && c[0] == 0xE2 && c[1] == 0x80 {
      var cp := 0x1F80 + c[2] as nat;
      Wide(cp);
      assert c == Utf8(cp) && IsWhite(cp);
    } else {
      assert c == if |c| == 2 then [c[0], c[1]] else [c[0], c[1], c[2]];
      assert IsWhite(0x85) && IsWhite(0xA0) && IsWhite(0x1680) && IsWhite(0x205F) && IsWhite(0x3000);
    }
  }

  lemma {:induction false} Single(b: byte)
    requires b < 0x80
    ensures Utf8(b as nat) == [b]
  {
  }

  lemma {:induction false} WhiteCharBytes(c: bytes)
    requires WhiteChar(c)
    ensures WhiteByBytes(c)
  {
    hide Utf8;
    var cp: nat :| cp < 0x1_0000 && IsWhite(cp) && c == Utf8(cp);
    Others();
    if cp < 0x80 {
      Single(cp as byte);
    } else if 0x2000 <= cp < 0x2040 {
      Wide(cp);
    }
  }

  lemma {:induction false} LeadingExact(s: bytes)
    ensures LeadingSpace(s) > 0 ==> WhiteByBytes(s[..LeadingSpace(s)])
    ensures LeadingSpace(s) == 0 ==> forall c | WhiteByBytes(c) :: !(c <= s)
  {
  }

  lemma {:induction false} TrailingExact(s: bytes)
    ensures TrailingSpace(s) > 0 ==> WhiteByBytes(s[|s| - TrailingSpace(s)..])
    ensures TrailingSpace(s) == 0 ==> forall c | WhiteByBytes(c) && |c| <= |s| :: s[|s| - |c|..] != c
  {
    if TrailingSpace(s) == 0 {
      forall c | WhiteByBytes(c) && |c| <= |s| ensures s[|s| - |c|..] != c {
        var t := s[|s| - |c|..];
        assert t[|c| - 1] == s[|s| - 1] && (|c| > 1 ==> t[|c| - 2] == s[|s| - 2]);
        assert |c| > 2 ==> t[|c| - 3] == s[|s| - 3];
      }
    }
  }

  lemma {:induction false} WhiteEnds(s: bytes)
    ensures LeadingSpace(s) > 0 ==> WhiteChar(s[..LeadingSpace(s)])
    ensures TrailingSpace(s) > 0 ==> WhiteChar(s[|s| - TrailingSpace(s)..])
  {
    hide LeadingSpace, TrailingSpace, WhiteChar, WhiteByBytes;
    LeadingExact(s);
    TrailingExact(s);
    if LeadingSpace(s) > 0 {
      WhiteBytes(s[..LeadingSpace(s)]);
    }
    if TrailingSpace(s) > 0 {
      WhiteBytes(s[|s| - TrailingSpace(s)..]);
    }
  }

  /** The first and last bytes are taken for white space exactly if they are that of a white-space character. */
  lemma {:induction false} WhiteExact(s: bytes)
    ensures LeadingSpace(s) > 0 ==> WhiteChar(s[..LeadingSpace(s)])
    ensures TrailingSpace(s) > 0 ==> WhiteChar(s[|s| - TrailingSpace(s)..])
    ensures LeadingSpace(s) == 0 ==> forall c | WhiteChar(c) :: !(c <= s)
    ensures TrailingSpace(s) == 0 ==> forall c | WhiteChar(c) && |c| <= |s| :: s[|s| - |c|..] != c
  {
    hide LeadingSpace, TrailingSpace, WhiteChar, WhiteByBytes;
    WhiteEnds(s);
    LeadingExact(s);
    TrailingExact(s);
    forall c | WhiteChar(c) ensures WhiteByBytes(c) {
      WhiteCharBytes(c);
    }
  }

  /** A run of white-space characters. */
  ghost predicate Blank(s: bytes) {
    s == [] || exists k | 0 < k <= |s| :: WhiteChar(s[..k]) && Blank(s[k..])
  }

  lemma {:induction false} TrimStartStep(s: bytes)
    ensures TrimStart(s) == if LeadingSpace(s) == 0 then s else TrimStart(s[LeadingSpace(s)..])
  {
  }

  lemma {:induction false} StartTrimmed(s: bytes) returns (a: bytes)
    ensures s == a + TrimStart(s) && Blank(a) && LeadingSpace(TrimStart(s)) == 0
  {
    hide LeadingSpace, TrailingSpace, WhiteChar, Blank, TrimStart;
    var k := LeadingSpace(s);
    TrimStartStep(s);
    if k == 0 {
      a := [];
      NothingBlank();
    } else {
      WhiteEnds(s);
      var b := StartTrimmed(s[k..]);
      a := s[..k] + b;
      BlankStarts(s[..k], b);
      assert s == s[..k] + s[k..];
    }
  }

  lemma {:induction false} BlankStarts(c: bytes, b: bytes)
    requires WhiteChar(c) && c != [] && Blank(b)
    ensures Blank(c + b)
  {
    hide WhiteChar;
    assert (c + b)[..|c|] == c && (c + b)[|c|..] == b;
  }

  lemma {:induction false} BlankGrows(a: bytes, c: bytes)
    requires Blank(a) && WhiteChar(c) && c != []
    ensures Blank(a + c)
  {
    hide WhiteChar;
    if a == [] {
      assert (a + c)[..|c|] == c && (a + c)[|c|..] == [];
    } else {
      var k :| 0 < k <= |a| && WhiteChar(a[..k]) && Blank(a[k..]);
      BlankGrows(a[k..], c);
      assert (a + c)[..k] == a[..k] && (a + c)[k..] == a[k..] + c;
    }
  }

  lemma {:induction false} EndTrimmed(s: bytes) returns (b: bytes)
    ensures s == TrimEnd(s) + b && Blank(b) && TrailingSpace(TrimEnd(s)) == 0
  {
    hide LeadingSpace, TrailingSpace, WhiteChar, Blank;
    var k := TrailingSpace(s);
    if k == 0 {
      b := [];
      NothingBlank();
    } else {
      WhiteEnds(s);
      var init := s[..|s| - k];
      var c := EndTrimmed(init);
      b := c + s[|s| - k..];
      BlankGrows(c, s[|s| - k..]);
      assert s == init + s[|s| - k..];
    }
  }

  lemma {:induction false} NothingBlank()
    ensures Blank([])
  {
  }

  /** Trimming cuts white space off both ends, and what is left neither starts nor ends with any. */
  lemma {:induction false} TrimExact(s: bytes) returns (a: bytes, b: bytes)
    ensures s == a + Trim(s) + b && Blank(a) && Blank(b)
    ensures forall c | WhiteChar(c) :: !(c <= Trim(s))
    ensures forall c | WhiteChar(c) && |c| <= |Trim(s)| :: Trim(s)[|Trim(s)| - |c|..] != c
  {
    hide LeadingSpace, TrailingSpace, WhiteChar, Blank, TrimStart, TrimEnd;
    a := StartTrimmed(s);
    b := EndTrimmed(TrimStart(s));
    WhiteExact(TrimStart(s));
    WhiteExact(Trim(s));
    forall c | WhiteChar(c) ensures !(c <= Trim(s)) {
      assert c <= Trim(s) ==> c <= TrimStart(s);
    }
  }

  /** Visible ASCII at both ends leaves nothing to trim. */
  lemma {:induction false} NothingToTrim(s: bytes)
    requires s != [] && 32 < s[0] < 127 && 32 < s[|s| - 1] < 127
    ensures Trim(s) == s
  {
    assert LeadingSpace(s) == 0;
    assert TrailingSpace(s) == 0;
  }

  lemma {:induction false} PrintIntEnds(i: int)
    ensures var s := PrintInt(i); s != [] && 32 < s[0] < 127 && 32 < s[|s| - 1] < 127
  {
    var n := if i < 0 then -i else i;
    DecimalDigits(n);
    assert IsDigit(Decimal(n)[0]) && IsDigit(Decimal(n)[|Decimal(n)| - 1]);
  }

  lemma {:induction false} ParsePrinted(i: int)
    requires -TWO_63 <= i < TWO_63
    ensures ParseI64(PrintInt(i)) == Some(i)
  {
    var n := if i < 0 then -i else i;
    DigitsValueOfDecimal(n);
    assert IsDigit(Decimal(n)[0]);
    assert i < 0 ==> PrintInt(i)[1..] == Decimal(n);
  }

  /** Every `i64` survives printing, trimming and reading. */
  lemma {:induction false} PrintParseI64(i: int)
    requires -TWO_63 <= i < TWO_63
    ensures ParseI64(Trim(PrintInt(i))) == Some(i)
  {
    hide PrintInt, Trim, ParseI64;
    PrintIntEnds(i);
    NothingToTrim(PrintInt(i));
    ParsePrinted(i);
  }

  // ------------------------------------------------------------------- lines

  predicate CrlfAt(s: bytes, i: int) {
    0 <= i && i + 1 < |s| && s[i] == CR && s[i + 1] == LF
  }

  /** Position of the first CR LF. */
  function FindCrlf(s: bytes): (r: Option<nat>)
    ensures r.Some? ==> CrlfAt(s, r.value)
  {
    if |s| < 2 then None
    else if s[0] == CR && s[1] == LF then Some(0)
    else
      var r := FindCrlf(s[1..]);
      if r.None? then None else Some(r.value + 1)
  }

  lemma {:induction false} FindCrlfIsFirst(s: bytes)
    ensures forall j | CrlfAt(s, j) :: FindCrlf(s).Some? && FindCrlf(s).value <= j
  {
    if |s| < 2 || (s[0] == CR && s[1] == LF) {
    } else {
      FindCrlfIsFirst(s[1..]);
      assert forall j | CrlfAt(s, j) :: CrlfAt(s[1..], j - 1);
    }
  }

  /** A line of text with no CR LF inside it. */
  ghost predicate OneLine(s: bytes) {
    forall j :: !CrlfAt(s, j)
  }

  /** The first CR LF does not move when bytes are appended. */
  lemma {:induction false} FindCrlfExtends(s: bytes, t: bytes)
    ensures FindCrlf(s).Some? ==> FindCrlf(s + t) == FindCrlf(s)
    ensures FindCrlf(s).None? && FindCrlf(s + t).Some? ==> FindCrlf(s + t).value + 2 > |s|
  {
    var a, b := FindCrlf(s), FindCrlf(s + t);
    FindCrlfIsFirst(s);
    FindCrlfIsFirst(s + t);
    assert a.Some? ==> CrlfAt(s + t, a.value);
    assert b.Some? && b.value + 2 <= |s| ==> CrlfAt(s, b.value);
  }

  /** A line followed by CR LF is found again, whatever comes after it. */
  lemma {:induction false} FindCrlfOfLine(line: bytes, t: bytes)
    requires OneLine(line)
    ensures FindCrlf(line + CRLF + t) == Some(|line|)
  {
    var s := line + CRLF + t;
    assert CrlfAt(s, |line|);
    FindCrlfIsFirst(s);
    assert forall j | 0 <= j && j + 1 < |line| :: CrlfAt(s, j) == CrlfAt(line, j);
  }

  lemma {:induction false} PrintIntIsOneLine(i: int)
    ensures OneLine(PrintInt(i))
  {
    var s := PrintInt(i);
    DecimalDigits(if i < 0 then -i else i);
    forall j ensures !CrlfAt(s, j) {
      if 0 <= j && j + 1 < |s| {
        assert s[j] == MINUS || IsDigit(s[j]);
      }
    }
  }
}
