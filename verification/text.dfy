/** Text helpers shared by the model: decimal rendering and parsing (Go's
    strconv.Itoa and strconv.Atoi, JavaScript's parseInt(s, 10)), Go's
    strings.Split and strings.TrimSpace, and character filtering.

    Go strings are modelled as `string` values whose characters are the bytes of
    the Go string, so `|s|` is Go's len(s) and `s[..k]` is Go's s[:k]. */
module Text {

  /** One byte of a Go []byte. */
  type Byte = x: int | 0 <= x < 256

  predicate IsDigit(c: char) { '0' <= c <= '9' }

  predicate AllDigits(s: string) { forall i :: 0 <= i < |s| ==> IsDigit(s[i]) }

  function DigitValue(c: char): (d: nat)
    requires IsDigit(c)
    ensures d < 10
  { c as int - '0' as int }

  function DigitChar(d: nat): (c: char)
    requires d < 10
    ensures IsDigit(c) && DigitValue(c) == d
  { ('0' as int + d) as char }

  /** The value of a string of decimal digits, most significant digit first. */
  function DigitsValue(s: string): nat
    requires AllDigits(s)
  {
    if |s| == 0 then 0 else 10 * DigitsValue(s[..|s| - 1]) + DigitValue(s[|s| - 1])
  }

  /** Number of occurrences of `c` in `s`. */
  function CountChar(s: string, c: char): nat
  {
    if |s| == 0 then 0 else (if s[0] == c then 1 else 0) + CountChar(s[1..], c)
  }

  // ---------------------------------------------------------------------------
  // Decimal rendering
  // ---------------------------------------------------------------------------

  /** Decimal rendering of a natural number, without leading zeros. Its inverse
      is DigitsValue. */
  function NatToString(n: nat): (s: string)
    ensures 1 <= |s| && AllDigits(s)
    ensures DigitsValue(s) == n
    ensures |s| > 1 ==> s[0] != '0'
  {
    if n < 10 then [DigitChar(n)]
    else
      var p := NatToString(n / 10);
      var s := p + [DigitChar(n % 10)];
      assert s[..|s| - 1] == p;
      assert |p| == 1 ==> DigitsValue(p) == DigitValue(p[0]);
      s
  }

  /** Decimal rendering of an integer, with a leading '-' when it is negative
      (Go's strconv.Itoa and fmt's %d, JavaScript's template interpolation). */
  function IntToString(i: int): (s: string)
    ensures 1 <= |s|
    ensures i < 0 <==> s[0] == '-'
    ensures i >= 0 ==> AllDigits(s) && DigitsValue(s) == i
    ensures i < 0 ==> AllDigits(s[1..]) && DigitsValue(s[1..]) == -i
  {
    if i < 0 then "-" + NatToString(-i) else NatToString(i)
  }

  /** A number rendered with at least two digits, zero-padded on the left
      (JavaScript's n.toString().padStart(2, '0'), the two-digit fields of Go's
      "15:04:05" time layout). */
  function Pad2(n: nat): (s: string)
    ensures AllDigits(s) && DigitsValue(s) == n
    ensures n < 100 ==> |s| == 2
    ensures n >= 100 ==> s == NatToString(n)
  {
    if n < 10 then
      var s := ['0'] + NatToString(n);
      assert s[..1] == ['0'];
      s
    else
      assert n < 100 ==> NatToString(n) == NatToString(n / 10) + [DigitChar(n % 10)];
      NatToString(n)
  }

  // ---------------------------------------------------------------------------
  // Go's strconv.Atoi
  // ---------------------------------------------------------------------------

  const MaxInt64: int := 0x7fff_ffff_ffff_ffff
  const MinInt64: int := -0x8000_0000_0000_0000
  const MaxUint64: int := 0xffff_ffff_ffff_ffff

  /** The longest prefix of `s` made of decimal digits. */
  function DigitPrefix(s: string): (p: string)
    ensures AllDigits(p) && p <= s
    ensures |p| < |s| ==> !IsDigit(s[|p|])
  {
    if |s| == 0 || !IsDigit(s[0]) then "" else [s[0]] + DigitPrefix(s[1..])
  }

  /** The pair Go's strconv.Atoi returns: the value, and whether the error was nil. */
  datatype Parsed = Parsed(value: int, ok: bool)

  /** Go's strconv.Atoi on a 64-bit platform: an optional '+' or '-' followed by
      at least one decimal digit. On a syntax error the value is 0. A digit run
      whose value leaves the 64-bit range is a range error whose value is clamped
      to the bound, and it is detected while scanning, before any later
      non-digit is reached. */
  function Atoi(s: string): (r: Parsed)
    ensures r.ok ==> MinInt64 <= r.value <= MaxInt64
    ensures r.ok ==> 1 <= |s| && (IsDigit(s[0]) || s[0] == '+' || s[0] == '-')
    ensures !r.ok ==> r.value == 0 || r.value == MinInt64 || r.value == MaxInt64
    ensures '-' !in s ==> r.value >= 0
  {
    var neg := |s| > 0 && s[0] == '-';
    var body := if |s| > 0 && (s[0] == '+' || s[0] == '-') then s[1..] else s;
    var digits := DigitPrefix(body);
    if DigitsValue(digits) > MaxUint64 then
      Parsed(if neg then MinInt64 else MaxInt64, false)
    else if |body| == 0 || digits != body then
      Parsed(0, false)
    else
      var v: int := if neg then -(DigitsValue(body) as int) else DigitsValue(body);
      if v < MinInt64 then Parsed(MinInt64, false)
      else if v > MaxInt64 then Parsed(MaxInt64, false)
      else Parsed(v, true)
  }

  lemma {:induction false} DigitPrefixOfDigits(s: string)
    requires AllDigits(s)
    ensures DigitPrefix(s) == s
  {
    if |s| > 0 {
      DigitPrefixOfDigits(s[1..]);
    }
  }

  /** Atoi inverts IntToString on the whole 64-bit range. */
  lemma AtoiOfIntToString(i: int)
    requires MinInt64 <= i <= MaxInt64
    ensures Atoi(IntToString(i)) == Parsed(i, true)
  {
    var s := IntToString(i);
    if i < 0 {
      assert s[1..] == NatToString(-i);
      DigitPrefixOfDigits(s[1..]);
    } else {
      DigitPrefixOfDigits(s);
    }
  }

  // ---------------------------------------------------------------------------
  // JavaScript's parseInt(s, 10)
  // ---------------------------------------------------------------------------

  /** A JavaScript number as parseInt(s, 10) produces it. */
  datatype JsNumber = Num(value: int) | NaN

  /** JavaScript's WhiteSpace and LineTerminator characters. */
  predicate IsJsSpace(c: char)
  {
    || c == '\t' || c == '\n' || c == '\U{000B}' || c == '\U{000C}' || c == '\r' || c == ' '
    || c == '\U{00A0}' || c == '\U{1680}' || ('\U{2000}' <= c <= '\U{200A}')
    || c == '\U{2028}' || c == '\U{2029}' || c == '\U{202F}' || c == '\U{205F}'
    || c == '\U{3000}' || c == '\U{FEFF}'
  }

  function TrimStartJs(s: string): (r: string)
    ensures |r| <= |s| && r == s[|s| - |r|..]
    ensures |r| > 0 ==> !IsJsSpace(r[0])
    ensures |s| > 0 && !IsJsSpace(s[0]) ==> r == s
  {
    if |s| > 0 && IsJsSpace(s[0]) then TrimStartJs(s[1..]) else s
  }

  /** JavaScript's parseInt(s, 10): leading white space is skipped, an optional
      sign is read, then the longest run of decimal digits; no digit gives NaN.
      Anything after the digits is ignored. */
  function ParseIntJs(s: string): (r: JsNumber)
    ensures |s| > 0 && IsDigit(s[0]) ==> r.Num? && r.value >= 0
    ensures (forall i :: 0 <= i < |s| ==> !IsDigit(s[i])) ==> r == NaN
  {
    var t := TrimStartJs(s);
    var neg := |t| > 0 && t[0] == '-';
    var body := if |t| > 0 && (t[0] == '+' || t[0] == '-') then t[1..] else t;
    var digits := DigitPrefix(body);
    if |digits| == 0 then NaN
    else Num(if neg then -(DigitsValue(digits) as int) else DigitsValue(digits))
  }

  /** parseInt reads the decimal rendering of a number back, and stops at the
      first character that is not a digit. */
  lemma ParseIntJsOfNatToString(n: nat, rest: string)
    requires |rest| == 0 || !IsDigit(rest[0])
    ensures ParseIntJs(NatToString(n) + rest) == Num(n)
  {
    ParseIntJsOfDigits(NatToString(n), rest);
  }

  lemma ParseIntJsOfDigits(s: string, rest: string)
    requires 1 <= |s| && AllDigits(s)
    requires |rest| == 0 || !IsDigit(rest[0])
    ensures ParseIntJs(s + rest) == Num(DigitsValue(s))
  {
    assert (s + rest)[0] == s[0];
    ParseIntJsOfDigitStart(s + rest);
    DigitPrefixAppend(s, rest);
  }

  /** Text that starts with a digit is read as its leading digit run. */
  lemma ParseIntJsOfDigitStart(t: string)
    requires |t| > 0 && IsDigit(t[0])
    ensures ParseIntJs(t) == Num(DigitsValue(DigitPrefix(t)))
  {
    assert !IsJsSpace(t[0]) && t[0] != '+' && t[0] != '-';
    assert TrimStartJs(t) == t;
  }

  lemma {:induction false} DigitPrefixAppend(s: string, rest: string)
    requires AllDigits(s)
    requires |rest| == 0 || !IsDigit(rest[0])
    ensures DigitPrefix(s + rest) == s
  {
    if |s| > 0 {
      assert (s + rest)[1..] == s[1..] + rest;
      DigitPrefixAppend(s[1..], rest);
    }
  }

  // ---------------------------------------------------------------------------
  // Go's strings helpers
  // ---------------------------------------------------------------------------

  /** The ASCII white space Go's unicode.IsSpace accepts. */
  predicate IsAsciiSpace(c: char)
  {
    c == '\t' || c == '\n' || c == '\U{000B}' || c == '\U{000C}' || c == '\r' || c == ' '
  }

  /** Whether `e` is the UTF-8 encoding of a rune Go's unicode.IsSpace
      accepts: ASCII white space, U+0085, U+00A0, U+1680, U+2000 to U+200A,
      U+2028, U+2029, U+202F, U+205F and U+3000. */
  predicate IsSpaceEncoding(e: string)
  {
    if |e| == 1 then IsAsciiSpace(e[0])
    else if |e| == 2 then IsSpace2(e[0], e[1])
    else if |e| == 3 then IsSpace3(e[0], e[1], e[2])
    else false
  }

  predicate IsSpace2(b0: char, b1: char)
  {
    b0 == '\U{00C2}' && (b1 == '\U{0085}' || b1 == '\U{00A0}')
  }

  predicate IsSpace3(b0: char, b1: char, b2: char)
  {
    || (b0 == '\U{00E1}' && b1 == '\U{009A}' && b2 == '\U{0080}')
    || (b0 == '\U{00E2}' && b1 == '\U{0080}'
        && ('\U{0080}' <= b2 <= '\U{008A}' || b2 == '\U{00A8}' || b2 == '\U{00A9}' || b2 == '\U{00AF}'))
    || (b0 == '\U{00E2}' && b1 == '\U{0081}' && b2 == '\U{009F}')
    || (b0 == '\U{00E3}' && b1 == '\U{0080}' && b2 == '\U{0080}')
  }

  /** No white-space rune starts or ends with a digit byte. */
  lemma DigitNotSpace(e: string)
    requires 1 <= |e| <= 3 && (IsDigit(e[0]) || IsDigit(e[|e| - 1]))
    ensures !IsSpaceEncoding(e)
  {
  }

  /** A white-space rune is the only one of the first three prefixes that is
      white space: a longer rune does not start with a shorter one. */
  lemma LeadingSpaceOf(e: string, s: string)
    requires IsSpaceEncoding(e)
    ensures LeadingSpace(e + s) == |e|
  {
    var t := e + s;
    assert t[..|e|] == e;
    if |e| >= 2 {
      assert t[..1] == [e[0]];
    }
    if |e| == 3 {
      assert t[..2] == [e[0], e[1]];
    }
  }

  /** The byte length of the white-space rune `s` starts with, or 0. */
  function LeadingSpace(s: string): (w: nat)
    ensures w <= 3 && w <= |s|
    ensures w > 0 ==> IsSpaceEncoding(s[..w])
    ensures w == 0 ==> (|s| >= 1 ==> !IsSpaceEncoding(s[..1])) && (|s| >= 2 ==> !IsSpaceEncoding(s[..2]))
                       && (|s| >= 3 ==> !IsSpaceEncoding(s[..3]))
  {
    if |s| >= 1 && IsSpaceEncoding(s[..1]) then 1
    else if |s| >= 2 && IsSpaceEncoding(s[..2]) then 2
    else if |s| >= 3 && IsSpaceEncoding(s[..3]) then 3
    else 0
  }

  /** The byte length of the white-space rune `s` ends with, or 0. */
  function TrailingSpace(s: string): (w: nat)
    ensures w <= 3 && w <= |s|
    ensures w > 0 ==> IsSpaceEncoding(s[|s| - w..])
    ensures w == 0 ==> (|s| >= 1 ==> !IsSpaceEncoding(s[|s| - 1..])) && (|s| >= 2 ==> !IsSpaceEncoding(s[|s| - 2..]))
                       && (|s| >= 3 ==> !IsSpaceEncoding(s[|s| - 3..]))
  {
    if |s| >= 1 && IsSpaceEncoding(s[|s| - 1..]) then 1
    else if |s| >= 2 && IsSpaceEncoding(s[|s| - 2..]) then 2
    else if |s| >= 3 && IsSpaceEncoding(s[|s| - 3..]) then 3
    else 0
  }

  function TrimLeft(s: string): (r: string)
    ensures |r| <= |s| && r == s[|s| - |r|..]
    ensures LeadingSpace(r) == 0
    ensures LeadingSpace(s) == 0 ==> r == s
    decreases |s|
  {
    var w := LeadingSpace(s);
    if w > 0 then TrimLeft(s[w..]) else s
  }

  function TrimRight(s: string): (r: string)
    ensures |r| <= |s| && r == s[..|r|]
    ensures TrailingSpace(r) == 0
    ensures TrailingSpace(s) == 0 ==> r == s
    decreases |s|
  {
    var w := TrailingSpace(s);
    if w > 0 then TrimRight(s[..|s| - w]) else s
  }

  /** Go's strings.TrimSpace on the bytes of a string: white-space runes are
      dropped from both ends, so what is left neither starts nor ends with
      one, and a string with none at either end is kept as it is. */
  function TrimSpace(s: string): (r: string)
    ensures |r| <= |s|
    ensures LeadingSpace(r) == 0 && TrailingSpace(r) == 0
    ensures LeadingSpace(s) == 0 && TrailingSpace(s) == 0 ==> r == s
  {
    var l := TrimLeft(s);
    var r := TrimRight(l);
    TrimRightKeepsStart(l);
    r
  }

  /** Cutting white space from the end leaves none at the start when there
      was none. */
  lemma {:induction false} TrimRightKeepsStart(s: string)
    requires LeadingSpace(s) == 0
    ensures LeadingSpace(TrimRight(s)) == 0
    decreases |s|
  {
    var w := TrailingSpace(s);
    if w > 0 {
      var t := s[..|s| - w];
      PrefixNoLeadingSpace(s, t);
      TrimRightKeepsStart(t);
    }
  }

  /** A prefix of a string that does not start with white space does not
      either. */
  lemma PrefixNoLeadingSpace(s: string, t: string)
    requires LeadingSpace(s) == 0 && |t| <= |s| && t == s[..|t|]
    ensures LeadingSpace(t) == 0
  {
    if |t| >= 1 { assert t[..1] == s[..1]; }
    if |t| >= 2 { assert t[..2] == s[..2]; }
    if |t| >= 3 { assert t[..3] == s[..3]; }
  }

  /** A white-space rune in front is dropped. */
  lemma SpaceInFrontTrimmed(e: string, s: string)
    requires IsSpaceEncoding(e)
    ensures TrimLeft(e + s) == TrimLeft(s)
  {
    LeadingSpaceOf(e, s);
    assert (e + s)[|e|..] == s;
  }

  /** White space in front does not change what TrimSpace keeps. */
  lemma SpaceInFrontTrimSpace(e: string, s: string)
    requires IsSpaceEncoding(e)
    ensures TrimSpace(e + s) == TrimSpace(s)
  {
    SpaceInFrontTrimmed(e, s);
  }

  /** A string that starts and ends with a digit has no white space to trim. */
  lemma DigitEdgesNotSpace(s: string)
    requires 1 <= |s| && IsDigit(s[0]) && IsDigit(s[|s| - 1])
    ensures LeadingSpace(s) == 0 && TrailingSpace(s) == 0
  {
    DigitStartNotSpace(s);
    DigitEndNotSpace(s);
  }

  lemma DigitStartNotSpace(s: string)
    requires 1 <= |s| && IsDigit(s[0])
    ensures LeadingSpace(s) == 0
  {
    DigitHeadNotSpace(s, 1);
    if |s| >= 2 { DigitHeadNotSpace(s, 2); }
    if |s| >= 3 { DigitHeadNotSpace(s, 3); }
  }

  lemma DigitEndNotSpace(s: string)
    requires 1 <= |s| && IsDigit(s[|s| - 1])
    ensures TrailingSpace(s) == 0
  {
    DigitTailNotSpace(s, 1);
    if |s| >= 2 { DigitTailNotSpace(s, 2); }
    if |s| >= 3 { DigitTailNotSpace(s, 3); }
  }

  lemma DigitHeadNotSpace(s: string, k: nat)
    requires 1 <= k <= 3 && k <= |s| && IsDigit(s[0])
    ensures !IsSpaceEncoding(s[..k])
  {
    assert s[..k][0] == s[0];
    DigitNotSpace(s[..k]);
  }

  lemma DigitTailNotSpace(s: string, k: nat)
    requires 1 <= k <= 3 && k <= |s| && IsDigit(s[|s| - 1])
    ensures !IsSpaceEncoding(s[|s| - k..])
  {
    assert s[|s| - k..][k - 1] == s[|s| - 1];
    DigitNotSpace(s[|s| - k..]);
  }

  /** Trimming never brings in a character. */
  lemma TrimSpaceKeepsOut(s: string, c: char)
    requires c !in s
    ensures c !in TrimSpace(s)
  {
    var l := TrimLeft(s);
    assert c !in l;
  }

  /** Go's strings.Split(s, sep) for a one-character separator: the pieces
      between separators, at least one, and gluing them back gives `s`. */
  function Split(s: string, sep: char): (parts: seq<string>)
    ensures |parts| == CountChar(s, sep) + 1
    ensures forall i :: 0 <= i < |parts| ==> sep !in parts[i]
    ensures Join(parts, sep) == s
  {
    if |s| == 0 then [""]
    else
      var rest := Split(s[1..], sep);
      if s[0] == sep then
        var parts := [""] + rest;
        assert parts[1..] == rest;
        parts
      else
        var parts := [[s[0]] + rest[0]] + rest[1..];
        assert |rest| > 1 ==> Join(rest, sep) == rest[0] + [sep] + Join(rest[1..], sep);
        assert |parts| > 1 ==> parts[1..] == rest[1..];
        parts
  }

  /** Go's strings.Join(parts, string(sep)). */
  function Join(parts: seq<string>, sep: char): string
    requires |parts| >= 1
  {
    if |parts| == 1 then parts[0] else parts[0] + [sep] + Join(parts[1..], sep)
  }

  lemma {:induction false} SplitNoSeparator(p: string, sep: char)
    requires sep !in p
    ensures Split(p, sep) == [p]
  {
    if |p| > 0 {
      SplitNoSeparator(p[1..], sep);
      assert [p[0]] + p[1..] == p;
    }
  }

  lemma {:induction false} SplitAfterPiece(p: string, sep: char, x: string)
    requires sep !in p
    ensures Split(p + [sep] + x, sep) == [p] + Split(x, sep)
  {
    var s := p + [sep] + x;
    if |p| == 0 {
      assert s[1..] == x;
    } else {
      assert s[1..] == p[1..] + [sep] + x;
      SplitAfterPiece(p[1..], sep, x);
      assert [p[0]] + p[1..] == p;
    }
  }

  /** Splitting inverts joining when no piece contains the separator. */
  lemma {:induction false} SplitOfJoin(parts: seq<string>, sep: char)
    requires |parts| >= 1
    requires forall i :: 0 <= i < |parts| ==> sep !in parts[i]
    ensures Split(Join(parts, sep), sep) == parts
  {
    if |parts| == 1 {
      SplitNoSeparator(parts[0], sep);
    } else {
      SplitOfJoin(parts[1..], sep);
      SplitAfterPiece(parts[0], sep, Join(parts[1..], sep));
      assert [parts[0]] + parts[1..] == parts;
    }
  }

  /** `s` with every occurrence of `c` removed (JavaScript's s.replace(/c/g, '')). */
  function RemoveAll(s: string, c: char): (r: string)
    ensures c !in r
    ensures |r| == |s| - CountChar(s, c)
    ensures c !in s ==> r == s
  {
    if |s| == 0 then ""
    else if s[0] == c then RemoveAll(s[1..], c)
    else
      var r := [s[0]] + RemoveAll(s[1..], c);
      assert c !in s ==> s == [s[0]] + s[1..];
      r
  }
}
