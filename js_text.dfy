/**
 * The few pieces of JavaScript's string and number library the application
 * relies on: `String(n)`, `padStart`, `parseInt`, `Number` on a date part,
 * `split` with a one-character separator, `trim`, `toUpperCase`, `slice`
 * and the code-unit order that `localeCompare` agrees with on keys made
 * of digits and `-`.
 */
module JsText {
  import opened Wrappers

  predicate IsDigit(c: char) { '0' <= c <= '9' }

  predicate AllDigits(s: string) { forall i :: 0 <= i < |s| ==> IsDigit(s[i]) }

  function DigitChar(d: nat): (c: char)
    requires d < 10
    ensures IsDigit(c)
  {
    (48 + d) as char
  }

  function DigitValue(c: char): (d: nat)
    requires IsDigit(c)
    ensures d < 10
  {
    (c as int - 48)
  }

  /** The value of a string of decimal digits, most significant digit first. */
  function DecimalValue(s: string): nat
    requires AllDigits(s)
  {
    if s == [] then 0 else 10 * DecimalValue(s[..|s| - 1]) + DigitValue(s[|s| - 1])
  }

  /** `String(n)` for a non-negative integer: its decimal digits, no leading zero. */
  function NatToString(n: nat): (s: string)
    ensures |s| >= 1 && AllDigits(s)
    ensures |s| > 1 ==> s[0] != '0'
    decreases n
  {
    if n < 10 then [DigitChar(n)] else NatToString(n / 10) + [DigitChar(n % 10)]
  }

  lemma {:induction false} NatToStringValue(n: nat)
    ensures DecimalValue(NatToString(n)) == n
    decreases n
  {
    if n >= 10 {
      NatToStringValue(n / 10);
      var s := NatToString(n);
      assert s[..|s| - 1] == NatToString(n / 10);
    }
  }

  /** `String(i)` for any integer: a minus sign, then the digits of `|i|`. */
  function IntToString(i: int): (s: string)
    ensures i >= 0 ==> s == NatToString(i)
    ensures i < 0 ==> s == "-" + NatToString(-i)
  {
    if i < 0 then "-" + NatToString(-i) else NatToString(i)
  }

  function Repeat(c: char, n: nat): (s: string)
    ensures |s| == n && forall i :: 0 <= i < n ==> s[i] == c
  {
    if n == 0 then [] else [c] + Repeat(c, n - 1)
  }

  /** `s.padStart(len, c)`: fill on the left with `c` up to length `len`. */
  function PadStart(s: string, len: nat, c: char): (r: string)
    ensures |s| >= len ==> r == s
    ensures |s| < len ==> |r| == len
    ensures exists k :: 0 <= k <= |r| && r[k..] == s && (forall i :: 0 <= i < k ==> r[i] == c)
  {
    var r := if |s| >= len then s else Repeat(c, len - |s|) + s;
    assert r[|r| - |s|..] == s;
    r
  }

  /** The white space and line terminators that `trim` and `parseInt` skip. */
  predicate IsJsWhiteSpace(c: char) {
    c == '\t' || c == '\n' || c == '\U{B}' || c == '\U{C}' || c == '\r' || c == ' ' ||
    c == '\U{A0}' || c == '\U{1680}' || ('\U{2000}' <= c <= '\U{200A}') ||
    c == '\U{2028}' || c == '\U{2029}' || c == '\U{202F}' || c == '\U{205F}' ||
    c == '\U{3000}' || c == '\U{FEFF}'
  }

  function TrimStart(s: string): (r: string)
    ensures |r| <= |s|
  {
    if s != [] && IsJsWhiteSpace(s[0]) then TrimStart(s[1..]) else s
  }

  /** What `trimStart` leaves: a suffix that starts with no white space, after only white space. */
  lemma {:induction false} TrimStartFacts(s: string)
    ensures var r := TrimStart(s);
      r == s[|s| - |r|..] && (r == [] || !IsJsWhiteSpace(r[0])) &&
      forall i :: 0 <= i < |s| - |r| ==> IsJsWhiteSpace(s[i])
  {
    if s != [] && IsJsWhiteSpace(s[0]) {
      TrimStartFacts(s[1..]);
    }
  }

  function TrimEnd(s: string): (r: string)
    ensures |r| <= |s| && r == s[..|r|]
    ensures r == [] || !IsJsWhiteSpace(r[|r| - 1])
    ensures forall i :: |r| <= i < |s| ==> IsJsWhiteSpace(s[i])
  {
    if s != [] && IsJsWhiteSpace(s[|s| - 1]) then TrimEnd(s[..|s| - 1]) else s
  }

  /** `s.trim()`. */
  function Trim(s: string): (r: string)
    ensures r == [] || (!IsJsWhiteSpace(r[0]) && !IsJsWhiteSpace(r[|r| - 1]))
    ensures exists i, j :: (0 <= i <= j <= |s| && r == s[i..j] &&
      (forall k :: 0 <= k < i ==> IsJsWhiteSpace(s[k])) &&
      (forall k :: j <= k < |s| ==> IsJsWhiteSpace(s[k])))
  {
    TrimStartFacts(s);
    var a := TrimStart(s);
    var r := TrimEnd(a);
    var i := |s| - |a|;
    assert r == s[i..i + |r|];
    assert r == [] || r[0] == a[0];
    r
  }

  /** `toUpperCase` on one character; only the ASCII letters have a case here. */
  function UpperChar(c: char): (u: char)
    ensures 'a' <= c <= 'z' ==> u as int == c as int - 32
    ensures !('a' <= c <= 'z') ==> u == c
  {
    if 'a' <= c <= 'z' then (c as int - 32) as char else c
  }

  function ToUpperCase(s: string): (r: string)
    ensures |r| == |s| && forall i :: 0 <= i < |s| ==> r[i] == UpperChar(s[i])
  {
    if s == [] then [] else [UpperChar(s[0])] + ToUpperCase(s[1..])
  }

  /** `s.slice(0, n)`: the first `n` characters, or all of `s` when it is shorter. */
  function Prefix(s: string, n: nat): (r: string)
    ensures |r| == if |s| < n then |s| else n
    ensures r == s[..|r|]
  {
    if |s| <= n then s else s[..n]
  }

  /** `s.split(sep)` for a one-character separator; never empty, like JavaScript's. */
  function Split(s: string, sep: char): (parts: seq<string>)
    ensures |parts| >= 1
  {
    if sep !in s then [s]
    else
      var i := FirstIndex(s, sep);
      [s[..i]] + Split(s[i + 1..], sep)
  }

  /** No piece contains the separator. */
  lemma {:induction false} SplitPieces(s: string, sep: char)
    ensures forall k :: 0 <= k < |Split(s, sep)| ==> sep !in Split(s, sep)[k]
    decreases |s|
  {
    if sep in s {
      var i := FirstIndex(s, sep);
      SplitPieces(s[i + 1..], sep);
    }
  }

  function FirstIndex(s: string, c: char): (i: nat)
    requires c in s
    ensures i < |s| && s[i] == c && c !in s[..i]
  {
    if s[0] == c then 0 else 1 + FirstIndex(s[1..], c)
  }

  lemma SplitJoin(a: string, b: string, sep: char)
    requires sep !in a
    ensures Split(a + [sep] + b, sep) == [a] + Split(b, sep)
  {
    var s := a + [sep] + b;
    assert s[|a|] == sep;
    var i := FirstIndex(s, sep);
    assert i == |a|;
    assert s[..i] == a;
    assert s[i + 1..] == b;
  }

  /** `s.includes(w)`: `w` occurs in `s` at some position. */
  predicate Includes(s: string, w: string)
    decreases |s|
  {
    w <= s || (s != [] && Includes(s[1..], w))
  }

  /* ---------------- parseInt ---------------- */

  predicate IsHexDigit(c: char) { IsDigit(c) || 'a' <= c <= 'f' || 'A' <= c <= 'F' }

  function HexDigitValue(c: char): (d: nat)
    requires IsHexDigit(c)
    ensures d < 16
  {
    if IsDigit(c) then DigitValue(c)
    else if 'a' <= c <= 'f' then c as int - 'a' as int + 10
    else c as int - 'A' as int + 10
  }

  predicate IsRadixDigit(c: char, hex: bool) { if hex then IsHexDigit(c) else IsDigit(c) }

  function RadixDigitValue(c: char, hex: bool): (d: nat)
    requires IsRadixDigit(c, hex)
    ensures d < (if hex then 16 else 10)
  {
    if hex then HexDigitValue(c) else DigitValue(c)
  }

  /** The length of the longest prefix of `s` made of digits of the radix. */
  function DigitRun(s: string, hex: bool): (n: nat)
    ensures n <= |s| && forall i :: 0 <= i < n ==> IsRadixDigit(s[i], hex)
    ensures n < |s| ==> !IsRadixDigit(s[n], hex)
  {
    if s != [] && IsRadixDigit(s[0], hex) then 1 + DigitRun(s[1..], hex) else 0
  }

  function RadixValue(s: string, hex: bool): nat
    requires forall i :: 0 <= i < |s| ==> IsRadixDigit(s[i], hex)
  {
    if s == [] then 0
    else (if hex then 16 else 10) * RadixValue(s[..|s| - 1], hex) + RadixDigitValue(s[|s| - 1], hex)
  }

  /**
   * `parseInt(s)` with no radix: skip leading white space, take an optional
   * sign, read hexadecimal after a `0x`/`0X` prefix and decimal otherwise, and
   * stop at the first character that is not a digit; `None` is `NaN`, the
   * result when no digit follows.
   */
  function ParseInt(s: string): (r: Option<int>)
    ensures r.None? <==> DigitRun(ParseIntBody(s).0, ParseIntBody(s).1) == 0
  {
    var (body, hex, negative) := ParseIntBody(s);
    var n := DigitRun(body, hex);
    if n == 0 then None
    else
      var v: int := RadixValue(body[..n], hex);
      Some(if negative then -v else v)
  }

  /** What `parseInt` reads digits from: the rest after white space, sign and radix prefix. */
  function ParseIntBody(s: string): (string, bool, bool) {
    var t := TrimStart(s);
    var negative := t != [] && t[0] == '-';
    var u := if t != [] && (t[0] == '-' || t[0] == '+') then t[1..] else t;
    var hex := |u| >= 2 && u[0] == '0' && (u[1] == 'x' || u[1] == 'X');
    (if hex then u[2..] else u, hex, negative)
  }

  lemma DecimalIsRadix(s: string)
    requires AllDigits(s)
    ensures forall i :: 0 <= i < |s| ==> IsRadixDigit(s[i], false)
    ensures RadixValue(s, false) == DecimalValue(s)
  {
    if s != [] {
      DecimalIsRadix(s[..|s| - 1]);
    }
  }

  /** `parseInt` reads back a digit string whose second character is not `x`. */
  lemma {:induction false} ParseIntDigits(s: string)
    requires s != [] && AllDigits(s)
    ensures ParseInt(s) == Some(DecimalValue(s))
  {
    ParseIntBodyDigits(s);
    DecimalIsRadix(s);
    assert DigitRun(s, false) == |s| by { DigitRunAll(s); }
    assert s[..|s|] == s;
  }

  lemma DigitNotSpace(c: char)
    requires IsDigit(c)
    ensures !IsJsWhiteSpace(c)
  {
  }

  lemma ParseIntBodyDigits(s: string)
    requires s != [] && AllDigits(s)
    ensures ParseIntBody(s) == (s, false, false)
  {
    DigitNotSpace(s[0]);
    assert TrimStart(s) == s;
    assert s[0] != '-' && s[0] != '+';
    assert |s| >= 2 ==> s[1] != 'x' && s[1] != 'X';
  }

  lemma {:induction false} DigitRunAll(s: string)
    requires AllDigits(s)
    ensures DigitRun(s, false) == |s|
  {
    if s != [] {
      DigitRunAll(s[1..]);
    }
  }

  lemma {:induction false} DecimalLeadingZeros(k: nat, s: string)
    requires AllDigits(s)
    ensures AllDigits(Repeat('0', k) + s)
    ensures DecimalValue(Repeat('0', k) + s) == DecimalValue(s)
    decreases |s|
  {
    var z := Repeat('0', k) + s;
    if s == [] {
      assert z == Repeat('0', k);
      ZerosValue(k);
    } else {
      assert z[..|z| - 1] == Repeat('0', k) + s[..|s| - 1];
      DecimalLeadingZeros(k, s[..|s| - 1]);
    }
  }

  lemma {:induction false} ZerosValue(k: nat)
    ensures DecimalValue(Repeat('0', k)) == 0
  {
    if k > 0 {
      assert Repeat('0', k)[..k - 1] == Repeat('0', k - 1);
      ZerosValue(k - 1);
    }
  }

  /** `parseInt(String(n).padStart(w, "0"))` gives `n` back. */
  lemma PaddedNatParses(n: nat, w: nat)
    ensures ParseInt(PadStart(NatToString(n), w, '0')) == Some(n)
  {
    PaddedNatDigits(n, w);
    ParseIntDigits(PadStart(NatToString(n), w, '0'));
  }

  /** Text that starts with a letter is not a number to `parseInt`. */
  lemma ParseIntLetter(s: string)
    requires s != [] && 'a' <= s[0] <= 'z'
    ensures ParseInt(s).None?
  {
    assert !IsJsWhiteSpace(s[0]);
    assert TrimStart(s) == s;
    assert ParseIntBody(s).0 == s && !ParseIntBody(s).1;
    assert !IsDigit(s[0]);
  }

  /** A zero-padded decimal numeral is still all digits, not empty, and of the same value. */
  lemma PaddedNatDigits(n: nat, w: nat)
    ensures PadStart(NatToString(n), w, '0') != [] && AllDigits(PadStart(NatToString(n), w, '0'))
    ensures DecimalValue(PadStart(NatToString(n), w, '0')) == n
  {
    var s := NatToString(n);
    var k := if |s| >= w then 0 else w - |s|;
    assert PadStart(s, w, '0') == Repeat('0', k) + s;
    DecimalLeadingZeros(k, s);
    NatToStringValue(n);
  }

  /* ---------------- Number() on a date part ---------------- */

  /**
   * `Number(s)` on what a date part can be: white space around a run of
   * decimal digits, or nothing at all (which is 0). Every other numeric
   * literal form counts as `NaN` (`None`) here.
   */
  function ToNumber(s: string): (r: Option<nat>)
    ensures Trim(s) == [] ==> r == Some(0)
    ensures r.Some? <==> AllDigits(Trim(s))
  {
    var t := Trim(s);
    if AllDigits(t) then Some(DecimalValue(t)) else None
  }

  /** A digit string is its own `Number` value. */
  lemma ToNumberDigits(s: string)
    requires AllDigits(s)
    ensures ToNumber(s) == Some(DecimalValue(s))
  {
    if s != [] {
      assert TrimStart(s) == s;
      assert TrimEnd(s) == s;
    }
  }

  /** `Number(String(n))` is `n`. */
  lemma NatToNumber(n: nat)
    ensures ToNumber(NatToString(n)) == Some(n)
  {
    ToNumberDigits(NatToString(n));
    NatToStringValue(n);
  }

  /* ---------------- string order ---------------- */

  /** Code-unit lexicographic order: a proper prefix, or a smaller first differing character. */
  predicate StrLess(a: string, b: string) {
    if a == [] then b != []
    else if b == [] then false
    else if a[0] != b[0] then a[0] < b[0]
    else StrLess(a[1..], b[1..])
  }

  lemma {:induction false} StrLessIrreflexive(a: string)
    ensures !StrLess(a, a)
  {
    if a != [] { StrLessIrreflexive(a[1..]); }
  }

  lemma {:induction false} StrLessTransitive(a: string, b: string, c: string)
    requires StrLess(a, b) && StrLess(b, c)
    ensures StrLess(a, c)
  {
    if a != [] && b != [] && c != [] && a[0] == b[0] && b[0] == c[0] {
      StrLessTransitive(a[1..], b[1..], c[1..]);
    }
  }

  lemma {:induction false} StrLessTotal(a: string, b: string)
    requires a != b
    ensures StrLess(a, b) || StrLess(b, a)
  {
    if a != [] && b != [] && a[0] == b[0] {
      assert a == [a[0]] + a[1..] && b == [b[0]] + b[1..];
      StrLessTotal(a[1..], b[1..]);
    }
  }
}
