/** String operations of the JavaScript runtime that the application calls:
    `trim`, `toUpperCase`, `String.prototype.replace` with a string pattern,
    `String(value)`, `parseInt` and the number conversion used by `<` and `>`. */
module JsText {
  import opened JsValue
  import opened Wrappers

  /** The characters `trim`, `parseInt`, `Number(...)` and the regular expression
      class `\s` treat as white space (WhiteSpace and LineTerminator). */
  predicate IsSpace(c: char)
  {
    c == '\t' || c == '\n' || c == '\U{000B}' || c == '\U{000C}' || c == '\r' || c == ' '
    || c == '\U{00A0}' || c == '\U{1680}' || ('\U{2000}' <= c <= '\U{200A}')
    || c == '\U{2028}' || c == '\U{2029}' || c == '\U{202F}' || c == '\U{205F}'
    || c == '\U{3000}' || c == '\U{FEFF}'
  }

  predicate AllSpace(s: string)
  {
    forall k :: 0 <= k < |s| ==> IsSpace(s[k])
  }

  /** Number of white-space characters at the front of `s`. */
  function LeadingSpace(s: string): (n: nat)
    ensures n <= |s|
    ensures AllSpace(s[..n])
    ensures n < |s| ==> !IsSpace(s[n])
  {
    if |s| > 0 && IsSpace(s[0]) then
      var m := LeadingSpace(s[1..]);
      assert s[..m + 1] == [s[0]] + s[1..][..m];
      m + 1
    else 0
  }

  /** Number of white-space characters at the end of `s`. */
  function TrailingSpace(s: string): (n: nat)
    ensures n <= |s|
    ensures AllSpace(s[|s| - n..])
    ensures n < |s| ==> !IsSpace(s[|s| - 1 - n])
  {
    if |s| > 0 && IsSpace(s[|s| - 1]) then
      var m := TrailingSpace(s[..|s| - 1]);
      TrailingSpaceStep(s, m);
      m + 1
    else 0
  }

  /** One more white-space character at the end extends the trailing run. */
  lemma TrailingSpaceStep(s: string, m: nat)
    requires 0 < |s| && m <= |s| - 1 && IsSpace(s[|s| - 1])
    requires AllSpace(s[..|s| - 1][|s| - 1 - m..])
    requires m < |s| - 1 ==> !IsSpace(s[..|s| - 1][|s| - 2 - m])
    ensures AllSpace(s[|s| - (m + 1)..])
    ensures m + 1 < |s| ==> !IsSpace(s[|s| - 2 - m])
  {
    var init := s[..|s| - 1];
    var t := s[|s| - (m + 1)..];
    forall k | 0 <= k < |t| ensures IsSpace(t[k]) {
      if k < m {
        assert t[k] == init[|s| - 1 - m..][k];
      } else {
        assert t[k] == s[|s| - 1];
      }
    }
    if m + 1 < |s| {
      assert s[|s| - 2 - m] == init[|s| - 2 - m];
    }
  }

  /** `s.trim()`: `s` without white space at either end. */
  function Trim(s: string): (t: string)
  {
    var i := LeadingSpace(s);
    var rest := s[i..];
    rest[..|rest| - TrailingSpace(rest)]
  }

  /** What `trim` keeps is a contiguous piece of the input, it neither starts nor
      ends with white space, and everything it cut off is white space. */
  lemma TrimShape(s: string)
    ensures exists i, j :: 0 <= i <= j <= |s| && Trim(s) == s[i..j]
                           && AllSpace(s[..i]) && AllSpace(s[j..])
    ensures Trim(s) != [] ==> !IsSpace(Trim(s)[0]) && !IsSpace(Trim(s)[|Trim(s)| - 1])
  {
    var i := LeadingSpace(s);
    var rest := s[i..];
    var n := TrailingSpace(rest);
    var j := i + |rest| - n;
    assert s[j..] == rest[|rest| - n..];
    assert Trim(s) == s[i..j];
    if Trim(s) != [] {
      assert Trim(s)[0] == rest[0];
      assert Trim(s)[|Trim(s)| - 1] == rest[|rest| - 1 - n];
    }
  }

  /** The trimmed string is empty exactly when the input is only white space. */
  lemma TrimEmptyIff(s: string)
    ensures Trim(s) == "" <==> AllSpace(s)
  {
    var i := LeadingSpace(s);
    var rest := s[i..];
    if i == |s| {
      assert s[..i] == s;
      assert rest == [];
    } else {
      assert rest[0] == s[i];
      TrailingSpaceAll(rest);
    }
  }

  /** Trailing white space covers the whole text only when it is all white space. */
  lemma TrailingSpaceAll(t: string)
    ensures TrailingSpace(t) == |t| ==> AllSpace(t)
  {
    if TrailingSpace(t) == |t| {
      assert t[|t| - TrailingSpace(t)..] == t;
    }
  }

  /** `toUpperCase` on the ASCII letters. */
  function UpperChar(c: char): char
  {
    if 'a' <= c <= 'z' then (c as int - 'a' as int + 'A' as int) as char else c
  }

  function ToUpper(s: string): (u: string)
    ensures |u| == |s|
    ensures forall k :: 0 <= k < |s| ==> u[k] == UpperChar(s[k])
  {
    if s == [] then [] else [UpperChar(s[0])] + ToUpper(s[1..])
  }

  /** `s.replace('_', ' ')` with a string pattern: only the first occurrence. */
  function ReplaceFirst(s: string, from: char, to: char): (r: string)
    ensures |r| == |s|
  {
    if s == [] then []
    else if s[0] == from then [to] + s[1..]
    else [s[0]] + ReplaceFirst(s[1..], from, to)
  }

  /** Only the first `from` changes: every position before it, and every position
      after it, keeps its character. */
  lemma ReplaceFirstAt(s: string, from: char, to: char, i: nat)
    requires i < |s| && s[i] == from
    requires forall k :: 0 <= k < i ==> s[k] != from
    ensures ReplaceFirst(s, from, to) == s[..i] + [to] + s[i + 1..]
  {
    if i > 0 {
      ReplaceFirstAt(s[1..], from, to, i - 1);
      assert s[1..][..i - 1] == s[1..i];
      assert s[..i] == [s[0]] + s[1..i];
    }
  }

  /** Without any `from`, nothing changes. */
  lemma {:induction false} ReplaceFirstAbsent(s: string, from: char, to: char)
    requires forall k :: 0 <= k < |s| ==> s[k] != from
    ensures ReplaceFirst(s, from, to) == s
  {
    if s != [] {
      ReplaceFirstAbsent(s[1..], from, to);
    }
  }

  // ---- numbers as text ----

  function DigitChar(d: nat): char
    requires d < 10
  {
    "0123456789"[d]
  }

  /** Decimal digits of a natural number, without leading zeros. */
  function NatToString(n: nat): (s: string)
    ensures |s| > 0
    ensures forall k :: 0 <= k < |s| ==> '0' <= s[k] <= '9'
    decreases n
  {
    if n < 10 then [DigitChar(n)] else NatToString(n / 10) + [DigitChar(n % 10)]
  }

  function IntToString(n: int): string
  {
    if n < 0 then "-" + NatToString(-n) else NatToString(n)
  }

  /** `String(v)`: the text JavaScript converts a value to when it must have a string,
      for example the argument of `atob` or of `localStorage.setItem`. */
  function ToStr(v: Value): string
  {
    match v
    case Undefined => "undefined"
    case Null => "null"
    case Bool(b) => if b then "true" else "false"
    case Num(n) => IntToString(n)
    case NaN => "NaN"
    case Str(s) => s
    case Arr(xs) => JoinItems(xs)
    case Obj(_) => "[object Object]"
  }

  /** `Array.prototype.join(',')`, where `undefined` and `null` items join as "". */
  function JoinItems(xs: seq<Value>): string
    decreases xs, 0
  {
    if xs == [] then ""
    else
      var last := xs[|xs| - 1];
      var item := if last == Undefined || last == Null then "" else ToStr(last);
      if |xs| == 1 then item else JoinItems(xs[..|xs| - 1]) + "," + item
  }

  /** The value of a digit character in bases up to 36, or 36 for a non-digit. */
  function DigitValue(c: char): nat
  {
    if '0' <= c <= '9' then c as int - '0' as int
    else if 'a' <= c <= 'z' then c as int - 'a' as int + 10
    else if 'A' <= c <= 'Z' then c as int - 'A' as int + 10
    else 36
  }

  /** Length of the run of digits of base `radix` at the front of `s`. */
  function DigitRun(s: string, radix: nat): (n: nat)
    ensures n <= |s|
    ensures forall k :: 0 <= k < n ==> DigitValue(s[k]) < radix
    ensures n < |s| ==> DigitValue(s[n]) >= radix
  {
    if |s| > 0 && DigitValue(s[0]) < radix then 1 + DigitRun(s[1..], radix) else 0
  }

  /** The number written by the digits `d` in base `radix`. */
  function DigitsValue(d: string, radix: nat): nat
  {
    if d == [] then 0
    else DigitsValue(d[..|d| - 1], radix) * radix + (if DigitValue(d[|d| - 1]) < radix then DigitValue(d[|d| - 1]) else 0)
  }

  /** `parseInt(s)` with no radix: leading white space, an optional sign, an optional
      `0x`/`0X` prefix that selects base 16, then the longest run of digits; NaN when
      that run is empty. */
  function ParseInt(s: string): (v: Value)
    ensures v.NaN? || v.Num?
  {
    var t := s[LeadingSpace(s)..];
    var neg := |t| > 0 && t[0] == '-';
    var u := if |t| > 0 && (t[0] == '-' || t[0] == '+') then t[1..] else t;
    var hex := |u| >= 2 && u[0] == '0' && (u[1] == 'x' || u[1] == 'X');
    var radix := if hex then 16 else 10;
    var w := if hex then u[2..] else u;
    var k := DigitRun(w, radix);
    if k == 0 then NaN
    else Num(if neg then -(DigitsValue(w[..k], radix) as int) else DigitsValue(w[..k], radix))
  }

  /** `parseInt(x)` for any value: the value is first converted to a string. */
  function ParseIntValue(v: Value): Value
  {
    ParseInt(ToStr(v))
  }

  // ---- the number a value converts to (ToNumber), used by `<` and `>` ----

  type Pos = n: nat | n > 0 witness 1

  /** A JavaScript number as an exact rational, or one of the non-finite values. */
  datatype Number = NotANumber | Finite(num: int, den: Pos) | PosInfinity | NegInfinity

  function Pow10(e: nat): (p: Pos)
  {
    if e == 0 then 1 else 10 * Pow10(e - 1)
  }

  /** An optional sign followed by decimal digits that make up all of `s`. */
  function SignedExponent(s: string): Option<int>
  {
    var neg := |s| > 0 && s[0] == '-';
    var d := if |s| > 0 && (s[0] == '-' || s[0] == '+') then s[1..] else s;
    var k := DigitRun(d, 10);
    if k == 0 || k != |d| then None
    else Some(if neg then -(DigitsValue(d, 10) as int) else DigitsValue(d, 10))
  }

  /** StrUnsignedDecimalLiteral: `Infinity`, or digits with an optional fraction and
      an optional exponent, with at least one digit before the exponent. */
  function UnsignedDecimal(s: string): Number
  {
    if s == "Infinity" then PosInfinity
    else
      var i := DigitRun(s, 10);
      var rest := s[i..];
      var hasDot := |rest| > 0 && rest[0] == '.';
      var afterDot := if hasDot then rest[1..] else rest;
      var f := if hasDot then DigitRun(afterDot, 10) else 0;
      if i + f == 0 then NotANumber
      else WithExponent(DigitsValue(s[..i] + afterDot[..f], 10), f, afterDot[f..])
  }

  /** The number `mantissa / 10^f`, scaled by the exponent part `tail` (empty, or
      `e`/`E` and a signed integer); NaN when `tail` is anything else. */
  function WithExponent(mantissa: nat, f: nat, tail: string): Number
  {
    if tail == "" then Finite(mantissa, Pow10(f))
    else if tail[0] != 'e' && tail[0] != 'E' then NotANumber
    else
      match SignedExponent(tail[1..])
      case None => NotANumber
      case Some(e) =>
        if e >= 0 then Finite(mantissa * Pow10(e), Pow10(f))
        else Finite(mantissa, Pow10(f - e))
  }

  /** StringToNumber: white space around the literal is ignored, white space alone
      is 0, `0x`/`0o`/`0b` integers have no sign, anything else is NaN. */
  function StringToNumber(s: string): Number
  {
    var t := Trim(s);
    if t == "" then Finite(0, 1)
    else if |t| >= 2 && t[0] == '0' && t[1] in "xXoObB" then
      var radix := if t[1] in "xX" then 16 else if t[1] in "oO" then 8 else 2;
      var d := t[2..];
      if d != [] && DigitRun(d, radix) == |d| then Finite(DigitsValue(d, radix), 1) else NotANumber
    else if t[0] == '-' then
      match UnsignedDecimal(t[1..])
      case Finite(n, den) => Finite(-n, den)
      case PosInfinity => NegInfinity
      case other => other
    else if t[0] == '+' then UnsignedDecimal(t[1..])
    else UnsignedDecimal(t)
  }

  /** ToNumber of a value (arrays and objects go through their string form). */
  function ToNumber(v: Value): Number
  {
    match v
    case Undefined => NotANumber
    case Null => Finite(0, 1)
    case Bool(b) => Finite(if b then 1 else 0, 1)
    case Num(n) => Finite(n, 1)
    case NaN => NotANumber
    case Str(s) => StringToNumber(s)
    case Arr(_) => StringToNumber(ToStr(v))
    case Obj(_) => NotANumber
  }

  /** `x < k` for an integer `k`: false whenever `x` is NaN. */
  predicate LessThan(x: Number, k: int)
  {
    match x
    case NotANumber => false
    case Finite(n, d) => n < k * d
    case PosInfinity => false
    case NegInfinity => true
  }

  /** `x > k` for an integer `k`: false whenever `x` is NaN. */
  predicate GreaterThan(x: Number, k: int)
  {
    match x
    case NotANumber => false
    case Finite(n, d) => n > k * d
    case PosInfinity => true
    case NegInfinity => false
  }
}
