/** The few JavaScript string operations the code relies on: the `\s`
    character class, `replace(/\s/g, '')`, `toUpperCase`, `trim`,
    `Number.prototype.toString`, `padStart` and `parseInt`. */
module JsText {
  import opened Wrappers
  import Radix

  /** The characters JavaScript's `\s` class matches; `trim` strips the same set. */
  predicate IsWhitespace(c: char)
  {
    || c == '\t' || c == '\n' || c == '\U{B}' || c == '\U{C}' || c == '\r' || c == ' '
    || c == '\U{A0}' || c == '\U{1680}' || ('\U{2000}' <= c <= '\U{200A}')
    || c == '\U{2028}' || c == '\U{2029}' || c == '\U{202F}' || c == '\U{205F}'
    || c == '\U{3000}' || c == '\U{FEFF}'
  }

  predicate NoWhitespace(s: string)
  {
    forall i :: 0 <= i < |s| ==> !IsWhitespace(s[i])
  }

  /** `s.replace(/\s/g, '')` */
  function RemoveWhitespace(s: string): (r: string)
    ensures NoWhitespace(r)
    ensures NoWhitespace(s) ==> r == s
    ensures |r| <= |s|
  {
    if s == [] then []
    else if IsWhitespace(s[0]) then RemoveWhitespace(s[1..])
    else [s[0]] + RemoveWhitespace(s[1..])
  }

  predicate IsLowerAscii(c: char)
  {
    'a' <= c <= 'z'
  }

  /** Upper-casing of one character, for the ASCII range. */
  function UpperChar(c: char): (u: char)
    ensures !IsLowerAscii(u)
    ensures !IsLowerAscii(c) ==> u == c
  {
    if IsLowerAscii(c) then (c as int - 32) as char else c
  }

  /** `s.toUpperCase()`, for ASCII letters. */
  function Upper(s: string): (r: string)
    ensures |r| == |s|
    ensures forall i :: 0 <= i < |r| ==> !IsLowerAscii(r[i])
    ensures (forall i :: 0 <= i < |s| ==> !IsLowerAscii(s[i])) ==> r == s
  {
    if s == [] then [] else [UpperChar(s[0])] + Upper(s[1..])
  }

  /** `s.trimStart()`: drops the longest whitespace prefix. */
  function TrimStart(s: string): (r: string)
    ensures |r| <= |s|
    ensures r == [] || !IsWhitespace(r[0])
  {
    if s != [] && IsWhitespace(s[0]) then TrimStart(s[1..]) else s
  }

  /** `s.trimEnd()`: drops the longest whitespace suffix. */
  function TrimEnd(s: string): (r: string)
    ensures |r| <= |s| && forall i :: 0 <= i < |r| ==> r[i] == s[i]
    ensures r == [] || !IsWhitespace(r[|r| - 1])
    ensures forall i :: |r| <= i < |s| ==> IsWhitespace(s[i])
  {
    if s != [] && IsWhitespace(s[|s| - 1]) then TrimEnd(s[..|s| - 1]) else s
  }

  /** `s.trim()` */
  function Trim(s: string): (r: string)
    ensures NoWhitespace(s) ==> r == s
    ensures r == [] || (!IsWhitespace(r[0]) && !IsWhitespace(r[|r| - 1]))
  {
    TrimEnd(TrimStart(s))
  }

  /** The value of a character as a digit in any radix up to 36; 36 for a
      character that is a digit in none. */
  function CharValue(c: char): (d: nat)
    ensures d <= 36
  {
    if '0' <= c <= '9' then c as int - '0' as int
    else if 'a' <= c <= 'z' then c as int - 'a' as int + 10
    else if 'A' <= c <= 'Z' then c as int - 'A' as int + 10
    else 36
  }

  function DigitValues(s: string): (ds: seq<nat>)
    ensures |ds| == |s|
  {
    if s == [] then [] else DigitValues(s[..|s| - 1]) + [CharValue(s[|s| - 1])]
  }

  predicate IsDecimal(s: string)
  {
    forall i :: 0 <= i < |s| ==> '0' <= s[i] <= '9'
  }

  function DecimalDigit(d: nat): (c: char)
    requires d < 10
    ensures '0' <= c <= '9' && CharValue(c) == d
  {
    ('0' as int + d) as char
  }

  /** `n.toString()` for a non-negative integer: no leading zeros, "0" for zero. */
  function DecimalString(n: nat): (r: string)
    ensures |r| >= 1 && IsDecimal(r)
    ensures r[0] == '0' ==> n == 0
    decreases n
  {
    if n < 10 then [DecimalDigit(n)] else DecimalString(n / 10) + [DecimalDigit(n % 10)]
  }

  /** `s.padStart(len, fill)` */
  function PadStart(s: string, len: nat, fill: char): (r: string)
    ensures |r| == if |s| >= len then |s| else len
    ensures forall i :: 0 <= i < |r| - |s| ==> r[i] == fill
    ensures forall i :: 0 <= i < |s| ==> r[|r| - |s| + i] == s[i]
  {
    if |s| >= len then s else seq(len - |s|, _ => fill) + s
  }

  /** What `trimStart` drops is a run of whitespace, and what it keeps is the rest. */
  lemma {:induction false} TrimStartDropsWhitespace(s: string)
    ensures var r := TrimStart(s);
      && r == s[|s| - |r|..]
      && forall i :: 0 <= i < |s| - |r| ==> IsWhitespace(s[i])
  {
    if s != [] && IsWhitespace(s[0]) {
      TrimStartDropsWhitespace(s[1..]);
      var r := TrimStart(s);
      assert s[1..][|s| - 1 - |r|..] == s[|s| - |r|..];
    }
  }

  /** A string that neither starts nor ends with whitespace is its own trim. */
  lemma TrimUnchanged(s: string)
    requires s != [] && !IsWhitespace(s[0]) && !IsWhitespace(s[|s| - 1])
    ensures Trim(s) == s
  {
    assert TrimStart(s) == s;
  }

  /** Length of the longest prefix of `s` made of digits of `radix`. */
  function DigitRunLength(s: string, radix: nat): (n: nat)
    ensures n <= |s|
    ensures forall i :: 0 <= i < n ==> CharValue(s[i]) < radix
    ensures n < |s| ==> CharValue(s[n]) >= radix
  {
    if s == [] || CharValue(s[0]) >= radix then 0 else 1 + DigitRunLength(s[1..], radix)
  }

  /** `parseInt(s)` with no radix argument: leading whitespace is skipped, a
      sign is read, a `0x`/`0X` prefix selects base 16, and the longest run of
      digits that follows is read; no digits at all gives NaN (`None`). */
  function ParseInt(s: string): Option<int>
  {
    var t := TrimStart(s);
    if |t| > 0 && t[0] == '-' then
      match ParseUnsigned(t[1..])
      case Some(m) => Some(-(m as int))
      case None => None
    else if |t| > 0 && t[0] == '+' then ParseUnsigned(t[1..])
    else ParseUnsigned(t)
  }

  /** The unsigned part of `parseInt`, after whitespace and sign. */
  function ParseUnsigned(u: string): Option<nat>
  {
    if |u| >= 2 && u[0] == '0' && (u[1] == 'x' || u[1] == 'X') then DigitRun(u[2..], 16)
    else DigitRun(u, 10)
  }

  /** The longest run of `radix` digits at the start of `w`, if there is one. */
  function DigitRun(w: string, radix: nat): Option<nat>
  {
    var n := DigitRunLength(w, radix);
    if n == 0 then None else Some(Radix.Value(DigitValues(w[..n]), radix))
  }

  // ---------------------------------------------------------------------------
  // Properties

  /** Removing whitespace commutes with concatenation, so every
      non-whitespace character survives, in order. */
  lemma {:induction false} RemoveWhitespaceAppend(a: string, b: string)
    ensures RemoveWhitespace(a + b) == RemoveWhitespace(a) + RemoveWhitespace(b)
  {
    if a == [] {
      assert a + b == b;
    } else {
      assert (a + b)[1..] == a[1..] + b;
      RemoveWhitespaceAppend(a[1..], b);
    }
  }

  lemma {:induction false} UpperAppend(a: string, b: string)
    ensures Upper(a + b) == Upper(a) + Upper(b)
  {
    if a == [] {
      assert a + b == b;
    } else {
      assert (a + b)[1..] == a[1..] + b;
      UpperAppend(a[1..], b);
    }
  }

  /** Upper-casing is idempotent. */
  lemma UpperIdempotent(s: string)
    ensures Upper(Upper(s)) == Upper(s)
  {
  }

  lemma {:induction false} DigitValuesOfDecimal(s: string)
    requires IsDecimal(s)
    ensures Radix.IsDigits(DigitValues(s), 10)
  {
    if s != [] {
      DigitValuesOfDecimal(s[..|s| - 1]);
    }
  }

  /** `toString` and reading the digits back are inverse. */
  lemma {:induction false} DecimalStringValue(n: nat)
    ensures Radix.Value(DigitValues(DecimalString(n)), 10) == n
    decreases n
  {
    var r := DecimalString(n);
    if n >= 10 {
      DecimalStringValue(n / 10);
      assert r[..|r| - 1] == DecimalString(n / 10);
    }
  }

  /** A number below `10^d` needs at most `d` decimal digits. */
  lemma {:induction false} DecimalStringLength(n: nat, d: nat)
    requires d >= 1 && n < Radix.Pow(10, d)
    ensures |DecimalString(n)| <= d
    decreases d
  {
    if n >= 10 {
      assert d >= 2;
      DecimalStringLength(n / 10, d - 1);
    }
  }

  /** `parseInt(n.toString()) == n`. */
  lemma ParseIntDecimal(n: nat)
    ensures ParseInt(DecimalString(n)) == Some(n)
  {
    var s := DecimalString(n);
    assert TrimStart(s) == s by {
      assert !IsWhitespace(s[0]);
    }
    assert s[0] != '-' && s[0] != '+';
    assert ParseUnsigned(s) == DigitRun(s, 10) by {
      assert s[0] == '0' ==> |s| == 1 by {
        if s[0] == '0' && n != 0 {
          assert false;
        }
      }
    }
    assert DigitRun(s, 10) == Some(n) by {
      DecimalRun(s);
      assert s[..|s|] == s;
      DecimalStringValue(n);
    }
  }

  lemma {:induction false} DecimalRun(s: string)
    requires IsDecimal(s)
    ensures DigitRunLength(s, 10) == |s|
  {
    if s != [] {
      DecimalRun(s[1..]);
    }
  }

  /** Zero padding does not change the number a digit string denotes. */
  lemma {:induction false} ZeroPadValue(k: nat, s: string)
    ensures Radix.Value(DigitValues(seq(k, _ => '0') + s), 10) == Radix.Value(DigitValues(s), 10)
    decreases |s|
  {
    var z: string := seq(k, _ => '0');
    if s == [] {
      assert z + s == z;
      ZerosValue(k);
    } else {
      var init := s[..|s| - 1];
      assert (z + s)[..|z + s| - 1] == z + init;
      ZeroPadValue(k, init);
    }
  }

  lemma {:induction false} ZerosValue(k: nat)
    ensures Radix.Value(DigitValues(seq(k, _ => '0')), 10) == 0
  {
    if k > 0 {
      var z: string := seq(k, _ => '0');
      assert z[..k - 1] == seq(k - 1, _ => '0');
      ZerosValue(k - 1);
    }
  }
}
