/** The JavaScript string operations the bot relies on, after the ECMAScript
    language specification (ECMA-262): `trim`, `startsWith`,
    `includes`, `indexOf`, `replace` with a string pattern and an empty
    replacement, `parseInt` with no radix, and the conversion of an integral
    Number to its decimal string. A string here is a sequence of Unicode
    scalar values, where ECMA-262 uses UTF-16 code units, so positions differ
    after a character above U+FFFF.

    The functions are plain definitions; what they guarantee is stated by
    the lemmas that follow each of them, so that a proof about the bot pays
    only for the facts it asks for. */
module JsStrings {
  import opened Wrappers

  // ---------------------------------------------------------------------
  // Whitespace and trim
  // ---------------------------------------------------------------------

  /** The WhiteSpace and LineTerminator code points of ECMA-262 (sections
      12.2 and 12.3): what `String.prototype.trim` strips and what `parseInt`
      skips before the number. */
  predicate IsWhitespace(c: char) {
    || c == '\t' || c == '\n' || c == '\U{B}' || c == '\U{C}' || c == '\r'
    || c == ' ' || c == '\U{A0}' || c == '\U{1680}'
    || ('\U{2000}' <= c <= '\U{200A}')
    || c == '\U{2028}' || c == '\U{2029}' || c == '\U{202F}' || c == '\U{205F}'
    || c == '\U{3000}' || c == '\U{FEFF}'
  }

  predicate AllWhitespace(s: string) {
    forall i :: 0 <= i < |s| ==> IsWhitespace(s[i])
  }

  /** `s` with its leading whitespace removed. */
  function TrimStart(s: string): string {
    if |s| > 0 && IsWhitespace(s[0]) then TrimStart(s[1..]) else s
  }

  /** `s` with its trailing whitespace removed. */
  function TrimEnd(s: string): string {
    if |s| > 0 && IsWhitespace(s[|s| - 1]) then TrimEnd(s[..|s| - 1]) else s
  }

  /** `String.prototype.trim` (ECMA-262 section 22.1.3.32). */
  function Trim(s: string): string {
    TrimEnd(TrimStart(s))
  }

  /** TrimStart removes a whitespace prefix, and no more. */
  lemma {:induction false} TrimStartSpec(s: string)
    ensures var r := TrimStart(s);
            |r| <= |s| && r == s[|s| - |r|..] && AllWhitespace(s[..|s| - |r|])
            && (r == [] || !IsWhitespace(r[0]))
  {
    if |s| > 0 && IsWhitespace(s[0]) {
      TrimStartSpec(s[1..]);
      var r := TrimStart(s[1..]);
      assert s[..|s| - |r|] == [s[0]] + s[1..][..|s| - 1 - |r|];
    }
  }

  /** TrimEnd removes a whitespace suffix, and no more. */
  lemma {:induction false} TrimEndSpec(s: string)
    ensures var r := TrimEnd(s);
            |r| <= |s| && r == s[..|r|] && AllWhitespace(s[|r|..])
            && (r == [] || !IsWhitespace(r[|r| - 1]))
  {
    if |s| > 0 && IsWhitespace(s[|s| - 1]) {
      TrimEndSpec(s[..|s| - 1]);
      var r := TrimEnd(s[..|s| - 1]);
      assert s[|r|..] == s[..|s| - 1][|r|..] + [s[|s| - 1]];
    }
  }

  /** `trim` cuts off only whitespace, only at the two ends, and leaves a
      string that neither starts nor ends with whitespace. */
  lemma {:induction false} TrimSpec(s: string)
    ensures var r := Trim(s);
            (r == [] || (!IsWhitespace(r[0]) && !IsWhitespace(r[|r| - 1])))
            && exists lead :: 0 <= lead <= |s| - |r| && s[lead..lead + |r|] == r
                              && AllWhitespace(s[..lead]) && AllWhitespace(s[lead + |r|..])
  {
    var t := TrimStart(s);
    TrimStartSpec(s);
    TrimEndSpec(t);
    var r := TrimEnd(t);
    var lead := |s| - |t|;
    assert s[lead..lead + |r|] == r;
    assert s[lead + |r|..] == t[|r|..];
  }

  /** Text that starts with a non-whitespace character trims to itself at
      the start. */
  lemma TrimStartOfNonBlank(s: string)
    requires s != [] && !IsWhitespace(s[0])
    ensures TrimStart(s) == s
  {
  }

  /** Trimming is idempotent: trimmed text, such as an accepted link, trims
      to itself. */
  lemma {:induction false} TrimIdempotent(s: string)
    ensures Trim(Trim(s)) == Trim(s)
  {
    var r := Trim(s);
    TrimSpec(s);
    if r != [] {
      assert TrimStart(r) == r;
      assert TrimEnd(r) == r;
    }
  }

  // ---------------------------------------------------------------------
  // Prefixes and substrings
  // ---------------------------------------------------------------------

  /** `s.startsWith(p)` (ECMA-262 section 22.1.3.24). */
  predicate StartsWith(s: string, p: string) {
    |p| <= |s| && s[..|p|] == p
  }

  /** `s.indexOf(p)` (ECMA-262 section 22.1.3.9), with `None` for -1. */
  function IndexOf(s: string, p: string): Option<nat> {
    if StartsWith(s, p) then Some(0)
    else if s == [] then None
    else
      match IndexOf(s[1..], p)
      case None => None
      case Some(k) => Some(k + 1)
  }

  /** `indexOf` finds the first position where `p` occurs, and reports none
      exactly when `p` occurs nowhere. */
  lemma {:induction false} IndexOfSpec(s: string, p: string)
    ensures var r := IndexOf(s, p);
            && (r.Some? ==> r.value + |p| <= |s| && StartsWith(s[r.value..], p))
            && (r.Some? ==> forall j :: 0 <= j < r.value ==> !StartsWith(s[j..], p))
            && (r.None? ==> forall j :: 0 <= j <= |s| ==> !StartsWith(s[j..], p))
  {
    if !StartsWith(s, p) && s != [] {
      IndexOfSpec(s[1..], p);
      assert forall j :: 1 <= j <= |s| ==> s[j..] == s[1..][j - 1..];
    }
  }

  /** `s.includes(p)` (ECMA-262 section 22.1.3.8). */
  predicate Includes(s: string, p: string) {
    IndexOf(s, p).Some?
  }

  /** `s.includes(p)` holds exactly when `p` occurs somewhere in `s`. */
  lemma {:induction false} IncludesMeansOccurs(s: string, p: string)
    ensures Includes(s, p) <==> exists j :: 0 <= j <= |s| && StartsWith(s[j..], p)
  {
    IndexOfSpec(s, p);
    var r := IndexOf(s, p);
    if r.Some? {
      assert StartsWith(s[r.value..], p);
    }
  }

  /** `s.replace(p, '')` with a string pattern (ECMA-262 section
      22.1.3.19): only the FIRST occurrence of `p` is removed. */
  function DeleteFirst(s: string, p: string): string {
    match IndexOf(s, p)
    case None => s
    // An occurrence always fits inside `s` (DeleteFirstSpec); the test only
    // keeps the slice well formed without IndexOf carrying a postcondition.
    case Some(i) => if i + |p| <= |s| then s[..i] + s[i + |p|..] else s
  }

  /** Without an occurrence nothing changes; with one, the string is what
      comes before the first occurrence followed by what comes after it. */
  lemma {:induction false} DeleteFirstSpec(s: string, p: string)
    ensures IndexOf(s, p).None? ==> DeleteFirst(s, p) == s
    ensures IndexOf(s, p).Some? ==>
              var i := IndexOf(s, p).value;
              i + |p| <= |s| && s == s[..i] + p + s[i + |p|..]
              && DeleteFirst(s, p) == s[..i] + s[i + |p|..]
  {
    IndexOfSpec(s, p);
    if IndexOf(s, p).Some? {
      var i := IndexOf(s, p).value;
      assert s[i..][..|p|] == p;
      assert s == s[..i] + s[i..][..|p|] + s[i + |p|..];
    }
  }

  /** Removing a prefix that the string starts with gives back the rest. */
  lemma {:induction false} DeleteFirstOfPrefix(p: string, rest: string)
    ensures DeleteFirst(p + rest, p) == rest
  {
    assert StartsWith(p + rest, p);
    assert IndexOf(p + rest, p) == Some(0);
    assert (p + rest)[|p|..] == rest;
  }

  // ---------------------------------------------------------------------
  // Digits, number-to-string and parseInt
  // ---------------------------------------------------------------------

  /** Whether `c` is a digit of the given radix (10 or 16). */
  predicate IsRadixDigit(c: char, radix: nat) {
    || ('0' <= c <= '9')
    || (radix == 16 && (('a' <= c <= 'f') || ('A' <= c <= 'F')))
  }

  predicate AllRadixDigits(s: string, radix: nat) {
    forall i :: 0 <= i < |s| ==> IsRadixDigit(s[i], radix)
  }

  function DigitValue(c: char): (v: nat)
    requires IsRadixDigit(c, 16)
    ensures v < 16
    ensures '0' <= c <= '9' ==> v < 10
  {
    if '0' <= c <= '9' then (c as int - '0' as int)
    else if 'a' <= c <= 'f' then (c as int - 'a' as int) + 10
    else (c as int - 'A' as int) + 10
  }

  /** The character of decimal digit `d`. */
  function DigitChar(d: nat): (c: char)
    requires d < 10
    ensures IsRadixDigit(c, 10) && DigitValue(c) == d
  {
    ('0' as int + d) as char
  }

  /** The value of a digit string, most significant digit first. */
  function DigitsValue(s: string, radix: nat): nat
    requires radix == 10 || radix == 16
    requires AllRadixDigits(s, radix)
  {
    if s == [] then 0
    else DigitsValue(s[..|s| - 1], radix) * radix + DigitValue(s[|s| - 1])
  }

  /** The longest prefix of `s` made of digits of the radix. */
  function DigitPrefix(s: string, radix: nat): string {
    if |s| > 0 && IsRadixDigit(s[0], radix) then [s[0]] + DigitPrefix(s[1..], radix)
    else []
  }

  /** DigitPrefix is a prefix made of digits, stopped by a non-digit or the
      end of the string. */
  lemma {:induction false} DigitPrefixSpec(s: string, radix: nat)
    ensures var r := DigitPrefix(s, radix);
            StartsWith(s, r) && AllRadixDigits(r, radix)
            && (|r| == |s| || !IsRadixDigit(s[|r|], radix))
  {
    if |s| > 0 && IsRadixDigit(s[0], radix) {
      DigitPrefixSpec(s[1..], radix);
      var r := DigitPrefix(s, radix);
      assert s[..|r|] == [s[0]] + s[1..][..|r| - 1];
    }
  }

  /** The decimal numeral of a natural number. */
  function NatToDecimal(n: nat): string {
    if n < 10 then [DigitChar(n)]
    else NatToDecimal(n / 10) + [DigitChar(n % 10)]
  }

  /** The numeral is non-empty, all digits, with no leading zero. */
  lemma {:induction false} NatToDecimalSpec(n: nat)
    ensures var r := NatToDecimal(n);
            |r| > 0 && AllRadixDigits(r, 10) && (r[0] == '0' ==> n == 0 && |r| == 1)
  {
    if n >= 10 {
      NatToDecimalSpec(n / 10);
      assert NatToDecimal(n)[0] == NatToDecimal(n / 10)[0];
    }
  }

  /** The string JavaScript gives for an integral Number, as in the template
      literal `${n}`: a minus sign for negative values, then the numeral. */
  function IntToDecimal(n: int): string {
    if n < 0 then "-" + NatToDecimal(-n) else NatToDecimal(n)
  }

  /** `parseInt(s)` with no radix (ECMA-262 section 19.2.5): skip leading
      whitespace, read an optional sign, then the magnitude. `None` stands
      for `NaN`, the result when no digit is found. */
  function ParseInt(s: string): Option<int> {
    var t := TrimStart(s);
    if |t| > 0 && t[0] == '-' then
      match ParseMagnitude(t[1..])
      case Some(m) => Some(-m)
      case None => None
    else if |t| > 0 && t[0] == '+' then ParseMagnitude(t[1..])
    else ParseMagnitude(t)
  }

  /** The unsigned part of `parseInt`: hexadecimal after a `0x` or `0X`
      prefix, decimal otherwise. */
  function ParseMagnitude(u: string): Option<int> {
    if |u| >= 2 && u[0] == '0' && (u[1] == 'x' || u[1] == 'X') then LeadingNumber(u[2..], 16)
    else LeadingNumber(u, 10)
  }

  /** The value of the digits at the start of `u`, stopping at the first
      character that is not a digit of the radix; `None` when there is none. */
  function LeadingNumber(u: string, radix: nat): Option<int>
    requires radix == 10 || radix == 16
  {
    var digits := DigitPrefix(u, radix);
    DigitPrefixSpec(u, radix);
    if digits == [] then None else Some(DigitsValue(digits, radix))
  }

  lemma {:induction false} DigitPrefixOfDigits(s: string, radix: nat)
    requires AllRadixDigits(s, radix)
    ensures DigitPrefix(s, radix) == s
  {
    if |s| > 0 {
      DigitPrefixOfDigits(s[1..], radix);
    }
  }

  /** The numeral of `n` reads back as `n`, digit by digit. */
  lemma {:induction false} NatToDecimalValue(n: nat)
    ensures AllRadixDigits(NatToDecimal(n), 10) && DigitsValue(NatToDecimal(n), 10) == n
  {
    NatToDecimalSpec(n);
    if n >= 10 {
      var r := NatToDecimal(n);
      assert r[..|r| - 1] == NatToDecimal(n / 10);
      NatToDecimalValue(n / 10);
    }
  }

  /** A natural number's numeral reads back as that number. */
  lemma {:induction false} ParseMagnitudeOfDecimal(m: nat)
    ensures ParseMagnitude(NatToDecimal(m)) == Some(m)
  {
    var u := NatToDecimal(m);
    NatToDecimalSpec(m);
    DigitPrefixOfDigits(u, 10);
    NatToDecimalValue(m);
    assert LeadingNumber(u, 10) == Some(m);
  }

  lemma {:induction false} ParseIntOfNatDecimal(m: nat)
    ensures ParseInt(NatToDecimal(m)) == Some(m)
  {
    var u := NatToDecimal(m);
    NatToDecimalSpec(m);
    assert IsRadixDigit(u[0], 10);
    TrimStartOfNonBlank(u);
    ParseMagnitudeOfDecimal(m);
  }

  lemma {:induction false} ParseIntOfNegativeDecimal(m: nat)
    ensures ParseInt("-" + NatToDecimal(m)) == Some(-(m as int))
  {
    var s := "-" + NatToDecimal(m);
    TrimStartOfNonBlank(s);
    assert s[1..] == NatToDecimal(m);
    ParseMagnitudeOfDecimal(m);
  }

  /** Reading back the decimal string of an integer with `parseInt` gives
      the integer. */
  lemma {:induction false} ParseIntOfDecimal(n: int)
    ensures ParseInt(IntToDecimal(n)) == Some(n)
  {
    if n < 0 {
      var m: nat := -n;
      assert IntToDecimal(n) == "-" + NatToDecimal(m);
      ParseIntOfNegativeDecimal(m);
    } else {
      assert IntToDecimal(n) == NatToDecimal(n);
      ParseIntOfNatDecimal(n);
    }
  }
}
