/**
 * The parts of ECMAScript number semantics the edge handlers rely on:
 * `parseInt(s, 10)`, `Number(s)` (StringToNumber), `Number.isSafeInteger`
 * and `Number.prototype.toString` on integers.
 *
 * Values are mathematical: `parseInt` yields an exact integer and `Number`
 * yields the exact decimal value written in the string, so binary64 rounding
 * is not modelled.
 */
module JsNumber {
  import opened Wrappers

  /** Number.MAX_SAFE_INTEGER, 2^53 - 1. */
  const MaxSafeInteger: int := 9007199254740991

  /** StrWhiteSpaceChar: the WhiteSpace and LineTerminator code points. */
  predicate IsWhiteSpace(c: char) {
    || c in {'\t', '\n', '\U{000B}', '\U{000C}', '\r', ' ', '\U{00A0}', '\U{1680}',
             '\U{2028}', '\U{2029}', '\U{202F}', '\U{205F}', '\U{3000}', '\U{FEFF}'}
    || ('\U{2000}' <= c <= '\U{200A}')
  }

  /** Removes the white space at the start of `s`. */
  function TrimStart(s: string): (r: string)
    ensures |r| <= |s| && r == s[|s| - |r|..]
    ensures forall i | 0 <= i < |s| - |r| :: IsWhiteSpace(s[i])
    ensures r == [] || !IsWhiteSpace(r[0])
  {
    if s != [] && IsWhiteSpace(s[0]) then TrimStart(s[1..]) else s
  }

  /** Removes the white space at the end of `s`. */
  function TrimEnd(s: string): (r: string)
    ensures |r| <= |s| && r == s[..|r|]
    ensures forall i | |r| <= i < |s| :: IsWhiteSpace(s[i])
    ensures r == [] || !IsWhiteSpace(r[|r| - 1])
  {
    if s != [] && IsWhiteSpace(s[|s| - 1]) then TrimEnd(s[..|s| - 1]) else s
  }

  /** The value of an ASCII letter or digit as a digit of radix up to 36, and 36 for any other character. */
  function DigitValue(c: char): (v: nat)
    ensures v <= 36
  {
    if '0' <= c <= '9' then (c - '0') as nat
    else if 'a' <= c <= 'z' then (c - 'a') as nat + 10
    else if 'A' <= c <= 'Z' then (c - 'A') as nat + 10
    else 36
  }

  predicate IsDigit(c: char) {
    '0' <= c <= '9'
  }

  predicate AllRadixDigits(s: string, radix: nat) {
    forall i | 0 <= i < |s| :: DigitValue(s[i]) < radix
  }

  predicate AllDigits(s: string) {
    forall i | 0 <= i < |s| :: IsDigit(s[i])
  }

  /** No decimal digit is white space. */
  lemma DigitNotWhiteSpace(c: char)
    requires IsDigit(c)
    ensures !IsWhiteSpace(c)
  {
  }

  lemma DigitsAreRadixTen(s: string)
    requires AllDigits(s)
    ensures AllRadixDigits(s, 10)
  {
  }

  /** The integer that the digit string `d` denotes in radix `radix`, most significant digit first. */
  function RadixValue(d: string, radix: nat): (r: nat)
    requires AllRadixDigits(d, radix)
  {
    if d == [] then 0 else RadixValue(d[..|d| - 1], radix) * radix + DigitValue(d[|d| - 1])
  }

  /** The integer a decimal digit string denotes. */
  function DigitsValue(d: string): (r: nat)
    requires AllDigits(d)
  {
    DigitsAreRadixTen(d);
    RadixValue(d, 10)
  }

  /** Appending a digit shifts the value one decimal place. */
  lemma DigitsValueAppend(d: string, c: char)
    requires AllDigits(d) && IsDigit(c)
    ensures AllDigits(d + [c]) && DigitsValue(d + [c]) == DigitsValue(d) * 10 + DigitValue(c)
  {
    assert (d + [c])[..|d|] == d;
  }

  /** The longest prefix of `s` made of decimal digits. */
  function LeadingDigits(s: string): (d: string)
    ensures d <= s && AllDigits(d)
    ensures |d| == |s| || !IsDigit(s[|d|])
  {
    if s == [] || !IsDigit(s[0]) then [] else [s[0]] + LeadingDigits(s[1..])
  }

  function Pow10(k: nat): (p: nat)
    ensures p >= 1
  {
    if k == 0 then 1 else 10 * Pow10(k - 1)
  }

  predicate IsSafeInteger(n: int) {
    -MaxSafeInteger <= n <= MaxSafeInteger
  }

  /**
   * `parseInt(s, 10)`: white space at the start is skipped, one sign is
   * accepted, and the longest run of decimal digits after it is read.
   * `None` stands for NaN (no digit at all).
   */
  function ParseInt(s: string): (n: Option<int>) {
    var t := TrimStart(s);
    var negative := |t| > 0 && t[0] == '-';
    var u := if |t| > 0 && (t[0] == '+' || t[0] == '-') then t[1..] else t;
    var z := LeadingDigits(u);
    if z == [] then None
    else
      var v: int := DigitsValue(z);
      Some(if negative then -v else v)
  }

  /** A JavaScript number value: NaN, an infinity, or the finite value (-1)^negative * significand * 10^exponent. */
  datatype Number = NaN | Infinity(negative: bool) | Finite(negative: bool, significand: nat, exponent: int)

  /** Whether the number value `x` is the integer `n` (so `x === n`; -0 and +0 are both 0). */
  predicate Denotes(x: Number, n: int) {
    match x
    case Finite(negative, m, e) =>
      var magnitude := if negative then -n else n;
      if e >= 0 then magnitude == m * Pow10(e) else magnitude * Pow10(-e) == m
    case _ => false
  }

  /** ExponentPart of a StrUnsignedDecimalLiteral, which must be all of `s`; the empty string is exponent 0. */
  function ExponentPart(s: string): (r: Option<int>) {
    if s == [] then Some(0)
    else if s[0] != 'e' && s[0] != 'E' then None
    else
      var t := s[1..];
      var negative := |t| > 0 && t[0] == '-';
      var d := if |t| > 0 && (t[0] == '+' || t[0] == '-') then t[1..] else t;
      if d != [] && AllDigits(d) then
        var v: int := DigitsValue(d);
        Some(if negative then -v else v)
      else None
  }

  /** StrUnsignedDecimalLiteral: `Infinity`, or digits with an optional fraction and exponent. */
  function UnsignedDecimal(u: string, negative: bool): (r: Number) {
    if u == "Infinity" then Infinity(negative)
    else
      var a := LeadingDigits(u);
      AfterIntegerDigits(a, u[|a|..], negative)
  }

  /** The rest of a decimal literal once its integer digits `a` are read: an optional `.` and fraction digits. */
  function AfterIntegerDigits(a: string, rest: string, negative: bool): (r: Number)
    requires AllDigits(a)
  {
    if |rest| > 0 && rest[0] == '.' then
      var f := LeadingDigits(rest[1..]);
      Scaled(a, f, rest[1 + |f|..], negative)
    else
      Scaled(a, [], rest, negative)
  }

  /** The value of integer digits `a`, fraction digits `f` and an exponent part `tail`; at least one digit is needed. */
  function Scaled(a: string, f: string, tail: string, negative: bool): (r: Number)
    requires AllDigits(a) && AllDigits(f)
  {
    if a == [] && f == [] then NaN
    else match ExponentPart(tail)
      case None => NaN
      case Some(e) => Finite(negative, DigitsValue(a + f), e - |f|)
  }

  /** The radix of a NonDecimalIntegerLiteral prefix letter, 0 for any other character. */
  function PrefixRadix(c: char): (r: nat) {
    if c == 'x' || c == 'X' then 16
    else if c == 'o' || c == 'O' then 8
    else if c == 'b' || c == 'B' then 2
    else 0
  }

  /** NonDecimalIntegerLiteral without numeric separators: `0x`, `0o` or `0b` followed by at least one digit. */
  predicate IsNonDecimalLiteral(t: string) {
    |t| >= 3 && t[0] == '0' && PrefixRadix(t[1]) != 0 && AllRadixDigits(t[2..], PrefixRadix(t[1]))
  }

  /** `Number(s)` on a string (StringToNumber): trimmed, the empty string is 0, anything outside the grammar is NaN. */
  function StringToNumber(s: string): (x: Number) {
    var t := TrimEnd(TrimStart(s));
    if t == [] then Finite(false, 0, 0)
    else if IsNonDecimalLiteral(t) then Finite(false, RadixValue(t[2..], PrefixRadix(t[1])), 0)
    else
      var negative := t[0] == '-';
      var u := if t[0] == '+' || t[0] == '-' then t[1..] else t;
      UnsignedDecimal(u, negative)
  }

  /** The decimal digit for `d`. */
  function DigitChar(d: nat): (c: char)
    requires d < 10
    ensures IsDigit(c) && DigitValue(c) == d
  {
    ('0' as int + d) as char
  }

  /** The canonical decimal numeral of `n`: no sign, no leading zero. */
  function NatToString(n: nat): (s: string)
    ensures s != [] && AllDigits(s) && DigitsValue(s) == n
    ensures s[0] == '0' ==> n == 0 && s == "0"
    decreases n
  {
    if n < 10 then
      DigitsValueAppend([], DigitChar(n));
      [DigitChar(n)]
    else
      DigitsValueAppend(NatToString(n / 10), DigitChar(n % 10));
      NatToString(n / 10) + [DigitChar(n % 10)]
  }

  /** `Number.prototype.toString()` of an integer of magnitude below 10^21. */
  function IntToString(n: int): (s: string)
    ensures s != [] && (s[0] == '-' <==> n < 0)
    ensures n >= 0 ==> AllDigits(s) && DigitsValue(s) == n
    ensures n < 0 ==> AllDigits(s[1..]) && DigitsValue(s[1..]) == -n
  {
    if n < 0 then "-" + NatToString(-n) else NatToString(n)
  }

  // ---- Facts about parseInt and Number on common shapes of input ----

  /** The value of `d + f` is `d` shifted by |f| places plus the value of `f`. */
  lemma {:induction false} DigitsValueConcat(d: string, f: string)
    requires AllDigits(d) && AllDigits(f)
    ensures AllDigits(d + f) && DigitsValue(d + f) == DigitsValue(d) * Pow10(|f|) + DigitsValue(f)
    decreases |f|
  {
    if f == [] {
      assert d + f == d;
    } else {
      var g := f[..|f| - 1];
      var c := f[|f| - 1];
      assert f == g + [c];
      assert d + f == (d + g) + [c];
      DigitsValueConcat(d, g);
      DigitsValueAppend(d + g, c);
      DigitsValueAppend(g, c);
      assert Pow10(|f|) == Pow10(|g|) * 10;
      ShiftDigit(DigitsValue(d), Pow10(|g|), DigitsValue(g), DigitValue(c));
    }
  }

  /** Shifting `a * p + b` one decimal place and adding a digit `c`. */
  lemma ShiftDigit(a: int, p: int, b: int, c: int)
    ensures (a * p + b) * 10 + c == a * (p * 10) + (b * 10 + c)
  {
  }

  /** White space in front of a string that starts with something else is exactly what TrimStart drops. */
  lemma {:induction false} TrimStartAfterSpace(w: string, s: string)
    requires forall i | 0 <= i < |w| :: IsWhiteSpace(w[i])
    requires s == [] || !IsWhiteSpace(s[0])
    ensures TrimStart(w + s) == s
    decreases |w|
  {
    if w == [] {
      assert w + s == s;
    } else {
      assert (w + s)[1..] == w[1..] + s;
      TrimStartAfterSpace(w[1..], s);
    }
  }

  /** White space after a string that ends with something else is exactly what TrimEnd drops. */
  lemma {:induction false} TrimEndBeforeSpace(s: string, w: string)
    requires forall i | 0 <= i < |w| :: IsWhiteSpace(w[i])
    requires s == [] || !IsWhiteSpace(s[|s| - 1])
    ensures TrimEnd(s + w) == s
    decreases |w|
  {
    if w == [] {
      assert s + w == s;
    } else {
      assert (s + w)[..|s + w| - 1] == s + w[..|w| - 1];
      TrimEndBeforeSpace(s, w[..|w| - 1]);
    }
  }

  /** LeadingDigits reads exactly the digit run `d` when what follows does not start with a digit. */
  lemma {:induction false} LeadingDigitsOf(d: string, rest: string)
    requires AllDigits(d)
    requires rest == [] || !IsDigit(rest[0])
    ensures LeadingDigits(d + rest) == d
    decreases |d|
  {
    if d == [] {
      assert d + rest == rest;
    } else {
      assert (d + rest)[1..] == d[1..] + rest;
      LeadingDigitsOf(d[1..], rest);
    }
  }

  /** `parseInt` of white space, a digit run, and anything that does not continue the run, is the run's value. */
  lemma ParseIntOfDigits(w: string, d: string, rest: string)
    requires forall i | 0 <= i < |w| :: IsWhiteSpace(w[i])
    requires d != [] && AllDigits(d)
    requires rest == [] || !IsDigit(rest[0])
    ensures ParseInt(w + d + rest) == Some(DigitsValue(d) as int)
  {
    var t := d + rest;
    assert w + d + rest == w + t;
    assert t[0] == d[0];
    TrimStartAfterSpace(w, t);
    assert TrimStart(w + d + rest) == t;
    assert !(t[0] == '+' || t[0] == '-');
    LeadingDigitsOf(d, rest);
  }

  /** An unsigned decimal literal, once trimmed, is read by UnsignedDecimal. */
  lemma NumberOfUnsigned(s: string, t: string)
    requires TrimEnd(TrimStart(s)) == t
    requires t != [] && IsDigit(t[0])
    requires |t| >= 2 ==> PrefixRadix(t[1]) == 0
    ensures StringToNumber(s) == UnsignedDecimal(t, false)
  {
    assert !IsNonDecimalLiteral(t) by {
      if |t| >= 3 { assert PrefixRadix(t[1]) == 0; }
    }
  }

  /** A string that starts with a digit is not `Infinity`. */
  lemma NotInfinity(u: string)
    requires u != [] && IsDigit(u[0])
    ensures u != "Infinity"
  {
    assert u[0] != "Infinity"[0];
  }

  /** A string without white space at either end is its own trimmed form. */
  lemma TrimmedAlready(t: string)
    requires t != [] && !IsWhiteSpace(t[0]) && !IsWhiteSpace(t[|t| - 1])
    ensures TrimEnd(TrimStart(t)) == t
  {
    TrimStartAfterSpace([], t);
    TrimEndBeforeSpace(t, []);
    assert [] + t == t && t + [] == t;
  }

  /** Padding a digit run with white space leaves the run as the trimmed string. */
  lemma TrimPadded(w1: string, d: string, w2: string)
    requires forall i | 0 <= i < |w1| :: IsWhiteSpace(w1[i])
    requires forall i | 0 <= i < |w2| :: IsWhiteSpace(w2[i])
    requires d != [] && AllDigits(d)
    ensures TrimEnd(TrimStart(w1 + d + w2)) == d
  {
    assert w1 + d + w2 == w1 + (d + w2);
    assert (d + w2)[0] == d[0];
    DigitNotWhiteSpace(d[0]);
    DigitNotWhiteSpace(d[|d| - 1]);
    TrimStartAfterSpace(w1, d + w2);
    TrimEndBeforeSpace(d, w2);
  }

  lemma DigitsShape(d: string)
    requires d != [] && AllDigits(d)
    ensures IsDigit(d[0]) && (|d| >= 2 ==> PrefixRadix(d[1]) == 0)
  {
  }

  /** TrimEnd never drops a character that is not white space, nor anything before it. */
  lemma TrimEndKeeps(s: string, k: nat)
    requires k < |s| && !IsWhiteSpace(s[k])
    ensures |TrimEnd(s)| > k
  {
  }

  lemma UnsignedOfDigits(d: string)
    requires d != [] && AllDigits(d)
    ensures UnsignedDecimal(d, false) == Finite(false, DigitsValue(d), 0)
  {
    NotInfinity(d);
    LeadingDigitsOf(d, []);
    assert d + [] == d;
    assert d[|d|..] == [];
    assert AfterIntegerDigits(d, [], false) == Finite(false, DigitsValue(d), 0);
  }

  /** `Number` of a digit run padded with white space is the run's value. */
  lemma NumberOfDigits(w1: string, d: string, w2: string)
    requires forall i | 0 <= i < |w1| :: IsWhiteSpace(w1[i])
    requires forall i | 0 <= i < |w2| :: IsWhiteSpace(w2[i])
    requires d != [] && AllDigits(d)
    ensures StringToNumber(w1 + d + w2) == Finite(false, DigitsValue(d), 0)
  {
    TrimPadded(w1, d, w2);
    DigitsShape(d);
    NumberOfUnsigned(w1 + d + w2, d);
    UnsignedOfDigits(d);
  }

  lemma FractionShape(d: string, f: string)
    requires d != [] && AllDigits(d) && AllDigits(f)
    ensures var t := d + "." + f;
      TrimEnd(TrimStart(t)) == t && IsDigit(t[0]) && (|t| >= 2 ==> PrefixRadix(t[1]) == 0)
  {
    var t := d + "." + f;
    assert t[0] == d[0] && t[|t| - 1] == (if f == [] then '.' else f[|f| - 1]);
    assert t[1] == '.' || IsDigit(t[1]);
    TrimmedAlready(t);
  }

  lemma UnsignedOfFraction(d: string, f: string)
    requires d != [] && AllDigits(d) && AllDigits(f)
    ensures UnsignedDecimal(d + "." + f, false) == Finite(false, DigitsValue(d + f), -|f|)
  {
    var t := d + "." + f;
    assert t == d + ("." + f);
    NotInfinity(t);
    LeadingDigitsOf(d, "." + f);
    var rest := t[|d|..];
    assert rest == "." + f;
    assert rest[1..] == f;
    LeadingDigitsOf(f, []);
    assert f + [] == f;
    assert rest[1 + |f|..] == [];
    assert AfterIntegerDigits(d, rest, false) == Scaled(d, f, [], false);
  }

  /** `Number` of a digit run, a point and a second digit run. */
  lemma NumberOfFraction(d: string, f: string)
    requires d != [] && AllDigits(d) && AllDigits(f)
    ensures StringToNumber(d + "." + f) == Finite(false, DigitsValue(d + f), -|f|)
  {
    FractionShape(d, f);
    NumberOfUnsigned(d + "." + f, d + "." + f);
    UnsignedOfFraction(d, f);
  }

  lemma ExponentShape(d: string, k: string)
    requires d != [] && AllDigits(d) && k != [] && AllDigits(k)
    ensures var t := d + "e" + k;
      TrimEnd(TrimStart(t)) == t && IsDigit(t[0]) && (|t| >= 2 ==> PrefixRadix(t[1]) == 0)
  {
    var t := d + "e" + k;
    assert t[0] == d[0] && t[|t| - 1] == k[|k| - 1];
    assert t[1] == 'e' || IsDigit(t[1]);
    TrimmedAlready(t);
  }

  lemma UnsignedOfExponent(d: string, k: string)
    requires d != [] && AllDigits(d) && k != [] && AllDigits(k)
    ensures UnsignedDecimal(d + "e" + k, false) == Finite(false, DigitsValue(d), DigitsValue(k))
  {
    var t := d + "e" + k;
    assert t == d + ("e" + k);
    NotInfinity(t);
    LeadingDigitsOf(d, "e" + k);
    var rest := t[|d|..];
    assert rest == "e" + k;
    assert rest[1..] == k;
    assert !(k[0] == '+' || k[0] == '-');
    assert ExponentPart(rest) == Some(DigitsValue(k) as int);
    assert d + [] == d;
    assert AfterIntegerDigits(d, rest, false) == Scaled(d, [], rest, false);
  }

  /** `Number` of a digit run, `e`, and a digit run as exponent. */
  lemma NumberOfExponent(d: string, k: string)
    requires d != [] && AllDigits(d) && k != [] && AllDigits(k)
    ensures StringToNumber(d + "e" + k) == Finite(false, DigitsValue(d), DigitsValue(k))
  {
    ExponentShape(d, k);
    NumberOfUnsigned(d + "e" + k, d + "e" + k);
    UnsignedOfExponent(d, k);
  }

  lemma JunkShape(d: string, c: char, rest: string)
    requires d != [] && AllDigits(d)
    requires !IsDigit(c) && !IsWhiteSpace(c) && PrefixRadix(c) == 0
    ensures var t := TrimEnd(TrimStart(d + [c] + rest));
      |t| > |d| && t[..|d| + 1] == d + [c] && IsDigit(t[0]) && (|t| >= 2 ==> PrefixRadix(t[1]) == 0)
  {
    var s := d + [c] + rest;
    JunkStartsClean(d, c, rest);
    var t := TrimEnd(s);
    JunkKept(s, d, c);
    assert t[0] == d[0];
    assert |t| >= 2 ==> t[1] == c || IsDigit(t[1]);
  }

  lemma JunkStartsClean(d: string, c: char, rest: string)
    requires d != [] && AllDigits(d)
    ensures TrimStart(d + [c] + rest) == d + [c] + rest
  {
    var s := d + [c] + rest;
    assert s[0] == d[0];
    TrimStartAfterSpace([], s);
    assert [] + s == s;
  }

  lemma JunkKept(s: string, d: string, c: char)
    requires |s| > |d| && s[..|d| + 1] == d + [c] && !IsWhiteSpace(c)
    ensures |TrimEnd(s)| > |d| && TrimEnd(s)[..|d| + 1] == d + [c]
  {
    assert s[|d|] == (d + [c])[|d|] == c;
    TrimEndKeeps(s, |d|);
    var t := TrimEnd(s);
    assert t[..|d| + 1] == s[..|d| + 1];
  }

  lemma UnsignedOfJunk(d: string, c: char, t: string)
    requires d != [] && AllDigits(d)
    requires !IsDigit(c) && c != '.' && c != 'e' && c != 'E'
    requires |t| > |d| && t[..|d| + 1] == d + [c]
    ensures UnsignedDecimal(t, false) == NaN
  {
    assert t[0] == d[0];
    NotInfinity(t);
    var after := t[|d|..];
    assert t == d + after;
    assert after[0] == t[|d|] == c;
    LeadingDigitsOf(d, after);
    assert ExponentPart(after) == None;
    assert AfterIntegerDigits(d, after, false) == Scaled(d, [], after, false);
  }

  /** A digit run followed by a character that can neither continue nor end a numeral makes `Number` NaN. */
  lemma NumberOfTrailingJunk(d: string, c: char, rest: string)
    requires d != [] && AllDigits(d)
    requires !IsDigit(c) && !IsWhiteSpace(c) && c != '.' && c != 'e' && c != 'E' && PrefixRadix(c) == 0
    ensures StringToNumber(d + [c] + rest) == NaN
  {
    JunkShape(d, c, rest);
    var t := TrimEnd(TrimStart(d + [c] + rest));
    NumberOfUnsigned(d + [c] + rest, t);
    UnsignedOfJunk(d, c, t);
  }

  /** `parseInt` reads back the numeral `toString` writes, negative integers included. */
  lemma ParseIntOfIntToString(n: int)
    ensures ParseInt(IntToString(n)) == Some(n)
  {
    if n < 0 {
      ParseIntOfNegative(NatToString(-n));
    } else {
      var d := NatToString(n);
      assert [] + d + [] == d;
      ParseIntOfDigits([], d, []);
    }
  }

  /** `parseInt` of a minus sign and a digit run is the negated value of the run. */
  lemma ParseIntOfNegative(d: string)
    requires d != [] && AllDigits(d)
    ensures ParseInt("-" + d) == Some(-(DigitsValue(d) as int))
  {
    var t := "-" + d;
    TrimStartOfSign(t);
    assert t[1..] == d;
    LeadingDigitsOf(d, []);
    assert d + [] == d;
    ParseIntOfSigned(t, d);
  }

  /** A string starting with a minus sign has no white space to trim. */
  lemma TrimStartOfSign(t: string)
    requires t != [] && t[0] == '-'
    ensures TrimStart(t) == t
  {
  }

  /** `parseInt` of an untrimmable minus sign followed by exactly a digit run. */
  lemma ParseIntOfSigned(t: string, d: string)
    requires TrimStart(t) == t && t != [] && t[0] == '-' && t[1..] == d && LeadingDigits(d) == d && d != [] && AllDigits(d)
    ensures ParseInt(t) == Some(-(DigitsValue(d) as int))
  {
  }

  /** Distinct integers have distinct numerals. */
  lemma IntToStringInjective(m: int, n: int)
    requires m != n
    ensures IntToString(m) != IntToString(n)
  {
    ParseIntOfIntToString(m);
    ParseIntOfIntToString(n);
  }
}
