/**
 * Scaled-decimal amounts: a decimal string read as an integer count of 10^-8 units
 * (`decimalStringToBigInt`, string branch), and the 8-digit decimal rendering that the
 * tables store amounts in.
 */
module ScaledDecimal {
  import opened Wrappers

  /** USDT_SCALE: units of 10^-8 in one token. */
  const SCALE: nat := 100000000
  /** Number of fractional digits kept exactly. */
  const KEPT_DIGITS: nat := 8

  function Pow10(n: nat): (r: nat)
    ensures r >= 1
  {
    if n == 0 then 1 else 10 * Pow10(n - 1)
  }

  predicate IsDigit(c: char) {
    '0' <= c <= '9'
  }

  predicate AllDigits(s: string) {
    forall i :: 0 <= i < |s| ==> IsDigit(s[i])
  }

  function DigitValue(c: char): (d: nat)
    requires IsDigit(c)
    ensures d < 10
  {
    (c as int) - ('0' as int)
  }

  function DigitChar(d: nat): (c: char)
    requires d < 10
    ensures IsDigit(c) && DigitValue(c) == d
  {
    (('0' as int) + d) as char
  }

  /** The number a digit string denotes in base ten; the empty string denotes 0. */
  function DigitsValue(s: string): nat
    requires AllDigits(s)
  {
    if s == [] then 0 else DigitsValue(s[..|s| - 1]) * 10 + DigitValue(s[|s| - 1])
  }

  /** `n` copies of the digit `d`. */
  function Repeat(d: char, n: nat): (z: string)
    requires IsDigit(d)
    ensures |z| == n && AllDigits(z)
  {
    seq(n, _ => d)
  }

  /** `s.padEnd(n, '0')`. */
  function PadEnd(s: string, n: nat): (p: string)
    ensures |p| == if |s| < n then n else |s|
  {
    if |s| < n then s + Repeat('0', n - |s|) else s
  }

  /** `s.padStart(n, '0')`. */
  function PadStart(s: string, n: nat): (p: string)
    ensures |p| == if |s| < n then n else |s|
  {
    if |s| < n then Repeat('0', n - |s|) + s else s
  }

  /** Index of the first `c` in `s`, or `|s|` when there is none. */
  function IndexOf(s: string, c: char): (i: nat)
    ensures i <= |s|
    ensures i < |s| ==> s[i] == c
    ensures forall j :: 0 <= j < i ==> s[j] != c
  {
    if s == [] then 0 else if s[0] == c then 0 else 1 + IndexOf(s[1..], c)
  }

  /** First element of `s.split('.')`. */
  function IntegerPart(s: string): string {
    s[..IndexOf(s, '.')]
  }

  /** Second element of `s.split('.')`, or "" when there is no dot; text after a second dot is dropped. */
  function FractionPart(s: string): string {
    var dot := IndexOf(s, '.');
    var rest := if dot < |s| then s[dot + 1..] else [];
    rest[..IndexOf(rest, '.')]
  }

  /**
   * The carry step of the rounding branch: `fraction` (below SCALE) is bumped by one when
   * `roundUp`, and a fraction that reaches SCALE turns into one more integer unit.
   */
  function RoundParts(integer: nat, fraction: nat, roundUp: bool): (r: (nat, nat))
    requires fraction < SCALE
    ensures r.1 < SCALE
    ensures r.0 * SCALE + r.1 == integer * SCALE + fraction + (if roundUp then 1 else 0)
  {
    if roundUp then
      if fraction + 1 >= SCALE then (integer + 1, 0) else (integer, fraction + 1)
    else
      (integer, fraction)
  }

  function Negate(r: Option<int>): Option<int> {
    match r
    case None => None
    case Some(m) => Some(-m)
  }

  /**
   * The magnitude read from the two parts of `absStr.split('.')`. None means a part is not
   * a plain digit string; that covers every string `BigInt` throws on, and also the signed,
   * space-padded and prefixed parts it would accept. With at most 8 fractional
   * digits the parse is exact; with more, the 9th digit rounds half-up (a non-digit 9th
   * character reads as NaN and never rounds) and everything after it is ignored.
   */
  function ParseParts(intPart: string, decPart: string): Option<int> {
    if !AllDigits(intPart) then None
    else if |decPart| <= KEPT_DIGITS then
      if !AllDigits(decPart) then None else Some(ExactValue(intPart, decPart))
    else if !AllDigits(decPart[..KEPT_DIGITS]) then None
    else Some(RoundedValue(intPart, decPart))
  }

  /** `BigInt(intPart) * SCALE + BigInt(decPart.padEnd(8, '0'))`. */
  function ExactValue(intPart: string, decPart: string): nat
    requires AllDigits(intPart) && AllDigits(decPart) && |decPart| <= KEPT_DIGITS
  {
    DigitsValue(intPart) * SCALE + DigitsValue(PadEnd(decPart, KEPT_DIGITS))
  }

  /** The rounding branch: eight kept digits, bumped when the ninth is 5..9, with the carry. */
  function RoundedValue(intPart: string, decPart: string): nat
    requires AllDigits(intPart) && |decPart| > KEPT_DIGITS && AllDigits(decPart[..KEPT_DIGITS])
  {
    var first8 := decPart[..KEPT_DIGITS];
    DigitsValueBound(first8);
    var roundUp := IsDigit(decPart[KEPT_DIGITS]) && DigitValue(decPart[KEPT_DIGITS]) >= 5;
    var parts := RoundParts(DigitsValue(intPart), DigitsValue(first8), roundUp);
    parts.0 * SCALE + parts.1
  }

  /** `decimalStringToBigInt` on a string: strip one leading '-', split at '.', negate at the end. */
  function Parse(s: string): Option<int> {
    var negative := |s| > 0 && s[0] == '-';
    var abs := if negative then s[1..] else s;
    var magnitude := ParseParts(IntegerPart(abs), FractionPart(abs));
    if negative then Negate(magnitude) else magnitude
  }

  // ---------------------------------------------------------------- digit-string arithmetic

  lemma {:induction false} DigitsValueBound(s: string)
    requires AllDigits(s)
    ensures DigitsValue(s) < Pow10(|s|)
  {
    if s != [] {
      DigitsValueBound(s[..|s| - 1]);
    }
  }

  lemma {:induction false} DigitsValueAppend(a: string, b: string)
    requires AllDigits(a) && AllDigits(b)
    ensures AllDigits(a + b)
    ensures DigitsValue(a + b) == DigitsValue(a) * Pow10(|b|) + DigitsValue(b)
  {
    if b == [] {
      assert a + b == a;
    } else {
      var b', c := b[..|b| - 1], b[|b| - 1];
      assert b == b' + [c];
      assert a + b == (a + b') + [c];
      DigitsValueAppend(a, b');
      DigitsValueSnoc(a + b', c);
      DigitsValueSnoc(b', c);
      ShiftDigit(DigitsValue(a), DigitsValue(b'), Pow10(|b'|), DigitValue(c));
    }
  }

  /** Appending one digit multiplies the value by ten and adds the digit. */
  lemma DigitsValueSnoc(s: string, c: char)
    requires AllDigits(s) && IsDigit(c)
    ensures AllDigits(s + [c])
    ensures DigitsValue(s + [c]) == DigitsValue(s) * 10 + DigitValue(c)
  {
    assert (s + [c])[..|s|] == s;
  }

  lemma ShiftDigit(a: int, b: int, p: int, d: int)
    ensures (a * p + b) * 10 + d == a * (10 * p) + (b * 10 + d)
  {
  }

  lemma {:induction false} ZerosValue(n: nat)
    ensures DigitsValue(Repeat('0', n)) == 0
  {
    if n > 0 {
      assert Repeat('0', n)[..n - 1] == Repeat('0', n - 1);
      ZerosValue(n - 1);
    }
  }

  /** Right-padding with zeros multiplies the value by a power of ten. */
  lemma PadEndValue(s: string, n: nat)
    requires AllDigits(s) && |s| <= n
    ensures AllDigits(PadEnd(s, n))
    ensures DigitsValue(PadEnd(s, n)) == DigitsValue(s) * Pow10(n - |s|)
  {
    if |s| < n {
      DigitsValueAppend(s, Repeat('0', n - |s|));
      ZerosValue(n - |s|);
    }
  }

  /** Left-padding with zeros leaves the value unchanged. */
  lemma PadStartValue(s: string, n: nat)
    requires AllDigits(s)
    ensures AllDigits(PadStart(s, n))
    ensures DigitsValue(PadStart(s, n)) == DigitsValue(s)
  {
    if |s| < n {
      DigitsValueAppend(Repeat('0', n - |s|), s);
      ZerosValue(n - |s|);
    }
  }

  lemma {:induction false} DigitsHaveNoDot(s: string)
    requires AllDigits(s)
    ensures IndexOf(s, '.') == |s|
  {
    if s != [] {
      DigitsHaveNoDot(s[1..]);
    }
  }

  /** `ip + "." + fr` splits at its dot into `ip` and `fr` when neither holds a dot. */
  lemma SplitAtDot(ip: string, fr: string)
    requires AllDigits(ip) && AllDigits(fr)
    ensures IntegerPart(ip + "." + fr) == ip
    ensures FractionPart(ip + "." + fr) == fr
  {
    var s := ip + "." + fr;
    assert s == ip + ("." + fr);
    IndexOfPrefix(ip, "." + fr);
    assert s[|ip| + 1..] == fr;
    assert s[..|ip|] == ip;
    DigitsHaveNoDot(fr);
  }

  lemma {:induction false} IndexOfPrefix(a: string, b: string)
    requires AllDigits(a) && b != [] && b[0] == '.'
    ensures IndexOf(a + b, '.') == |a|
  {
    if a != [] {
      assert (a + b)[1..] == a[1..] + b;
      IndexOfPrefix(a[1..], b);
    }
  }

  // ---------------------------------------------------------------- properties of Parse

  /** Without a leading minus sign, Parse is the magnitude of the split parts. */
  lemma ParseUnsigned(s: string)
    requires s == [] || s[0] != '-'
    ensures Parse(s) == ParseParts(IntegerPart(s), FractionPart(s))
  {
  }

  /** A digit string with no fraction reads as its value times 10^8. */
  lemma ParseInteger(ip: string)
    requires AllDigits(ip)
    ensures Parse(ip) == Some(DigitsValue(ip) * SCALE)
  {
    DigitsHaveNoDot(ip);
    ParseUnsigned(ip);
    assert IntegerPart(ip) == ip;
    assert FractionPart(ip) == [];
    NoFraction(ip);
  }

  lemma NoFraction(ip: string)
    requires AllDigits(ip)
    ensures ParseParts(ip, []) == Some(DigitsValue(ip) * SCALE)
  {
    assert PadEnd([], KEPT_DIGITS) == Repeat('0', KEPT_DIGITS);
    ZerosValue(KEPT_DIGITS);
  }

  lemma ExactParts(ip: string, fr: string)
    requires AllDigits(ip) && AllDigits(fr) && |fr| <= KEPT_DIGITS
    ensures ParseParts(ip, fr) == Some(DigitsValue(ip) * SCALE + DigitsValue(fr) * Pow10(KEPT_DIGITS - |fr|))
  {
    assert ParseParts(ip, fr) == Some(ExactValue(ip, fr));
    assert ExactValue(ip, fr) == DigitsValue(ip) * SCALE + DigitsValue(fr) * Pow10(KEPT_DIGITS - |fr|) by {
      PadEndValue(fr, KEPT_DIGITS);
    }
  }

  lemma RoundedParts(ip: string, fr: string)
    requires AllDigits(ip) && AllDigits(fr) && |fr| > KEPT_DIGITS
    ensures ParseParts(ip, fr) ==
      Some(DigitsValue(ip) * SCALE + DigitsValue(fr[..KEPT_DIGITS]) + (if fr[KEPT_DIGITS] >= '5' then 1 else 0))
  {
    DigitsValueBound(fr[..KEPT_DIGITS]);
  }

  /**
   * With at most eight fractional digits the parse is exact: the integer part times 10^8 plus
   * the fraction right-padded with zeros. An empty integer part counts as 0.
   */
  lemma ParseExact(ip: string, fr: string)
    requires AllDigits(ip) && AllDigits(fr) && |fr| <= KEPT_DIGITS
    ensures Parse(ip + "." + fr) == Some(DigitsValue(ip) * SCALE + DigitsValue(fr) * Pow10(KEPT_DIGITS - |fr|))
  {
    ParseUnsigned(ip + "." + fr);
    SplitAtDot(ip, fr);
    ExactParts(ip, fr);
  }

  /**
   * With more than eight fractional digits the result is the first eight digits plus one
   * exactly when the ninth digit is at least 5; later digits play no part. A fraction that
   * reaches 10^8 carries into the integer part, so the sum below is the whole story.
   */
  lemma ParseRounded(ip: string, fr: string)
    requires AllDigits(ip) && AllDigits(fr) && |fr| > KEPT_DIGITS
    ensures Parse(ip + "." + fr) ==
      Some(DigitsValue(ip) * SCALE + DigitsValue(fr[..KEPT_DIGITS]) + (if fr[KEPT_DIGITS] >= '5' then 1 else 0))
  {
    ParseUnsigned(ip + "." + fr);
    SplitAtDot(ip, fr);
    RoundedParts(ip, fr);
  }

  /**
   * The carry: a fraction whose first eight digits are all 9 and whose ninth digit is at
   * least 5 rounds up to the next whole token (0.999999995 reads as exactly 1).
   */
  lemma ParseCarry(ip: string, fr: string)
    requires AllDigits(ip) && AllDigits(fr) && |fr| > KEPT_DIGITS
    requires fr[..KEPT_DIGITS] == Repeat('9', KEPT_DIGITS) && fr[KEPT_DIGITS] >= '5'
    ensures Parse(ip + "." + fr) == Some((DigitsValue(ip) + 1) * SCALE)
  {
    ParseUnsigned(ip + "." + fr);
    SplitAtDot(ip, fr);
    CarryParts(ip, fr);
  }

  lemma CarryParts(ip: string, fr: string)
    requires AllDigits(ip) && AllDigits(fr) && |fr| > KEPT_DIGITS
    requires fr[..KEPT_DIGITS] == Repeat('9', KEPT_DIGITS) && fr[KEPT_DIGITS] >= '5'
    ensures ParseParts(ip, fr) == Some((DigitsValue(ip) + 1) * SCALE)
  {
    RoundedParts(ip, fr);
    NinesValue(KEPT_DIGITS);
    assert DigitsValue(fr[..KEPT_DIGITS]) + 1 == SCALE;
  }

  lemma {:induction false} NinesValue(n: nat)
    ensures DigitsValue(Repeat('9', n)) == Pow10(n) - 1
  {
    if n > 0 {
      assert Repeat('9', n)[..n - 1] == Repeat('9', n - 1);
      NinesValue(n - 1);
    }
  }

  /** A leading minus sign negates the magnitude, error or not. */
  lemma ParseNegated(s: string)
    requires s == [] || s[0] != '-'
    ensures Parse("-" + s) == Negate(Parse(s))
  {
    assert ("-" + s)[1..] == s;
  }

  /** A non-digit character in the integer part makes BigInt throw. */
  lemma ParseRejectsBadInteger(ip: string, fr: string)
    requires AllDigits(fr) && !AllDigits(ip) && IndexOf(ip, '.') == |ip|
    requires ip == [] || ip[0] != '-'
    ensures Parse(ip + "." + fr) == None
  {
    var rest := "." + fr;
    assert ip + "." + fr == ip + rest;
    IntegerPartOfPrefix(ip, rest);
    assert (ip + rest)[0] == ip[0];
    UnsignedBadInteger(ip + rest);
  }

  lemma IntegerPartOfPrefix(a: string, b: string)
    requires IndexOf(a, '.') == |a| && b != [] && b[0] == '.'
    ensures IntegerPart(a + b) == a
  {
    IndexOfNoDotPrefix(a, b);
    assert (a + b)[..|a|] == a;
  }

  lemma UnsignedBadInteger(s: string)
    requires s != [] && s[0] != '-' && !AllDigits(IntegerPart(s))
    ensures Parse(s) == None
  {
  }

  lemma {:induction false} IndexOfNoDotPrefix(a: string, b: string)
    requires IndexOf(a, '.') == |a| && b != [] && b[0] == '.'
    ensures IndexOf(a + b, '.') == |a|
  {
    if a != [] {
      assert (a + b)[1..] == a[1..] + b;
      IndexOfNoDotPrefix(a[1..], b);
    }
  }

  // ---------------------------------------------------------------- rendering

  /** `BigInt.prototype.toString()` for a non-negative value: decimal, no leading zeros. */
  function NatToString(n: nat): (s: string)
    ensures AllDigits(s) && |s| >= 1
  {
    if n < 10 then [DigitChar(n)] else NatToString(n / 10) + [DigitChar(n % 10)]
  }

  lemma {:induction false} NatToStringValue(n: nat)
    ensures DigitsValue(NatToString(n)) == n
  {
    if n >= 10 {
      var s := NatToString(n);
      assert s[..|s| - 1] == NatToString(n / 10);
      NatToStringValue(n / 10);
    }
  }

  lemma {:induction false} NatToStringLength(n: nat, k: nat)
    requires k >= 1 && n < Pow10(k)
    ensures |NatToString(n)| <= k
  {
    if n >= 10 {
      assert k >= 2;
      NatToStringLength(n / 10, k - 1);
    }
  }

  /**
   * A non-negative amount rendered as the tables store it (8 fractional digits, the form
   * `formatUsdtForStorage` writes): integer part, a dot and exactly eight digits.
   */
  function Format8(m: nat): string {
    NatToString(m / SCALE) + "." + PadStart(NatToString(m % SCALE), KEPT_DIGITS)
  }

  /** Reading back a rendered amount gives the amount: the stored form loses nothing. */
  lemma ParseFormat8(m: nat)
    ensures Parse(Format8(m)) == Some(m)
  {
    var ip := NatToString(m / SCALE);
    var fr := PadStart(NatToString(m % SCALE), KEPT_DIGITS);
    var s := Format8(m);
    assert s == ip + "." + fr;
    FormatPieces(m);
    ParseEightDigits(ip, fr);
  }

  lemma ParseEightDigits(ip: string, fr: string)
    requires AllDigits(ip) && AllDigits(fr) && |fr| == KEPT_DIGITS
    ensures Parse(ip + "." + fr) == Some(DigitsValue(ip) * SCALE + DigitsValue(fr))
  {
    ParseUnsigned(ip + "." + fr);
    SplitAtDot(ip, fr);
    EightDigitParts(ip, fr);
  }

  lemma EightDigitParts(ip: string, fr: string)
    requires AllDigits(ip) && AllDigits(fr) && |fr| == KEPT_DIGITS
    ensures ParseParts(ip, fr) == Some(DigitsValue(ip) * SCALE + DigitsValue(fr))
  {
    assert PadEnd(fr, KEPT_DIGITS) == fr;
  }

  lemma FormatPieces(m: nat)
    ensures AllDigits(NatToString(m / SCALE))
    ensures AllDigits(PadStart(NatToString(m % SCALE), KEPT_DIGITS))
    ensures |PadStart(NatToString(m % SCALE), KEPT_DIGITS)| == KEPT_DIGITS
    ensures DigitsValue(NatToString(m / SCALE)) * SCALE + DigitsValue(PadStart(NatToString(m % SCALE), KEPT_DIGITS)) == m
  {
    NatToStringLength(m % SCALE, KEPT_DIGITS);
    PadStartValue(NatToString(m % SCALE), KEPT_DIGITS);
    NatToStringValue(m / SCALE);
    NatToStringValue(m % SCALE);
  }

  /** Two amounts are equal exactly when their stored renderings are. */
  lemma Format8Injective(a: nat, b: nat)
    ensures Format8(a) == Format8(b) <==> a == b
  {
    ParseFormat8(a);
    ParseFormat8(b);
  }
}
