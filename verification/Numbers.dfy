/**
 * Decimal and hexadecimal numbers as text: `strconv.ParseInt` and the formatting verbs.
 *
 * Parsing accepts an optional sign and at least one digit, in either case for hexadecimal, and
 * refuses what does not fit 64 bits. Formatting writes lowercase digits without leading zeros, and
 * parsing undoes it for every number that fits.
 */
module Numbers {
  datatype Parsed = NotANumber | Number(n: int)

  const MaxInt64 := 0x7fff_ffff_ffff_ffff

  /** The value of a digit in bases up to 16, either case; -1 when it is none. */
  function DigitValue(c: char): int {
    if '0' <= c <= '9' then c as int - '0' as int
    else if 'a' <= c <= 'f' then c as int - 'a' as int + 10
    else if 'A' <= c <= 'F' then c as int - 'A' as int + 10
    else -1
  }

  predicate IsDigit(c: char, base: int) {
    0 <= DigitValue(c) < base
  }

  predicate AllDigits(s: string, base: int) {
    forall i :: 0 <= i < |s| ==> IsDigit(s[i], base)
  }

  /** The number a digit string denotes. */
  function Magnitude(s: string, base: int): int
    requires AllDigits(s, base)
  {
    if s == "" then 0 else base * Magnitude(s[..|s| - 1], base) + DigitValue(s[|s| - 1])
  }

  function Signed(neg: bool, digits: string, base: int): Parsed {
    if digits == "" || !AllDigits(digits, base) then NotANumber
    else
      var n := if neg then -Magnitude(digits, base) else Magnitude(digits, base);
      if -MaxInt64 - 1 <= n <= MaxInt64 then Number(n) else NotANumber
  }

  /** `strconv.ParseInt(s, base, 64)`: an optional sign, at least one digit, and a 64-bit range. */
  function ParseInt(s: string, base: int): Parsed {
    if s == "" then NotANumber
    else if s[0] == '+' then Signed(false, s[1..], base)
    else if s[0] == '-' then Signed(true, s[1..], base)
    else Signed(false, s, base)
  }

  function DigitChar(n: int): (c: char)
    requires 0 <= n < 16
    ensures DigitValue(c) == n
  {
    if n < 10 then ('0' as int + n) as char else ('a' as int + n - 10) as char
  }

  /** `%d` for base 10 and `%x` for base 16. */
  function Format(n: nat, base: int): string
    requires 2 <= base <= 16
  {
    if n < base then [DigitChar(n)] else Format(n / base, base) + [DigitChar(n % base)]
  }

  lemma OneMoreDigit(s: string, c: char, base: int)
    requires AllDigits(s, base) && IsDigit(c, base)
    ensures AllDigits(s + [c], base) && Magnitude(s + [c], base) == base * Magnitude(s, base) + DigitValue(c)
  {
    assert (s + [c])[..|s|] == s;
  }

  lemma {:induction false} FormatDigits(n: nat, base: int)
    requires 2 <= base <= 16
    ensures Format(n, base) != "" && AllDigits(Format(n, base), base) && Magnitude(Format(n, base), base) == n
    decreases n
  {
    hide Magnitude, DigitValue;
    if n < base {
      OneDigit(DigitChar(n), base);
    } else {
      Division(n, base);
      FormatDigits(n / base, base);
      OneMoreDigit(Format(n / base, base), DigitChar(n % base), base);
    }
  }

  lemma OneDigit(c: char, base: int)
    requires IsDigit(c, base)
    ensures AllDigits([c], base) && Magnitude([c], base) == DigitValue(c)
  {
    assert [c][..0] == "";
  }

  lemma Division(n: nat, base: int)
    requires 2 <= base <= n
    ensures base * (n / base) + n % base == n && 0 <= n / base < n && 0 <= n % base < base
  {
    assert n == base * (n / base) + n % base;
  }

  /** Parsing undoes formatting for every number that fits 64 bits, and refuses every other. */
  lemma ParseFormat(n: nat, base: int)
    requires 2 <= base <= 16
    ensures ParseInt(Format(n, base), base) == if n <= MaxInt64 then Number(n) else NotANumber
    ensures forall c :: c in Format(n, base) ==> IsDigit(c, 16)
  {
    FormatDigits(n, base);
    var s := Format(n, base);
    assert IsDigit(s[0], base);
    forall c | c in s
      ensures IsDigit(c, 16)
    {
      var i :| 0 <= i < |s| && s[i] == c;
      assert IsDigit(s[i], base);
    }
  }

  /** Digits are the ten figures, and for hexadecimal the letters a to f in either case. */
  lemma DigitMeaning(c: char)
    ensures IsDigit(c, 10) <==> '0' <= c <= '9'
    ensures IsDigit(c, 16) <==> '0' <= c <= '9' || 'a' <= c <= 'f' || 'A' <= c <= 'F'
    ensures '0' <= c <= '9' ==> DigitValue(c) == c as int - 48
    ensures 'a' <= c <= 'f' ==> DigitValue(c) == c as int - 87
    ensures 'A' <= c <= 'F' ==> DigitValue(c) == c as int - 55
  {
  }

  /** Zeros in front of the digits change nothing. */
  lemma ParsePadded(n: nat, zeros: string, base: int)
    requires 2 <= base <= 16 && forall i :: 0 <= i < |zeros| ==> zeros[i] == '0'
    ensures forall neg :: Signed(neg, zeros + Format(n, base), base) == Bounded(if neg then 0 - n else n)
    ensures ParseInt(zeros + Format(n, base), base) == Bounded(n)
  {
    FormatDigits(n, base);
    ZerosInFront(zeros, Format(n, base), base);
    var s := zeros + Format(n, base);
    assert IsDigit(s[0], base);
  }

  /** What a number in text is read as: itself, if it fits 64 bits. */
  function Bounded(n: int): Parsed {
    if -MaxInt64 - 1 <= n <= MaxInt64 then Number(n) else NotANumber
  }

  /** A sign may stand before the digits. */
  lemma ParseSigned(n: nat, zeros: string, base: int)
    requires 2 <= base <= 16 && forall i :: 0 <= i < |zeros| ==> zeros[i] == '0'
    ensures ParseInt("+" + zeros + Format(n, base), base) == Bounded(n)
    ensures ParseInt("-" + zeros + Format(n, base), base) == Bounded(0 - n)
  {
    hide Signed, Format, Bounded;
    ParsePadded(n, zeros, base);
    var s := zeros + Format(n, base);
    assert ("+" + zeros + Format(n, base))[1..] == s && ("-" + zeros + Format(n, base))[1..] == s;
    assert Signed(false, s, base) == Bounded(n) && Signed(true, s, base) == Bounded(0 - n);
  }

  lemma {:induction false} ZerosInFront(zeros: string, s: string, base: int)
    requires base >= 2 && AllDigits(s, base) && forall i :: 0 <= i < |zeros| ==> zeros[i] == '0'
    ensures AllDigits(zeros + s, base) && Magnitude(zeros + s, base) == Magnitude(s, base)
    decreases |s| + |zeros|
  {
    var t := zeros + s;
    if s != "" {
      var n := |s| - 1;
      ZerosInFront(zeros, s[..n], base);
      assert t[..|t| - 1] == zeros + s[..n];
    } else if zeros != "" {
      var n := |zeros| - 1;
      ZerosInFront(zeros[..n], s, base);
      assert t[..|t| - 1] == zeros[..n] + s;
    }
  }

  /** Whatever parses is an optional sign and at least one digit. */
  lemma ParsesOnly(s: string, base: int)
    ensures ParseInt(s, base).Number? ==>
              && s != "" && (s[0] in {'+', '-'} ==> |s| > 1)
              && forall i :: 0 <= i < |s| && !(i == 0 && s[0] in {'+', '-'}) ==> IsDigit(s[i], base)
    ensures ParseInt(s, base).Number? ==> -MaxInt64 - 1 <= ParseInt(s, base).n <= MaxInt64
  {
    if ParseInt(s, base).Number? && s[0] in {'+', '-'} {
      assert forall i :: 1 <= i < |s| ==> s[i] == s[1..][i - 1];
    }
  }
}
