/**
 Bytes, the decimal notation of RESP headers, and the readers of that notation:
 the strict reader of the network parser (string2ll) and the lenient C library
 readers used on the append only file (strtol, atoi).
 */
module Bytes {
  import opened Options

  newtype byte = b: int | 0 <= b < 256
  type ByteString = seq<byte>

  const CR: byte := 13
  const LF: byte := 10
  const MINUS: byte := 45
  const PLUS: byte := 43
  const STAR: byte := 42
  const DOLLAR: byte := 36
  const ZERO: byte := 48
  const CRLF: ByteString := [CR, LF]

  const INT64_MAX: int := 0x7fff_ffff_ffff_ffff
  const INT64_MIN: int := -0x8000_0000_0000_0000

  function Min(a: nat, b: nat): nat { if a < b then a else b }

  predicate IsDigit(b: byte) { 48 <= b <= 57 }

  predicate AllDigits(s: ByteString) { forall i :: 0 <= i < |s| ==> IsDigit(s[i]) }

  /** The decimal form of `n`, as printed by %d and %lu. */
  function Decimal(n: nat): (s: ByteString)
    ensures |s| > 0 && AllDigits(s)
    ensures n > 0 ==> s[0] != ZERO
    ensures n < 10 ==> |s| == 1
  {
    if n < 10 then [(48 + n) as byte] else Decimal(n / 10) + [(48 + n % 10) as byte]
  }

  function SignedDecimal(v: int): ByteString {
    if v < 0 then [MINUS] + Decimal(-v) else Decimal(v)
  }

  /** The number a string of digits denotes. */
  function DigitsValue(s: ByteString): nat
    requires AllDigits(s)
  {
    if s == [] then 0 else 10 * DigitsValue(s[..|s| - 1]) + (s[|s| - 1] as int - 48)
  }

  function Pow10(k: nat): nat { if k == 0 then 1 else 10 * Pow10(k - 1) }

  /** A decimal numeral: digits only, without a superfluous leading zero. */
  predicate IsNumeral(s: ByteString) {
    |s| > 0 && AllDigits(s) && (s[0] != ZERO || |s| == 1)
  }

  lemma {:induction false} ValueOfDecimal(n: nat)
    ensures DigitsValue(Decimal(n)) == n
  {
    if n >= 10 {
      ValueOfDecimal(n / 10);
      assert Decimal(n)[..|Decimal(n)| - 1] == Decimal(n / 10);
    }
  }

  lemma {:induction false} PositiveValue(s: ByteString)
    requires |s| > 0 && AllDigits(s) && s[0] != ZERO
    ensures DigitsValue(s) > 0
  {
    if |s| > 1 {
      PositiveValue(s[..|s| - 1]);
    }
  }

  lemma {:induction false} DecimalOfValue(s: ByteString)
    requires IsNumeral(s)
    ensures Decimal(DigitsValue(s)) == s
  {
    if |s| > 1 {
      var front := s[..|s| - 1];
      DecimalOfValue(front);
      PositiveValue(front);
      assert s == front + [s[|s| - 1]];
    } else {
      assert s[..0] == [];
    }
  }

  lemma {:induction false} DecimalLength(n: nat, k: nat)
    requires k > 0 && n < Pow10(k)
    ensures |Decimal(n)| <= k
  {
    if n >= 10 {
      assert k > 1;
      DecimalLength(n / 10, k - 1);
    }
  }

  /** Advancing a cursor from `i` to `j`. */
  lemma Slices(s: ByteString, i: nat, j: nat)
    requires i <= j <= |s|
    ensures s[i..][..j - i] == s[i..j] && s[i..][j - i..] == s[j..] && s[..i] + s[i..j] == s[..j]
  {
  }

  lemma SliceOfPrefix(s: ByteString, h: nat, i: nat, j: nat)
    requires i <= j <= h <= |s|
    ensures s[..h][i..j] == s[i..j]
  {
  }

  // ---------- the strict reader ----------

  /** string2ll: the whole string must be the canonical form of a 64-bit number. */
  function String2ll(s: ByteString): Option<int> {
    if |s| == 0 then None
    else if s == [ZERO] then Some(0)
    else
      var negative := s[0] == MINUS;
      var digits := if negative then s[1..] else s;
      if |digits| == 0 || digits[0] == ZERO || !AllDigits(digits) then None
      else
        var v: int := DigitsValue(digits);
        if negative then if -v < INT64_MIN then None else Some(-v)
        else if v > INT64_MAX then None else Some(v)
  }

  lemma String2llReads(v: int)
    requires INT64_MIN <= v <= INT64_MAX
    ensures String2ll(SignedDecimal(v)) == Some(v)
  {
    var s := SignedDecimal(v);
    if v < 0 {
      ValueOfDecimal(-v);
      assert s[1..] == Decimal(-v);
    } else {
      ValueOfDecimal(v);
      assert s[0] != MINUS;
      assert v == 0 ==> s == [ZERO];
    }
  }

  lemma String2llNatural(n: nat)
    requires n <= INT64_MAX
    ensures String2ll(Decimal(n)) == Some(n)
  {
    String2llReads(n);
  }

  lemma NumeralIsDecimal(digits: ByteString)
    requires |digits| > 0 && AllDigits(digits) && digits[0] != ZERO
    ensures DigitsValue(digits) > 0 && Decimal(DigitsValue(digits)) == digits
  {
    DecimalOfValue(digits);
    PositiveValue(digits);
  }

  lemma String2llCanonical(s: ByteString, v: int)
    requires String2ll(s) == Some(v)
    ensures INT64_MIN <= v <= INT64_MAX && s == SignedDecimal(v)
  {
    if s == [ZERO] {
      assert Decimal(0) == [ZERO];
    } else if s[0] == MINUS {
      NumeralIsDecimal(s[1..]);
      assert -v == DigitsValue(s[1..]);
      assert s == [MINUS] + s[1..];
    } else {
      NumeralIsDecimal(s);
    }
  }

  /** The strict reader accepts exactly the canonical forms of 64-bit numbers. */
  lemma String2llExact(s: ByteString, v: int)
    ensures String2ll(s) == Some(v) <==> INT64_MIN <= v <= INT64_MAX && s == SignedDecimal(v)
  {
    if String2ll(s) == Some(v) {
      String2llCanonical(s, v);
    } else if INT64_MIN <= v <= INT64_MAX {
      String2llReads(v);
    }
  }

  // ---------- the lenient readers ----------

  predicate IsSpace(b: byte) { b == 32 || 9 <= b <= 13 }

  function SkipSpaces(s: ByteString): ByteString {
    if s != [] && IsSpace(s[0]) then SkipSpaces(s[1..]) else s
  }

  /** The longest run of digits at the front. */
  function DigitRun(s: ByteString): (r: ByteString)
    ensures AllDigits(r) && |r| <= |s|
  {
    if s != [] && IsDigit(s[0]) then [s[0]] + DigitRun(s[1..]) else []
  }

  /** strtol in base 10 on a 64-bit long: blanks, an optional sign, digits, saturation. */
  function StrTol(s: ByteString): (v: int)
    ensures INT64_MIN <= v <= INT64_MAX
  {
    var t := SkipSpaces(s);
    var negative := t != [] && t[0] == MINUS;
    var u := if t != [] && (t[0] == MINUS || t[0] == PLUS) then t[1..] else t;
    var v: int := DigitsValue(DigitRun(u));
    if negative then if -v < INT64_MIN then INT64_MIN else -v
    else if v > INT64_MAX then INT64_MAX else v
  }

  /** atoi: strtol narrowed to a 32-bit int. */
  function Atoi(s: ByteString): int {
    var v := StrTol(s) % 0x1_0000_0000;
    if v >= 0x8000_0000 then v - 0x1_0000_0000 else v
  }

  /** A long stored in an unsigned long. */
  function ToUnsigned(v: int): nat
    requires INT64_MIN <= v <= INT64_MAX
  {
    if v < 0 then v + 0x1_0000_0000_0000_0000 else v
  }

  lemma {:induction false} DigitRunOf(digits: ByteString, rest: ByteString)
    requires AllDigits(digits) && (rest == [] || !IsDigit(rest[0]))
    ensures DigitRun(digits + rest) == digits
  {
    if digits == [] {
      assert digits + rest == rest;
    } else {
      DigitRunOf(digits[1..], rest);
      assert (digits + rest)[1..] == digits[1..] + rest;
      assert digits == [digits[0]] + digits[1..];
    }
  }

  /** On digits followed by anything else strtol reads the digits. */
  lemma StrTolReads(digits: ByteString, rest: ByteString)
    requires digits != [] && AllDigits(digits) && (rest == [] || !IsDigit(rest[0]))
    requires DigitsValue(digits) <= INT64_MAX
    ensures StrTol(digits + rest) == DigitsValue(digits)
  {
    DigitRunOf(digits, rest);
    assert SkipSpaces(digits + rest) == digits + rest;
  }

  /** A numeral cut short reads as a smaller number, but not as zero. */
  lemma {:induction false} CutNumeral(s: ByteString, k: nat)
    requires |s| > 0 && AllDigits(s) && s[0] != ZERO && 0 < k <= |s|
    ensures 0 < DigitsValue(s[..k]) <= DigitsValue(s)
    decreases |s|
  {
    PositiveValue(s[..k]);
    if k < |s| {
      CutNumeral(s[..|s| - 1], k);
      assert s[..|s| - 1][..k] == s[..k];
    } else {
      assert s[..k] == s;
    }
  }
}
