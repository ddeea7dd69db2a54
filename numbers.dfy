/**
 * The decimal text the editor reads and writes: the numbers of the status line
 * ("Ln 3, Col 1", Kotlin's string templates on `Int`) and the number typed into the go-to-line
 * dialog, read with Kotlin's `String.toIntOrNull()`.
 */
module Numbers {
  import opened Wrappers

  /** The range of Kotlin's `Int`. */
  const IntMin: int := -0x8000_0000
  const IntMax: int := 0x7fff_ffff

  predicate IsDigit(c: char)
  {
    '0' <= c <= '9'
  }

  predicate AllDigits(s: string)
  {
    forall i :: 0 <= i < |s| ==> IsDigit(s[i])
  }

  function DigitValue(c: char): (d: nat)
    requires IsDigit(c)
    ensures d < 10
  {
    c as int - '0' as int
  }

  function DigitChar(d: nat): (c: char)
    requires d < 10
    ensures IsDigit(c) && DigitValue(c) == d
  {
    ('0' as int + d) as char
  }

  /** The value of a string of decimal digits, most significant first ("" is 0). */
  function DigitsValue(s: string): nat
    requires AllDigits(s)
  {
    if s == [] then 0 else DigitsValue(s[..|s| - 1]) * 10 + DigitValue(s[|s| - 1])
  }

  /** The decimal text of a natural number: digits only, no leading zero. */
  function Decimal(n: nat): (s: string)
    ensures |s| >= 1 && AllDigits(s)
    ensures |s| > 1 ==> s[0] != '0'
  {
    if n < 10 then [DigitChar(n)] else Decimal(n / 10) + [DigitChar(n % 10)]
  }

  /** Reading the decimal text back gives the number. */
  lemma {:induction false} DecimalValue(n: nat)
    ensures DigitsValue(Decimal(n)) == n
  {
    if n >= 10 {
      var s := Decimal(n);
      assert s[..|s| - 1] == Decimal(n / 10);
      DecimalValue(n / 10);
    }
  }

  /** The digits `toIntOrNull` reads: everything after a leading sign character, if any. */
  function Unsigned(s: string): string
    requires |s| >= 1
  {
    if s[0] == '-' || s[0] == '+' then s[1..] else s
  }

  /** An optional leading '-' or '+' followed by at least one digit. */
  predicate WellFormedInt(s: string)
  {
    |s| >= 1 && |Unsigned(s)| >= 1 && AllDigits(Unsigned(s))
  }

  /** The value of well-formed text: its digits' value, negated after a leading '-'. */
  function SignedValue(s: string): int
    requires WellFormedInt(s)
  {
    if s[0] == '-' then -(DigitsValue(Unsigned(s)) as int) else DigitsValue(Unsigned(s))
  }

  /** A magnitude of the given sign, if the result fits in `Int`. */
  function InIntRange(v: int): (r: Option<int>)
    ensures r.Some? <==> IntMin <= v <= IntMax
    ensures r.Some? ==> r.value == v
  {
    if IntMin <= v <= IntMax then Some(v) else None
  }

  /**
   * Kotlin's `String.toIntOrNull()` (radix 10): an optional leading '-' or '+' followed by at
   * least one digit, whose value must fit in `Int`; anything else is None. A first character
   * below '0' other than a sign, a lone sign, or the empty text give None.
   */
  function ParseInt(s: string): (r: Option<int>)
    ensures r.Some? <==> WellFormedInt(s) && IntMin <= SignedValue(s) <= IntMax
    ensures r.Some? ==> r.value == SignedValue(s)
  {
    if |s| == 0 then None
    else if s[0] < '0' then
      if |s| == 1 then None
      else if s[0] == '-' && AllDigits(s[1..]) then InIntRange(-(DigitsValue(s[1..]) as int))
      else if s[0] == '+' && AllDigits(s[1..]) then InIntRange(DigitsValue(s[1..]))
      else None
    else if AllDigits(s) then InIntRange(DigitsValue(s))
    else None
  }

  /** Reading back what the status line prints: every non-negative `Int` round-trips. */
  lemma ParseDecimal(n: nat)
    requires n <= IntMax
    ensures ParseInt(Decimal(n)) == Some(n)
  {
    DecimalValue(n);
  }

  /** Signed text round-trips too, down to `Int.MIN_VALUE`. */
  lemma ParseSignedDecimal(n: nat)
    requires n <= -IntMin
    ensures ParseInt("-" + Decimal(n)) == Some(-(n as int))
    ensures n <= IntMax ==> ParseInt("+" + Decimal(n)) == Some(n)
  {
    DecimalValue(n);
    assert ("-" + Decimal(n))[1..] == Decimal(n);
    assert ("+" + Decimal(n))[1..] == Decimal(n);
  }

  /** Text with a character that is neither a digit nor a leading sign is rejected. */
  lemma ParseRejectsNonDigit(s: string, i: nat)
    requires i < |s| && !IsDigit(s[i]) && !(i == 0 && (s[i] == '-' || s[i] == '+'))
    ensures ParseInt(s) == None
  {
  }
}
