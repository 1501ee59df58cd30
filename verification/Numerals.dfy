/** Numerals as Rust prints them, and reads them with signs, leading zeros and in either case. */
module Numerals {
  import opened Wrappers

  const U64_MAX: nat := 0xFFFF_FFFF_FFFF_FFFF
  const I64_MAX: nat := 0x7FFF_FFFF_FFFF_FFFF

  function DigitValue(c: char): (r: Option<nat>)
    ensures r.Some? ==> r.value < 16
  {
    if '0' <= c <= '9' then Some(c as int - '0' as int)
    else if 'a' <= c <= 'f' then Some(10 + (c as int - 'a' as int))
    else if 'A' <= c <= 'F' then Some(10 + (c as int - 'A' as int))
    else None
  }

  function DigitChar(d: nat): (c: char)
    requires d < 16
    ensures DigitValue(c) == Some(d)
    ensures d < 10 ==> '0' <= c <= '9'
  {
    if d < 10 then '0' + d as char else 'A' + (d - 10) as char
  }

  lemma DivMod(n: nat, radix: nat)
    requires 2 <= radix <= n
    ensures 0 < n / radix < n
    ensures 0 <= n % radix < radix
    ensures (n / radix) * radix + n % radix == n
  {
    assert n / radix >= 1;
    assert (n / radix) * radix >= (n / radix) * 2;
  }

  predicate AllDigitsIn(s: string, radix: nat) {
    forall i | 0 <= i < |s| :: DigitValue(s[i]).Some? && DigitValue(s[i]).value < radix
  }

  /** The numeral of `n`, most significant digit first, without leading zeros. */
  function Numeral(n: nat, radix: nat): (s: string)
    requires 2 <= radix <= 16
    ensures s != ""
    ensures AllDigitsIn(s, radix)
    ensures n > 0 ==> s[0] != '0'
  {
    if n < radix then [DigitChar(n)]
    else
      DivMod(n, radix);
      Numeral(n / radix, radix) + [DigitChar(n % radix)]
  }

  /** The value of a string of digits; None when empty or some character is no digit. */
  function DigitsValue(s: string, radix: nat): (r: Option<nat>)
    requires 2 <= radix <= 16
  {
    if s == "" then None
    else
      match DigitValue(s[|s| - 1])
      case None => None
      case Some(d) =>
        if d >= radix then None
        else if |s| == 1 then Some(d)
        else
          match DigitsValue(s[..|s| - 1], radix)
          case None => None
          case Some(hi) => Some(hi * radix + d)
  }

  /** `from_str_radix` of an unsigned type with maximum `max`. */
  function ParseUnsigned(s: string, radix: nat, max: nat): (r: Option<nat>)
    requires 2 <= radix <= 16
    ensures r.Some? ==> r.value <= max
  {
    var digits := if "+" <= s then s[1..] else s;
    match DigitsValue(digits, radix)
    case None => None
    case Some(n) => if n <= max then Some(n) else None
  }

  /** Printing and parsing of an `i64`. */
  predicate IsI64(n: int) { -(I64_MAX as int) - 1 <= n <= I64_MAX }

  function IntText(n: int): (s: string)
    ensures s != ""
  {
    if n < 0 then "-" + Numeral(-n, 10) else Numeral(n, 10)
  }

  function ParseI64(s: string): (r: Option<int>)
    ensures r.Some? ==> IsI64(r.value)
  {
    if "-" <= s then
      match DigitsValue(s[1..], 10)
      case None => None
      case Some(n) => if n <= I64_MAX + 1 then Some(-(n as int)) else None
    else
      match DigitsValue(if "+" <= s then s[1..] else s, 10)
      case None => None
      case Some(n) => if IsI64(n) then Some(n) else None
  }

  lemma {:induction false} NumeralValue(n: nat, radix: nat)
    requires 2 <= radix <= 16
    ensures DigitsValue(Numeral(n, radix), radix) == Some(n)
  {
    if n >= radix {
      DivMod(n, radix);
      NumeralValue(n / radix, radix);
      assert Numeral(n, radix)[..|Numeral(n, radix)| - 1] == Numeral(n / radix, radix);
    }
  }

  lemma {:induction false} NumeralRoundTrip(n: nat, radix: nat, max: nat)
    requires 2 <= radix <= 16
    ensures ParseUnsigned(Numeral(n, radix), radix, max) == if n <= max then Some(n) else None
  {
    NumeralValue(n, radix);
    assert DigitValue('+').None?;
  }

  lemma {:induction false} IntTextRoundTrip(n: int)
    ensures ParseI64(IntText(n)) == if IsI64(n) then Some(n) else None
  {
    NumeralValue(if n < 0 then -n else n, 10);
    if n < 0 {
      assert IntText(n)[1..] == Numeral(-n, 10);
    } else {
      assert DigitValue('-').None? && DigitValue('+').None?;
    }
  }

  /** Decimal digits without leading zeros are the numeral of their value. */
  lemma {:induction false} NumeralOfDigits(s: string)
    requires s != "" && (forall i | 0 <= i < |s| :: '0' <= s[i] <= '9') && (s[0] != '0' || |s| == 1)
    ensures DigitsValue(s, 10).Some? && Numeral(DigitsValue(s, 10).value, 10) == s
    ensures s[0] != '0' ==> DigitsValue(s, 10).value > 0
  {
    if |s| > 1 {
      NumeralOfDigits(s[..|s| - 1]);
    }
  }

  /** Numerals are written in upper case. */
  lemma {:induction false} NumeralIsUpperCase(n: nat, radix: nat)
    requires 2 <= radix <= 16
    ensures forall i | 0 <= i < |Numeral(n, radix)| ::
              '0' <= Numeral(n, radix)[i] <= '9' || 'A' <= Numeral(n, radix)[i] <= 'F'
  {
    if n >= radix {
      DivMod(n, radix);
      NumeralIsUpperCase(n / radix, radix);
    }
  }
}
