/** Integers as text: `strconv.Atoi` (parsing, 64-bit `int`), the decimal
    form of an integer, and the text `fmt.Sprintf("%v", x)` gives an
    integer-valued `float64`. */
module Numerals {
  import opened Records

  const MinInt64: int := -0x8000_0000_0000_0000
  const MaxInt64: int := 0x7FFF_FFFF_FFFF_FFFF

  predicate IsDigit(c: char) {
    '0' <= c <= '9'
  }

  predicate AllDigits(s: string) {
    forall i | 0 <= i < |s| :: IsDigit(s[i])
  }

  function DigitValue(c: char): nat
    requires IsDigit(c)
  {
    c as int - '0' as int
  }

  /** The value of a string of decimal digits, most significant first. */
  function DigitsValue(s: string): nat
    requires AllDigits(s)
  {
    if s == [] then 0 else DigitsValue(s[..|s| - 1]) * 10 + DigitValue(s[|s| - 1])
  }

  /** `strconv.Atoi` on a 64-bit platform: an optional `+` or `-`, then one or
      more ASCII digits (no spaces, no underscores), and the value must fit in
      an int64; anything else is an error (`None`). */
  function Atoi(s: string): (r: Option<int>)
    ensures r.Some? ==> MinInt64 <= r.value <= MaxInt64
    ensures r.Some? && r.value < 0 ==> s != [] && s[0] == '-'
    ensures s != [] && AllDigits(s) ==> (r.Some? <==> DigitsValue(s) <= MaxInt64)
    ensures s != [] && AllDigits(s) && r.Some? ==> r.value == DigitsValue(s)
  {
    if s == [] then None
    else
      var negative := s[0] == '-';
      var body := if s[0] == '-' || s[0] == '+' then s[1..] else s;
      if body == [] || !AllDigits(body) then None
      else
        var v: int := if negative then -(DigitsValue(body) as int) else DigitsValue(body);
        if MinInt64 <= v <= MaxInt64 then Some(v) else None
  }

  /** The decimal digits of a natural number, without leading zeros. */
  function NatToString(n: nat): (s: string)
    ensures s != [] && AllDigits(s)
    ensures s[0] == '0' ==> n == 0
  {
    if n < 10 then [('0' as int + n) as char]
    else NatToString(n / 10) + [('0' as int + n % 10) as char]
  }

  /** The decimal form of an integer, with a leading `-` when negative. */
  function IntToString(n: int): string {
    if n < 0 then "-" + NatToString(-n) else NatToString(n)
  }

  lemma {:induction false} DigitsOfNat(n: nat)
    ensures DigitsValue(NatToString(n)) == n
  {
    var s := NatToString(n);
    if n >= 10 {
      DigitsOfNat(n / 10);
      assert s[..|s| - 1] == NatToString(n / 10);
    }
  }

  /** Parsing the decimal form of an integer gives it back exactly when it
      fits in an int64. */
  lemma AtoiOfIntToString(n: int)
    ensures Atoi(IntToString(n)) == if MinInt64 <= n <= MaxInt64 then Some(n) else None
  {
    var digits := NatToString(if n < 0 then -n else n);
    DigitsOfNat(if n < 0 then -n else n);
    var s := IntToString(n);
    if n < 0 {
      assert s == "-" + digits;
      assert s[0] == '-' && s[1..] == digits;
    } else {
      assert s == digits;
      assert IsDigit(s[0]);
    }
  }

  /** `s` without its trailing zeros; the first character always stays. */
  function TrimZeros(s: string): (r: string)
    requires s != []
    ensures 1 <= |r| <= |s| && r == s[..|r|]
  {
    if |s| > 1 && s[|s| - 1] == '0' then TrimZeros(s[..|s| - 1]) else s
  }

  /** `%e` at shortest precision for a whole number of at least a million:
      the leading digit, the other significant digits after a point, and a
      two-digit (or longer) exponent, as in "1e+06" or "1.5e+07". */
  function ExponentText(n: nat): (r: string)
    requires n >= 1000000
    ensures r != [] && IsDigit(r[0]) && 'e' in r
  {
    var digits := NatToString(n);
    var mantissa := TrimZeros(digits);
    var exponent := NatToString(|digits| - 1);
    var head := [mantissa[0]] + (if |mantissa| > 1 then "." + mantissa[1..] else "");
    assert (head + "e+")[|head|] == 'e';
    head + "e+" + (if |exponent| < 2 then "0" + exponent else exponent)
  }

  /** `fmt.Sprintf("%v", x)` for a `float64` x holding the integer `n`: `%g` at
      shortest precision, which is plain decimal below a million in magnitude
      and exponent form from there on. Only plain decimal text reads back
      through `strconv.Atoi`. */
  function FloatText(n: int): (r: string)
    ensures -1000000 < n < 1000000 ==> r == IntToString(n) && Atoi(r) == Some(n)
    ensures (n <= -1000000 || 1000000 <= n) ==> 'e' in r && Atoi(r) == None
  {
    AtoiOfIntToString(n);
    if -1000000 < n < 1000000 then IntToString(n)
    else if n < 0 then
      var e := ExponentText(-n);
      assert ("-" + e)[1..] == e;
      "-" + e
    else ExponentText(n)
  }
}
