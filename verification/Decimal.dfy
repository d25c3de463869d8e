/** Decimal integers: what `strconv.Itoa`, `strconv.Atoi` and the `%d` verb do. */
module Decimal {
  import opened Common

  const MIN_INT64: int := -0x8000_0000_0000_0000
  const MAX_INT64: int := 0x7fff_ffff_ffff_ffff

  predicate IsDigit(c: char) {
    '0' <= c <= '9'
  }

  function DigitChar(d: nat): (c: char)
    requires d < 10
    ensures IsDigit(c) && DigitValue(c) == d
  {
    ('0' as int + d) as char
  }

  function DigitValue(c: char): (d: nat)
    requires IsDigit(c)
    ensures d < 10
  {
    c as int - '0' as int
  }

  predicate AllDigits(s: string) {
    forall i :: 0 <= i < |s| ==> IsDigit(s[i])
  }

  function Digits(n: nat): (s: string)
    ensures s != [] && AllDigits(s)
    ensures |s| == 1 <==> n < 10
  {
    if n < 10 then [DigitChar(n)] else Digits(n / 10) + [DigitChar(n % 10)]
  }

  function Itoa(n: int): string {
    if n < 0 then "-" + Digits(-n) else Digits(n)
  }

  function DigitsValue(s: string): nat
    requires AllDigits(s)
  {
    if s == [] then 0 else 10 * DigitsValue(s[..|s| - 1]) + DigitValue(s[|s| - 1])
  }

  function InInt64(n: int): Option<int> {
    if MIN_INT64 <= n <= MAX_INT64 then Some(n) else None
  }

  /** An optional sign, then at least one digit, and a value that fits an int64. */
  function Atoi(s: string): Option<int> {
    var digits := if s != [] && (s[0] == '-' || s[0] == '+') then s[1..] else s;
    if digits == [] || !AllDigits(digits) then None
    else InInt64(if s[0] == '-' then -(DigitsValue(digits) as int) else DigitsValue(digits))
  }

  lemma {:induction false} DigitsRoundTrip(n: nat)
    ensures DigitsValue(Digits(n)) == n
  {
    if 10 <= n {
      DigitsRoundTrip(n / 10);
      assert Digits(n)[..|Digits(n)| - 1] == Digits(n / 10);
    }
  }

  lemma ItoaRoundTrip(n: int)
    requires MIN_INT64 <= n <= MAX_INT64
    ensures Atoi(Itoa(n)) == Some(n)
  {
    var size: nat := if n < 0 then -n else n;
    var digits := Digits(size);
    DigitsRoundTrip(size);
    assert IsDigit(digits[0]);
    assert n < 0 ==> Itoa(n)[0] == '-' && Itoa(n)[1..] == digits;
  }

  lemma ItoaLength(n: int)
    ensures |Itoa(n)| == 1 <==> 0 <= n <= 9
    ensures Itoa(n) != []
    ensures forall i :: 0 <= i < |Itoa(n)| ==> IsDigit(Itoa(n)[i]) || (n < 0 && i == 0 && Itoa(n)[i] == '-')
  {
  }

  lemma AtoiExamples()
    ensures Atoi("7") == Atoi("+7") == Some(7) && Atoi("-12") == Some(-12)
    ensures Atoi("") == Atoi("-") == Atoi("1.5") == None
  {
    assert DigitsValue("1") == 1 && DigitsValue("12") == 12 by {
      assert "12"[..1] == "1" && "1"[..0] == "";
    }
    assert "7"[..0] == "" && DigitsValue("7") == 7;
    assert "+7"[1..] == "7" && "-12"[1..] == "12" && "-"[1..] == "";
    assert !IsDigit("1.5"[1]);
  }
}
