/** Decimal text of integers, as `%d` and `strconv.Itoa` write it and `strconv.Atoi` reads it. */
module Decimal {

  const MAX_INT64 := 0x7fff_ffff_ffff_ffff
  const MIN_INT64 := -0x8000_0000_0000_0000

  predicate IsDigit(c: char) { '0' <= c <= '9' }

  predicate AllDigits(s: string) { forall c | c in s :: IsDigit(c) }

  function Digits(n: nat): string {
    if n < 10 then ['0' + n as char] else Digits(n / 10) + ['0' + (n % 10) as char]
  }

  function Value(s: string): nat
    requires AllDigits(s)
  {
    if s == "" then 0
    else
      assert s[|s| - 1] in s;
      Value(s[..|s| - 1]) * 10 + (s[|s| - 1] - '0') as nat
  }

  function Itoa(n: int): string { if n < 0 then "-" + Digits(-n) else Digits(n) }

  /** The number `Atoi` returns, whether or not it also returns an error. */
  function Atoi(s: string): int {
    if s == "" then 0
    else
      var negative := s[0] == '-';
      var body := if s[0] == '-' || s[0] == '+' then s[1..] else s;
      if body == "" || !AllDigits(body) then 0
      else
        var v: int := Value(body);
        if negative then (if -v < MIN_INT64 then MIN_INT64 else -v)
        else if v > MAX_INT64 then MAX_INT64 else v
  }

  lemma {:induction false} ValueOfDigits(n: nat)
    ensures Digits(n) != "" && AllDigits(Digits(n)) && Value(Digits(n)) == n
  {
    if n < 10 {
      assert Digits(n)[..0] == "";
    } else {
      ValueOfDigits(n / 10);
      assert Digits(n)[..|Digits(n)| - 1] == Digits(n / 10);
    }
  }

  /** Numbers beyond an int are cut off at its bounds. */
  lemma AtoiOfItoa(n: int)
    ensures Atoi(Itoa(n)) == if n < MIN_INT64 then MIN_INT64 else if n > MAX_INT64 then MAX_INT64 else n
  {
    ValueOfDigits(if n < 0 then -n else n);
    var d := Digits(if n < 0 then -n else n);
    if n < 0 { assert Itoa(n)[1..] == d; } else { assert d[0] in d; }
  }

  lemma KnownTexts()
    ensures Itoa(0) == "0" && Itoa(-7) == "-7" && Itoa(2089) == "2089"
    ensures Atoi("") == Atoi("-") == Atoi("12x") == 0 && Atoi("+12") == 12
  {
    assert Digits(2089) == Digits(208) + "9" && Digits(208) == Digits(20) + "8" && Digits(20) == Digits(2) + "0";
    ValueOfDigits(12);
    assert Digits(12) == Digits(1) + "2" && Digits(1) == "1";
    assert "+12"[1..] == Digits(12);
    assert 'x' in "12x";
    assert "-"[1..] == "";
  }

  /** Two integers with the same text are equal. */
  lemma ItoaInjective(m: int, n: int)
    requires Itoa(m) == Itoa(n)
    ensures m == n
  {
    ValueOfDigits(if m < 0 then -m else m);
    ValueOfDigits(if n < 0 then -n else n);
    var dm, dn := Digits(if m < 0 then -m else m), Digits(if n < 0 then -n else n);
    assert dm[0] in dm && dn[0] in dn;
    if m < 0 { assert Itoa(m)[1..] == dm; }
    if n < 0 { assert Itoa(n)[1..] == dn; }
  }

  lemma ItoaHasNoColon(n: int)
    ensures ':' !in Itoa(n)
  {
    ValueOfDigits(if n < 0 then -n else n);
  }
}
