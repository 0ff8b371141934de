/** What printed and parsed numbers are, told by the value of their digits. */
module Numerals {
  import opened Strings

  /** The value of a string of decimal digits. */
  function Value(s: string): int {
    if |s| == 0 then 0 else 10 * Value(s[..|s| - 1]) + (s[|s| - 1] as int - '0' as int)
  }

  predicate AllDigits(s: string) { forall c :: c in s ==> '0' <= c <= '9' }

  /** A decimal numeral without leading zeros. */
  predicate Numeral(s: string, n: int) {
    |s| > 0 && AllDigits(s) && (|s| > 1 ==> s[0] != '0') && Value(s) == n
  }

  /** %d prints the one numeral of a number. */
  lemma {:induction false} DigitsNumeral(n: nat)
    ensures Numeral(Digits(n), n)
    ensures Digits(n)[0] == '0' ==> n == 0
  {
    if n >= 10 {
      DigitsNumeral(n / 10);
      var s := Digits(n);
      assert s[..|s| - 1] == Digits(n / 10);
      assert s[0] == Digits(n / 10)[0];
    }
  }

  lemma {:induction false} ValueGrows(s: string)
    requires AllDigits(s)
    ensures 0 <= Value(s) && (|s| > 0 && s[0] != '0' ==> 0 < Value(s))
  {
    if |s| > 0 {
      var t := s[..|s| - 1];
      assert s[|s| - 1] in s && forall c :: c in t ==> c in s;
      ValueGrows(t);
    }
  }

  lemma {:induction false} NumeralIsDigits(s: string, n: int)
    requires Numeral(s, n)
    ensures 0 <= n && s == Digits(n)
  {
    var t, c := s[..|s| - 1], s[|s| - 1];
    assert c in s && forall c :: c in t ==> c in s;
    assert s == t + [c];
    ValueGrows(t);
    LastDigit(Value(t), c);
    if |s| > 1 {
      assert t[0] == s[0];
      NumeralIsDigits(t, Value(t));
    }
  }

  lemma LastDigit(tens: nat, c: char)
    requires '0' <= c <= '9'
    ensures Digits(10 * tens + (c as int - '0' as int)) == if tens == 0 then [c] else Digits(tens) + [c]
  {
    var d := c as int - '0' as int;
    assert (10 * tens + d) / 10 == tens && (10 * tens + d) % 10 == d;
    assert DigitChar(d) == c;
  }

  /** A number has exactly one numeral. */
  lemma NumeralIff(s: string, n: int)
    ensures Numeral(s, n) <==> 0 <= n && s == Digits(n)
  {
    if Numeral(s, n) {
      NumeralIsDigits(s, n);
    }
    if 0 <= n {
      DigitsNumeral(n);
    }
  }

  /** The decimal digits of a number, after its sign if it has one. */
  function Unsigned(s: string): string {
    if |s| > 0 && (s[0] == '-' || s[0] == '+') then s[1..] else s
  }

  lemma {:induction false} ParseDigitsValue(s: string)
    ensures ParseDigits(s) == if |s| > 0 && AllDigits(s) then Some(Value(s)) else None
  {
    if |s| > 0 {
      var t := s[..|s| - 1];
      assert s == t + [s[|s| - 1]];
      ParseDigitsValue(t);
      if AllDigits(s) {
        assert s[|s| - 1] in s && forall c :: c in t ==> c in s;
        ValueGrows(t);
      }
    }
  }

  /** strconv.Atoi: an optional sign and decimal digits, leading zeros allowed, of a value that fits 64 bits. */
  lemma AtoiIff(s: string, i: int)
    ensures Atoi(s) == Some(i) <==>
      && |Unsigned(s)| > 0 && AllDigits(Unsigned(s))
      && i == (if s[0] == '-' then 0 - Value(Unsigned(s)) else Value(Unsigned(s)))
      && -0x8000_0000_0000_0000 <= i < 0x8000_0000_0000_0000
  {
    ParseDigitsValue(Unsigned(s));
  }
}
