/** Decimal numerals. */
module Decimals {

  predicate IsDigit(c: char) { '0' <= c <= '9' }

  function DigitChar(d: nat): char
    requires d < 10
  {
    ('0' as int + d) as char
  }

  function DigitOf(c: char): nat
    requires IsDigit(c)
  {
    c as int - '0' as int
  }

  predicate AllDigits(s: string) {
    forall k | 0 <= k < |s| :: IsDigit(s[k])
  }

  /** `str(n)`. */
  function Numeral(n: nat): string {
    if n < 10 then [DigitChar(n)] else Numeral(n / 10) + [DigitChar(n % 10)]
  }

  /** `int(s)` of a digit string. */
  function Number(s: string): nat
    requires AllDigits(s)
  {
    if s == [] then 0 else Number(s[..|s| - 1]) * 10 + DigitOf(s[|s| - 1])
  }

  lemma {:induction false} NumeralReadsBack(n: nat)
    ensures AllDigits(Numeral(n)) && Numeral(n) != [] && Number(Numeral(n)) == n
    ensures |Numeral(n)| > 1 ==> Numeral(n)[0] != '0'
  {
    if n >= 10 {
      NumeralReadsBack(n / 10);
      var s := Numeral(n);
      assert s[..|s| - 1] == Numeral(n / 10);
      if n / 10 < 10 {
        assert Numeral(n / 10) == [DigitChar(n / 10)];
      }
    }
  }

  lemma {:induction false} NumberOfFirst(c: char, s: string)
    requires IsDigit(c) && AllDigits(s)
    ensures AllDigits([c] + s) && Number([c] + s) == DigitOf(c) * Ten(|s|) + Number(s)
  {
    var whole := [c] + s;
    if s == "" {
      NumberOfOne(c);
      assert whole == [c];
    } else {
      var t, d := s[..|s| - 1], s[|s| - 1];
      NumberOfFirst(c, t);
      assert whole[..|whole| - 1] == [c] + t && whole[|whole| - 1] == d;
      assert (DigitOf(c) * Ten(|t|) + Number(t)) * 10 == DigitOf(c) * (10 * Ten(|t|)) + Number(t) * 10;
    }
  }

  lemma NumberOfOne(c: char)
    requires IsDigit(c)
    ensures Number([c]) == DigitOf(c) && Numeral(DigitOf(c)) == [c]
  {
    assert Number([c][..0]) == 0;
  }

  /** One digit more at the end of a number and of its numeral. */
  lemma NumeralMore(n: nat, d: nat)
    requires n > 0 && d < 10
    ensures Numeral(n * 10 + d) == Numeral(n) + [DigitChar(d)]
  {}

  /** A numeral without a leading zero is the one its number prints as. */
  lemma {:induction false} NumberPrintsBack(s: string)
    requires AllDigits(s) && s != [] && (|s| > 1 ==> s[0] != '0')
    ensures Numeral(Number(s)) == s
    ensures |s| > 1 ==> Number(s) >= 10
  {
    var shorter, c := s[..|s| - 1], s[|s| - 1];
    assert s == shorter + [c];
    if |s| == 1 {
      NumberOfOne(c);
    } else {
      NumberPrintsBack(shorter);
      if |s| == 2 {
        assert shorter == [s[0]];
        NumberOfOne(s[0]);
      }
      NumeralMore(Number(shorter), DigitOf(c));
    }
  }

  function Ten(k: nat): nat {
    if k == 0 then 1 else 10 * Ten(k - 1)
  }

  lemma {:induction false} TenGrows(k: nat, m: nat)
    requires k <= m
    ensures Ten(k) <= Ten(m)
  {
    if k < m {
      TenGrows(k, m - 1);
    }
  }

  /** A number's size from the length of its digits. */
  lemma {:induction false} NumberSize(s: string)
    requires AllDigits(s)
    ensures Number(s) < Ten(|s|)
    ensures s != [] ==> (s[0] != '0' <==> Number(s) >= Ten(|s| - 1))
  {
    if |s| > 1 {
      NumberSize(s[..|s| - 1]);
    } else if |s| == 1 {
      assert Number(s[..0]) == 0;
    }
  }

  lemma NumeralSize(n: nat, k: nat)
    requires k > 0
    ensures |Numeral(n)| == k <==> n < Ten(k) && (k > 1 ==> n >= Ten(k - 1))
  {
    NumeralReadsBack(n);
    var s := Numeral(n);
    NumberSize(s);
    if |s| < k {
      TenGrows(|s|, k - 1);
    } else if k < |s| {
      TenGrows(k, |s| - 1);
    }
  }
}
