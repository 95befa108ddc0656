/** The checksum printer of generated tokens: base 62, padded to six. */
module Base62 {

  /** The digit of a remainder: the decimal digits, then upper case, then lower. */
  function CharacterAt(d: nat): char
    requires d < 62
  {
    if d < 10 then ('0' as int + d) as char
    else if d < 36 then ('A' as int + d - 10) as char
    else ('a' as int + d - 36) as char
  }

  predicate IsCharacter(c: char) {
    '0' <= c <= '9' || 'A' <= c <= 'Z' || 'a' <= c <= 'z'
  }

  function IndexOf(c: char): (d: nat)
    requires IsCharacter(c)
    ensures d < 62 && CharacterAt(d) == c
  {
    if c <= '9' then c as int - '0' as int
    else if c <= 'Z' then c as int - 'A' as int + 10
    else c as int - 'a' as int + 36
  }

  lemma CharactersDiffer(d: nat)
    requires d < 62
    ensures IsCharacter(CharacterAt(d)) && IndexOf(CharacterAt(d)) == d
  {}

  predicate Printable(s: string) {
    forall k | 0 <= k < |s| :: IsCharacter(s[k])
  }

  /** The number a base-62 string stands for. */
  function Value(s: string): nat
    requires Printable(s)
  {
    if s == [] then 0 else Value(s[..|s| - 1]) * 62 + IndexOf(s[|s| - 1])
  }

  function Power(n: nat): nat {
    if n == 0 then 1 else 62 * Power(n - 1)
  }

  lemma ShiftDigit(digit: nat, power: nat, low: nat, last: nat)
    ensures (digit * power + low) * 62 + last == digit * (62 * power) + (low * 62 + last)
  {}

  lemma {:induction false} ValueOfFirst(c: char, s: string)
    requires IsCharacter(c) && Printable(s)
    ensures Printable([c] + s) && Value([c] + s) == IndexOf(c) * Power(|s|) + Value(s)
  {
    var whole := [c] + s;
    if s != [] {
      var t := s[..|s| - 1];
      ValueOfFirst(c, t);
      assert whole[..|whole| - 1] == [c] + t;
      assert whole[|whole| - 1] == s[|s| - 1];
      ShiftDigit(IndexOf(c), Power(|t|), Value(t), IndexOf(s[|s| - 1]));
    } else {
      assert whole == [c] && whole[..0] == [];
    }
  }

  lemma {:induction false} ValueBound(s: string)
    requires Printable(s)
    ensures Value(s) < Power(|s|)
  {
    if s != [] {
      ValueBound(s[..|s| - 1]);
    }
  }

  lemma LastDigit(u: nat, a: nat, v: nat, b: nat)
    requires u * 62 + a == v * 62 + b && a < 62 && b < 62
    ensures u == v && a == b
  {}

  /** Two strings of one length that stand for one number are equal. */
  lemma {:induction false} SameLengthSameValue(s: string, t: string)
    requires Printable(s) && Printable(t) && |s| == |t| && Value(s) == Value(t)
    ensures s == t
  {
    if s != [] {
      var u, v := s[..|s| - 1], t[..|t| - 1];
      var c, d := s[|s| - 1], t[|t| - 1];
      LastDigit(Value(u), IndexOf(c), Value(v), IndexOf(d));
      assert c == CharacterAt(IndexOf(c)) && d == CharacterAt(IndexOf(d));
      SameLengthSameValue(u, v);
      assert s == u + [c] && t == v + [d];
    }
  }

  /** `zfill(6)`: the pad is the zero digit. */
  function ZeroFill(s: string): string {
    if |s| < 6 then seq(6 - |s|, _ => '0') + s else s
  }

  lemma ZeroInFront(s: string)
    requires Printable(s)
    ensures Printable(['0'] + s) && Value(['0'] + s) == Value(s)
  {
    ValueOfFirst('0', s);
    assert 0 * Power(|s|) == 0;
  }

  lemma OneZeroMore(n: nat, s: string)
    requires n > 0
    ensures seq(n, _ => '0') + s == ['0'] + (seq(n - 1, _ => '0') + s)
  {}

  lemma {:induction false} FillKeepsValue(n: nat, s: string)
    requires Printable(s)
    ensures Printable(seq(n, _ => '0') + s) && Value(seq(n, _ => '0') + s) == Value(s)
  {
    if n > 0 {
      FillKeepsValue(n - 1, s);
      OneZeroMore(n, s);
      ZeroInFront(seq(n - 1, _ => '0') + s);
    } else {
      assert seq(0, _ => '0') + s == s;
    }
  }

  predicate Splits(number: nat, rest: nat, encoded: string) {
    && Printable(encoded)
    && number == rest * Power(|encoded|) + Value(encoded)
    && (encoded != [] ==> number >= Power(|encoded| - 1))
  }

  /** One turn of the loop moves the last digit of `rest` to the front. */
  lemma DigitMoves(number: nat, rest: nat, encoded: string)
    requires rest != 0 && Splits(number, rest, encoded)
    ensures Splits(number, rest / 62, [CharacterAt(rest % 62)] + encoded)
  {
    CharactersDiffer(rest % 62);
    ValueOfFirst(CharacterAt(rest % 62), encoded);
    Divide(rest, Power(|encoded|));
  }

  method Digits(number: nat) returns (encoded: string)
    ensures Printable(encoded) && Value(encoded) == number
    ensures encoded != [] ==> number >= Power(|encoded| - 1)
  {
    var rest := number;
    encoded := "";
    while rest != 0
      invariant Splits(number, rest, encoded)
    {
      DigitMoves(number, rest, encoded);
      encoded := [CharacterAt(rest % 62)] + encoded;
      rest := rest / 62;
    }
  }

  /** The printed string reads back as the number; it has six characters exactly
      below 62 to the sixth, which covers every 32-bit checksum. */
  method Crc32ToBase62(number: nat) returns (encoded: string)
    ensures Printable(encoded) && Value(encoded) == number
    ensures |encoded| >= 6 && (|encoded| == 6 <==> number < Power(6))
    ensures number < 0x1_0000_0000 ==> |encoded| == 6
  {
    encoded := Digits(number);
    if |encoded| > 6 {
      PowerGrows(6, |encoded| - 1);
    } else {
      FillKeepsValue(6 - |encoded|, encoded);
    }
    encoded := ZeroFill(encoded);
    ValueBound(encoded);
    SixIsEnough();
  }

  lemma Divide(n: nat, power: nat)
    requires n != 0
    ensures n * power == (n / 62) * (62 * power) + (n % 62) * power
    ensures n * power >= power
  {
    var q, r := n / 62, n % 62;
    assert n == q * 62 + r;
    assert (q * 62 + r) * power == q * (62 * power) + r * power;
  }

  lemma {:induction false} PowerGrows(m: nat, n: nat)
    requires m <= n
    ensures Power(m) <= Power(n)
  {
    if m < n {
      PowerGrows(m, n - 1);
    }
  }

  lemma SixIsEnough()
    ensures Power(5) == 916132832 < 0x1_0000_0000 <= Power(6) == 56800235584
  {
    assert Power(1) == 62 && Power(2) == 3844 && Power(3) == 238328;
  }

  /** Numbers below 62 to the sixth and six-character strings are one to one:
      any way of printing that reads back and has six characters is this one. */
  lemma PrintedOnce(s: string, t: string)
    requires Printable(s) && Printable(t) && |s| == |t| == 6
    ensures s == t <==> Value(s) == Value(t)
    ensures Value(s) < Power(6)
  {
    ValueBound(s);
    if Value(s) == Value(t) {
      SameLengthSameValue(s, t);
    }
  }
}
