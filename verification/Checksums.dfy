/** The checksums of the scrubber and the generator of its test data: Luhn
    (Annex B of ISO/IEC 7812-1) and the Irish PPS number. */
module Checksums {
  import opened Wrappers

  type Digit = d: int | 0 <= d < 10

  function Doubled(d: Digit): Digit {
    if 2 * d > 9 then 2 * d - 9 else 2 * d
  }

  function Weighed(d: Digit, doubled: bool): Digit {
    if doubled then Doubled(d) else d
  }

  /** The sum from the right; `doubled` says whether the last digit is. */
  function LuhnSum(ds: seq<Digit>, doubled: bool): nat {
    if ds == [] then 0
    else Weighed(ds[|ds| - 1], doubled) + LuhnSum(ds[..|ds| - 1], !doubled)
  }

  predicate LuhnValid(ds: seq<Digit>) {
    LuhnSum(ds, false) % 10 == 0
  }

  method LuhnOk(digits: seq<Digit>) returns (ok: bool)
    ensures ok <==> LuhnValid(digits)
  {
    var total := 0;
    assert digits[..|digits|] == digits;
    for index := 0 to |digits|
      invariant total + LuhnSum(digits[..|digits| - index], index % 2 == 1) == LuhnSum(digits, false)
    {
      var rest := digits[..|digits| - index];
      assert rest[..|rest| - 1] == digits[..|digits| - index - 1];
      var n: int := digits[|digits| - 1 - index];
      if index % 2 == 1 {
        n := n * 2;
        if n > 9 {
          n := n - 9;
        }
      }
      total := total + n;
    }
    return total % 10 == 0;
  }

  /** `_luhn_complete`'s loop: the sum with the last digit of the prefix doubled. */
  method PrefixTotal(prefix: seq<Digit>) returns (total: nat)
    ensures total == LuhnSum(prefix, true)
  {
    total := 0;
    assert prefix[..|prefix|] == prefix;
    for index := 0 to |prefix|
      invariant total + LuhnSum(prefix[..|prefix| - index], index % 2 == 0) == LuhnSum(prefix, true)
    {
      var rest := prefix[..|prefix| - index];
      assert rest[..|rest| - 1] == prefix[..|prefix| - index - 1];
      var digit: int := prefix[|prefix| - 1 - index];
      var n := if index % 2 == 0 then digit * 2 else digit;
      total := total + if n > 9 then n - 9 else n;
    }
  }

  lemma CheckDigitAdds(prefix: seq<Digit>, c: Digit)
    ensures LuhnSum(prefix + [c], false) == c + LuhnSum(prefix, true)
  {
    assert (prefix + [c])[..|prefix|] == prefix;
  }

  lemma OnlyCheckDigit(total: nat, c: Digit)
    ensures (c + total) % 10 == 0 <==> c == (10 - total % 10) % 10
  {}

  /** The generated number is valid, and with any other check digit it is not. */
  method LuhnComplete(prefix: seq<Digit>) returns (number: seq<Digit>)
    ensures |number| == |prefix| + 1 && number[..|prefix|] == prefix
    ensures LuhnValid(number)
    ensures forall c: Digit | c != number[|prefix|] :: !LuhnValid(prefix + [c])
  {
    var total := PrefixTotal(prefix);
    number := prefix + [(10 - total % 10) % 10];
    forall c: Digit ensures LuhnValid(prefix + [c]) <==> c == (10 - total % 10) % 10 {
      CheckDigitAdds(prefix, c);
      OnlyCheckDigit(total, c);
    }
  }

  /** Whether the i-th digit is doubled. */
  predicate IsDoubled(ds: seq<Digit>, i: nat, doubled: bool)
    requires i < |ds|
  {
    doubled == ((|ds| - 1 - i) % 2 == 0)
  }

  lemma {:induction false} SumAfterChange(ds: seq<Digit>, i: nat, x: Digit, doubled: bool)
    requires i < |ds|
    ensures LuhnSum(ds[i := x], doubled) ==
      LuhnSum(ds, doubled) - Weighed(ds[i], IsDoubled(ds, i, doubled)) + Weighed(x, IsDoubled(ds, i, doubled))
  {
    var shorter := ds[..|ds| - 1];
    if i == |ds| - 1 {
      assert ds[i := x][..|ds| - 1] == shorter;
    } else {
      assert ds[i := x][..|ds| - 1] == shorter[i := x];
      SumAfterChange(shorter, i, x, !doubled);
    }
  }

  /** Every change of a single digit is caught. */
  lemma LuhnCatchesOneDigit(ds: seq<Digit>, i: nat, x: Digit)
    requires LuhnValid(ds) && i < |ds| && x != ds[i]
    ensures !LuhnValid(ds[i := x])
  {
    SumAfterChange(ds, i, x, false);
    var before: int, after: int := Weighed(ds[i], IsDoubled(ds, i, false)), Weighed(x, IsDoubled(ds, i, false));
    assert before != after && -10 < after - before < 10;
  }

  /** What doubling adds to a digit. */
  function Extra(d: Digit): int {
    Doubled(d) as int - d as int
  }

  lemma SumAfterSwap(ds: seq<Digit>, i: nat)
    requires i + 1 < |ds|
    ensures var gain := Extra(ds[i + 1]) - Extra(ds[i]);
      var difference := LuhnSum(ds[i := ds[i + 1]][i + 1 := ds[i]], false) - LuhnSum(ds, false);
      difference == gain || difference == -gain
  {
    var a, b := ds[i], ds[i + 1];
    var first := ds[i := b];
    SumAfterChange(ds, i, b, false);
    SumAfterChange(first, i + 1, a, false);
    assert first[i + 1] == b;
    assert IsDoubled(ds, i, false) == !IsDoubled(first, i + 1, false);
  }

  predicate NoughtAndNine(a: Digit, b: Digit) {
    (a == 0 && b == 9) || (a == 9 && b == 0)
  }

  /** An adjacent swap of unequal digits is caught, except of 0 with 9. */
  lemma LuhnCatchesAdjacentSwap(ds: seq<Digit>, i: nat)
    requires LuhnValid(ds) && i + 1 < |ds|
    ensures LuhnValid(ds[i := ds[i + 1]][i + 1 := ds[i]]) <==> ds[i] == ds[i + 1] || NoughtAndNine(ds[i], ds[i + 1])
  {
    SumAfterSwap(ds, i);
    SwapResidue(ds[i], ds[i + 1]);
    SameResidue(LuhnSum(ds, false), LuhnSum(ds[i := ds[i + 1]][i + 1 := ds[i]], false), Extra(ds[i + 1]) - Extra(ds[i]));
  }

  lemma SameResidue(sum: int, swapped: int, gain: int)
    requires sum % 10 == 0 && (swapped - sum == gain || swapped - sum == -gain)
    ensures swapped % 10 == 0 <==> gain % 10 == 0
  {}

  lemma SwapResidue(a: Digit, b: Digit)
    ensures (Extra(b) - Extra(a)) % 10 == 0 <==> a == b || NoughtAndNine(a, b)
  {}

  // The PPS number

  /** "WABCDEFGHIJKLMNOPQRSTUV"[r]. */
  function CheckLetter(r: int): char
    requires 0 <= r < 23
  {
    if r == 0 then 'W' else ('A' as int + r - 1) as char
  }

  const LETTERS := "WABCDEFGHIJKLMNOPQRSTUV"

  lemma LetterAt(r: int)
    requires 0 <= r < 23
    ensures |LETTERS| == 23 && CheckLetter(r) == LETTERS[r]
  {}

  /** The weighed digits, written out. */
  function PpsnFigure(ds: seq<Digit>): int
    requires |ds| == 7
  {
    (ds[0] as int) * 8 + (ds[1] as int) * 7 + (ds[2] as int) * 6 + (ds[3] as int) * 5 + (ds[4] as int) * 4
    + (ds[5] as int) * 3 + (ds[6] as int) * 2
  }

  function Product(d: Digit, weight: nat): nat {
    d as int * weight
  }

  /** The digits against the weights 8 down to 2, from the k-th on. */
  function PpsnSum(ds: seq<Digit>, k: nat): nat
    requires |ds| == 7 && k <= 7
    decreases 7 - k
  {
    if k == 7 then 0 else Product(ds[k], 8 - k) + PpsnSum(ds, k + 1)
  }

  /** The optional second letter, A to I or W. */
  predicate IsSecond(second: Option<char>) {
    second.Some? ==> 'A' <= second.value <= 'I' || second.value == 'W'
  }

  function SecondValue(second: Option<char>): nat
    requires IsSecond(second)
  {
    if second.None? || second.value == 'W' then 0 else (second.value as int - 'A' as int + 1) * 9
  }

  function PpsnTotal(ds: seq<Digit>, second: Option<char>): nat
    requires |ds| == 7 && IsSecond(second)
  {
    PpsnSum(ds, 0) + SecondValue(second)
  }

  predicate PpsnOk(ds: seq<Digit>, check: char, second: Option<char>)
    requires |ds| == 7 && IsSecond(second)
  {
    CheckLetter(PpsnTotal(ds, second) % 23) == check
  }

  method Ppsn(ds: seq<Digit>) returns (check: char)
    requires |ds| == 7
    ensures PpsnOk(ds, check, None)
    ensures forall other | other != check :: !PpsnOk(ds, other, None)
  {
    var total := 0;
    for k := 0 to 7
      invariant total + PpsnSum(ds, k) == PpsnTotal(ds, None)
    {
      total := total + Product(ds[k], 8 - k);
    }
    check := CheckLetter(total % 23);
  }

  lemma ProductDifference(d: Digit, x: Digit, w: nat)
    ensures Product(x, w) - Product(d, w) == (x as int - d as int) * w
  {}

  lemma {:induction false} PpsnAfterChange(ds: seq<Digit>, i: nat, x: Digit, k: nat)
    requires |ds| == 7 && i < 7 && k <= 7
    ensures PpsnSum(ds[i := x], k) == PpsnSum(ds, k) + if k <= i then Product(x, 8 - i) - Product(ds[i], 8 - i) else 0
    decreases 7 - k
  {
    if k < 7 {
      PpsnAfterChange(ds, i, x, k + 1);
    }
  }

  function ChangeGain(d: Digit, x: Digit, i: nat): int
    requires i < 8
  {
    Product(x, 8 - i) as int - Product(d, 8 - i) as int
  }

  lemma TotalAfterChange(ds: seq<Digit>, second: Option<char>, i: nat, x: Digit)
    requires |ds| == 7 && IsSecond(second) && i < 7
    ensures PpsnTotal(ds[i := x], second) as int - PpsnTotal(ds, second) as int == ChangeGain(ds[i], x, i)
  {
    PpsnAfterChange(ds, i, x, 0);
  }

  /** The letter tells the 23 residues apart. */
  lemma SameCheck(total: int, other: int)
    ensures CheckLetter(total % 23) == CheckLetter(other % 23) <==> (other - total) % 23 == 0
  {}

  lemma NoFactor(w: int, d: int)
    requires 1 <= w <= 8 && -9 <= d <= 9
    ensures (d * w) % 23 == 0 <==> d == 0
  {
    if w == 1 {} else if w == 2 {} else if w == 3 {} else if w == 4 {}
    else if w == 5 {} else if w == 6 {} else if w == 7 {} else {}
  }

  lemma ChangeResidue(d: Digit, x: Digit, i: nat)
    requires i < 7
    ensures ChangeGain(d, x, i) % 23 == 0 <==> x == d
  {
    ProductDifference(d, x, 8 - i);
    NoFactor(8 - i, x as int - d as int);
  }

  function SwapGain(a: Digit, b: Digit, i: nat, j: nat): int
    requires i < j < 7
  {
    ChangeGain(a, b, i) + ChangeGain(b, a, j)
  }

  lemma SwapDifference(a: Digit, b: Digit, i: nat, j: nat)
    requires i < j < 7
    ensures SwapGain(a, b, i, j) == (b as int - a as int) * (j - i)
  {
    ProductDifference(a, b, 8 - i);
    ProductDifference(b, a, 8 - j);
    var d := b as int - a as int;
    assert d * (8 - i) - d * (8 - j) == d * (j - i);
  }

  /** A change of the digits goes unnoticed exactly when it keeps the residue. */
  lemma StillOk(ds: seq<Digit>, es: seq<Digit>, check: char, second: Option<char>, difference: int)
    requires |ds| == 7 && |es| == 7 && IsSecond(second) && PpsnOk(ds, check, second)
    requires difference == PpsnTotal(es, second) as int - PpsnTotal(ds, second) as int
    ensures PpsnOk(es, check, second) <==> difference % 23 == 0
  {
    SameCheck(PpsnTotal(ds, second), PpsnTotal(es, second));
  }

  /** Every change of a single digit is caught. */
  lemma PpsnCatchesOneDigit(ds: seq<Digit>, check: char, second: Option<char>, i: nat, x: Digit)
    requires |ds| == 7 && IsSecond(second) && PpsnOk(ds, check, second) && i < 7 && x != ds[i]
    ensures !PpsnOk(ds[i := x], check, second)
  {
    TotalAfterChange(ds, second, i, x);
    ChangeResidue(ds[i], x, i);
    StillOk(ds, ds[i := x], check, second, ChangeGain(ds[i], x, i));
  }

  /** So is every swap of two unequal digits, however far apart. */
  lemma PpsnCatchesSwap(ds: seq<Digit>, check: char, second: Option<char>, i: nat, j: nat)
    requires |ds| == 7 && IsSecond(second) && PpsnOk(ds, check, second) && i < j < 7 && ds[i] != ds[j]
    ensures !PpsnOk(ds[i := ds[j]][j := ds[i]], check, second)
  {
    var a, b := ds[i], ds[j];
    var after := ds[i := b][j := a];
    var difference := PpsnTotal(after, second) as int - PpsnTotal(ds, second) as int;
    assert difference == SwapGain(a, b, i, j) by {
      TotalAfterChange(ds, second, i, b);
      TotalAfterChange(ds[i := b], second, j, a);
    }
    SwapDifference(a, b, i, j);
    NoFactor(j - i, b as int - a as int);
    StillOk(ds, after, check, second, difference);
  }

  lemma SecondValuesApart(second: Option<char>, other: Option<char>)
    requires IsSecond(second) && IsSecond(other)
    ensures (SecondValue(other) as int - SecondValue(second) as int) % 23 == 0 <==> SecondValue(other) == SecondValue(second)
    ensures SecondValue(other) == SecondValue(second) <==>
      other == second || (other in {None, Some('W')} && second in {None, Some('W')})
  {
    var a: int, b: int := SecondValue(other) / 9, SecondValue(second) / 9;
    assert SecondValue(other) == 9 * a && SecondValue(second) == 9 * b && -9 <= a - b <= 9;
  }

  /** A wrong second letter is caught too, but a W there reads as no letter. */
  lemma PpsnSecondLetter(ds: seq<Digit>, check: char, second: Option<char>, other: Option<char>)
    requires |ds| == 7 && IsSecond(second) && IsSecond(other) && PpsnOk(ds, check, second)
    ensures PpsnOk(ds, check, other) <==> other == second || (other in {None, Some('W')} && second in {None, Some('W')})
  {
    SecondValuesApart(second, other);
    SameCheck(PpsnTotal(ds, second), PpsnTotal(ds, other));
  }

  lemma SumInFigures(ds: seq<Digit>)
    requires |ds| == 7
    ensures PpsnSum(ds, 0) == PpsnFigure(ds)
  {
    assert PpsnSum(ds, 6) == Product(ds[6], 2) + PpsnSum(ds, 7);
    assert PpsnSum(ds, 5) == Product(ds[5], 3) + PpsnSum(ds, 6);
    assert PpsnSum(ds, 4) == Product(ds[4], 4) + PpsnSum(ds, 5);
    assert PpsnSum(ds, 3) == Product(ds[3], 5) + PpsnSum(ds, 4);
    assert PpsnSum(ds, 2) == Product(ds[2], 6) + PpsnSum(ds, 3);
    assert PpsnSum(ds, 1) == Product(ds[1], 7) + PpsnSum(ds, 2);
    assert PpsnSum(ds, 0) == Product(ds[0], 8) + PpsnSum(ds, 1);
  }

  /** In figures: the check letter is the one at the weighed sum modulo 23, a
      second letter from A to I counting nine times its place. */
  lemma PpsnInFigures(ds: seq<Digit>, check: char, second: Option<char>)
    requires |ds| == 7 && (second.None? || 'A' <= second.value <= 'I' || second.value == 'W')
    ensures var more := if second.None? || second == Some('W') then 0 else 9 * (second.value as int - 64);
      |LETTERS| == 23 && (PpsnOk(ds, check, second) <==> check == LETTERS[(PpsnFigure(ds) + more) % 23])
  {
    SumInFigures(ds);
    LetterAt(PpsnTotal(ds, second) % 23);
  }
}
