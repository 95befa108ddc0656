/** API versions: year and month, ordered by both, written "YYYY-MM". */
module ApiVersions {
  import opened Wrappers
  import opened Decimals

  datatype Version = Version(year: int, month: int)

  predicate AtMost(a: Version, b: Version) {
    a.year < b.year || (a.year == b.year && a.month <= b.month)
  }

  /** A total order, the year before the month. */
  lemma VersionOrder(a: Version, b: Version, c: Version)
    ensures AtMost(a, a)
    ensures AtMost(a, b) || AtMost(b, a)
    ensures AtMost(a, b) && AtMost(b, a) ==> a == b
    ensures AtMost(a, b) && AtMost(b, c) ==> AtMost(a, c)
    ensures a.year < b.year ==> AtMost(a, b) && !AtMost(b, a)
    ensures a.year == b.year ==> (AtMost(a, b) <==> a.month <= b.month)
  {}

  function Signed(n: int): string {
    if n < 0 then "-" + Numeral(-n) else Numeral(n)
  }

  /** The format spec `02d`. */
  function TwoDigits(n: int): string {
    if 0 <= n < 10 then "0" + Numeral(n) else Signed(n)
  }

  function Print(v: Version): string {
    Signed(v.year) + "-" + TwoDigits(v.month)
  }

  /** The decimal digits of every script, each with its value. */
  type Decimal = char -> Option<nat>

  /** The ASCII digits are among them, and the dash is not. */
  ghost predicate Unicode(decimal: Decimal) {
    && (forall c | IsDigit(c) :: decimal(c) == Some(DigitOf(c)))
    && (forall c :: decimal(c).Some? ==> decimal(c).value < 10)
    && decimal('-').None?
  }

  /** The pattern: four digits, a dash, two digits, and nothing else. */
  predicate Matches(decimal: Decimal, s: string) {
    |s| == 7 && s[4] == '-' && forall k | 0 <= k < 7 && k != 4 :: decimal(s[k]).Some?
  }

  /** Every digit as the ASCII one of its value, as `int` reads it. */
  function Ascii(decimal: Decimal, s: string): string {
    seq(|s|, k requires 0 <= k < |s| =>
      if decimal(s[k]).Some? && decimal(s[k]).value < 10 then DigitChar(decimal(s[k]).value) else s[k])
  }

  predicate AsciiMatches(s: string) {
    |s| == 7 && AllDigits(s[..4]) && s[4] == '-' && AllDigits(s[5..])
  }

  function AsciiParse(s: string): Option<Version> {
    if AsciiMatches(s) then Some(Version(Number(s[..4]), Number(s[5..]))) else None
  }

  function Parse(decimal: Decimal, s: string): Option<Version> {
    if Matches(decimal, s) then AsciiParse(Ascii(decimal, s)) else None
  }

  /** Where the pattern matches, the digits have values. */
  lemma MatchesInAscii(decimal: Decimal, s: string)
    requires Unicode(decimal)
    ensures Matches(decimal, s) <==> AsciiMatches(Ascii(decimal, s))
    ensures AsciiMatches(s) ==> Ascii(decimal, s) == s
  {
    var t := Ascii(decimal, s);
    if Matches(decimal, s) {
      assert forall k | 0 <= k < 7 && k != 4 :: IsDigit(t[k]);
      assert AllDigits(t[..4]) && AllDigits(t[5..]);
    }
    if AsciiMatches(t) {
      forall k | 0 <= k < 7 && k != 4 ensures decimal(s[k]).Some? {
        assert if k < 4 then t[k] == t[..4][k] else t[k] == t[5..][k - 5];
      }
    }
    if AsciiMatches(s) {
      forall k | 0 <= k < 7 ensures t[k] == s[k] {
        assert if k < 4 then s[k] == s[..4][k] else k > 4 ==> s[k] == s[5..][k - 5];
      }
    }
  }

  lemma Tens()
    ensures Ten(1) == 10 && Ten(2) == 100 && Ten(3) == 1000 && Ten(4) == 10000
  {
    assert Ten(2) == 10 * Ten(1) && Ten(3) == 10 * Ten(2) && Ten(4) == 10 * Ten(3);
  }

  lemma TwoDigitsWidth(m: int)
    ensures |TwoDigits(m)| == 2 && AllDigits(TwoDigits(m)) <==> 0 <= m < 100
    ensures 0 <= m < 100 ==> Number(TwoDigits(m)) == m
  {
    Tens();
    if 0 <= m {
      NumeralReadsBack(m);
      NumeralSize(m, 1);
      NumeralSize(m, 2);
      if m < 10 {
        assert TwoDigits(m)[..1] == "0" && Number("0"[..0]) == 0 && Number("0") == 0;
        assert Numeral(m) == [Numeral(m)[0]] && Number(Numeral(m)[..0]) == 0;
      }
    } else {
      assert TwoDigits(m)[0] == '-';
    }
  }

  lemma YearWidth(y: int)
    ensures |Signed(y)| == 4 && AllDigits(Signed(y)) <==> 1000 <= y < 10000
    ensures 0 <= y ==> AllDigits(Signed(y)) && Number(Signed(y)) == y
  {
    Tens();
    if 0 <= y {
      NumeralReadsBack(y);
      NumeralSize(y, 4);
    } else {
      assert Signed(y)[0] == '-';
    }
  }

  lemma AsciiPrintParses(v: Version)
    ensures AsciiParse(Print(v)) == Some(v) <==> 1000 <= v.year < 10000 && 0 <= v.month < 100
  {
    YearWidth(v.year);
    TwoDigitsWidth(v.month);
    var s := Print(v);
    if 1000 <= v.year < 10000 && 0 <= v.month < 100 {
      assert s[..4] == Signed(v.year) && s[5..] == TwoDigits(v.month);
    } else if AsciiMatches(s) && AsciiParse(s) == Some(v) {
      Tens();
      NumberSize(s[..4]);
      NumberSize(s[5..]);
      assert v.year >= 0;
      NumeralReadsBack(v.year);
      DashIsAfterYear(v);
      assert false;
    }
  }

  /** In a matching string the only dash is the fifth character. */
  lemma DashIsAfterYear(v: Version)
    requires v.year >= 0 && AsciiMatches(Print(v))
    ensures |Signed(v.year)| == 4 && |TwoDigits(v.month)| == 2 && AllDigits(TwoDigits(v.month))
  {
    YearWidth(v.year);
    var s, y := Print(v), Signed(v.year);
    assert s[|y|] == '-';
    forall k | 0 <= k < 7 && k != 4 ensures IsDigit(s[k]) {
      assert if k < 4 then s[k] == s[..4][k] else s[k] == s[5..][k - 5];
    }
    assert s[5..] == TwoDigits(v.month);
  }

  lemma AsciiParsePrints(s: string)
    requires AsciiMatches(s)
    ensures Print(AsciiParse(s).value) == s <==> s[0] != '0'
  {
    var v := AsciiParse(s).value;
    Tens();
    NumberSize(s[..4]);
    NumberSize(s[5..]);
    YearWidth(v.year);
    TwoDigitsWidth(v.month);
    if s[0] != '0' {
      NumberPrintsBack(s[..4]);
      TwoDigitsBack(s[5..]);
      assert s == s[..4] + "-" + s[5..];
    } else if Print(v) == s {
      DashIsAfterYear(v);
      assert false;
    }
  }

  lemma TwoDigitsBack(s: string)
    requires AllDigits(s) && |s| == 2
    ensures TwoDigits(Number(s)) == s
  {
    Tens();
    NumberSize(s);
    if s[0] == '0' {
      assert s == "0" + [s[1]] && s[..1] == "0" && Number("0"[..0]) == 0;
      assert [s[1]][..0] == [] && Number([s[1]]) == Number(s);
      NumberPrintsBack([s[1]]);
    } else {
      NumberPrintsBack(s);
    }
  }

  predicate Plain(s: string) {
    forall k | 0 <= k < |s| :: IsDigit(s[k]) || s[k] == '-'
  }

  lemma NumeralIsPlain(n: int)
    ensures Plain(Signed(n)) && Plain(TwoDigits(n))
  {
    NumeralReadsBack(if n < 0 then -n else n);
  }

  /** A printed version holds ASCII digits and dashes only. */
  lemma PrintIsAscii(v: Version)
    ensures Plain(Print(v))
  {
    NumeralIsPlain(v.year);
    NumeralIsPlain(v.month);
    PlainTogether(Signed(v.year) + "-", TwoDigits(v.month));
  }

  lemma PlainTogether(s: string, t: string)
    requires Plain(s) && Plain(t)
    ensures Plain(s + t)
  {}

  /** A version survives printing and parsing exactly when its year has four
      digits and its month at most two. */
  lemma PrintParses(decimal: Decimal, v: Version)
    requires Unicode(decimal)
    ensures Parse(decimal, Print(v)) == Some(v) <==> 1000 <= v.year < 10000 && 0 <= v.month < 100
  {
    var s := Print(v);
    PrintIsAscii(v);
    assert Ascii(decimal, s) == s;
    MatchesInAscii(decimal, s);
    AsciiPrintParses(v);
  }

  /** A version string survives parsing and printing exactly when its digits are
      ASCII and its year does not start with a zero: the year is printed without
      padding. */
  lemma ParsePrints(decimal: Decimal, s: string)
    requires Unicode(decimal) && Parse(decimal, s).Some?
    ensures Print(Parse(decimal, s).value) == s <==> s[0] != '0' && forall k | 0 <= k < 7 && k != 4 :: IsDigit(s[k])
  {
    var v := Parse(decimal, s).value;
    MatchesInAscii(decimal, s);
    PrintIsAscii(v);
    if forall k | 0 <= k < 7 && k != 4 :: IsDigit(s[k]) {
      assert AllDigits(s[..4]) && AllDigits(s[5..]);
      AsciiParsePrints(s);
    } else {
      var k :| 0 <= k < 7 && k != 4 && !IsDigit(s[k]);
      assert decimal(s[k]).Some?;
    }
  }

  // The order of versions is the order of their strings

  /** Strings in the order of their characters, a prefix first. */
  predicate InOrder(s: string, t: string) {
    s == "" || (t != "" && (s[0] < t[0] || (s[0] == t[0] && InOrder(s[1..], t[1..]))))
  }

  lemma FirstDigit(c: char, x: nat, d: char, y: nat, ten: nat)
    requires IsDigit(c) && IsDigit(d) && x < ten && y < ten
    ensures c < d ==> DigitOf(c) * ten + x < DigitOf(d) * ten + y
    ensures c == d ==> (DigitOf(c) * ten + x <= DigitOf(d) * ten + y <==> x <= y)
  {
    if c < d {
      assert (DigitOf(d) - DigitOf(c)) * ten >= ten;
    }
  }

  /** Numerals of one length are in the order of their numbers. */
  lemma {:induction false} NumeralsInOrder(s: string, t: string)
    requires AllDigits(s) && AllDigits(t) && |s| == |t|
    ensures InOrder(s, t) <==> Number(s) <= Number(t)
  {
    if s != "" {
      var u, v := s[1..], t[1..];
      NumeralsInOrder(u, v);
      NumberOfFirst(s[0], u);
      NumberOfFirst(t[0], v);
      NumberSize(u);
      NumberSize(v);
      assert s == [s[0]] + u && t == [t[0]] + v;
      FirstDigit(s[0], Number(u), t[0], Number(v), Ten(|u|));
      FirstDigit(t[0], Number(v), s[0], Number(u), Ten(|u|));
    }
  }

  lemma {:induction false} TogetherInOrder(s: string, t: string, a: string, b: string)
    requires |s| == |t|
    ensures InOrder(s + a, t + b) <==> if s == t then InOrder(a, b) else InOrder(s, t)
  {
    if s == "" {
      assert s + a == a && t + b == b;
    } else {
      assert (s + a)[1..] == s[1..] + a && (t + b)[1..] == t[1..] + b;
      TogetherInOrder(s[1..], t[1..], a, b);
      assert s == [s[0]] + s[1..] && t == [t[0]] + t[1..];
    }
  }

  /** Versions of four-digit years and two-digit months are in the order of their
      strings. */
  lemma PrintOrder(a: Version, b: Version)
    requires 1000 <= a.year < 10000 && 0 <= a.month < 100 && 1000 <= b.year < 10000 && 0 <= b.month < 100
    ensures AtMost(a, b) <==> InOrder(Print(a), Print(b))
  {
    var y, z, m, n := Signed(a.year), Signed(b.year), TwoDigits(a.month), TwoDigits(b.month);
    YearWidth(a.year);
    YearWidth(b.year);
    TwoDigitsWidth(a.month);
    TwoDigitsWidth(b.month);
    NumeralsInOrder(y, z);
    NumeralsInOrder(m, n);
    TogetherInOrder("-", "-", m, n);
    TogetherInOrder(y, z, "-" + m, "-" + n);
    assert Print(a) == y + ("-" + m) && Print(b) == z + ("-" + n);
  }
}
