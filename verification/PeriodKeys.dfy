/** Month keys "YYYY-MM" compare as strings the way months compare as numbers. */
module PeriodKeys {
  import opened Strings

  /** A month counted from year 0; year and month of year are its quotient and remainder by 12. */
  predicate FourDigitYear(month: nat) {
    1000 <= month / 12 < 10000
  }

  function TwoDigits(n: nat): string
    requires n < 100
  {
    [Digit(n / 10), Digit(n % 10)]
  }

  /** strftime("%Y-%m") */
  function PeriodKey(month: nat): string
    requires FourDigitYear(month)
  {
    Dec(month / 12) + "-" + TwoDigits(month % 12 + 1)
  }

  lemma {:induction false} LexOfFixedWidth(a: string, b: string, x: string, y: string)
    requires |a| == |b|
    ensures LexLess(a + x, b + y) <==> LexLess(a, b) || (a == b && LexLess(x, y))
  {
    if a == [] {
      assert a + x == x && b + y == y;
    } else {
      assert (a + x)[1..] == a[1..] + x && (b + y)[1..] == b[1..] + y;
      LexOfFixedWidth(a[1..], b[1..], x, y);
      assert a == [a[0]] + a[1..] && b == [b[0]] + b[1..];
    }
  }

  lemma DigitOrder(i: nat, j: nat)
    requires i < 10 && j < 10
    ensures LexLess([Digit(i)], [Digit(j)]) <==> i < j
  {
    assert [Digit(i)][1..] == [] && [Digit(j)][1..] == [];
  }

  lemma DecWidth(n: nat)
    ensures |Dec(n)| == 1 <==> n < 10
  {
    if n >= 10 {
      assert Dec(n) == Dec(n / 10) + [Digit(n % 10)];
    }
  }

  /** Numerals of equal width. */
  lemma {:induction false} DecOrder(i: nat, j: nat)
    requires |Dec(i)| == |Dec(j)|
    ensures LexLess(Dec(i), Dec(j)) <==> i < j
  {
    if i < 10 || j < 10 {
      DecWidth(i);
      DecWidth(j);
      DigitOrder(i, j);
    } else {
      DecOrder(i / 10, j / 10);
      LexOfFixedWidth(Dec(i / 10), Dec(j / 10), [Digit(i % 10)], [Digit(j % 10)]);
      DigitOrder(i % 10, j % 10);
      DecInjective(i / 10, j / 10);
    }
  }

  lemma FourDigits(year: nat)
    requires 1000 <= year < 10000
    ensures |Dec(year)| == 4
  {
    assert |Dec(year / 1000)| == 1;
    assert year / 100 / 10 == year / 1000 && year / 10 / 10 == year / 100;
    assert |Dec(year / 100)| == 2;
    assert |Dec(year / 10)| == 3;
  }

  lemma TwoDigitOrder(m: nat, n: nat)
    requires m < 100 && n < 100
    ensures LexLess(TwoDigits(m), TwoDigits(n)) <==> m < n
  {
    LexOfFixedWidth([Digit(m / 10)], [Digit(n / 10)], [Digit(m % 10)], [Digit(n % 10)]);
    DigitOrder(m / 10, n / 10);
    DigitOrder(m % 10, n % 10);
    assert TwoDigits(m) == [Digit(m / 10)] + [Digit(m % 10)];
    assert TwoDigits(n) == [Digit(n / 10)] + [Digit(n % 10)];
    assert [Digit(m / 10)] == [Digit(n / 10)] ==> DigitValue([Digit(m / 10)][0]) == DigitValue([Digit(n / 10)][0]);
  }

  /** The comparisons of period keys in the ledger may be read as comparisons of months. */
  lemma PeriodKeyOrder(a: nat, b: nat)
    requires FourDigitYear(a) && FourDigitYear(b)
    ensures LexLess(PeriodKey(a), PeriodKey(b)) <==> a < b
    ensures PeriodKey(a) == PeriodKey(b) <==> a == b
  {
    var ya, yb, ma, mb := a / 12, b / 12, a % 12 + 1, b % 12 + 1;
    FourDigits(ya);
    FourDigits(yb);
    DecOrder(ya, yb);
    DecInjective(ya, yb);
    TwoDigitOrder(ma, mb);
    LexOfFixedWidth(Dec(ya) + "-", Dec(yb) + "-", TwoDigits(ma), TwoDigits(mb));
    LexOfFixedWidth(Dec(ya), Dec(yb), "-", "-");
    LexIrreflexive("-");
    assert (Dec(ya) + "-")[..4] == Dec(ya) && (Dec(yb) + "-")[..4] == Dec(yb);
    LexIrreflexive(PeriodKey(a));
    if PeriodKey(a) == PeriodKey(b) {
      assert Dec(ya) == PeriodKey(a)[..4] && Dec(yb) == PeriodKey(b)[..4];
      LexIrreflexive(TwoDigits(ma));
      assert TwoDigits(ma) == PeriodKey(a)[5..] && TwoDigits(mb) == PeriodKey(b)[5..];
    }
  }
}
