/** Decimal numerals, delimited prefixes and the order of strings. */
module Strings {
  import opened Options

  // ---- Decimal numerals

  predicate IsDigit(c: char) {
    '0' <= c <= '9'
  }

  predicate AllDigits(s: string) {
    forall c | c in s :: IsDigit(c)
  }

  function Digit(d: nat): (c: char)
    requires d < 10
    ensures IsDigit(c) && DigitValue(c) == d
  {
    '0' + d as char
  }

  function DigitValue(c: char): nat
    requires IsDigit(c)
  {
    (c - '0') as int
  }

  /** str(n) for a natural number. */
  function Dec(n: nat): (s: string)
    ensures s != [] && AllDigits(s)
    ensures DecValue(s) == n
  {
    if n < 10 then [Digit(n)] else Dec(n / 10) + [Digit(n % 10)]
  }

  function DecValue(s: string): nat
    requires AllDigits(s)
  {
    if s == [] then 0 else DecValue(s[..|s| - 1]) * 10 + DigitValue(s[|s| - 1])
  }

  /** Each digit further left counts ten times as much. */
  function Place(position: nat): nat {
    if position == 0 then 1 else 10 * Place(position - 1)
  }

  function Placed(d: nat, position: nat): nat {
    d * Place(position)
  }

  lemma PlacedNext(d: nat, position: nat)
    ensures Placed(d, position + 1) == 10 * Placed(d, position)
    ensures Placed(d, 0) == d
  {
  }

  lemma {:induction false} DecValueFront(s: string)
    requires AllDigits(s) && s != []
    ensures DecValue(s) == Placed(DigitValue(s[0]), |s| - 1) + DecValue(s[1..])
  {
    if |s| == 1 {
      PlacedNext(DigitValue(s[0]), 0);
    } else {
      var front := s[..|s| - 1];
      DecValueFront(front);
      PlacedNext(DigitValue(s[0]), |s| - 2);
      assert s[1..][..|s| - 2] == front[1..];
    }
  }

  lemma DigitReturns(c: char)
    requires IsDigit(c)
    ensures DigitValue(c) < 10 && Digit(DigitValue(c)) == c
    ensures DigitValue(c) == 0 <==> c == '0'
  {
  }

  lemma {:induction false} DecPositive(s: string)
    requires s != [] && AllDigits(s) && s[0] != '0'
    ensures DecValue(s) > 0
  {
    DigitReturns(s[|s| - 1]);
    if |s| > 1 {
      DecPositive(s[..|s| - 1]);
    }
  }

  lemma DecOfFront(n: nat, d: nat)
    requires n > 0 && d < 10
    ensures Dec(10 * n + d) == Dec(n) + [Digit(d)]
  {
  }

  /** The numeral of a number is its only one without leading zeros. */
  lemma {:induction false} DecIsCanonical(s: string)
    requires s != [] && AllDigits(s) && (|s| == 1 || s[0] != '0')
    ensures Dec(DecValue(s)) == s
  {
    var front, last := s[..|s| - 1], s[|s| - 1];
    DigitReturns(last);
    if front == [] {
      assert s == [last];
    } else {
      DecIsCanonical(front);
      DecPositive(front);
      DecOfFront(DecValue(front), DigitValue(last));
    }
  }

  lemma {:induction false} DecLeads(n: nat)
    ensures n > 0 ==> Dec(n)[0] != '0'
  {
    if n >= 10 {
      DecLeads(n / 10);
    } else {
      DigitReturns(Dec(n)[0]);
    }
  }

  lemma DecInjective(a: nat, b: nat)
    ensures Dec(a) == Dec(b) <==> a == b
  {
    assert DecValue(Dec(a)) == a && DecValue(Dec(b)) == b;
  }

  // ---- Prefixes

  /** A field that ends with a delimiter it does not contain can be read off the front of a string. */
  lemma DelimitedPrefix(a: string, b: string, delimiter: char, x: string, y: string)
    requires delimiter !in a && delimiter !in b
    ensures a + [delimiter] + x <= b + [delimiter] + y <==> a == b && x <= y
  {
    var s, t := a + [delimiter] + x, b + [delimiter] + y;
    if s <= t {
      assert s[|a|] == delimiter && t[|b|] == delimiter;
      assert forall i | 0 <= i < |a| :: s[i] != delimiter;
      assert forall i | 0 <= i < |b| :: t[i] != delimiter;
      assert |a| == |b|;
      assert a == s[..|a|] == t[..|a|] == b;
      assert x == s[|a| + 1..] && y == t[|b| + 1..];
    }
  }

  lemma CommonFront(front: string, x: string, y: string)
    ensures front + x <= front + y <==> x <= y
    ensures front + x == front + y <==> x == y
  {
    assert (front + x)[|front|..] == x && (front + y)[|front|..] == y;
  }

  lemma CommonBack(x: string, y: string, back: string)
    ensures x + back == y + back <==> x == y
  {
    if x + back == y + back {
      assert x == (x + back)[..|x|] && y == (y + back)[..|y|];
    }
  }

  // ---- Lexicographic order

  predicate LexLess(a: string, b: string) {
    b != [] && (a == [] || a[0] < b[0] || (a[0] == b[0] && LexLess(a[1..], b[1..])))
  }

  lemma {:induction false} LexIrreflexive(a: string)
    ensures !LexLess(a, a)
  {
    if a != [] {
      LexIrreflexive(a[1..]);
    }
  }

  lemma {:induction false} LexTransitive(a: string, b: string, c: string)
    requires LexLess(a, b) && LexLess(b, c)
    ensures LexLess(a, c)
  {
    if a != [] && a[0] == b[0] == c[0] {
      LexTransitive(a[1..], b[1..], c[1..]);
    }
  }

  lemma {:induction false} LexTotal(a: string, b: string)
    ensures a == b || LexLess(a, b) || LexLess(b, a)
  {
    if a != [] && b != [] && a[0] == b[0] {
      LexTotal(a[1..], b[1..]);
      assert a == [a[0]] + a[1..] && b == [b[0]] + b[1..];
    }
  }
}
