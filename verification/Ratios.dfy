/** Comparing quotients of positive reals by their products. */
module Ratios {
  lemma SameSign(x: real, y: real, g: real)
    requires g > 0.0
    ensures x > y <==> x * g > y * g
    ensures x == y <==> x * g == y * g
  {
    assert x * g - y * g == (x - y) * g;
  }

  lemma Scale(x: real, y: real, g: real)
    requires g > 0.0
    ensures x <= y <==> x * g <= y * g
    ensures x < y <==> x * g < y * g
  {
    SameSign(x, y, g);
  }

  lemma CrossMultiply(p: real, q: real, e: real, f: real)
    requires e > 0.0 && f > 0.0
    ensures p / e > q / f <==> p * f > q * e
    ensures p / e == q / f <==> p * f == q * e
  {
    var x, y := p / e, q / f;
    assert p == x * e && q == y * f;
    assert p * f == x * (e * f) && q * e == y * (e * f);
    SameSign(x, y, e * f);
  }

  lemma DividePositive(x: real, y: real)
    requires x > 0.0 && y > 0.0
    ensures x / y > 0.0
  {
    CrossMultiply(x, 0.0, y, 1.0);
  }

  lemma RatioStep(p: real, q: real, p': real, q': real, e: real, f: real)
    requires p > 0.0 && q > 0.0 && p' > 0.0 && q' > 0.0 && e > 0.0 && f > 0.0
    requires q' * p <= p' * q
    ensures p * f > q * e ==> p' * f > q' * e
    ensures p * f == q * e ==> p' * f >= q' * e
  {
    Scale(q' * p, p' * q, e);
    assert q' * p * e == (q' * e) * p && p' * q * e == (q * e) * p';
    Scale(q * e, p * f, p');
    assert (p * f) * p' == (p' * f) * p;
    Scale(p' * f, q' * e, p);
  }

  lemma RatioKeeps(p: real, q: real, p': real, q': real, e: real, f: real)
    requires p > 0.0 && q > 0.0 && p' > 0.0 && q' > 0.0 && e > 0.0 && f > 0.0
    requires q' * p <= p' * q
    ensures p / e > q / f ==> p' / e > q' / f
    ensures p / e == q / f ==> p' / e > q' / f || p' / e == q' / f
  {
    CrossMultiply(p, q, e, f);
    CrossMultiply(p', q', e, f);
    RatioStep(p, q, p', q', e, f);
  }
}
