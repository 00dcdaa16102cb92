/** The median of a list of reals: it lies within the list, and grows at most by the factor the values grow by. */
module Medians {
  import opened Ratios

  function InsertReal(x: real, sorted: seq<real>): (r: seq<real>)
    ensures |r| == |sorted| + 1
  {
    if sorted == [] || x <= sorted[0] then [x] + sorted else [sorted[0]] + InsertReal(x, sorted[1..])
  }

  function SortReals(xs: seq<real>): (r: seq<real>)
    ensures |r| == |xs|
  {
    if xs == [] then [] else InsertReal(xs[0], SortReals(xs[1..]))
  }

  function Median(xs: seq<real>): real
    requires xs != []
  {
    var s := SortReals(xs);
    var mid := |s| / 2;
    if |s| % 2 == 1 then s[mid] else (s[mid - 1] + s[mid]) / 2.0
  }

  // ---- Sorting

  ghost predicate SortedReals(s: seq<real>) {
    forall i, j | 0 <= i < j < |s| :: s[i] <= s[j]
  }

  lemma {:induction false} InsertSorts(x: real, s: seq<real>)
    requires SortedReals(s)
    ensures SortedReals(InsertReal(x, s))
    ensures forall y :: y in InsertReal(x, s) <==> y == x || y in s
  {
    if s != [] && !(x <= s[0]) {
      var rest := InsertReal(x, s[1..]);
      InsertSorts(x, s[1..]);
      assert s == [s[0]] + s[1..];
      forall i | 0 <= i < |rest|
        ensures s[0] <= rest[i]
      {
        assert rest[i] in rest;
      }
    }
  }

  lemma {:induction false} SortSorts(xs: seq<real>)
    ensures SortedReals(SortReals(xs))
    ensures forall y :: y in SortReals(xs) <==> y in xs
  {
    if xs != [] {
      SortSorts(xs[1..]);
      InsertSorts(xs[0], SortReals(xs[1..]));
      assert xs == [xs[0]] + xs[1..];
    }
  }

  lemma MedianAtLeast(xs: seq<real>, low: real)
    requires xs != [] && forall x | x in xs :: x >= low
    ensures Median(xs) >= low
  {
    SortSorts(xs);
    var s, mid := SortReals(xs), |xs| / 2;
    assert s[mid] in s && (mid > 0 ==> s[mid - 1] in s);
  }

  lemma MedianOfOne(x: real)
    ensures Median([x]) == x
  {
    assert [x][1..] == [];
    assert SortReals([x]) == [x];
  }

  lemma MedianOfTwo(x: real, y: real)
    ensures Median([x, y]) == (x + y) / 2.0
  {
    assert [x, y][1..] == [y] && [y][1..] == [];
    assert SortReals([y]) == [y];
    assert InsertReal(x, []) == [x] && InsertReal(x, [y]) == if x <= y then [x, y] else [y, x];
    assert SortReals([x, y]) == InsertReal(x, [y]);
    assert |SortReals([x, y])| / 2 == 1 && |SortReals([x, y])| % 2 == 0;
  }

  // ---- Larger values have the larger median

  /** Position by position, s is at most t. */
  ghost predicate Below(s: seq<real>, t: seq<real>) {
    |s| == |t| && forall i | 0 <= i < |s| :: s[i] <= t[i]
  }

  /** Inserting puts the smaller of the new and the first element in front. */
  lemma InsertFront(x: real, s: seq<real>)
    requires SortedReals(s) && s != []
    ensures InsertReal(x, s) ==
            if x <= s[0] then [x] + InsertReal(s[0], s[1..]) else [s[0]] + InsertReal(x, s[1..])
  {
    assert s == [s[0]] + s[1..];
    assert |s| > 1 ==> s[0] <= s[1];
  }

  lemma {:induction false} InsertBelow(x: real, s: seq<real>, y: real, t: seq<real>)
    requires SortedReals(s) && SortedReals(t) && Below(s, t) && x <= y
    ensures Below(InsertReal(x, s), InsertReal(y, t))
    decreases |s|
  {
    if s != [] {
      var u, v := if x <= s[0] then s[0] else x, if y <= t[0] then t[0] else y;
      InsertBelow(u, s[1..], v, t[1..]);
      InsertFront(x, s);
      InsertFront(y, t);
    }
  }

  lemma {:induction false} SortBelow(xs: seq<real>, ys: seq<real>)
    requires Below(xs, ys)
    ensures Below(SortReals(xs), SortReals(ys))
  {
    if xs != [] {
      SortBelow(xs[1..], ys[1..]);
      SortSorts(xs[1..]);
      SortSorts(ys[1..]);
      InsertBelow(xs[0], SortReals(xs[1..]), ys[0], SortReals(ys[1..]));
    }
  }

  lemma MedianBelow(xs: seq<real>, ys: seq<real>)
    requires Below(xs, ys) && xs != []
    ensures Median(xs) <= Median(ys)
  {
    SortBelow(xs, ys);
  }

  // ---- The median commutes with a linear map

  ghost function Mapped(s: seq<real>, f: real -> real): (r: seq<real>)
    ensures |r| == |s| && forall i | 0 <= i < |s| :: r[i] == f(s[i])
  {
    seq(|s|, i requires 0 <= i < |s| => f(s[i]))
  }

  ghost predicate KeepsOrder(f: real -> real) {
    forall x, y :: x <= y <==> f(x) <= f(y)
  }

  ghost predicate KeepsMean(f: real -> real) {
    forall x, y :: (f(x) + f(y)) / 2.0 == f((x + y) / 2.0)
  }

  lemma {:induction false} InsertMapped(x: real, s: seq<real>, f: real -> real)
    requires KeepsOrder(f)
    ensures InsertReal(f(x), Mapped(s, f)) == Mapped(InsertReal(x, s), f)
  {
    if s != [] {
      InsertMapped(x, s[1..], f);
      assert Mapped(s, f)[1..] == Mapped(s[1..], f);
    }
  }

  lemma {:induction false} SortMapped(xs: seq<real>, f: real -> real)
    requires KeepsOrder(f)
    ensures SortReals(Mapped(xs, f)) == Mapped(SortReals(xs), f)
  {
    if xs != [] {
      SortMapped(xs[1..], f);
      assert Mapped(xs, f)[1..] == Mapped(xs[1..], f);
      InsertMapped(xs[0], SortReals(xs[1..]), f);
    }
  }

  lemma MedianMapped(xs: seq<real>, f: real -> real)
    requires xs != [] && KeepsOrder(f) && KeepsMean(f)
    ensures Median(Mapped(xs, f)) == f(Median(xs))
  {
    SortMapped(xs, f);
  }

  function Times(g: real): real -> real {
    (x: real) => g * x
  }

  lemma ScaledMean(p: real, q: real, g: real)
    ensures (g * p + g * q) / 2.0 == g * ((p + q) / 2.0)
  {
  }

  lemma TimesKeepsOrder(g: real)
    requires g > 0.0
    ensures KeepsOrder(Times(g))
  {
    forall x, y
      ensures x <= y <==> Times(g)(x) <= Times(g)(y)
    {
      Scale(x, y, g);
    }
  }

  lemma TimesKeepsMean(g: real)
    ensures KeepsMean(Times(g))
  {
    forall x, y
      ensures (Times(g)(x) + Times(g)(y)) / 2.0 == Times(g)((x + y) / 2.0)
    {
      ScaledMean(x, y, g);
    }
  }

  lemma MedianTimes(xs: seq<real>, g: real)
    requires g > 0.0 && xs != []
    ensures Median(Mapped(xs, Times(g))) == g * Median(xs)
  {
    TimesKeepsOrder(g);
    TimesKeepsMean(g);
    MedianMapped(xs, Times(g));
  }

  /** The median grows at most by the factor its values grow by. */
  lemma MedianWithin(xs: seq<real>, ys: seq<real>, g: real)
    requires g > 0.0 && Below(xs, Mapped(ys, Times(g))) && xs != []
    ensures Median(xs) <= g * Median(ys)
  {
    MedianBelow(xs, Mapped(ys, Times(g)));
    MedianTimes(ys, g);
  }
}
