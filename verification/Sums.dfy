/** Sums over finite maps. A map is its own index set, so equal contents give equal sums without any
    congruence argument about functions. */
module Sums {
  import opened Options

  ghost function SumValues<K>(m: map<K, int>): int {
    if m == map[] then 0
    else
      var k :| k in m;
      m[k] + SumValues(m - {k})
  }

  /** The sum may be taken apart at any key, not only at the one the definition chooses. */
  lemma {:induction false} SumAt<K>(m: map<K, int>, k: K)
    requires k in m
    ensures SumValues(m) == m[k] + SumValues(m - {k})
    decreases |m|
  {
    var c :| c in m && SumValues(m) == m[c] + SumValues(m - {c});
    if c != k {
      SumAt(m - {c}, k);
      SumAt(m - {k}, c);
      assert m - {c} - {k} == m - {k} - {c};
    }
  }

  lemma SumInsert<K>(m: map<K, int>, k: K, v: int)
    ensures SumValues(m[k := v]) == SumValues(m) + v - (if k in m then m[k] else 0)
  {
    SumAt(m[k := v], k);
    assert m[k := v] - {k} == m - {k};
    if k in m {
      SumAt(m, k);
    } else {
      assert m - {k} == m;
    }
  }

  lemma WithoutKey<K>(b: map<K, int>, k: K)
    requires k in b
    ensures |b - {k}| < |b|
  {
    assert (b - {k}).Keys == b.Keys - {k};
    assert |b - {k}| == |(b - {k}).Keys|;
  }

  lemma UnionWithout<K>(a: map<K, int>, b: map<K, int>, k: K)
    requires a.Keys !! b.Keys && k in b
    ensures (a + b) - {k} == a + (b - {k})
    ensures k in a + b && (a + b)[k] == b[k]
  {
  }

  /** The sum of a disjoint union is the sum of the sums. */
  lemma {:induction false} SumUnion<K>(a: map<K, int>, b: map<K, int>)
    requires a.Keys !! b.Keys
    ensures SumValues(a + b) == SumValues(a) + SumValues(b)
    decreases |b|
  {
    if k :| k in b {
      UnionWithout(a, b, k);
      WithoutKey(b, k);
      SumUnion(a, b - {k});
      SumAt(b, k);
      SumAt(a + b, k);
    } else {
      assert b == map[];
      assert a + b == a;
    }
  }

  function Lookup<K>(m: map<K, int>, k: K): int {
    if k in m then m[k] else 0
  }

  /** The `d[k] = d.get(k, 0) + v` idiom adds exactly v to the total. */
  lemma SumBump<K>(m: map<K, int>, k: K, v: int)
    ensures SumValues(m[k := Lookup(m, k) + v]) == SumValues(m) + v
  {
    SumInsert(m, k, Lookup(m, k) + v);
  }

  lemma SumBumped<K>(before: map<K, int>, after: map<K, int>, k: K, v: int)
    requires after == before[k := Lookup(before, k) + v]
    ensures SumValues(after) == SumValues(before) + v
  {
    SumBump(before, k, v);
  }

  lemma {:induction false} SumNonNegative<K>(m: map<K, int>)
    requires forall k :: k in m ==> m[k] >= 0
    ensures SumValues(m) >= 0
    decreases |m|
  {
    if m != map[] {
      var k :| k in m && SumValues(m) == m[k] + SumValues(m - {k});
      SumNonNegative(m - {k});
    }
  }

  /** Adding two maps key by key adds their totals. */
  function Plus<K>(a: map<K, int>, b: map<K, int>): map<K, int> {
    map k | k in a.Keys + b.Keys :: Lookup(a, k) + Lookup(b, k)
  }

  lemma IsPlus<K>(a: map<K, int>, b: map<K, int>, c: map<K, int>)
    requires forall k :: k in c <==> k in a || k in b
    requires forall k | k in c :: c[k] == Lookup(a, k) + Lookup(b, k)
    ensures c == Plus(a, b)
  {
  }

  lemma PlusBump<K>(a: map<K, int>, b: map<K, int>, k: K, v: int)
    ensures Plus(a, b[k := Lookup(b, k) + v]) == Plus(a, b)[k := Lookup(Plus(a, b), k) + v]
  {
  }

  lemma PlusBumped<K>(a: map<K, int>, b: map<K, int>, b': map<K, int>, k: K, v: int)
    requires b' == b[k := Lookup(b, k) + v]
    ensures Plus(a, b') == Plus(a, b)[k := Lookup(Plus(a, b), k) + v]
  {
    PlusBump(a, b, k, v);
  }

  lemma AKey<K>(m: map<K, int>) returns (k: K, rest: map<K, int>)
    requires m != map[]
    ensures k in m && k !in rest && |rest| < |m| && m == rest[k := m[k]]
    ensures SumValues(m) == SumValues(rest) + m[k]
  {
    k :| k in m;
    rest := m - {k};
    SumAt(m, k);
    assert rest.Keys == m.Keys - {k};
    assert |rest| == |rest.Keys|;
  }

  lemma SumPlusStep<K>(a: map<K, int>, b: map<K, int>, k: K, v: int)
    requires k !in b && SumValues(Plus(a, b)) == SumValues(a) + SumValues(b)
    ensures SumValues(Plus(a, b[k := v])) == SumValues(a) + SumValues(b[k := v])
  {
    PlusBump(a, b, k, v);
    SumBump(Plus(a, b), k, v);
    SumInsert(b, k, v);
  }

  lemma {:induction false} SumPlus<K>(a: map<K, int>, b: map<K, int>)
    ensures SumValues(Plus(a, b)) == SumValues(a) + SumValues(b)
    decreases |b|
  {
    if b == map[] {
      assert Plus(a, map[]) == a;
    } else {
      var k, rest := AKey(b);
      SumPlus(a, rest);
      SumPlusStep(a, rest, k, b[k]);
    }
  }

  // ---- Totals by group

  /** The part of m that belongs to one group; keys without a group belong to none. */
  function Members<K, G(==)>(m: map<K, int>, groupOf: map<K, G>, g: G): map<K, int> {
    map k | k in m && k in groupOf && groupOf[k] == g :: m[k]
  }

  function InSomeGroup<K, G>(m: map<K, int>, groupOf: map<K, G>): map<K, int> {
    map k | k in m && k in groupOf :: m[k]
  }

  function OutsideGroups<K, G>(m: map<K, int>, groupOf: map<K, G>): map<K, int> {
    map k | k in m && k !in groupOf :: m[k]
  }

  lemma SumSplits<K, G>(m: map<K, int>, groupOf: map<K, G>)
    ensures SumValues(m) == SumValues(InSomeGroup(m, groupOf)) + SumValues(OutsideGroups(m, groupOf))
  {
    SumUnion(InSomeGroup(m, groupOf), OutsideGroups(m, groupOf));
    assert m == InSomeGroup(m, groupOf) + OutsideGroups(m, groupOf);
  }

  ghost function Grouped<K, G>(m: map<K, int>, groupOf: map<K, G>): map<G, int> {
    map g | g in (set k | k in m && k in groupOf :: groupOf[k]) :: SumValues(Members(m, groupOf, g))
  }

  lemma MembersInsert<K, G(!new)>(m: map<K, int>, groupOf: map<K, G>, k: K, v: int, g: G)
    requires k !in m
    ensures Members(m[k := v], groupOf, g) ==
            if k in groupOf && groupOf[k] == g then Members(m, groupOf, g)[k := v] else Members(m, groupOf, g)
  {
  }

  lemma GroupedOutside<K, G(!new)>(m: map<K, int>, groupOf: map<K, G>, k: K, v: int)
    requires k !in m && k !in groupOf
    ensures Grouped(m[k := v], groupOf) == Grouped(m, groupOf)
  {
    var groups, groups' := Grouped(m, groupOf), Grouped(m[k := v], groupOf);
    forall g
      ensures Members(m[k := v], groupOf, g) == Members(m, groupOf, g)
    {
      MembersInsert(m, groupOf, k, v, g);
    }
    assert groups'.Keys == groups.Keys;
  }

  /** One more key moves the total of its own group and nothing else. */
  lemma GroupedInsert<K, G(!new)>(m: map<K, int>, groupOf: map<K, G>, k: K, v: int)
    requires k !in m && k in groupOf
    ensures Grouped(m[k := v], groupOf) ==
            Grouped(m, groupOf)[groupOf[k] := Lookup(Grouped(m, groupOf), groupOf[k]) + v]
  {
    var groups, groups', own := Grouped(m, groupOf), Grouped(m[k := v], groupOf), groupOf[k];
    forall g
      ensures g != own ==> Members(m[k := v], groupOf, g) == Members(m, groupOf, g)
    {
      MembersInsert(m, groupOf, k, v, g);
    }
    MembersInsert(m, groupOf, k, v, own);
    SumInsert(Members(m, groupOf, own), k, v);
    if own !in groups {
      assert Members(m, groupOf, own) == map[];
    }
    assert groups'.Keys == groups.Keys + {own};
  }

  lemma InSomeGroupInsert<K, G>(m: map<K, int>, groupOf: map<K, G>, k: K, v: int)
    requires k !in m
    ensures SumValues(InSomeGroup(m[k := v], groupOf)) ==
            SumValues(InSomeGroup(m, groupOf)) + (if k in groupOf then v else 0)
  {
    if k in groupOf {
      SumInsert(InSomeGroup(m, groupOf), k, v);
      assert InSomeGroup(m[k := v], groupOf) == InSomeGroup(m, groupOf)[k := v];
    } else {
      assert InSomeGroup(m[k := v], groupOf) == InSomeGroup(m, groupOf);
    }
  }

  lemma SumGroupedInsert<K, G(!new)>(m: map<K, int>, groupOf: map<K, G>, k: K, v: int)
    requires k !in m
    ensures SumValues(Grouped(m[k := v], groupOf)) == SumValues(Grouped(m, groupOf)) + (if k in groupOf then v else 0)
  {
    if k in groupOf {
      GroupedInsert(m, groupOf, k, v);
      SumBumped(Grouped(m, groupOf), Grouped(m[k := v], groupOf), groupOf[k], v);
    } else {
      GroupedOutside(m, groupOf, k, v);
    }
  }

  lemma GroupedSumStep<K, G(!new)>(m: map<K, int>, groupOf: map<K, G>, k: K, v: int)
    requires k !in m && SumValues(Grouped(m, groupOf)) == SumValues(InSomeGroup(m, groupOf))
    ensures SumValues(Grouped(m[k := v], groupOf)) == SumValues(InSomeGroup(m[k := v], groupOf))
  {
    SumGroupedInsert(m, groupOf, k, v);
    InSomeGroupInsert(m, groupOf, k, v);
  }

  /** Conservation: the totals of the groups add up to the total of the keys that have a group. */
  lemma {:induction false} GroupedSum<K, G(!new)>(m: map<K, int>, groupOf: map<K, G>)
    ensures SumValues(Grouped(m, groupOf)) == SumValues(InSomeGroup(m, groupOf))
    decreases |m|
  {
    if m == map[] {
      assert Grouped(m, groupOf) == map[] && InSomeGroup(m, groupOf) == map[];
    } else {
      var k, rest := AKey(m);
      GroupedSum(rest, groupOf);
      GroupedSumStep(rest, groupOf, k, m[k]);
    }
  }

  /** The `d[group] = d.get(group, 0) + v` loops of the jobs. */
  method GroupTotals(m: map<int, int>, groupOf: map<int, int>) returns (totals: map<int, int>)
    ensures totals == Grouped(m, groupOf)
  {
    totals := map[];
    var left := m.Keys;
    ghost var seen: map<int, int> := map[];
    assert Grouped(seen, groupOf) == map[];
    while left != {}
      invariant left <= m.Keys
      invariant seen == m - left
      invariant totals == Grouped(seen, groupOf)
      decreases |left|
    {
      var u, rest := TakeOne(left);
      if u !in groupOf {
        GroupedOutside(seen, groupOf, u, m[u]);
      } else {
        GroupedInsert(seen, groupOf, u, m[u]);
        totals := totals[groupOf[u] := Lookup(totals, groupOf[u]) + m[u]];
      }
      left, seen := rest, seen[u := m[u]];
    }
    assert seen == m;
  }
}
