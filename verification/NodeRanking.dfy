/** The reference choice among the nodes of a host: how it depends on the nodes and on the ratios of their weights, and a
    draw that tells two weighings apart. */
module NodeRanking {
  import opened Options
  import opened Strings
  import opened Ratios
  import opened AddressPolicy
  import opened AddressContext

  // ---- The reference choice

  ghost predicate NodeBefore(d: Draw, c: NodeId -> real, a: NodeId, b: NodeId) {
    Before(d, Candidate(Dec(a), c(a)), Candidate(Dec(b), c(b)))
  }

  ghost function NodeBeaters(d: Draw, pool: set<NodeId>, c: NodeId -> real, n: NodeId): set<NodeId> {
    set m | m in pool && NodeBefore(d, c, m, n)
  }

  ghost function NodeTop(d: Draw, pool: set<NodeId>, c: NodeId -> real, size: int): set<NodeId> {
    set n | n in pool && |NodeBeaters(d, pool, c, n)| < size
  }

  lemma BeatersOfNode(d: Draw, pool: set<NodeId>, c: NodeId -> real, a: NodeId, b: NodeId)
    requires a in pool && NodeBefore(d, c, a, b)
    ensures |NodeBeaters(d, pool, c, a)| < |NodeBeaters(d, pool, c, b)|
  {
    var ca, cb := Candidate(Dec(a), c(a)), Candidate(Dec(b), c(b));
    BeforeIsStrict(d, ca, ca);
    forall m | m in NodeBeaters(d, pool, c, a)
      ensures m in NodeBeaters(d, pool, c, b) - {a}
    {
      BeforeIsTransitive(d, Candidate(Dec(m), c(m)), ca, cb);
    }
    SubsetCard(NodeBeaters(d, pool, c, a), NodeBeaters(d, pool, c, b) - {a});
  }

  /** What is chosen beats what is not. */
  lemma ChosenNodeBeats(d: Draw, pool: set<NodeId>, c: NodeId -> real, size: int, a: NodeId, b: NodeId)
    requires a in NodeTop(d, pool, c, size) && b in pool - NodeTop(d, pool, c, size)
    ensures NodeBefore(d, c, a, b)
  {
    DecInjective(a, b);
    BeforeIsTotal(d, Candidate(Dec(a), c(a)), Candidate(Dec(b), c(b)));
    if NodeBefore(d, c, b, a) {
      BeatersOfNode(d, pool, c, b, a);
    }
  }

  /** Nodes that all beat the others are the choice of that many. */
  lemma CutIsTop(d: Draw, pool: set<NodeId>, c: NodeId -> real, cut: set<NodeId>)
    requires cut <= pool && forall a, b | a in cut && b in pool - cut :: NodeBefore(d, c, a, b)
    ensures NodeTop(d, pool, c, |cut|) == cut
  {
    forall n | n in pool
      ensures |NodeBeaters(d, pool, c, n)| < |cut| <==> n in cut
    {
      var beaters := NodeBeaters(d, pool, c, n);
      if n in cut {
        BeforeIsStrict(d, Candidate(Dec(n), c(n)), Candidate(Dec(n), c(n)));
        forall m | m in pool - cut
          ensures m !in beaters
        {
          BeforeIsStrict(d, Candidate(Dec(n), c(n)), Candidate(Dec(m), c(m)));
        }
        SubsetCard(beaters, cut - {n});
      } else {
        SubsetCard(cut, beaters);
      }
    }
  }

  lemma NodeTopWithout(d: Draw, pool: set<NodeId>, c: NodeId -> real, size: int, x: NodeId)
    requires x in pool
    ensures NodeTop(d, pool, c, size) - {x} <= NodeTop(d, pool - {x}, c, size)
    ensures x !in NodeTop(d, pool, c, size) ==> NodeTop(d, pool - {x}, c, size) == NodeTop(d, pool, c, size)
  {
    forall n | n in pool - {x}
      ensures n in NodeTop(d, pool, c, size) ==> n in NodeTop(d, pool - {x}, c, size)
      ensures x !in NodeTop(d, pool, c, size) && n in NodeTop(d, pool - {x}, c, size) ==> n in NodeTop(d, pool, c, size)
    {
      SubsetCard(NodeBeaters(d, pool - {x}, c, n), NodeBeaters(d, pool, c, n));
      if NodeBefore(d, c, x, n) {
        BeatersOfNode(d, pool, c, x, n);
        assert NodeBeaters(d, pool - {x}, c, n) == NodeBeaters(d, pool, c, n) - {x};
      } else {
        assert NodeBeaters(d, pool - {x}, c, n) == NodeBeaters(d, pool, c, n);
      }
    }
  }

  // ---- It is what the source computes

  ghost function Weigh(weights: map<NodeId, real>, pool: seq<NodeId>): NodeId -> real {
    (n: NodeId) => WeightOf(weights, pool, n)
  }

  ghost function AsCandidates(pool: set<NodeId>, c: NodeId -> real): set<Candidate> {
    set n | n in pool :: Candidate(Dec(n), c(n))
  }

  /** The candidates of a pool are its nodes with the weights they have in it. */
  lemma PoolCandidates(weights: map<NodeId, real>, nodes: seq<NodeId>)
    ensures Elements(WeightedCandidates(weights, nodes)) == AsCandidates(NodesOf(nodes), Weigh(weights, nodes))
  {
    DedupLaws(nodes);
    CandidatesOf(weights, nodes, Dedup(nodes));
  }

  lemma CandidatesOf(weights: map<NodeId, real>, nodes: seq<NodeId>, of: seq<NodeId>)
    ensures Elements(CandidatesFor(weights, nodes, of)) == AsCandidates(NodesOf(of), Weigh(weights, nodes))
  {
    var cs := CandidatesFor(weights, nodes, of);
    forall n | n in of
      ensures Candidate(Dec(n), WeightOf(weights, nodes, n)) in cs
    {
      var i :| 0 <= i < |of| && of[i] == n;
      assert cs[i] in cs;
    }
    forall c | c in cs
      ensures c in AsCandidates(NodesOf(of), Weigh(weights, nodes))
    {
      var i :| 0 <= i < |cs| && cs[i] == c;
      assert of[i] in NodesOf(of);
    }
  }

  lemma CandidatesCard(pool: set<NodeId>, c: NodeId -> real)
    ensures |AsCandidates(pool, c)| == |pool|
    decreases |pool|
  {
    if pool != {} {
      var n := AnElement(pool);
      CandidatesCard(pool - {n}, c);
      forall m | m in pool - {n}
        ensures Candidate(Dec(m), c(m)) != Candidate(Dec(n), c(n))
      {
        DecInjective(m, n);
      }
      assert AsCandidates(pool, c) == AsCandidates(pool - {n}, c) + {Candidate(Dec(n), c(n))};
    }
  }

  lemma BeatersCard(d: Draw, pool: set<NodeId>, c: NodeId -> real, n: NodeId)
    ensures |Beaters(d, AsCandidates(pool, c), Candidate(Dec(n), c(n)))| == |NodeBeaters(d, pool, c, n)|
  {
    var beaters := Beaters(d, AsCandidates(pool, c), Candidate(Dec(n), c(n)));
    var nodes := NodeBeaters(d, pool, c, n);
    assert beaters == AsCandidates(nodes, c);
    CandidatesCard(nodes, c);
  }

  lemma NamedTop(d: Draw, pool: set<NodeId>, c: NodeId -> real, size: int)
    ensures NamedIn(pool, KeySet(Top(d, AsCandidates(pool, c), size))) == NodeTop(d, pool, c, size)
  {
    var top := Top(d, AsCandidates(pool, c), size);
    forall n | n in pool
      ensures Dec(n) in KeySet(top) <==> n in NodeTop(d, pool, c, size)
    {
      BeatersCard(d, pool, c, n);
      var own := Candidate(Dec(n), c(n));
      assert own in AsCandidates(pool, c);
      if Dec(n) in KeySet(top) {
        var other :| other in top && other.key == Dec(n);
        var m :| m in pool && other == Candidate(Dec(m), c(m));
        DecInjective(m, n);
      }
    }
  }

  /** The choice of a host is the reference choice among the nodes of its pool, weighed by the pool. */
  lemma ChooseIsNodeTop(d: Draw, nodes: seq<NodeId>, weights: map<NodeId, real>, exhausted: set<NodeId>, size: nat)
    ensures var pool := Pool(nodes, exhausted);
            ChooseNodes(d, nodes, weights, exhausted, size) == NodeTop(d, NodesOf(pool), Weigh(weights, pool), size)
  {
    var pool := Pool(nodes, exhausted);
    ChosenNodesAreTop(d, nodes, weights, exhausted, size);
    PoolCandidates(weights, pool);
    NamedTop(d, NodesOf(pool), Weigh(weights, pool), size);
  }

  // ---- Two weighings: only the ratios matter

  ghost function Worth(c: NodeId -> real, n: NodeId): (r: real)
    ensures r >= 1.0
  {
    MaxReal(c(n), EXHAUSTED_WEIGHT)
  }

  /** Against b, a is worth at least as much under c' as it is under c. */
  ghost predicate GainsOn(c: NodeId -> real, c': NodeId -> real, a: NodeId, b: NodeId) {
    Worth(c', b) * Worth(c, a) <= Worth(c', a) * Worth(c, b)
  }

  /** Two nodes that are worth the same as before, or as much as each other, keep their ratio. */
  lemma EvenGain(c: NodeId -> real, c': NodeId -> real, a: NodeId, b: NodeId)
    requires || (Worth(c, a) == Worth(c', a) && Worth(c, b) == Worth(c', b))
             || (Worth(c, a) == Worth(c, b) && Worth(c', a) == Worth(c', b))
    ensures GainsOn(c, c', a, b)
  {
  }

  lemma MoreGain(c: NodeId -> real, c': NodeId -> real, a: NodeId, b: NodeId)
    requires Worth(c, a) <= Worth(c', a) && Worth(c, b) == Worth(c', b)
    ensures GainsOn(c, c', a, b)
  {
    Scale(Worth(c, a), Worth(c', a), Worth(c, b));
  }

  lemma GainKeepsOrder(d: Draw, c: NodeId -> real, c': NodeId -> real, a: NodeId, b: NodeId)
    requires GainsOn(c, c', a, b) && NodeBefore(d, c, a, b)
    ensures NodeBefore(d, c', a, b)
  {
    RatioKeeps(Worth(c, a), Worth(c, b), Worth(c', a), Worth(c', b), Energy(d, Dec(a)), Energy(d, Dec(b)));
  }

  lemma StillNotBeaten(d: Draw, c: NodeId -> real, c': NodeId -> real, x: NodeId, n: NodeId)
    requires GainsOn(c, c', x, n) && !NodeBefore(d, c, n, x)
    ensures !NodeBefore(d, c', n, x)
  {
    BeforeIsStrict(d, Candidate(Dec(n), c'(n)), Candidate(Dec(x), c'(x)));
    if n != x {
      DecInjective(n, x);
      BeforeIsTotal(d, Candidate(Dec(n), c(n)), Candidate(Dec(x), c(x)));
      GainKeepsOrder(d, c, c', x, n);
    }
  }

  ghost predicate SameOdds(c: NodeId -> real, c': NodeId -> real, pool: set<NodeId>) {
    forall a, b | a in pool && b in pool :: GainsOn(c, c', a, b)
  }

  lemma SameOddsSameOrder(d: Draw, pool: set<NodeId>, c: NodeId -> real, c': NodeId -> real, m: NodeId, n: NodeId)
    requires SameOdds(c, c', pool) && m in pool && n in pool
    ensures NodeBefore(d, c, m, n) <==> NodeBefore(d, c', m, n)
  {
    var cm, cn := Candidate(Dec(m), c(m)), Candidate(Dec(n), c(n));
    if NodeBefore(d, c, m, n) {
      GainKeepsOrder(d, c, c', m, n);
    } else if m == n {
      BeforeIsStrict(d, Candidate(Dec(m), c'(m)), Candidate(Dec(m), c'(m)));
    } else {
      DecInjective(m, n);
      BeforeIsTotal(d, cm, cn);
      GainKeepsOrder(d, c, c', n, m);
      BeforeIsStrict(d, Candidate(Dec(n), c'(n)), Candidate(Dec(m), c'(m)));
    }
  }

  lemma SameOddsSameTop(d: Draw, pool: set<NodeId>, c: NodeId -> real, c': NodeId -> real, size: int)
    requires SameOdds(c, c', pool)
    ensures NodeTop(d, pool, c, size) == NodeTop(d, pool, c', size)
  {
    forall n | n in pool
      ensures NodeBeaters(d, pool, c, n) == NodeBeaters(d, pool, c', n)
    {
      forall m | m in pool
        ensures NodeBefore(d, c, m, n) <==> NodeBefore(d, c', m, n)
      {
        SameOddsSameOrder(d, pool, c, c', m, n);
      }
    }
  }

  // ---- A draw that tells two weighings apart

  function KeyEnergy(energy: NodeId -> Positive, key: string): Positive {
    if AllDigits(key) then energy(DecValue(key)) else 1.0
  }

  function NodeDraw(energy: NodeId -> Positive): Draw {
    Draw(Hashes((u, key, e) => KeyEnergy(energy, key), u => 1.0), 0, 0)
  }

  /** A higher score comes first. */
  lemma HigherIsBefore(energy: NodeId -> Positive, c: NodeId -> real, a: NodeId, b: NodeId)
    requires Worth(c, a) / energy(a) > Worth(c, b) / energy(b)
    ensures NodeBefore(NodeDraw(energy), c, a, b)
  {
    assert Energy(NodeDraw(energy), Dec(a)) == energy(a);
    assert Energy(NodeDraw(energy), Dec(b)) == energy(b);
  }

  ghost function NodeScore(energy: NodeId -> Positive, c: NodeId -> real, n: NodeId): real {
    Worth(c, n) / energy(n)
  }

  /** Nodes whose scores are above those of the others are the choice of that many. */
  lemma ScoredCut(energy: NodeId -> Positive, c: NodeId -> real, pool: set<NodeId>, cut: set<NodeId>)
    requires cut <= pool
    requires forall a, b | a in cut && b in pool - cut :: NodeScore(energy, c, a) > NodeScore(energy, c, b)
    ensures NodeTop(NodeDraw(energy), pool, c, |cut|) == cut
  {
    forall a, b | a in cut && b in pool - cut
      ensures NodeBefore(NodeDraw(energy), c, a, b)
    {
      HigherIsBefore(energy, c, a, b);
    }
    CutIsTop(NodeDraw(energy), pool, c, cut);
  }

  /** With the nodes of `first` above `high`, all but t and o below `low` and t ahead of o between them, `first` and t are chosen. */
  lemma RankedApart(energy: NodeId -> Positive, c: NodeId -> real, pool: set<NodeId>, first: set<NodeId>, t: NodeId, o: NodeId,
                    low: real, high: real)
    requires first + {t} <= pool && t !in first && o !in first
    requires forall n | n in first :: NodeScore(energy, c, n) > high
    requires forall n | n !in first && n != t && n != o :: NodeScore(energy, c, n) < low
    requires low <= NodeScore(energy, c, o) < NodeScore(energy, c, t) <= high
    ensures NodeTop(NodeDraw(energy), pool, c, |first| + 1) == first + {t}
  {
    ScoredCut(energy, c, pool, first + {t});
  }

  ghost function FrontEnergy(high: Positive): Positive {
    1.0 / (2.0 * high)
  }

  ghost function BackEnergy(w: Positive, low: Positive): Positive {
    DividePositive(2.0 * w, low);
    2.0 * w / low
  }

  /** The nodes of `first` in front, then a and b, and all others behind. */
  ghost function Energies(first: set<NodeId>, a: NodeId, b: NodeId, r: Positive, low: Positive, high: Positive,
                          c: NodeId -> real, c': NodeId -> real): NodeId -> Positive {
    (n: NodeId) => if n in first then FrontEnergy(high) else if n == a then 1.0 else if n == b then r
                   else BackEnergy(Worth(c, n) + Worth(c', n), low)
  }

  lemma FrontIsHigh(w: real, high: Positive)
    requires w >= 1.0
    ensures w / FrontEnergy(high) > high
  {
    var e := FrontEnergy(high);
    assert e * (2.0 * high) == 1.0;
    CrossMultiply(w, high, e, 1.0);
  }

  lemma BackIsLow(w: real, v: Positive, low: Positive)
    requires 0.0 < w <= v
    ensures w / BackEnergy(v, low) < low
  {
    var e := BackEnergy(v, low);
    assert e * low == 2.0 * v;
    CrossMultiply(low, w, 1.0, e);
  }

  lemma EnergiesRank(first: set<NodeId>, a: NodeId, b: NodeId, r: Positive, low: Positive, high: Positive,
                     c: NodeId -> real, c': NodeId -> real, v: NodeId -> real)
    requires (v == c || v == c') && a !in first && b !in first && a != b
    ensures var energy := Energies(first, a, b, r, low, high, c, c');
            && (forall n | n in first :: NodeScore(energy, v, n) > high)
            && (forall n | n !in first && n != a && n != b :: NodeScore(energy, v, n) < low)
            && NodeScore(energy, v, a) == Worth(v, a)
            && NodeScore(energy, v, b) == Worth(v, b) / r
  {
    var energy := Energies(first, a, b, r, low, high, c, c');
    forall n | n in first
      ensures NodeScore(energy, v, n) > high
    {
      FrontIsHigh(Worth(v, n), high);
    }
    forall n | n !in first && n != a && n != b
      ensures NodeScore(energy, v, n) < low
    {
      BackIsLow(Worth(v, n), Worth(c, n) + Worth(c', n), low);
    }
  }

  /** An energy for b between the two ratios. */
  lemma Between(wa: real, wb: real, va: real, vb: real) returns (r: real)
    requires wa >= 1.0 && wb >= 1.0 && va >= 1.0 && vb >= 1.0 && va * wb > vb * wa
    ensures r > 0.0 && wb / r > wa && va > vb / r
  {
    var q, p := vb / va, wb / wa;
    CrossMultiply(wb, vb, wa, va);
    DividePositive(vb, va);
    r := (q + p) / 2.0;
    assert q * va == vb && p * wa == wb;
    Scale(r, p, wa);
    Scale(q, r, va);
    CrossMultiply(wb, wa, r, 1.0);
    CrossMultiply(va, vb, 1.0, r);
  }

  ghost function Least(w: Positive, x: Positive, y: Positive, z: Positive): (r: Positive)
    ensures r <= w && r <= x && r <= y && r <= z
  {
    var u := if w < x then w else x;
    var v := if y < z then y else z;
    if u < v then u else v
  }

  /** If b does not gain on a, some draw chooses b beside `first` under c and a in its place under c'. */
  lemma DrawApart(pool: set<NodeId>, pool': set<NodeId>, c: NodeId -> real, c': NodeId -> real, first: set<NodeId>, a: NodeId, b: NodeId)
    returns (d: Draw)
    requires a != b && a !in first && b !in first && first + {a, b} <= pool && first + {a, b} <= pool'
    requires !GainsOn(c, c', b, a)
    ensures NodeTop(d, pool, c, |first| + 1) == first + {b}
    ensures NodeTop(d, pool', c', |first| + 1) == first + {a}
  {
    var r := Between(Worth(c, a), Worth(c, b), Worth(c', a), Worth(c', b));
    DividePositive(Worth(c, b), r);
    DividePositive(Worth(c', b), r);
    var low := Least(Worth(c, a), Worth(c, b) / r, Worth(c', a), Worth(c', b) / r);
    var high := Worth(c, b) / r + Worth(c', a);
    var energy := Energies(first, a, b, r, low, high, c, c');
    EnergiesRank(first, a, b, r, low, high, c, c', c);
    EnergiesRank(first, a, b, r, low, high, c, c', c');
    RankedApart(energy, c, pool, first, b, a, low, high);
    RankedApart(energy, c', pool', first, a, b, low, high);
    d := NodeDraw(energy);
  }

  lemma FillUp(free: set<NodeId>, keep: set<NodeId>, pool: set<NodeId>, size: nat, a: NodeId, b: NodeId) returns (first: set<NodeId>)
    requires a in pool && b in pool && a != b && free == pool - {a, b} && keep <= free && |keep| < size < |pool|
    ensures keep <= first <= free && |first| == size - 1
  {
    assert pool == free + {a, b} && free == (free - keep) + keep;
    var more := SubsetOfSize(free - keep, size - 1 - |keep|);
    first := more + keep;
  }

  /** If b does not gain on a, some draw of any size that cuts has b under c and a in its place under c'. */
  lemma CutApart(pool: set<NodeId>, pool': set<NodeId>, c: NodeId -> real, c': NodeId -> real, keep: set<NodeId>, size: nat,
                 a: NodeId, b: NodeId) returns (d: Draw)
    requires pool' <= pool && keep + {a, b} <= pool' && a !in keep && b !in keep && a != b
    requires |keep| < size < |pool'| && !GainsOn(c, c', b, a)
    ensures keep + {b} <= NodeTop(d, pool, c, size) <= pool' && a !in NodeTop(d, pool, c, size)
    ensures a in NodeTop(d, pool', c', size) && b !in NodeTop(d, pool', c', size)
  {
    var first := FillUp(pool' - {a, b}, keep, pool', size, a, b);
    d := DrawApart(pool, pool', c, c', first, a, b);
  }

  /** Of two nodes whose ratio changes, one does not gain on the other. */
  lemma MovedPair(c: NodeId -> real, c': NodeId -> real, known: NodeId, unknown: NodeId) returns (a: NodeId, b: NodeId)
    requires Worth(c, known) == Worth(c', known) && Worth(c, unknown) != Worth(c', unknown)
    ensures (a == known && b == unknown) || (a == unknown && b == known)
    ensures !GainsOn(c, c', b, a)
  {
    if Worth(c, unknown) < Worth(c', unknown) {
      a, b := unknown, known;
      Scale(Worth(c, a), Worth(c', a), Worth(c, b));
    } else {
      a, b := known, unknown;
      Scale(Worth(c', b), Worth(c, b), Worth(c, a));
    }
  }
}
