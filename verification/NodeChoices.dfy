/** When the choice among the nodes of a host is stable: a node leaves or joins, or a weight rises. Unknown nodes weigh
    the median of the known ones, so such a change can move their weight too. */
module NodeChoices {
  import opened Options
  import opened Ratios
  import opened Medians
  import opened AddressPolicy
  import opened AddressContext
  import opened NodeRanking

  // ---- Weights of a pool

  /** What an unknown node of a pool is worth. */
  function UnknownWorth(weights: map<NodeId, real>, pool: seq<NodeId>): real {
    var known := KnownWeights(weights, pool);
    MaxReal(if known == [] then 0.0 else Median(known), EXHAUSTED_WEIGHT)
  }

  lemma {:induction false} SomeKnown(weights: map<NodeId, real>, pool: seq<NodeId>, n: NodeId)
    requires n in pool && n in weights
    ensures KnownWeights(weights, pool) != []
  {
    if n != pool[0] {
      SomeKnown(weights, pool[1..], n);
    }
  }

  lemma WorthInPool(weights: map<NodeId, real>, pool: seq<NodeId>, n: NodeId)
    requires n in pool
    ensures Worth(Weigh(weights, pool), n) ==
            if n in weights then MaxReal(weights[n], EXHAUSTED_WEIGHT) else UnknownWorth(weights, pool)
  {
    if n in weights {
      SomeKnown(weights, pool, n);
    }
  }

  /** The nodes of the second pool weigh against each other as they do in the first: all of them are known, none is, or the
      unknown ones are worth the same. */
  predicate UnknownStay(weights: map<NodeId, real>, pool: seq<NodeId>, pool': seq<NodeId>) {
    || NodesOf(pool') <= weights.Keys
    || NodesOf(pool') !! weights.Keys
    || UnknownWorth(weights, pool) == UnknownWorth(weights, pool')
  }

  lemma StayingKeepsOdds(weights: map<NodeId, real>, pool: seq<NodeId>, pool': seq<NodeId>)
    requires NodesOf(pool') <= NodesOf(pool) && UnknownStay(weights, pool, pool')
    ensures SameOdds(Weigh(weights, pool), Weigh(weights, pool'), NodesOf(pool'))
  {
    forall a, b | a in NodesOf(pool') && b in NodesOf(pool')
      ensures GainsOn(Weigh(weights, pool), Weigh(weights, pool'), a, b)
    {
      assert a in NodesOf(pool) && b in NodesOf(pool);
      WorthInPool(weights, pool, a);
      WorthInPool(weights, pool', a);
      WorthInPool(weights, pool, b);
      WorthInPool(weights, pool', b);
      EvenGain(Weigh(weights, pool), Weigh(weights, pool'), a, b);
    }
  }

  /** The nodes chosen from a pool. */
  ghost function Chosen(d: Draw, weights: map<NodeId, real>, pool: seq<NodeId>, size: nat): set<NodeId> {
    NodeTop(d, NodesOf(pool), Weigh(weights, pool), size)
  }

  lemma ChosenCard(d: Draw, weights: map<NodeId, real>, pool: seq<NodeId>, size: nat)
    ensures Chosen(d, weights, pool, size) <= NodesOf(pool)
    ensures |Chosen(d, weights, pool, size)| == Min(size, |NodesOf(pool)|)
    ensures |NodesOf(pool)| <= size ==> Chosen(d, weights, pool, size) == NodesOf(pool)
  {
    NobodyExhausted(pool);
    ChooseIsNodeTop(d, pool, weights, {}, size);
    ChosenNodesLaws(d, pool, weights, {}, size);
    SubsetCard(Chosen(d, weights, pool, size), NodesOf(pool));
  }

  lemma NobodyExhausted(nodes: seq<NodeId>)
    ensures Pool(nodes, {}) == nodes
  {
    AliveLaws(nodes, {});
  }

  lemma MovingPair(weights: map<NodeId, real>, pool: seq<NodeId>, pool': seq<NodeId>) returns (a: NodeId, b: NodeId)
    requires NodesOf(pool') <= NodesOf(pool) && !UnknownStay(weights, pool, pool')
    ensures a != b && a in NodesOf(pool') && b in NodesOf(pool')
    ensures !GainsOn(Weigh(weights, pool), Weigh(weights, pool'), b, a)
  {
    var known := Common(NodesOf(pool'), weights.Keys);
    var unknown := Outside(NodesOf(pool'), weights.Keys);
    assert known in NodesOf(pool) && unknown in NodesOf(pool);
    WorthInPool(weights, pool, known);
    WorthInPool(weights, pool', known);
    WorthInPool(weights, pool, unknown);
    WorthInPool(weights, pool', unknown);
    a, b := MovedPair(Weigh(weights, pool), Weigh(weights, pool'), known, unknown);
  }

  /** If the unknown nodes are worth something else beside a known one, some draw takes from a node of both pools its place. */
  lemma MovingTellsApart(weights: map<NodeId, real>, pool: seq<NodeId>, pool': seq<NodeId>, size: nat) returns (d: Draw, b: NodeId)
    requires NodesOf(pool') <= NodesOf(pool) && !ChoiceStays(weights, pool, pool', size)
    ensures b in Chosen(d, weights, pool, size) && b !in Chosen(d, weights, pool', size)
    ensures Chosen(d, weights, pool, size) <= NodesOf(pool')
  {
    var a;
    a, b := MovingPair(weights, pool, pool');
    d := CutApart(NodesOf(pool), NodesOf(pool'), Weigh(weights, pool), Weigh(weights, pool'), {}, size, a, b);
  }

  // ---- A node leaves or joins

  /** The size cuts nothing, or leaves nothing to tell apart, or the nodes keep their ratios. */
  predicate ChoiceStays(weights: map<NodeId, real>, pool: seq<NodeId>, pool': seq<NodeId>, size: nat) {
    size == 0 || |NodesOf(pool')| <= size || UnknownStay(weights, pool, pool')
  }

  lemma SamePool(d: Draw, weights: map<NodeId, real>, pool: seq<NodeId>, pool': seq<NodeId>, size: nat)
    requires NodesOf(pool) == NodesOf(pool') && ChoiceStays(weights, pool, pool', size)
    ensures Chosen(d, weights, pool, size) == Chosen(d, weights, pool', size)
  {
    if UnknownStay(weights, pool, pool') {
      StayingKeepsOdds(weights, pool, pool');
      SameOddsSameTop(d, NodesOf(pool), Weigh(weights, pool), Weigh(weights, pool'), size);
    } else {
      ChosenCard(d, weights, pool, size);
      ChosenCard(d, weights, pool', size);
    }
  }

  /** Two hosts that choose from the same nodes choose the same for every draw, whatever the order and repetition of the
      nodes, exactly when that does not move the median beside a known node. */
  lemma PoolDecidesIff(nodes: seq<NodeId>, nodes': seq<NodeId>, weights: map<NodeId, real>,
                       exhausted: set<NodeId>, exhausted': set<NodeId>, size: nat)
    requires NodesOf(Pool(nodes, exhausted)) == NodesOf(Pool(nodes', exhausted'))
    ensures ChoiceStays(weights, Pool(nodes, exhausted), Pool(nodes', exhausted'), size) <==>
            forall d: Draw :: ChooseNodes(d, nodes, weights, exhausted, size) == ChooseNodes(d, nodes', weights, exhausted', size)
  {
    var pool, pool' := Pool(nodes, exhausted), Pool(nodes', exhausted');
    ChooseFromPool(nodes, weights, exhausted, size);
    ChooseFromPool(nodes', weights, exhausted', size);
    if ChoiceStays(weights, pool, pool', size) {
      forall d: Draw
        ensures ChooseNodes(d, nodes, weights, exhausted, size) == ChooseNodes(d, nodes', weights, exhausted', size)
      {
        SamePool(d, weights, pool, pool', size);
      }
    } else {
      var d, b := MovingTellsApart(weights, pool, pool', size);
      assert ChooseNodes(d, nodes, weights, exhausted, size) != ChooseNodes(d, nodes', weights, exhausted', size);
    }
  }

  lemma ChooseFromPool(nodes: seq<NodeId>, weights: map<NodeId, real>, exhausted: set<NodeId>, size: nat)
    ensures forall d: Draw :: ChooseNodes(d, nodes, weights, exhausted, size) == Chosen(d, weights, Pool(nodes, exhausted), size)
  {
    forall d: Draw
      ensures ChooseNodes(d, nodes, weights, exhausted, size) == Chosen(d, weights, Pool(nodes, exhausted), size)
    {
      ChooseIsNodeTop(d, nodes, weights, exhausted, size);
    }
  }

  lemma SwapNodesBound(before: set<NodeId>, after: set<NodeId>, x: NodeId)
    requires x !in after && before - {x} <= after
    requires |after| <= |before| && (x !in before ==> after == before)
    ensures |after - before| <= 1
  {
    if x in before {
      assert after == (before - {x}) + (after - before);
      assert |after| == |before - {x}| + |after - before|;
    } else {
      assert after - before == {};
    }
  }

  lemma LosingAmongKept(d: Draw, weights: map<NodeId, real>, pool: seq<NodeId>, pool': seq<NodeId>, size: nat, x: NodeId)
    requires x in NodesOf(pool) && NodesOf(pool') == NodesOf(pool) - {x} && UnknownStay(weights, pool, pool')
    ensures var before, after := Chosen(d, weights, pool, size), Chosen(d, weights, pool', size);
            (x !in before ==> after == before) && before - {x} <= after
  {
    NodeTopWithout(d, NodesOf(pool), Weigh(weights, pool), size, x);
    StayingKeepsOdds(weights, pool, pool');
    SameOddsSameTop(d, NodesOf(pool'), Weigh(weights, pool), Weigh(weights, pool'), size);
  }

  lemma LosingNode(d: Draw, weights: map<NodeId, real>, pool: seq<NodeId>, pool': seq<NodeId>, size: nat, x: NodeId)
    requires x in NodesOf(pool) && NodesOf(pool') == NodesOf(pool) - {x} && ChoiceStays(weights, pool, pool', size)
    ensures var before, after := Chosen(d, weights, pool, size), Chosen(d, weights, pool', size);
            && (x !in before ==> after == before) && before - {x} <= after && |after - before| <= 1
  {
    ChosenCard(d, weights, pool, size);
    ChosenCard(d, weights, pool', size);
    if UnknownStay(weights, pool, pool') {
      LosingAmongKept(d, weights, pool, pool', size, x);
    }
    LosingBound(NodesOf(pool), NodesOf(pool'), size, x, Chosen(d, weights, pool, size), Chosen(d, weights, pool', size));
  }

  lemma LosingBound(pool: set<NodeId>, pool': set<NodeId>, size: nat, x: NodeId, before: set<NodeId>, after: set<NodeId>)
    requires x in pool && pool' == pool - {x} && before <= pool && after <= pool'
    requires |before| == Min(size, |pool|) && |after| == Min(size, |pool'|)
    requires size == 0 || |pool'| <= size || ((x !in before ==> after == before) && before - {x} <= after)
    ensures (x !in before ==> after == before) && before - {x} <= after && |after - before| <= 1
  {
    SubsetCard(pool', pool);
    SubsetCard(after, pool');
    SubsetCard(before - {x}, pool');
    SwapNodesBound(before, after, x);
  }

  /** Two hosts whose pools differ by one node x. That losing x changes nothing when x was not chosen, and that it costs no
      other chosen node its place, holds for every draw exactly when the choice stays. Then at most one node comes in. Read
      the other way, a new node displaces at most one. */
  lemma LosingNodeIff(nodes: seq<NodeId>, nodes': seq<NodeId>, weights: map<NodeId, real>,
                      exhausted: set<NodeId>, exhausted': set<NodeId>, size: nat, x: NodeId)
    requires x in NodesOf(Pool(nodes, exhausted))
    requires NodesOf(Pool(nodes', exhausted')) == NodesOf(Pool(nodes, exhausted)) - {x}
    ensures ChoiceStays(weights, Pool(nodes, exhausted), Pool(nodes', exhausted'), size) <==>
            forall d: Draw :: x !in ChooseNodes(d, nodes, weights, exhausted, size) ==>
              ChooseNodes(d, nodes', weights, exhausted', size) == ChooseNodes(d, nodes, weights, exhausted, size)
    ensures ChoiceStays(weights, Pool(nodes, exhausted), Pool(nodes', exhausted'), size) <==>
            forall d: Draw :: ChooseNodes(d, nodes, weights, exhausted, size) - {x} <= ChooseNodes(d, nodes', weights, exhausted', size)
    ensures ChoiceStays(weights, Pool(nodes, exhausted), Pool(nodes', exhausted'), size) ==>
            forall d: Draw :: |ChooseNodes(d, nodes', weights, exhausted', size) - ChooseNodes(d, nodes, weights, exhausted, size)| <= 1
  {
    var pool, pool' := Pool(nodes, exhausted), Pool(nodes', exhausted');
    ChooseFromPool(nodes, weights, exhausted, size);
    ChooseFromPool(nodes', weights, exhausted', size);
    if ChoiceStays(weights, pool, pool', size) {
      forall d: Draw
        ensures var before, after := Chosen(d, weights, pool, size), Chosen(d, weights, pool', size);
                && (x !in before ==> after == before) && before - {x} <= after && |after - before| <= 1
      {
        LosingNode(d, weights, pool, pool', size, x);
      }
    } else {
      var d, b := MovingTellsApart(weights, pool, pool', size);
      assert b in ChooseNodes(d, nodes, weights, exhausted, size) - {x};
    }
  }

  /** The same for hosts whose nodes to choose from are all known. */
  lemma HostsShareChoice(d: Draw, nodes: seq<NodeId>, nodes': seq<NodeId>, weights: map<NodeId, real>,
                         exhausted: set<NodeId>, exhausted': set<NodeId>, size: nat, x: NodeId)
    requires NodesOf(Pool(nodes, exhausted)) <= weights.Keys && x in NodesOf(Pool(nodes, exhausted))
    requires NodesOf(Pool(nodes', exhausted')) == NodesOf(Pool(nodes, exhausted)) - {x}
    ensures var before := ChooseNodes(d, nodes, weights, exhausted, size);
            var after := ChooseNodes(d, nodes', weights, exhausted', size);
            && (x !in before ==> after == before)
            && before - {x} <= after
            && |after - before| <= 1
  {
    LosingNodeIff(nodes, nodes', weights, exhausted, exhausted', size, x);
  }

  // ---- A known weight rises

  /** The unknown nodes do not gain on x. */
  predicate RaiseHolds(weights: map<NodeId, real>, pool: seq<NodeId>, x: NodeId, w: real)
    requires x in weights
  {
    UnknownWorth(weights[x := w], pool) * MaxReal(weights[x], EXHAUSTED_WEIGHT) <= MaxReal(w, EXHAUSTED_WEIGHT) * UnknownWorth(weights, pool)
  }

  /** Nor do they gain or lose against the other known nodes. */
  predicate OthersHold(weights: map<NodeId, real>, pool: seq<NodeId>, x: NodeId, w: real) {
    NodesOf(pool) - {x} !! weights.Keys || UnknownWorth(weights[x := w], pool) == UnknownWorth(weights, pool)
  }

  /** The size cuts nothing, or all nodes are known, or the unknown ones do not gain on x. */
  predicate RaiseKeepsNode(weights: map<NodeId, real>, pool: seq<NodeId>, size: nat, x: NodeId, w: real)
    requires x in weights
  {
    size == 0 || |NodesOf(pool)| <= size || NodesOf(pool) <= weights.Keys || RaiseHolds(weights, pool, x, w)
  }

  /** In the last case, besides, one node is chosen or they keep their ratio to the other known ones. */
  predicate RaiseKeepsAll(weights: map<NodeId, real>, pool: seq<NodeId>, size: nat, x: NodeId, w: real)
    requires x in weights
  {
    || size == 0 || |NodesOf(pool)| <= size || NodesOf(pool) <= weights.Keys
    || (RaiseHolds(weights, pool, x, w) && (size == 1 || OthersHold(weights, pool, x, w)))
  }

  lemma RaisedWorth(weights: map<NodeId, real>, pool: seq<NodeId>, x: NodeId, w: real, n: NodeId)
    requires x in weights && w >= weights[x] && x in pool && n in pool
    ensures Worth(Weigh(weights, pool), n) ==
            if n in weights then MaxReal(weights[n], EXHAUSTED_WEIGHT) else UnknownWorth(weights, pool)
    ensures Worth(Weigh(weights[x := w], pool), n) ==
            if n == x then MaxReal(w, EXHAUSTED_WEIGHT)
            else if n in weights then MaxReal(weights[n], EXHAUSTED_WEIGHT) else UnknownWorth(weights[x := w], pool)
  {
    WorthInPool(weights, pool, n);
    WorthInPool(weights[x := w], pool, n);
  }

  lemma RaisedGains(weights: map<NodeId, real>, pool: seq<NodeId>, x: NodeId, w: real, n: NodeId)
    requires x in weights && w >= weights[x] && x in pool && n in pool
    requires n in weights || RaiseHolds(weights, pool, x, w)
    ensures GainsOn(Weigh(weights, pool), Weigh(weights[x := w], pool), x, n)
  {
    RaisedWorth(weights, pool, x, w, x);
    RaisedWorth(weights, pool, x, w, n);
    if n == x {
      EvenGain(Weigh(weights, pool), Weigh(weights[x := w], pool), x, n);
    } else if n in weights {
      MoreGain(Weigh(weights, pool), Weigh(weights[x := w], pool), x, n);
    }
  }

  lemma UnknownGains(weights: map<NodeId, real>, pool: seq<NodeId>, x: NodeId, w: real, u: NodeId)
    requires x in weights && w >= weights[x] && x in pool && u in pool
    requires u !in weights && !RaiseHolds(weights, pool, x, w)
    ensures !GainsOn(Weigh(weights, pool), Weigh(weights[x := w], pool), x, u)
  {
    RaisedWorth(weights, pool, x, w, x);
    RaisedWorth(weights, pool, x, w, u);
  }

  lemma OthersGain(weights: map<NodeId, real>, pool: seq<NodeId>, x: NodeId, w: real, a: NodeId, b: NodeId)
    requires x in weights && w >= weights[x] && x in pool && a in pool && b in pool && a != x && b != x
    requires NodesOf(pool) <= weights.Keys || OthersHold(weights, pool, x, w)
    ensures GainsOn(Weigh(weights, pool), Weigh(weights[x := w], pool), a, b)
  {
    RaisedWorth(weights, pool, x, w, a);
    RaisedWorth(weights, pool, x, w, b);
    assert a in NodesOf(pool) - {x} && b in NodesOf(pool) - {x};
    EvenGain(Weigh(weights, pool), Weigh(weights[x := w], pool), a, b);
  }

  lemma RaisedNodeStays(d: Draw, weights: map<NodeId, real>, pool: seq<NodeId>, size: nat, x: NodeId, w: real)
    requires x in weights && w >= weights[x] && x in NodesOf(pool) && RaiseKeepsNode(weights, pool, size, x, w)
    ensures x in Chosen(d, weights, pool, size) ==> x in Chosen(d, weights[x := w], pool, size)
  {
    var c, c' := Weigh(weights, pool), Weigh(weights[x := w], pool);
    if size == 0 || |NodesOf(pool)| <= size {
      ChosenCard(d, weights, pool, size);
      ChosenCard(d, weights[x := w], pool, size);
    } else {
      forall n | n in NodesOf(pool) && !NodeBefore(d, c, n, x)
        ensures !NodeBefore(d, c', n, x)
      {
        RaisedGains(weights, pool, x, w, n);
        StillNotBeaten(d, c, c', x, n);
      }
      SubsetCard(NodeBeaters(d, NodesOf(pool), c', x), NodeBeaters(d, NodesOf(pool), c, x));
    }
  }

  lemma RaiseTellsApart(weights: map<NodeId, real>, pool: seq<NodeId>, size: nat, x: NodeId, w: real) returns (d: Draw)
    requires x in weights && w >= weights[x] && x in NodesOf(pool) && !RaiseKeepsNode(weights, pool, size, x, w)
    ensures x in Chosen(d, weights, pool, size) && x !in Chosen(d, weights[x := w], pool, size)
  {
    var u := Outside(NodesOf(pool), weights.Keys);
    UnknownGains(weights, pool, x, w, u);
    d := CutApart(NodesOf(pool), NodesOf(pool), Weigh(weights, pool), Weigh(weights[x := w], pool), {}, size, u, x);
  }

  /** That a chosen node whose known weight rises keeps its place holds for every draw exactly when the unknown nodes, whose
      median the raise moves, do not gain on it. */
  lemma RaisingKeepsNodeIff(nodes: seq<NodeId>, weights: map<NodeId, real>, exhausted: set<NodeId>, size: nat, x: NodeId, w: real)
    requires x in weights && w >= weights[x] && x in NodesOf(Pool(nodes, exhausted))
    ensures RaiseKeepsNode(weights, Pool(nodes, exhausted), size, x, w) <==>
            forall d: Draw :: x in ChooseNodes(d, nodes, weights, exhausted, size) ==>
              x in ChooseNodes(d, nodes, weights[x := w], exhausted, size)
  {
    var pool := Pool(nodes, exhausted);
    ChooseFromPool(nodes, weights, exhausted, size);
    ChooseFromPool(nodes, weights[x := w], exhausted, size);
    if RaiseKeepsNode(weights, pool, size, x, w) {
      forall d: Draw | x in Chosen(d, weights, pool, size)
        ensures x in Chosen(d, weights[x := w], pool, size)
      {
        RaisedNodeStays(d, weights, pool, size, x, w);
      }
    } else {
      var d := RaiseTellsApart(weights, pool, size, x, w);
      assert x in ChooseNodes(d, nodes, weights, exhausted, size);
    }
  }

  lemma RaisingCut(d: Draw, weights: map<NodeId, real>, pool: seq<NodeId>, size: nat, x: NodeId, w: real)
    requires x in weights && w >= weights[x] && x in pool
    requires NodesOf(pool) <= weights.Keys || RaiseHolds(weights, pool, x, w)
    requires var cut := Chosen(d, weights, pool, size);
             x in cut && |cut| == size && (cut == {x} || NodesOf(pool) <= weights.Keys || OthersHold(weights, pool, x, w))
    ensures Chosen(d, weights[x := w], pool, size) == Chosen(d, weights, pool, size)
  {
    var c, c' := Weigh(weights, pool), Weigh(weights[x := w], pool);
    var cut := NodeTop(d, NodesOf(pool), c, size);
    forall a, b | a in cut && b in NodesOf(pool) - cut
      ensures NodeBefore(d, c', a, b)
    {
      ChosenNodeBeats(d, NodesOf(pool), c, size, a, b);
      if a == x {
        RaisedGains(weights, pool, x, w, b);
      } else {
        OthersGain(weights, pool, x, w, a, b);
      }
      GainKeepsOrder(d, c, c', a, b);
    }
    CutIsTop(d, NodesOf(pool), c', cut);
  }

  lemma RaisingNode(d: Draw, weights: map<NodeId, real>, pool: seq<NodeId>, size: nat, x: NodeId, w: real)
    requires x in weights && w >= weights[x] && x in NodesOf(pool) && RaiseKeepsAll(weights, pool, size, x, w)
    ensures x in Chosen(d, weights, pool, size) ==> Chosen(d, weights[x := w], pool, size) == Chosen(d, weights, pool, size)
  {
    var cut := Chosen(d, weights, pool, size);
    ChosenCard(d, weights, pool, size);
    ChosenCard(d, weights[x := w], pool, size);
    if |NodesOf(pool)| > size && x in cut {
      SubsetCard({x}, cut);
      RaisingCut(d, weights, pool, size, x, w);
    }
  }

  lemma OthersTellApart(weights: map<NodeId, real>, pool: seq<NodeId>, size: nat, x: NodeId, w: real) returns (d: Draw, b: NodeId)
    requires x in weights && w >= weights[x] && x in NodesOf(pool)
    requires 1 < size < |NodesOf(pool)| && !(NodesOf(pool) <= weights.Keys) && !OthersHold(weights, pool, x, w)
    ensures x in Chosen(d, weights, pool, size)
    ensures b in Chosen(d, weights, pool, size) && b !in Chosen(d, weights[x := w], pool, size)
  {
    var known := Common(NodesOf(pool) - {x}, weights.Keys);
    var unknown := Outside(NodesOf(pool), weights.Keys);
    RaisedWorth(weights, pool, x, w, known);
    RaisedWorth(weights, pool, x, w, unknown);
    var a;
    a, b := MovedPair(Weigh(weights, pool), Weigh(weights[x := w], pool), known, unknown);
    d := CutApart(NodesOf(pool), NodesOf(pool), Weigh(weights, pool), Weigh(weights[x := w], pool), {x}, size, a, b);
  }

  lemma RaisingTellsApart(weights: map<NodeId, real>, pool: seq<NodeId>, size: nat, x: NodeId, w: real) returns (d: Draw)
    requires x in weights && w >= weights[x] && x in NodesOf(pool) && !RaiseKeepsAll(weights, pool, size, x, w)
    ensures x in Chosen(d, weights, pool, size)
    ensures Chosen(d, weights, pool, size) != Chosen(d, weights[x := w], pool, size)
  {
    if RaiseHolds(weights, pool, x, w) {
      var b;
      d, b := OthersTellApart(weights, pool, size, x, w);
    } else {
      d := RaiseTellsApart(weights, pool, size, x, w);
    }
  }

  /** That raising the known weight of a chosen node changes no choice at all holds for every draw exactly when, besides, one
      node is chosen or the unknown nodes keep their ratio to the other known ones. */
  lemma RaisingIff(nodes: seq<NodeId>, weights: map<NodeId, real>, exhausted: set<NodeId>, size: nat, x: NodeId, w: real)
    requires x in weights && w >= weights[x] && x in NodesOf(Pool(nodes, exhausted))
    ensures RaiseKeepsAll(weights, Pool(nodes, exhausted), size, x, w) <==>
            forall d: Draw :: x in ChooseNodes(d, nodes, weights, exhausted, size) ==>
              ChooseNodes(d, nodes, weights[x := w], exhausted, size) == ChooseNodes(d, nodes, weights, exhausted, size)
  {
    var pool := Pool(nodes, exhausted);
    ChooseFromPool(nodes, weights, exhausted, size);
    ChooseFromPool(nodes, weights[x := w], exhausted, size);
    if RaiseKeepsAll(weights, pool, size, x, w) {
      forall d: Draw | x in Chosen(d, weights, pool, size)
        ensures Chosen(d, weights[x := w], pool, size) == Chosen(d, weights, pool, size)
      {
        RaisingNode(d, weights, pool, size, x, w);
      }
    } else {
      var d := RaisingTellsApart(weights, pool, size, x, w);
      assert x in ChooseNodes(d, nodes, weights, exhausted, size);
    }
  }

  /** With known weights, a chosen node keeps its place when its weight rises, and so do all others. */
  lemma RaisingChosenNode(d: Draw, nodes: seq<NodeId>, weights: map<NodeId, real>, exhausted: set<NodeId>, size: nat, x: NodeId, w: real)
    requires NodesOf(Pool(nodes, exhausted)) <= weights.Keys && x in NodesOf(Pool(nodes, exhausted)) && w >= weights[x]
    ensures x in ChooseNodes(d, nodes, weights, exhausted, size) ==>
              ChooseNodes(d, nodes, weights[x := w], exhausted, size) == ChooseNodes(d, nodes, weights, exhausted, size)
  {
    RaisingIff(nodes, weights, exhausted, size, x, w);
  }

  // ---- Weights of at least one

  lemma OneMoreWithin(x: real, s: seq<real>, y: real, t: seq<real>, g: real)
    requires Below(s, Mapped(t, Times(g))) && x <= g * y
    ensures Below([x] + s, Mapped([y] + t, Times(g)))
  {
  }

  lemma {:induction false} KnownWithin(weights: map<NodeId, real>, pool: seq<NodeId>, x: NodeId, w: real, g: real)
    requires x in weights && g >= 1.0 && w == g * weights[x] && forall n | n in pool && n in weights :: weights[n] >= 1.0
    ensures Below(KnownWeights(weights[x := w], pool), Mapped(KnownWeights(weights, pool), Times(g)))
    ensures forall v | v in KnownWeights(weights, pool) :: v >= 1.0
  {
    if pool != [] {
      KnownWithin(weights, pool[1..], x, w, g);
      if pool[0] in weights {
        Scale(1.0, g, weights[pool[0]]);
        OneMoreWithin(weights[x := w][pool[0]], KnownWeights(weights[x := w], pool[1..]),
                      weights[pool[0]], KnownWeights(weights, pool[1..]), g);
      } else {
        assert KnownWeights(weights, pool) == KnownWeights(weights, pool[1..]);
        assert KnownWeights(weights[x := w], pool) == KnownWeights(weights[x := w], pool[1..]);
      }
    }
  }

  lemma Factor(v: real, w: real) returns (g: real)
    requires 0.0 < v <= w
    ensures g >= 1.0 && w == g * v
  {
    g := w / v;
    Scale(1.0, g, v);
  }

  lemma AtMostScaled(m': real, m: real, g: real, v: real, w: real)
    requires m' <= g * m && g >= 1.0 && m >= 1.0 && v >= 1.0 && w == g * v
    ensures MaxReal(m', EXHAUSTED_WEIGHT) * v <= w * m
    ensures w >= 1.0
  {
    Scale(1.0, g, m);
    Scale(MaxReal(m', EXHAUSTED_WEIGHT), g * m, v);
    assert (g * m) * v == (g * v) * m;
    Scale(1.0, g, v);
  }

  /** With known weights of at least one the median never gains on a raised weight. */
  lemma RaiseHoldsFromOne(weights: map<NodeId, real>, pool: seq<NodeId>, x: NodeId, w: real)
    requires x in weights && w >= weights[x] && x in pool
    requires forall n | n in pool && n in weights :: weights[n] >= 1.0
    ensures RaiseHolds(weights, pool, x, w)
  {
    var g := Factor(weights[x], w);
    var known, raised := KnownWeights(weights, pool), KnownWeights(weights[x := w], pool);
    KnownWithin(weights, pool, x, w, g);
    SomeKnown(weights, pool, x);
    MedianWithin(raised, known, g);
    MedianAtLeast(known, 1.0);
    AtMostScaled(Median(raised), Median(known), g, weights[x], w);
  }

  /** With weights of at least one, as remaining bytes are, a chosen node whose weight rises keeps its place, and when one
      node is chosen nothing changes. */
  lemma RaisedNodeKeepsPlace(d: Draw, nodes: seq<NodeId>, weights: map<NodeId, real>, exhausted: set<NodeId>, size: nat, x: NodeId, w: real)
    requires x in weights && w >= weights[x] && x in NodesOf(Pool(nodes, exhausted))
    requires forall n | n in Pool(nodes, exhausted) && n in weights :: weights[n] >= 1.0
    ensures x in ChooseNodes(d, nodes, weights, exhausted, size) ==> x in ChooseNodes(d, nodes, weights[x := w], exhausted, size)
    ensures x in ChooseNodes(d, nodes, weights, exhausted, 1) ==>
              ChooseNodes(d, nodes, weights[x := w], exhausted, 1) == ChooseNodes(d, nodes, weights, exhausted, 1)
  {
    RaiseHoldsFromOne(weights, Pool(nodes, exhausted), x, w);
    RaisingKeepsNodeIff(nodes, weights, exhausted, size, x, w);
    RaisingIff(nodes, weights, exhausted, 1, x, w);
  }

  // ---- Hosts where an unknown node moves

  lemma KnownOfOne(weights: map<NodeId, real>, n: NodeId, rest: seq<NodeId>)
    ensures KnownWeights(weights, [n] + rest) == (if n in weights then [weights[n]] else []) + KnownWeights(weights, rest)
  {
    assert ([n] + rest)[1..] == rest;
  }

  /** A node of unknown weight beside a known one is worth as much as that one. */
  lemma UnknownOfTwo(weights: map<NodeId, real>, pool: seq<NodeId>, x: NodeId, z: NodeId)
    requires pool == [x, z] && x in weights && z !in weights
    ensures UnknownWorth(weights, pool) == MaxReal(weights[x], EXHAUSTED_WEIGHT)
    ensures NodesOf(pool) == {x, z} && Pool(pool, {}) == pool
  {
    assert pool == [x] + ([z] + []);
    KnownOfOne(weights, x, [z] + []);
    KnownOfOne(weights, z, []);
    MedianOfOne(weights[x]);
    NobodyExhausted(pool);
  }

  /** Beside two known ones, their mean. */
  lemma UnknownOfThree(weights: map<NodeId, real>, pool: seq<NodeId>, x: NodeId, y: NodeId, z: NodeId)
    requires pool == [x, y, z] && x in weights && y in weights && z !in weights
    ensures UnknownWorth(weights, pool) == MaxReal((weights[x] + weights[y]) / 2.0, EXHAUSTED_WEIGHT)
    ensures NodesOf(pool) == {x, y, z} && Pool(pool, {}) == pool
  {
    assert pool == [x] + ([y] + ([z] + []));
    KnownOfOne(weights, x, [y] + ([z] + []));
    KnownOfOne(weights, y, [z] + []);
    KnownOfOne(weights, z, []);
    assert KnownWeights(weights, pool) == [weights[x], weights[y]];
    MedianOfTwo(weights[x], weights[y]);
    NobodyExhausted(pool);
  }

  /** A host of a known node x and an unknown z, which y leaves whose weight is another one: under some hash function the
      choice changes though y was not chosen. */
  lemma MedianMoves(weights: map<NodeId, real>, pool: seq<NodeId>, pool': seq<NodeId>, x: NodeId, y: NodeId, z: NodeId)
    requires pool == [x, y, z] && pool' == [x, z] && x != y && x in weights && y in weights && z !in weights
    requires 1.0 <= weights[y] < weights[x]
    ensures exists d: Draw :: y !in ChooseNodes(d, pool, weights, {}, 1) &&
              ChooseNodes(d, pool', weights, {}, 1) != ChooseNodes(d, pool, weights, {}, 1)
  {
    UnknownOfThree(weights, pool, x, y, z);
    UnknownOfTwo(weights, pool', x, z);
    assert x in NodesOf(pool') && z in NodesOf(pool');
    LosingNodeIff(pool, pool', weights, {}, {}, 1, y);
  }

  lemma MedianMovesChoice()
    ensures exists d: Draw :: 2 !in ChooseNodes(d, [1, 2, 3], map[1 := 100.0, 2 := 1.0], {}, 1) &&
              ChooseNodes(d, [1, 3], map[1 := 100.0, 2 := 1.0], {}, 1) != ChooseNodes(d, [1, 2, 3], map[1 := 100.0, 2 := 1.0], {}, 1)
  {
    MedianMoves(map[1 := 100.0, 2 := 1.0], [1, 2, 3], [1, 3], 1, 2, 3);
  }

  /** Two nodes are chosen of x and y known and z unknown: under some hash function, raising the weight of x, which is chosen,
      changes the other one. */
  lemma RaiseMoves(weights: map<NodeId, real>, pool: seq<NodeId>, x: NodeId, y: NodeId, z: NodeId, w: real)
    requires pool == [x, y, z] && x != y && x in weights && y in weights && z !in weights
    requires 1.0 <= weights[y] && 1.0 <= weights[x] < w
    ensures exists d: Draw :: x in ChooseNodes(d, pool, weights, {}, 2) &&
              ChooseNodes(d, pool, weights[x := w], {}, 2) != ChooseNodes(d, pool, weights, {}, 2)
  {
    UnknownOfThree(weights, pool, x, y, z);
    UnknownOfThree(weights[x := w], pool, x, y, z);
    assert y in NodesOf(pool) - {x} && z in NodesOf(pool);
    RaisingIff(pool, weights, {}, 2, x, w);
  }

  lemma RaiseMovesOthers()
    ensures exists d: Draw :: 1 in ChooseNodes(d, [1, 2, 3], map[1 := 100.0, 2 := 10.0], {}, 2) &&
              ChooseNodes(d, [1, 2, 3], map[1 := 100.0, 2 := 10.0][1 := 300.0], {}, 2) !=
              ChooseNodes(d, [1, 2, 3], map[1 := 100.0, 2 := 10.0], {}, 2)
  {
    RaiseMoves(map[1 := 100.0, 2 := 10.0], [1, 2, 3], 1, 2, 3, 300.0);
  }

  /** Below one, where weights are cut off, the raise moves the median but not the worth of x, which can lose its place. */
  lemma RaiseLosesNode(weights: map<NodeId, real>, pool: seq<NodeId>, x: NodeId, y: NodeId, z: NodeId, w: real)
    requires pool == [x, y, z] && x != y && x in weights && y in weights && z !in weights
    requires weights[x] < w <= 1.0 && weights[x] + weights[y] >= 2.0
    ensures exists d: Draw :: x in ChooseNodes(d, pool, weights, {}, 1) && x !in ChooseNodes(d, pool, weights[x := w], {}, 1)
  {
    UnknownOfThree(weights, pool, x, y, z);
    UnknownOfThree(weights[x := w], pool, x, y, z);
    assert z in NodesOf(pool);
    RaisingKeepsNodeIff(pool, weights, {}, 1, x, w);
  }

  lemma RaiseLosesNodeExample()
    ensures exists d: Draw :: 1 in ChooseNodes(d, [1, 2, 3], map[1 := 0.0, 2 := 4.0], {}, 1) &&
              1 !in ChooseNodes(d, [1, 2, 3], map[1 := 0.0, 2 := 4.0][1 := 1.0], {}, 1)
  {
    RaiseLosesNode(map[1 := 0.0, 2 := 4.0], [1, 2, 3], 1, 2, 3, 1.0);
  }
}
