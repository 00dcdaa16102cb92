/** Weighted rendezvous choice of the addresses of one user, and the epochs the choice is constant in.

    Hashing is a parameter: `energy` is -ln of the unit hash of (user, key, epoch), `unit` the unit hash that
    spreads users over the days of a period. A key is represented by its str(), which is all the source
    hashes and compares; scores are exact. */
module AddressPolicy {
  import opened Options
  import opened Strings

  type Positive = r: real | r > 0.0 witness 1.0
  type UnitHash = r: real | 0.0 < r <= 1.0 witness 1.0

  datatype Hashes = Hashes(energy: (int, string, int) -> Positive, unit: int -> UnitHash)

  /** The hash, the user and the epoch fix one draw. */
  datatype Draw = Draw(hashes: Hashes, user: int, epoch: int)

  datatype Candidate = Candidate(key: string, weight: real)

  const EXHAUSTED_WEIGHT := 1.0

  function MaxReal(a: real, b: real): real {
    if a < b then b else a
  }

  function Energy(d: Draw, key: string): Positive {
    d.hashes.energy(d.user, key, d.epoch)
  }

  function Score(d: Draw, c: Candidate): real {
    MaxReal(c.weight, EXHAUSTED_WEIGHT) / Energy(d, c.key)
  }

  /** Higher score first, then the smaller key. */
  predicate Before(d: Draw, a: Candidate, b: Candidate) {
    Score(d, a) > Score(d, b) || (Score(d, a) == Score(d, b) && LexLess(a.key, b.key))
  }

  function Insert(d: Draw, c: Candidate, ranked: seq<Candidate>): (r: seq<Candidate>)
    ensures |r| == |ranked| + 1
  {
    if ranked == [] || !Before(d, ranked[0], c) then [c] + ranked
    else [ranked[0]] + Insert(d, c, ranked[1..])
  }

  /** The stable sort of the source. */
  function Ranked(d: Draw, cs: seq<Candidate>): (r: seq<Candidate>)
    ensures |r| == |cs|
  {
    if cs == [] then [] else Insert(d, cs[0], Ranked(d, cs[1..]))
  }

  function KeysOf(cs: seq<Candidate>): set<string> {
    set c | c in cs :: c.key
  }

  function KeptKeys(cs: seq<Candidate>, chosen: set<string>): seq<string> {
    if cs == [] then []
    else (if cs[0].key in chosen then [cs[0].key] else []) + KeptKeys(cs[1..], chosen)
  }

  function PickKeys(d: Draw, cs: seq<Candidate>, n: int): seq<string> {
    if n <= 0 || cs == [] then []
    else if |cs| <= n then KeptKeys(cs, KeysOf(cs))
    else KeptKeys(cs, KeysOf(Ranked(d, cs)[..n]))
  }

  // ---- The order

  ghost predicate DistinctKeys(cs: seq<Candidate>) {
    forall i, j | 0 <= i < j < |cs| :: cs[i].key != cs[j].key
  }

  ghost predicate KeysIdentify(s: set<Candidate>) {
    forall a, b | a in s && b in s && a.key == b.key :: a == b
  }

  lemma BeforeIsStrict(d: Draw, a: Candidate, b: Candidate)
    ensures !Before(d, a, a)
    ensures Before(d, a, b) ==> !Before(d, b, a)
  {
    LexIrreflexive(a.key);
    if LexLess(a.key, b.key) && LexLess(b.key, a.key) {
      LexTransitive(a.key, b.key, a.key);
    }
  }

  lemma BeforeIsTransitive(d: Draw, a: Candidate, b: Candidate, c: Candidate)
    requires Before(d, a, b) && Before(d, b, c)
    ensures Before(d, a, c)
  {
    if LexLess(a.key, b.key) && LexLess(b.key, c.key) {
      LexTransitive(a.key, b.key, c.key);
    }
  }

  lemma BeforeIsTotal(d: Draw, a: Candidate, b: Candidate)
    requires a.key != b.key
    ensures Before(d, a, b) || Before(d, b, a)
  {
    LexTotal(a.key, b.key);
  }

  // ---- The reference definition: the candidates that fewer than n others beat

  ghost function Beaters(d: Draw, s: set<Candidate>, c: Candidate): set<Candidate> {
    set b | b in s && Before(d, b, c)
  }

  ghost function Top(d: Draw, s: set<Candidate>, n: int): set<Candidate> {
    set c | c in s && |Beaters(d, s, c)| < n
  }

  lemma BeatersOfBeater(d: Draw, s: set<Candidate>, b: Candidate, c: Candidate)
    requires b in s && Before(d, b, c)
    ensures Beaters(d, s, b) <= Beaters(d, s, c) - {b}
    ensures |Beaters(d, s, b)| < |Beaters(d, s, c)|
  {
    forall a | a in Beaters(d, s, b)
      ensures a in Beaters(d, s, c) - {b}
    {
      BeforeIsTransitive(d, a, b, c);
      BeforeIsStrict(d, b, b);
    }
    SubsetCard(Beaters(d, s, b), Beaters(d, s, c) - {b});
  }

  /** What is chosen beats what is not. */
  lemma ChosenBeatUnchosen(d: Draw, s: set<Candidate>, n: int, a: Candidate, b: Candidate)
    requires KeysIdentify(s) && a in Top(d, s, n) && b in s && b !in Top(d, s, n)
    ensures Before(d, a, b)
  {
    BeforeIsTotal(d, a, b);
    if Before(d, b, a) {
      BeatersOfBeater(d, s, b, a);
    }
  }

  // ---- pick_keys computes the reference definition

  lemma {:induction false} InsertKeeps(d: Draw, c: Candidate, ranked: seq<Candidate>)
    ensures multiset(Insert(d, c, ranked)) == multiset(ranked) + multiset{c}
  {
    if ranked == [] || !Before(d, ranked[0], c) {
      assert multiset([c] + ranked) == multiset{c} + multiset(ranked);
    } else {
      InsertKeeps(d, c, ranked[1..]);
      assert ranked == [ranked[0]] + ranked[1..];
    }
  }

  lemma {:induction false} RankedIsPermutation(d: Draw, cs: seq<Candidate>)
    ensures multiset(Ranked(d, cs)) == multiset(cs)
  {
    if cs != [] {
      RankedIsPermutation(d, cs[1..]);
      InsertKeeps(d, cs[0], Ranked(d, cs[1..]));
      assert cs == [cs[0]] + cs[1..];
    }
  }

  lemma RankedKeeps(d: Draw, cs: seq<Candidate>)
    ensures forall c :: c in Ranked(d, cs) <==> c in cs
  {
    RankedIsPermutation(d, cs);
    forall c: Candidate
      ensures c in Ranked(d, cs) <==> c in cs
    {
      assert c in Ranked(d, cs) <==> c in multiset(Ranked(d, cs));
      assert c in cs <==> c in multiset(cs);
    }
  }

  ghost predicate IsRanked(d: Draw, r: seq<Candidate>) {
    forall i, j | 0 <= i < j < |r| :: Before(d, r[i], r[j])
  }

  lemma {:induction false} InsertRanks(d: Draw, c: Candidate, ranked: seq<Candidate>)
    requires IsRanked(d, ranked) && forall b | b in ranked :: b.key != c.key
    ensures IsRanked(d, Insert(d, c, ranked))
  {
    if ranked == [] {
    } else if !Before(d, ranked[0], c) {
      BeforeIsTotal(d, c, ranked[0]);
      forall j | 0 < j < |ranked|
        ensures Before(d, c, ranked[j])
      {
        BeforeIsTransitive(d, c, ranked[0], ranked[j]);
      }
    } else {
      var rest := Insert(d, c, ranked[1..]);
      InsertRanks(d, c, ranked[1..]);
      InsertKeeps(d, c, ranked[1..]);
      forall j | 0 <= j < |rest|
        ensures Before(d, ranked[0], rest[j])
      {
        assert rest[j] in multiset(rest);
        if rest[j] != c {
          assert rest[j] in ranked[1..];
        }
      }
    }
  }

  lemma {:induction false} RankedIsRanked(d: Draw, cs: seq<Candidate>)
    requires DistinctKeys(cs)
    ensures IsRanked(d, Ranked(d, cs))
  {
    if cs != [] {
      RankedIsRanked(d, cs[1..]);
      RankedKeeps(d, cs[1..]);
      InsertRanks(d, cs[0], Ranked(d, cs[1..]));
    }
  }

  ghost function Elements(cs: seq<Candidate>): set<Candidate> {
    set c | c in cs
  }

  lemma {:induction false} PrefixCard(r: seq<Candidate>, i: nat)
    requires i <= |r| && forall a, b | 0 <= a < b < |r| :: r[a] != r[b]
    ensures |Elements(r[..i])| == i
  {
    if i > 0 {
      PrefixCard(r, i - 1);
      assert r[..i] == r[..i - 1] + [r[i - 1]];
      assert Elements(r[..i]) == Elements(r[..i - 1]) + {r[i - 1]};
      assert r[i - 1] !in r[..i - 1];
    }
  }

  /** In a ranking, the beaters of an element are those before it. */
  lemma BeatersInRanking(d: Draw, r: seq<Candidate>, i: nat)
    requires IsRanked(d, r) && i < |r|
    ensures Beaters(d, Elements(r), r[i]) == Elements(r[..i])
    ensures |Beaters(d, Elements(r), r[i])| == i
  {
    forall j | 0 <= j < |r|
      ensures Before(d, r[j], r[i]) <==> j < i
    {
      BeforeIsStrict(d, r[i], r[j]);
    }
    assert forall a, b | 0 <= a < b < |r| :: r[a] != r[b] by {
      forall a, b | 0 <= a < b < |r|
        ensures r[a] != r[b]
      {
        BeforeIsStrict(d, r[a], r[b]);
      }
    }
    PrefixCard(r, i);
    assert forall c | c in Elements(r[..i]) :: exists j :: 0 <= j < i && r[j] == c;
  }

  lemma TopOfRanking(d: Draw, r: seq<Candidate>, n: nat)
    requires IsRanked(d, r) && n <= |r|
    ensures Top(d, Elements(r), n) == Elements(r[..n])
    ensures |Top(d, Elements(r), n)| == n
  {
    forall i | 0 <= i < |r|
      ensures r[i] in Top(d, Elements(r), n) <==> i < n
    {
      BeatersInRanking(d, r, i);
    }
    forall a, b | 0 <= a < b < |r|
      ensures r[a] != r[b]
    {
      BeforeIsStrict(d, r[a], r[b]);
    }
    PrefixCard(r, n);
  }

  ghost function KeySet(s: set<Candidate>): set<string> {
    set c | c in s :: c.key
  }

  function Min(a: int, b: int): int {
    if a < b then a else b
  }

  lemma TopOfAll(d: Draw, cs: seq<Candidate>, n: nat)
    requires DistinctKeys(cs) && |cs| <= n
    ensures Top(d, Elements(cs), n) == Elements(cs)
    ensures |Elements(cs)| == |cs|
  {
    PrefixCard(cs, |cs|);
    assert cs[..|cs|] == cs;
    forall c | c in cs
      ensures c in Top(d, Elements(cs), n)
    {
      BeforeIsStrict(d, c, c);
      SubsetCard(Beaters(d, Elements(cs), c), Elements(cs) - {c});
    }
  }

  lemma TopOfRanked(d: Draw, cs: seq<Candidate>, n: nat)
    requires DistinctKeys(cs) && n <= |cs|
    ensures Top(d, Elements(cs), n) == Elements(Ranked(d, cs)[..n])
    ensures |Top(d, Elements(cs), n)| == n
  {
    var r := Ranked(d, cs);
    RankedIsRanked(d, cs);
    RankedKeeps(d, cs);
    assert Elements(r) == Elements(cs);
    TopOfRanking(d, r, n);
  }

  /** Which keys are picked, and how many: min(n, count) of them, whatever their order. */
  lemma ChosenAreTop(d: Draw, cs: seq<Candidate>, n: int)
    requires DistinctKeys(cs)
    ensures PickKeys(d, cs, n) == KeptKeys(cs, KeySet(Top(d, Elements(cs), n)))
    ensures |Top(d, Elements(cs), n)| == Max(0, Min(n, |cs|))
  {
    if n <= 0 {
      assert Top(d, Elements(cs), n) == {};
      KeptNone(cs);
    } else if |cs| <= n {
      TopOfAll(d, cs, n);
      assert KeySet(Elements(cs)) == KeysOf(cs);
    } else {
      TopOfRanked(d, cs, n);
      assert KeySet(Elements(Ranked(d, cs)[..n])) == KeysOf(Ranked(d, cs)[..n]);
    }
  }

  lemma {:induction false} KeptNone(cs: seq<Candidate>)
    ensures KeptKeys(cs, {}) == []
  {
    if cs != [] {
      KeptNone(cs[1..]);
    }
  }

  // ---- Minimal disruption

  lemma {:induction false} KeptMembers(cs: seq<Candidate>, chosen: set<string>)
    ensures forall k :: k in KeptKeys(cs, chosen) <==> k in chosen && k in KeysOf(cs)
    ensures |KeptKeys(cs, chosen)| <= |cs|
  {
    if cs != [] {
      KeptMembers(cs[1..], chosen);
      assert cs == [cs[0]] + cs[1..];
      assert KeysOf(cs) == KeysOf(cs[1..]) + {cs[0].key};
    }
  }

  lemma {:induction false} KeptCount(cs: seq<Candidate>, chosen: set<string>)
    requires DistinctKeys(cs)
    ensures |KeptKeys(cs, chosen)| == |chosen * KeysOf(cs)|
  {
    if cs != [] {
      KeptCount(cs[1..], chosen);
      assert cs == [cs[0]] + cs[1..];
      assert KeysOf(cs) == KeysOf(cs[1..]) + {cs[0].key};
      OneMoreCommon(chosen, KeysOf(cs[1..]), cs[0].key);
    }
  }

  lemma OneMoreCommon<T>(a: set<T>, b: set<T>, x: T)
    requires x !in b
    ensures |a * (b + {x})| == |a * b| + (if x in a then 1 else 0)
  {
    if x in a {
      assert a * (b + {x}) == a * b + {x};
    } else {
      assert a * (b + {x}) == a * b;
    }
  }

  ghost function Picked(d: Draw, cs: seq<Candidate>, n: int): set<string> {
    set k | k in PickKeys(d, cs, n)
  }

  lemma PickedIsTop(d: Draw, cs: seq<Candidate>, n: int)
    requires DistinctKeys(cs)
    ensures Picked(d, cs, n) == KeySet(Top(d, Elements(cs), n))
    ensures KeysIdentify(Elements(cs))
  {
    ChosenAreTop(d, cs, n);
    KeptMembers(cs, KeySet(Top(d, Elements(cs), n)));
  }

  lemma KeySetCard(s: set<Candidate>)
    requires KeysIdentify(s)
    ensures |KeySet(s)| == |s|
    decreases |s|
  {
    if s != {} {
      var c := AnElement(s);
      KeySetCard(s - {c});
      assert KeySet(s) == KeySet(s - {c}) + {c.key};
      assert c.key !in KeySet(s - {c});
    }
  }

  /** The answer has exactly min(n, count) keys and depends on the candidates, not on their order. */
  lemma PickSizeAndOrder(d: Draw, cs: seq<Candidate>, cs': seq<Candidate>, n: int)
    requires DistinctKeys(cs) && DistinctKeys(cs') && Elements(cs) == Elements(cs')
    ensures Picked(d, cs, n) == Picked(d, cs', n)
    ensures |PickKeys(d, cs, n)| == |Picked(d, cs, n)| == Max(0, Min(n, |cs|))
  {
    PickedIsTop(d, cs, n);
    PickedIsTop(d, cs', n);
    ChosenAreTop(d, cs, n);
    var top := Top(d, Elements(cs), n);
    KeySetCard(top);
    KeptMembers(cs, KeySet(top));
    KeptCount(cs, KeySet(top));
    assert KeySet(top) * KeysOf(cs) == KeySet(top);
  }

  lemma TopWithoutUnchosen(d: Draw, s: set<Candidate>, n: int, x: Candidate)
    requires x in s && x !in Top(d, s, n)
    ensures Top(d, s - {x}, n) == Top(d, s, n)
  {
    forall c | c in s - {x}
      ensures c in Top(d, s - {x}, n) <==> c in Top(d, s, n)
    {
      if Before(d, x, c) {
        BeatersOfBeater(d, s, x, c);
        assert Beaters(d, s - {x}, c) == Beaters(d, s, c) - {x};
      } else {
        assert Beaters(d, s - {x}, c) == Beaters(d, s, c);
      }
    }
  }

  lemma TopWithoutOne(d: Draw, s: set<Candidate>, n: int, x: Candidate)
    ensures Top(d, s, n) - {x} <= Top(d, s - {x}, n)
  {
    forall c | c in Top(d, s, n) - {x}
      ensures c in Top(d, s - {x}, n)
    {
      SubsetCard(Beaters(d, s - {x}, c), Beaters(d, s, c));
    }
  }

  function Without(cs: seq<Candidate>, i: nat): seq<Candidate>
    requires i < |cs|
  {
    cs[..i] + cs[i + 1..]
  }

  lemma WithoutElements(cs: seq<Candidate>, i: nat)
    requires DistinctKeys(cs) && i < |cs|
    ensures Elements(Without(cs, i)) == Elements(cs) - {cs[i]} && DistinctKeys(Without(cs, i))
  {
    forall c
      ensures c in Without(cs, i) <==> c in cs && c != cs[i]
    {
      if c in cs && c != cs[i] {
        var j :| 0 <= j < |cs| && cs[j] == c;
        assert c == if j < i then Without(cs, i)[j] else Without(cs, i)[j - 1];
      }
    }
  }

  /** Removing a key that was not picked changes nothing. */
  lemma RemovingUnpicked(d: Draw, cs: seq<Candidate>, n: int, i: nat)
    requires DistinctKeys(cs) && i < |cs| && cs[i].key !in Picked(d, cs, n)
    ensures Picked(d, Without(cs, i), n) == Picked(d, cs, n)
  {
    WithoutElements(cs, i);
    PickedIsTop(d, cs, n);
    PickedIsTop(d, Without(cs, i), n);
    TopWithoutUnchosen(d, Elements(cs), n, cs[i]);
  }

  /** Removing a picked key keeps all other picks and brings in at most one. Read from right to left, adding
      a key displaces at most one. */
  lemma RemovingPicked(d: Draw, cs: seq<Candidate>, n: int, i: nat)
    requires DistinctKeys(cs) && i < |cs|
    ensures Picked(d, cs, n) - {cs[i].key} <= Picked(d, Without(cs, i), n)
    ensures |Picked(d, Without(cs, i), n) - Picked(d, cs, n)| <= 1
    ensures cs[i].key !in Picked(d, Without(cs, i), n)
  {
    WithoutElements(cs, i);
    PickedIsTop(d, cs, n);
    PickedIsTop(d, Without(cs, i), n);
    TopWithoutOne(d, Elements(cs), n, cs[i]);
    if cs[i].key !in Picked(d, cs, n) {
      RemovingUnpicked(d, cs, n, i);
      assert Picked(d, Without(cs, i), n) - Picked(d, cs, n) == {};
    } else {
      PickSizeAndOrder(d, cs, cs, n);
      PickSizeAndOrder(d, Without(cs, i), Without(cs, i), n);
      SwapBound(Picked(d, cs, n), Picked(d, Without(cs, i), n), cs[i].key);
    }
  }

  lemma SwapBound(before: set<string>, after: set<string>, k: string)
    requires k in before && k !in after && before - {k} <= after && |after| <= |before|
    ensures |after - before| <= 1
  {
    assert after == (before - {k}) + (after - before);
    assert |after| == |before - {k}| + |after - before|;
  }

  /** Raising the weight of a picked key changes nothing at all; in particular the key stays. */
  lemma RaisingPicked(d: Draw, cs: seq<Candidate>, n: int, i: nat, weight: real)
    requires DistinctKeys(cs) && i < |cs| && cs[i].key in Picked(d, cs, n) && weight >= cs[i].weight
    ensures DistinctKeys(cs[i := Candidate(cs[i].key, weight)])
    ensures Picked(d, cs[i := Candidate(cs[i].key, weight)], n) == Picked(d, cs, n)
  {
    var c, c' := cs[i], Candidate(cs[i].key, weight);
    var cs' := cs[i := c'];
    var s, s' := Elements(cs), Elements(cs');
    PickedIsTop(d, cs, n);
    PickedIsTop(d, cs', n);
    assert c in Top(d, s, n);
    assert s' == s - {c} + {c'} by {
      forall x
        ensures x in cs' <==> (x in cs && x != c) || x == c'
      {
        assert cs'[i] == c';
        if x in cs && x != c {
          var j :| 0 <= j < |cs| && cs[j] == x;
          assert cs'[j] == x;
        }
      }
    }
    RaisedScore(d, c, c');
    forall b | b in s' && b !in Top(d, s, n) && b != c'
      ensures b !in Top(d, s', n)
    {
      assert b in s && b.key != c.key;
      ChosenBeatUnchosen(d, s, n, c, b);
      ReplacedBeater(d, s, s', c, c', b);
    }
    assert KeySet(Top(d, s', n)) <= KeySet(Top(d, s, n));
    PickSizeAndOrder(d, cs, cs, n);
    PickSizeAndOrder(d, cs', cs', n);
    SubsetCard(Picked(d, cs', n), Picked(d, cs, n));
  }

  lemma RaisedScore(d: Draw, c: Candidate, c': Candidate)
    requires c.key == c'.key && c.weight <= c'.weight
    ensures Score(d, c) <= Score(d, c')
    ensures forall b :: Before(d, c, b) ==> Before(d, c', b)
  {
    DivideMonotone(MaxReal(c.weight, EXHAUSTED_WEIGHT), MaxReal(c'.weight, EXHAUSTED_WEIGHT), Energy(d, c.key));
  }

  lemma DivideMonotone(x: real, y: real, e: real)
    requires x <= y && e > 0.0
    ensures x / e <= y / e
  {
    assert x / e == x * (1.0 / e) && y / e == y * (1.0 / e);
  }

  lemma ReplacedBeater(d: Draw, s: set<Candidate>, s': set<Candidate>, c: Candidate, c': Candidate, b: Candidate)
    requires KeysIdentify(s) && c in s && c.key == c'.key && s' == s - {c} + {c'}
    requires Before(d, c, b) && Before(d, c', b)
    ensures |Beaters(d, s', b)| == |Beaters(d, s, b)|
  {
    assert Beaters(d, s', b) == Beaters(d, s, b) - {c} + {c'};
  }

  lemma {:induction false} FewKeys(cs: seq<Candidate>)
    ensures |KeysOf(cs)| <= |cs|
  {
    if cs != [] {
      FewKeys(cs[1..]);
      assert cs == [cs[0]] + cs[1..];
      assert KeysOf(cs) == KeysOf(cs[1..]) + {cs[0].key};
    }
  }

  /** Repeated keys or not, at most n different keys are answered. */
  lemma PickedAtMost(d: Draw, cs: seq<Candidate>, n: nat)
    ensures |Picked(d, cs, n)| <= n
  {
    if 0 < n && cs != [] {
      var kept := if |cs| <= n then cs else Ranked(d, cs)[..n];
      FewKeys(kept);
      KeptMembers(cs, KeysOf(kept));
      SubsetCard(Picked(d, cs, n), KeysOf(kept));
    } else {
      assert Picked(d, cs, n) == {};
    }
  }

  // ---- Epochs

  function Smear(h: Hashes, user: int, period: int): (s: int)
    requires period >= 1
    ensures 0 <= s < period
  {
    Shift(h.unit(user), period)
  }

  function Shift(unit: UnitHash, period: int): (s: int)
    requires period >= 1
    ensures 0 <= s < period
  {
    (unit * period as real).Floor % period
  }

  function EpochFor(h: Hashes, user: int, day: int, periodDays: int, offset: int): int {
    var period := Max(1, periodDays);
    (day + Smear(h, user, period)) / period + offset
  }

  function EpochStartDay(h: Hashes, user: int, day: int, periodDays: int): int {
    var period := Max(1, periodDays);
    var smear := Smear(h, user, period);
    (day + smear) / period * period - smear
  }

  lemma LessOfUnit(unit: real, p: real)
    requires 0.0 < unit < 1.0 && p > 0.0
    ensures 0.0 < unit * p < p
  {
    assert p - unit * p == (1.0 - unit) * p;
  }

  lemma FloorWithin(x: real, p: int)
    requires 0.0 <= x < p as real
    ensures x.Floor % p == x.Floor
  {
  }

  /** The unit hash decides the shift: the users are spread over the days of a period in equal parts. */
  lemma SmearIsPart(h: Hashes, user: int, period: int)
    requires period >= 1
    ensures var exact := h.unit(user) * period as real;
            h.unit(user) < 1.0 ==> Smear(h, user, period) as real <= exact < Smear(h, user, period) as real + 1.0
    ensures h.unit(user) == 1.0 ==> Smear(h, user, period) == 0
  {
    if h.unit(user) < 1.0 {
      LessOfUnit(h.unit(user), period as real);
      FloorWithin(h.unit(user) * period as real, period);
    } else {
      assert h.unit(user) * period as real == period as real;
    }
  }

  lemma EpochContainsDay(h: Hashes, user: int, day: int, periodDays: int)
    ensures var start := EpochStartDay(h, user, day, periodDays);
            start <= day < start + Max(1, periodDays)
  {
  }

  /** Two days are in one epoch exactly when their epochs start on the same day. */
  lemma SameEpochIffSameStart(h: Hashes, user: int, a: int, b: int, periodDays: int, offset: int)
    ensures EpochFor(h, user, a, periodDays, offset) == EpochFor(h, user, b, periodDays, offset) <==>
            EpochStartDay(h, user, a, periodDays) == EpochStartDay(h, user, b, periodDays)
  {
    var period := Max(1, periodDays);
    var smear := Smear(h, user, period);
    var x, y := (a + smear) / period, (b + smear) / period;
    if x * period == y * period {
      SameFactor(x, y, period);
    }
  }

  /** On one day, different offsets are different epochs. */
  lemma OffsetMovesEpoch(h: Hashes, user: int, day: int, periodDays: int, a: int, b: int)
    ensures EpochFor(h, user, day, periodDays, a) - EpochFor(h, user, day, periodDays, b) == a - b
  {
  }

  /** A rotation by k gives the epoch of the day k periods later. */
  lemma RotationIsLater(h: Hashes, user: int, day: int, periodDays: int, offset: int, k: int)
    ensures EpochFor(h, user, day, periodDays, offset + k) == EpochFor(h, user, day + k * Max(1, periodDays), periodDays, offset)
  {
    var period := Max(1, periodDays);
    ShiftedQuotient(day + Smear(h, user, period), k, period);
  }

  lemma ShiftedQuotient(x: int, k: int, p: int)
    requires p > 0
    ensures (x + k * p) / p == x / p + k
  {
    var q := x / p;
    assert x + k * p == (q + k) * p + x % p;
    SameQuotient(x + k * p, q + k, x % p, p);
  }

  lemma SameQuotient(x: int, q: int, r: int, p: int)
    requires p > 0 && 0 <= r < p && x == q * p + r
    ensures x / p == q
  {
    var d := x / p - q;
    assert d * p == r - x % p;
    MultipleBounds(d, p);
  }

  lemma MultipleBounds(d: int, p: int)
    requires p > 0
    ensures d >= 1 ==> d * p >= p
    ensures d <= -1 ==> d * p <= -p
  {
    if d >= 1 {
      assert (d - 1) * p >= 0;
    }
    if d <= -1 {
      assert (d + 1) * p <= 0;
    }
  }

  lemma SameFactor(x: int, y: int, p: int)
    requires p > 0 && x * p == y * p
    ensures x == y
  {
    assert (x - y) * p == 0;
  }

  // ---- Exhaustion

  function CutoffRatio(percent: int): real {
    if 0 < percent <= 100 then percent as real / 100.0 else 1.0
  }

  /** A node is exhausted when it has a limit and used the given hundredth of it; a percentage out of range means all of it. */
  lemma ExhaustedIff(used: Option<real>, limit: Option<real>, percent: int)
    ensures IsExhausted(used, limit, percent) <==>
              && used.Some? && limit.Some? && limit.value > 0.0
              && (if 1 <= percent <= 100 then used.value * 100.0 >= limit.value * percent as real else used.value >= limit.value)
  {
    if limit.Some? && 1 <= percent <= 100 {
      assert limit.value * CutoffRatio(percent) * 100.0 == limit.value * percent as real;
    }
  }

  predicate IsExhausted(used: Option<real>, limit: Option<real>, percent: int) {
    limit.Some? && limit.value > 0.0 && used.Some? && used.value >= limit.value * CutoffRatio(percent)
  }
}
