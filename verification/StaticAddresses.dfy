/** Hosts with static addresses: an address that is listed several times comes in all its copies or not at all, so the size
    of the answer is bounded only for some hosts. This module says for which. */
module StaticAddresses {
  import opened Options
  import opened Strings
  import opened AddressPolicy
  import opened AddressContext

  /** Static addresses all have weight 0. */
  ghost predicate Unweighted(cs: seq<Candidate>) {
    forall c | c in cs :: c.weight == 0.0
  }

  // ---- Counting entries

  /** How many entries have one of the keys. */
  function Count(cs: seq<Candidate>, keys: set<string>): nat {
    |KeptKeys(cs, keys)|
  }

  lemma {:induction false} CountAppend(a: seq<Candidate>, b: seq<Candidate>, keys: set<string>)
    ensures Count(a + b, keys) == Count(a, keys) + Count(b, keys)
  {
    if a == [] {
      assert a + b == b;
    } else {
      assert (a + b)[1..] == a[1..] + b;
      CountAppend(a[1..], b, keys);
    }
  }

  lemma CountOne(c: Candidate, keys: set<string>)
    ensures Count([c], keys) == if c.key in keys then 1 else 0
  {
    assert [c][1..] == [] && KeptKeys([c][1..], keys) == [];
  }

  lemma {:induction false} CountSplits(cs: seq<Candidate>, a: set<string>, b: set<string>)
    requires a !! b
    ensures Count(cs, a + b) == Count(cs, a) + Count(cs, b)
  {
    if cs != [] {
      CountSplits(cs[1..], a, b);
    }
  }

  lemma CountWithin(cs: seq<Candidate>, a: set<string>, b: set<string>)
    requires a <= b
    ensures Count(cs, a) <= Count(cs, b)
  {
    CountSplits(cs, a, b - a);
    assert a + (b - a) == b;
  }

  lemma {:induction false} CountAll(cs: seq<Candidate>, keys: set<string>)
    requires KeysOf(cs) <= keys
    ensures Count(cs, keys) == |cs|
  {
    if cs != [] {
      assert cs[0].key in KeysOf(cs);
      assert KeysOf(cs[1..]) <= KeysOf(cs);
      CountAll(cs[1..], keys);
    }
  }

  lemma {:induction false} CountInserted(d: Draw, c: Candidate, ranked: seq<Candidate>, keys: set<string>)
    ensures Count(Insert(d, c, ranked), keys) == Count([c], keys) + Count(ranked, keys)
  {
    if ranked == [] || !Before(d, ranked[0], c) {
      CountAppend([c], ranked, keys);
    } else {
      CountInserted(d, c, ranked[1..], keys);
      CountAppend([ranked[0]], Insert(d, c, ranked[1..]), keys);
      CountAppend([ranked[0]], ranked[1..], keys);
      assert ranked == [ranked[0]] + ranked[1..];
    }
  }

  lemma {:induction false} CountRanked(d: Draw, cs: seq<Candidate>, keys: set<string>)
    ensures Count(Ranked(d, cs), keys) == Count(cs, keys)
  {
    if cs != [] {
      CountRanked(d, cs[1..], keys);
      CountInserted(d, cs[0], Ranked(d, cs[1..]), keys);
      CountAppend([cs[0]], cs[1..], keys);
      assert cs == [cs[0]] + cs[1..];
    }
  }

  /** How often one key is listed. */
  function Times(cs: seq<Candidate>, key: string): nat {
    Count(cs, {key})
  }

  lemma {:induction false} ListedIsCounted(cs: seq<Candidate>, key: string)
    ensures Times(cs, key) > 0 <==> key in KeysOf(cs)
  {
    KeptMembers(cs, {key});
    if Times(cs, key) > 0 {
      assert KeptKeys(cs, {key})[0] in KeptKeys(cs, {key});
    }
  }

  /** Every key is listed the same number of times. */
  ghost predicate ListedTimes(cs: seq<Candidate>, times: nat) {
    times > 0 && forall key | key in KeysOf(cs) :: Times(cs, key) == times
  }

  ghost predicate Divides(times: nat, n: nat) {
    exists q: nat :: n == times * q
  }

  lemma OneTimeMore(times: nat, k: nat)
    ensures times * (k + 1) == times * k + times
  {
  }

  lemma {:induction false} CountEven(cs: seq<Candidate>, times: nat, keys: set<string>)
    requires ListedTimes(cs, times) && keys <= KeysOf(cs)
    ensures Count(cs, keys) == times * |keys|
    decreases |keys|
  {
    if keys == {} {
      KeptNone(cs);
    } else {
      var key := AnElement(keys);
      var rest := keys - {key};
      CountEven(cs, times, rest);
      CountWith(cs, rest, key);
      assert keys == rest + {key};
      OneTimeMore(times, |rest|);
    }
  }

  lemma CountWith(cs: seq<Candidate>, keys: set<string>, key: string)
    requires key !in keys
    ensures Count(cs, keys + {key}) == Count(cs, keys) + Times(cs, key)
    ensures |keys + {key}| == |keys| + 1
  {
    CountSplits(cs, keys, {key});
  }

  // ---- The ranking of repeated keys

  /** What comes before what, for entries of weight 0. */
  predicate KeyBefore(d: Draw, a: string, b: string) {
    Before(d, Candidate(a, 0.0), Candidate(b, 0.0))
  }

  ghost predicate Sorted(d: Draw, r: seq<Candidate>) {
    forall i, j | 0 <= i < j < |r| :: !Before(d, r[j], r[i])
  }

  /** For entries of weight 0, "not before" is transitive. */
  lemma NotBeforeIsTransitive(d: Draw, a: Candidate, b: Candidate, c: Candidate)
    requires a.weight == b.weight == c.weight == 0.0
    requires !Before(d, b, a) && !Before(d, c, b)
    ensures !Before(d, c, a)
  {
    if a.key == b.key {
      assert a == b;
    } else if b.key == c.key {
      assert b == c;
    } else {
      BeforeIsTotal(d, a, b);
      BeforeIsTotal(d, b, c);
      BeforeIsTransitive(d, a, b, c);
      BeforeIsStrict(d, a, c);
    }
  }

  lemma {:induction false} InsertedAre(d: Draw, c: Candidate, ranked: seq<Candidate>, x: Candidate)
    requires x in Insert(d, c, ranked)
    ensures x == c || x in ranked
  {
    if ranked != [] && Before(d, ranked[0], c) && x != ranked[0] {
      InsertedAre(d, c, ranked[1..], x);
    }
  }

  lemma {:induction false} InsertSorts(d: Draw, c: Candidate, ranked: seq<Candidate>)
    requires Unweighted(ranked) && c.weight == 0.0 && Sorted(d, ranked)
    ensures Sorted(d, Insert(d, c, ranked))
  {
    var r := Insert(d, c, ranked);
    if ranked == [] {
    } else if !Before(d, ranked[0], c) {
      forall j | 0 < j < |r|
        ensures !Before(d, r[j], c)
      {
        if j > 1 {
          NotBeforeIsTransitive(d, c, ranked[0], ranked[j - 1]);
        }
      }
    } else {
      var tail := Insert(d, c, ranked[1..]);
      InsertSorts(d, c, ranked[1..]);
      BeforeIsStrict(d, ranked[0], c);
      forall x | x in tail
        ensures !Before(d, x, ranked[0])
      {
        InsertedAre(d, c, ranked[1..], x);
      }
    }
  }

  lemma {:induction false} RankedIsSorted(d: Draw, cs: seq<Candidate>)
    requires Unweighted(cs)
    ensures Sorted(d, Ranked(d, cs))
  {
    if cs != [] {
      RankedIsSorted(d, cs[1..]);
      RankedKeeps(d, cs[1..]);
      InsertSorts(d, cs[0], Ranked(d, cs[1..]));
    }
  }

  /** The keys that are picked. */
  ghost function Front(d: Draw, cs: seq<Candidate>, n: nat): set<string>
    requires n <= |cs|
  {
    KeysOf(Ranked(d, cs)[..n])
  }

  /** Whatever comes before a picked key is picked. */
  lemma FrontIsClosed(d: Draw, cs: seq<Candidate>, n: nat, key: string, earlier: string)
    requires n <= |cs| && Unweighted(cs)
    requires key in Front(d, cs, n) && earlier in KeysOf(cs) && KeyBefore(d, earlier, key)
    ensures earlier in Front(d, cs, n)
  {
    var r := Ranked(d, cs);
    RankedKeeps(d, cs);
    RankedIsSorted(d, cs);
    var i :| 0 <= i < n && r[..n][i].key == key;
    var j :| 0 <= j < |r| && r[j].key == earlier;
    assert r[i] in cs && r[j] in cs;
    assert r[i] == Candidate(key, 0.0) && r[j] == Candidate(earlier, 0.0);
    SortedOrder(d, r, i, j);
    assert r[..n][j] == r[j];
  }

  lemma SortedOrder(d: Draw, r: seq<Candidate>, i: nat, j: nat)
    requires Sorted(d, r) && i < |r| && j < |r| && Before(d, r[j], r[i])
    ensures j < i
  {
    BeforeIsStrict(d, r[i], r[i]);
  }

  /** Copies of a key stand together. */
  lemma CopiesAreTogether(d: Draw, r: seq<Candidate>, i: nat, m: nat, j: nat)
    requires Sorted(d, r) && Unweighted(r) && i <= m <= j < |r| && r[i].key == r[j].key
    ensures r[m].key == r[i].key
  {
    assert r[i] in r && r[j] in r && r[m] in r;
    assert r[i] == r[j];
    if r[m].key != r[i].key {
      BeforeIsTotal(d, r[i], r[m]);
    }
  }

  /** The answer has an entry for every copy of a picked key; without the last of these keys it would be too short. */
  lemma FrontCount(d: Draw, cs: seq<Candidate>, n: nat) returns (last: string)
    requires 0 < n < |cs| && Unweighted(cs)
    ensures Front(d, cs, n) <= KeysOf(cs) && last in Front(d, cs, n)
    ensures |PickKeys(d, cs, n)| == Count(cs, Front(d, cs, n)) >= n
    ensures Count(cs, Front(d, cs, n) - {last}) < n
  {
    var r, front := Ranked(d, cs), Front(d, cs, n);
    RankedKeeps(d, cs);
    assert forall c | c in r[..n] :: c in r;
    last := r[n - 1].key;
    assert r[..n][n - 1].key == last;
    CountUpTo(d, cs, n, front);
    CountAll(r[..n], front);
    CountBelowLast(d, cs, n, last);
  }

  lemma CountUpTo(d: Draw, cs: seq<Candidate>, n: nat, keys: set<string>)
    requires n <= |cs|
    ensures Count(cs, keys) == Count(Ranked(d, cs)[..n], keys) + Count(Ranked(d, cs)[n..], keys)
  {
    var r := Ranked(d, cs);
    CountRanked(d, cs, keys);
    CountAppend(r[..n], r[n..], keys);
    assert r == r[..n] + r[n..];
  }

  lemma CountBelowLast(d: Draw, cs: seq<Candidate>, n: nat, last: string)
    requires 0 < n < |cs| && Unweighted(cs) && last == Ranked(d, cs)[n - 1].key
    ensures Count(cs, Front(d, cs, n) - {last}) < n
  {
    var r, below := Ranked(d, cs), Front(d, cs, n) - {last};
    RankedKeeps(d, cs);
    RankedIsSorted(d, cs);
    forall j | n - 1 <= j < |r| && r[j].key in Front(d, cs, n)
      ensures r[j].key == last
    {
      var i :| 0 <= i < n && r[..n][i].key == r[j].key;
      CopiesAreTogether(d, r, i, n - 1, j);
    }
    CountUpTo(d, cs, n - 1, below);
    CountNone(r[n - 1..], below);
    KeptMembers(r[..n - 1], below);
  }

  lemma {:induction false} CountNone(cs: seq<Candidate>, keys: set<string>)
    requires forall i | 0 <= i < |cs| :: cs[i].key !in keys
    ensures Count(cs, keys) == 0
  {
    if cs != [] {
      CountNone(cs[1..], keys);
    }
  }

  // ---- Every order of the keys is drawn by some hash

  /** A draw that ranks one set of keys first, then b, then a, then all others. */
  function Levels(first: set<string>, b: string, a: string): Draw {
    Draw(Hashes((u, key, e) => if key in first then 1.0 else if key == b then 2.0 else if key == a then 4.0 else 8.0, u => 1.0), 0, 0)
  }

  function Level(first: set<string>, b: string, a: string, key: string): Positive {
    Energy(Levels(first, b, a), key)
  }

  lemma LowerLevelIsFirst(first: set<string>, b: string, a: string, x: string, y: string)
    requires Level(first, b, a, x) < Level(first, b, a, y)
    ensures KeyBefore(Levels(first, b, a), x, y)
  {
    var d := Levels(first, b, a);
    assert Score(d, Candidate(x, 0.0)) == 1.0 / Level(first, b, a, x);
    assert Score(d, Candidate(y, 0.0)) == 1.0 / Level(first, b, a, y);
  }

  /** If every hash answers at most n entries, a key inside the cut is listed as often as a key outside: draw all others of
      the cut first, then the one from outside, then the one from inside. */
  lemma SwapShowsEqual(cs: seq<Candidate>, n: nat, front: set<string>, a: string, b: string)
    requires 0 < n < |cs| && Unweighted(cs) && forall d: Draw :: |PickKeys(d, cs, n)| <= n
    requires front <= KeysOf(cs) && Count(cs, front) == n && a in front && b in KeysOf(cs) - front
    ensures Times(cs, a) == Times(cs, b)
  {
    var first := front - {a};
    var d := Levels(first, b, a);
    var cut := Front(d, cs, n);
    var last := FrontCount(d, cs, n);
    assert Count(cs, cut) == n;
    CountSplits(cs, first, {a});
    assert first + {a} == front;
    ListedIsCounted(cs, a);
    ListedIsCounted(cs, b);
    if !(cut <= first) {
      var k :| k in cut && k !in first;
      forall x | x in first
        ensures x in cut
      {
        LowerLevelIsFirst(first, b, a, x, k);
        FrontIsClosed(d, cs, n, k, x);
      }
      if k != b {
        LowerLevelIsFirst(first, b, a, b, k);
        FrontIsClosed(d, cs, n, k, b);
      }
      CutAtLevel(cs, n, front, a, b, cut);
    } else {
      CountWithin(cs, cut, first);
    }
  }

  /** A cut of that draw that has b but not a has nothing after a either. */
  lemma CutBeforeA(cs: seq<Candidate>, n: nat, first: set<string>, b: string, a: string)
    requires n <= |cs| && Unweighted(cs) && a in KeysOf(cs) && a !in first && a != b
    ensures var cut := Front(Levels(first, b, a), cs, n);
            a !in cut ==> cut <= first + {b}
  {
    var d := Levels(first, b, a);
    var cut := Front(d, cs, n);
    forall y | y in cut && y !in first + {b} && y != a
      ensures a in cut
    {
      LowerLevelIsFirst(first, b, a, a, y);
      FrontIsClosed(d, cs, n, y, a);
    }
  }

  /** The cut of that draw holds the first keys and b; a is not in it, or there would be too many entries. */
  lemma CutAtLevel(cs: seq<Candidate>, n: nat, front: set<string>, a: string, b: string, cut: set<string>)
    requires 0 < n < |cs| && Unweighted(cs) && a in front && b in KeysOf(cs) - front && front <= KeysOf(cs)
    requires Count(cs, front) == n == Count(cs, cut) && cut == Front(Levels(front - {a}, b, a), cs, n)
    requires front - {a} + {b} <= cut
    ensures Times(cs, a) == Times(cs, b)
  {
    var first := front - {a};
    NotBoth(cs, front, b, cut);
    assert front == first + {a};
    CutBeforeA(cs, n, first, b, a);
    assert cut == first + {b};
    CountWith(cs, first, a);
    CountWith(cs, first, b);
  }

  lemma NotBoth(cs: seq<Candidate>, front: set<string>, b: string, cut: set<string>)
    requires Count(cs, front) == Count(cs, cut) && b in KeysOf(cs) - front
    ensures !(front + {b} <= cut)
  {
    ListedIsCounted(cs, b);
    CountWith(cs, front, b);
    if front + {b} <= cut {
      CountWithin(cs, front + {b}, cut);
    }
  }

  // ---- The bound

  lemma EvenIsBounded(cs: seq<Candidate>, n: nat, times: nat, d: Draw)
    requires 0 < n < |cs| && Unweighted(cs) && ListedTimes(cs, times) && Divides(times, n)
    ensures |PickKeys(d, cs, n)| <= n
  {
    var last := FrontCount(d, cs, n);
    var front := Front(d, cs, n);
    var below := front - {last};
    assert below + {last} == front;
    EvenCut(cs, n, times, below, last);
  }

  /** A cut between whole groups of the same size hits every multiple of that size. */
  lemma EvenCut(cs: seq<Candidate>, n: nat, times: nat, below: set<string>, last: string)
    requires ListedTimes(cs, times) && Divides(times, n) && below + {last} <= KeysOf(cs) && last !in below
    requires Count(cs, below) < n <= Count(cs, below + {last})
    ensures Count(cs, below + {last}) == n
  {
    var k, low, high := |below|, Count(cs, below), Count(cs, below + {last});
    CountEven(cs, times, below);
    CountEven(cs, times, below + {last});
    CountWith(cs, below, last);
    assert low == times * k && high == times * (k + 1);
    WholeTimes(n, times, k);
  }

  lemma WholeTimes(n: nat, times: nat, k: nat)
    requires Divides(times, n) && times * k < n <= times * (k + 1)
    ensures times * (k + 1) == n
  {
    var q: nat :| n == times * q;
    FactorLess(times, k, q);
    FactorMonotone(times, k + 1, q);
  }

  lemma FactorLess(times: nat, a: nat, b: nat)
    requires times * a < times * b
    ensures a < b
  {
    if b <= a {
      FactorMonotone(times, b, a);
    }
  }

  lemma FactorMonotone(times: nat, a: nat, b: nat)
    requires a <= b
    ensures times * a <= times * b
  {
    assert times * b == times * a + times * (b - a);
  }

  lemma BoundedIsEven(cs: seq<Candidate>, n: nat) returns (times: nat)
    requires 0 < n < |cs| && Unweighted(cs) && forall d: Draw :: |PickKeys(d, cs, n)| <= n
    ensures ListedTimes(cs, times) && Divides(times, n)
  {
    var d := Levels({}, "", "");
    var front := Front(d, cs, n);
    var inside := FrontCount(d, cs, n);
    assert Count(cs, front) == n;
    CountAll(cs, KeysOf(cs));
    if KeysOf(cs) - front == {} {
      assert KeysOf(cs) <= front + (KeysOf(cs) - front);
      CountWithin(cs, KeysOf(cs), front);
    }
    var outside := AnElement(KeysOf(cs) - front);
    times := Times(cs, inside);
    SwapShowsEqual(cs, n, front, inside, outside);
    forall key | key in KeysOf(cs)
      ensures Times(cs, key) == times
    {
      if key in front {
        SwapShowsEqual(cs, n, front, key, outside);
      } else {
        SwapShowsEqual(cs, n, front, inside, key);
      }
    }
    ListedIsCounted(cs, inside);
    CountEven(cs, times, front);
    assert n == times * |front|;
  }

  /** For candidates of weight 0 and any size below their number: every hash answers at most n entries exactly when all keys
      are listed equally often and that number divides n. */
  lemma StaticBoundIff(cs: seq<Candidate>, n: nat)
    requires 0 < n < |cs| && Unweighted(cs)
    ensures (forall d: Draw :: |PickKeys(d, cs, n)| <= n) <==> exists times :: ListedTimes(cs, times) && Divides(times, n)
  {
    if exists times :: ListedTimes(cs, times) && Divides(times, n) {
      var times :| ListedTimes(cs, times) && Divides(times, n);
      forall d: Draw
        ensures |PickKeys(d, cs, n)| <= n
      {
        EvenIsBounded(cs, n, times, d);
      }
    }
    if forall d: Draw :: |PickKeys(d, cs, n)| <= n {
      var times := BoundedIsEven(cs, n);
    }
  }

  // ---- In the terms of a host

  /** Every address of the host is listed the same number of times, which divides the size. */
  ghost predicate EvenlyListed(addresses: seq<string>, size: nat) {
    exists times :: ListedTimes(StaticCandidates(addresses), times) && Divides(times, size)
  }

  lemma NarrowedCount(d: Draw, addresses: seq<string>, size: nat)
    requires size < |addresses|
    ensures |NarrowStatic(d, addresses, size)| == |PickKeys(d, StaticCandidates(addresses), size)|
  {
    var cs := StaticCandidates(addresses);
    var picked := PickKeys(d, cs, size);
    StaticKept(addresses, picked);
    if size > 0 {
      var front := KeysOf(Ranked(d, cs)[..size]);
      KeptMembers(cs, front);
      KeptAlike(cs, (set k | k in picked), front);
    } else {
      KeptNone(cs);
      assert (set k | k in picked) == {};
    }
  }

  lemma {:induction false} KeptAlike(cs: seq<Candidate>, a: set<string>, b: set<string>)
    requires forall k | k in KeysOf(cs) :: k in a <==> k in b
    ensures KeptKeys(cs, a) == KeptKeys(cs, b)
  {
    if cs != [] {
      assert cs[0].key in KeysOf(cs) && KeysOf(cs[1..]) <= KeysOf(cs);
      KeptAlike(cs[1..], a, b);
    }
  }

  /** The size of a host with static addresses bounds what any user is shown exactly when there are no more addresses than
      that, or every address is listed the same number of times and that number divides the size. */
  lemma StaticHostBoundIff(addresses: seq<string>, size: nat)
    requires size > 0
    ensures (forall d: Draw :: |NarrowStatic(d, addresses, size)| <= size) <==> |addresses| <= size || EvenlyListed(addresses, size)
  {
    if |addresses| > size {
      var cs := StaticCandidates(addresses);
      forall d: Draw
        ensures |NarrowStatic(d, addresses, size)| == |PickKeys(d, cs, size)|
      {
        NarrowedCount(d, addresses, size);
      }
      StaticBoundIff(cs, size);
    }
  }

  lemma {:induction false} OnceIsDistinct(cs: seq<Candidate>)
    ensures ListedTimes(cs, 1) <==> DistinctKeys(cs)
  {
    if DistinctKeys(cs) {
      forall key | key in KeysOf(cs)
        ensures Times(cs, key) == 1
      {
        KeptCount(cs, {key});
        assert {key} * KeysOf(cs) == {key};
      }
    } else {
      var i, j :| 0 <= i < j < |cs| && cs[i].key == cs[j].key;
      var key := cs[i].key;
      CountAppend(cs[..j], cs[j..], {key});
      assert cs == cs[..j] + cs[j..];
      assert cs[..j][i].key in KeysOf(cs[..j]) && cs[j..][0].key in KeysOf(cs[j..]);
      ListedIsCounted(cs[..j], key);
      ListedIsCounted(cs[j..], key);
      assert Times(cs, key) >= 2;
      assert cs[i].key in KeysOf(cs);
    }
  }

  lemma OneDivides(times: nat)
    ensures Divides(times, 1) <==> times == 1
  {
    if times == 1 {
      assert 1 == times * 1;
    }
    if Divides(times, 1) {
      var q: nat :| 1 == times * q;
      FactorMonotone(times, Max(0, Min(q, 1)), q);
    }
  }

  /** With a size of one, exactly when no address is listed twice. */
  lemma OneStaticAddressIff(cs: seq<Candidate>)
    requires |cs| > 1 && Unweighted(cs)
    ensures (forall d: Draw :: |PickKeys(d, cs, 1)| <= 1) <==> DistinctKeys(cs)
  {
    StaticBoundIff(cs, 1);
    OnceIsDistinct(cs);
    forall times: nat
      ensures Divides(times, 1) <==> times == 1
    {
      OneDivides(times);
    }
  }

  lemma {:induction false} NothingLeftOut(addresses: seq<string>, kept: seq<string>)
    ensures |KeepAddresses(addresses, kept)| <= |addresses|
    ensures |KeepAddresses(addresses, kept)| == |addresses| ==> KeepAddresses(addresses, kept) == addresses
  {
    if addresses != [] {
      NothingLeftOut(addresses[1..], kept);
    }
  }

  lemma TwoAndOne()
    ensures var cs := StaticCandidates(["a", "a", "b"]);
            && Times(cs, "a") == 2 && Times(cs, "b") == 1
            && "a" in KeysOf(cs) && "b" in KeysOf(cs)
  {
    var a, b := Candidate("a", 0.0), Candidate("b", 0.0);
    var cs := StaticCandidates(["a", "a", "b"]);
    assert cs == [a] + [a] + [b];
    assert cs[0] == a && cs[2] == b;
    assert "a"[0] != "b"[0];
    forall k: string
      ensures Times(cs, k) == (if k == "a" then 2 else 0) + (if k == "b" then 1 else 0)
    {
      CountAppend([a] + [a], [b], {k});
      CountAppend([a], [a], {k});
      CountOne(a, {k});
      CountOne(b, {k});
    }
  }

  /** A host that is not bounded and has one entry too many shows them all for some draw. */
  lemma ShowsAll(addresses: seq<string>, size: nat) returns (d: Draw)
    requires 0 < size && |addresses| == size + 1 && !EvenlyListed(addresses, size)
    ensures NarrowStatic(d, addresses, size) == addresses
  {
    StaticHostBoundIff(addresses, size);
    d :| |NarrowStatic(d, addresses, size)| > size;
    NothingLeftOut(addresses, PickKeys(d, StaticCandidates(addresses), size));
  }

  /** One repeated address is enough: of "a", "a", "b" and a size of two, some user is shown all three entries under some hash
      function. */
  lemma StaticHostOverflows()
    ensures exists d: Draw :: NarrowStatic(d, ["a", "a", "b"], 2) == ["a", "a", "b"]
  {
    TwoAndOne();
    assert !EvenlyListed(["a", "a", "b"], 2);
    var d := ShowsAll(["a", "a", "b"], 2);
  }

  /** Repetition alone does no harm: of "a", "a", "b", "b" no user is ever shown more than two. */
  lemma PairsAreBounded(d: Draw)
    ensures |NarrowStatic(d, ["a", "a", "b", "b"], 2)| <= 2
  {
    var addresses := ["a", "a", "b", "b"];
    var cs := StaticCandidates(addresses);
    var a, b := Candidate("a", 0.0), Candidate("b", 0.0);
    assert cs == [a] + [a] + [b] + [b];
    assert "a"[0] != "b"[0];
    forall key | key in KeysOf(cs)
      ensures Times(cs, key) == 2
    {
      CountAppend([a] + [a] + [b], [b], {key});
      CountAppend([a] + [a], [b], {key});
      CountAppend([a], [a], {key});
      CountOne(a, {key});
      CountOne(b, {key});
    }
    assert 2 == 2 * 1;
    assert ListedTimes(cs, 2) && Divides(2, 2);
    StaticHostBoundIff(addresses, 2);
  }
}
