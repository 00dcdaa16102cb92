/** Node names of the Clash and sing-box documents: a remark already in use gets the first free number. */
module Remarks {
  import opened Options
  import opened Strings

  function Numbered(remark: string, c: nat): string {
    remark + " (" + Dec(c) + ")"
  }

  lemma NumberedInjective(remark: string, c: nat, d: nat)
    ensures Numbered(remark, c) == Numbered(remark, d) <==> c == d
    ensures Numbered(remark, c) != remark
  {
    DecInjective(c, d);
    if Numbered(remark, c) == Numbered(remark, d) {
      var s := Numbered(remark, c);
      assert s[|remark| + 2..|s| - 1] == Dec(c);
      assert s[|remark| + 2..|s| - 1] == Dec(d);
    }
  }

  /** The remark and all its numbers below c are in use. */
  predicate Taken(remark: string, used: seq<string>, c: nat) {
    remark in used && forall d | 2 <= d < c :: Numbered(remark, d) in used
  }

  function Variants(remark: string, c: nat): set<string>
    requires c >= 2
  {
    if c == 2 then {remark} else Variants(remark, c - 1) + {Numbered(remark, c - 1)}
  }

  lemma {:induction false} VariantsAre(remark: string, c: nat, name: string)
    requires c >= 2
    ensures name in Variants(remark, c) <==> name == remark || exists d :: 2 <= d < c && name == Numbered(remark, d)
  {
    if c > 2 {
      VariantsAre(remark, c - 1, name);
      assert name == Numbered(remark, c - 1) ==> 2 <= c - 1 < c;
    }
  }

  /** All candidates are different names. */
  lemma {:induction false} VariantsAreMany(remark: string, c: nat)
    requires c >= 2
    ensures |Variants(remark, c)| == c - 1
  {
    if c > 2 {
      VariantsAreMany(remark, c - 1);
      VariantsAre(remark, c - 1, Numbered(remark, c - 1));
      NumberedInjective(remark, c - 1, 0);
      forall d | 2 <= d < c - 1
        ensures Numbered(remark, c - 1) != Numbered(remark, d)
      {
        NumberedInjective(remark, c - 1, d);
      }
    }
  }

  function NamesOf(s: seq<string>): set<string> {
    if s == [] then {} else NamesOf(s[..|s| - 1]) + {s[|s| - 1]}
  }

  lemma {:induction false} NamesOfSeq(s: seq<string>, name: string)
    ensures name in NamesOf(s) <==> name in s
  {
    if s != [] {
      NamesOfSeq(s[..|s| - 1], name);
      assert s == s[..|s| - 1] + [s[|s| - 1]];
    }
  }

  lemma {:induction false} NamesOfSize(s: seq<string>)
    ensures |NamesOf(s)| <= |s|
  {
    if s != [] {
      NamesOfSize(s[..|s| - 1]);
    }
  }

  /** Pigeonhole: no more candidates can be in use than there are names. */
  lemma TakenBound(remark: string, used: seq<string>, c: nat)
    requires c >= 2 && Taken(remark, used, c)
    ensures c <= |used| + 1
  {
    VariantsAreMany(remark, c);
    forall name | name in Variants(remark, c)
      ensures name in NamesOf(used)
    {
      VariantsAre(remark, c, name);
      NamesOfSeq(used, name);
    }
    SubsetCard(Variants(remark, c), NamesOf(used));
    NamesOfSize(used);
  }

  /** The first free number from c on. */
  function FirstFree(remark: string, used: seq<string>, c: nat): string
    requires c >= 2 && Taken(remark, used, c)
    decreases |used| + 2 - c
  {
    TakenBound(remark, used, c);
    if Numbered(remark, c) !in used then Numbered(remark, c) else FirstFree(remark, used, c + 1)
  }

  function UniqueRemark(remark: string, used: seq<string>): string {
    if remark !in used then remark else FirstFree(remark, used, 2)
  }

  predicate IsFirstFree(remark: string, used: seq<string>, c: nat, name: string) {
    c >= 2 && name == Numbered(remark, c) && name !in used && Taken(remark, used, c)
  }

  lemma {:induction false} FirstFreeIs(remark: string, used: seq<string>, c: nat)
    requires c >= 2 && Taken(remark, used, c)
    ensures exists d :: c <= d <= |used| + 1 && IsFirstFree(remark, used, d, FirstFree(remark, used, c))
    decreases |used| + 2 - c
  {
    TakenBound(remark, used, c);
    var name := FirstFree(remark, used, c);
    if Numbered(remark, c) !in used {
      assert IsFirstFree(remark, used, c, name);
    } else {
      FirstFreeIs(remark, used, c + 1);
      var d :| c + 1 <= d <= |used| + 1 && IsFirstFree(remark, used, d, name);
    }
  }

  /** The answer is a free name: the remark itself if it is free, else the remark with the least free number, and that
      number is found within as many tries as there are names. */
  lemma UniqueRemarkIs(remark: string, used: seq<string>)
    ensures var name := UniqueRemark(remark, used);
            && name !in used
            && (remark !in used ==> name == remark)
            && (remark in used ==> exists c :: 2 <= c <= |used| + 1 && IsFirstFree(remark, used, c, name))
  {
    if remark in used {
      FirstFreeIs(remark, used, 2);
    }
  }

  method ValidateRemark(remark: string, used: seq<string>) returns (name: string)
    ensures name == UniqueRemark(remark, used)
    ensures name !in used
  {
    UniqueRemarkIs(remark, used);
    if remark !in used {
      return remark;
    }
    var c := 2;
    while true
      invariant 2 <= c && Taken(remark, used, c)
      invariant FirstFree(remark, used, c) == UniqueRemark(remark, used)
      decreases |used| + 2 - c
    {
      TakenBound(remark, used, c);
      name := Numbered(remark, c);
      if name !in used {
        return;
      }
      c := c + 1;
    }
  }

  // ---- Whole documents

  /** The names given to a list of remarks, one after the other. */
  function Assign(remarks: seq<string>): seq<string> {
    if remarks == [] then []
    else
      var before := Assign(remarks[..|remarks| - 1]);
      before + [UniqueRemark(remarks[|remarks| - 1], before)]
  }

  lemma {:induction false} AssignLength(remarks: seq<string>)
    ensures |Assign(remarks)| == |remarks|
  {
    if remarks != [] {
      AssignLength(remarks[..|remarks| - 1]);
    }
  }

  /** A name depends on the remarks before it only. */
  lemma {:induction false} AssignPrefix(remarks: seq<string>, n: nat)
    requires n <= |remarks|
    ensures |Assign(remarks)| == |remarks| && Assign(remarks)[..n] == Assign(remarks[..n])
  {
    AssignLength(remarks);
    if n < |remarks| {
      AssignLength(remarks[..|remarks| - 1]);
      AssignPrefix(remarks[..|remarks| - 1], n);
      assert remarks[..|remarks| - 1][..n] == remarks[..n];
    } else {
      assert remarks[..n] == remarks;
    }
  }

  /** All names are different, whatever the remarks are. */
  lemma {:induction false} NamesAreDistinct(remarks: seq<string>)
    ensures |Assign(remarks)| == |remarks|
    ensures forall i, j | 0 <= i < j < |remarks| :: Assign(remarks)[i] != Assign(remarks)[j]
  {
    AssignLength(remarks);
    if remarks != [] {
      var before := remarks[..|remarks| - 1];
      AssignLength(before);
      NamesAreDistinct(before);
      UniqueRemarkIs(remarks[|remarks| - 1], Assign(before));
    }
  }

  /** The k-th name is the k-th remark exactly when no earlier node took it, and otherwise the remark with a number of at
      most k + 1. */
  lemma NameOf(remarks: seq<string>, k: nat)
    requires k < |remarks|
    ensures |Assign(remarks)| == |remarks|
    ensures var name := Assign(remarks)[k];
            && (name == remarks[k] <==> remarks[k] !in Assign(remarks)[..k])
            && (name != remarks[k] ==> exists c :: 2 <= c <= k + 1 && name == Numbered(remarks[k], c))
  {
    AssignPrefix(remarks, k);
    AssignPrefix(remarks, k + 1);
    AssignLength(remarks[..k]);
    assert remarks[..k + 1][..k] == remarks[..k];
    assert Assign(remarks)[k] == Assign(remarks)[..k + 1][k];
    var used := Assign(remarks[..k]);
    assert Assign(remarks)[k] == UniqueRemark(remarks[k], used);
    UniqueRemarkIs(remarks[k], used);
    if remarks[k] in used {
      var c :| 2 <= c <= |used| + 1 && IsFirstFree(remarks[k], used, c, Assign(remarks)[k]);
      NumberedInjective(remarks[k], c, c);
    }
  }

  // ---- The documents

  datatype Entry = Entry(remark: string, address: string, network: string, headerType: string, protocol: string)

  datatype Node = Node(name: string, kind: string, server: string)

  const UNSUPPORTED_NETWORKS := {"kcp", "splithttp", "xhttp"}

  predicate ClashTakes(meta: bool, e: Entry) {
    && e.network !in UNSUPPORTED_NETWORKS
    && !(meta && e.network == "quic" && e.headerType != "none")
    && (e.protocol in {"vmess", "trojan", "shadowsocks"} || (meta && e.protocol == "vless"))
  }

  predicate SingBoxTakes(e: Entry) {
    e.network !in UNSUPPORTED_NETWORKS && !(e.network == "quic" && e.headerType != "none")
  }

  function ClashNode(name: string, e: Entry): Node {
    Node(name, if e.protocol == "shadowsocks" then "ss" else e.protocol, e.address)
  }

  function RemarksOf(entries: seq<Entry>): seq<string> {
    seq(|entries|, i requires 0 <= i < |entries| => entries[i].remark)
  }

  function NodesOf(entries: seq<Entry>, names: seq<string>, clash: bool): seq<Node>
    requires |entries| == |names|
  {
    seq(|entries|, i requires 0 <= i < |entries| =>
      if clash then ClashNode(names[i], entries[i]) else Node(names[i], entries[i].protocol, entries[i].address))
  }

  /** The outbounds of a sing-box document: the template's, then the entries under the names given to their remarks. */
  function SingBoxOutbounds(template: seq<Node>, taken: seq<Entry>): seq<Node> {
    AssignLength(RemarksOf(taken));
    template + NodesOf(taken, Assign(RemarksOf(taken)), false)
  }

  /** What the formats take: Clash Meta what sing-box takes of the four protocols, Clash three of them over any network that is
      supported at all. */
  lemma FormatsTake(e: Entry)
    ensures SingBoxTakes(e) <==>
              e.network != "kcp" && e.network != "splithttp" && e.network != "xhttp" && (e.network == "quic" ==> e.headerType == "none")
    ensures ClashTakes(true, e) <==>
              SingBoxTakes(e) && (e.protocol == "vmess" || e.protocol == "trojan" || e.protocol == "shadowsocks" || e.protocol == "vless")
    ensures ClashTakes(true, e) && e.protocol != "vless" ==> ClashTakes(false, e)
    ensures ClashTakes(false, e) && !ClashTakes(true, e) ==> e.network == "quic" && e.headerType != "none"
    ensures ClashTakes(false, e) ==> e.protocol != "vless" && ClashTakes(true, e.(headerType := "none"))
    ensures ClashTakes(true, e.(headerType := "none")) && e.protocol != "vless" ==> ClashTakes(false, e)
  {
  }

  /** Every entry of a document has the name given to it, its own address and its protocol, which Clash calls "ss" for
      "shadowsocks". */
  lemma NodeAt(entries: seq<Entry>, names: seq<string>, clash: bool, i: nat)
    requires |entries| == |names| && i < |entries|
    ensures var node := NodesOf(entries, names, clash)[i];
            && node.name == names[i] && node.server == entries[i].address
            && (node.kind != entries[i].protocol <==> clash && entries[i].protocol == "shadowsocks")
            && (node.kind != entries[i].protocol ==> node.kind == "ss")
  {
  }

  lemma AssignStep(entries: seq<Entry>, e: Entry)
    ensures Assign(RemarksOf(entries + [e])) ==
            Assign(RemarksOf(entries)) + [UniqueRemark(e.remark, Assign(RemarksOf(entries)))]
    ensures |Assign(RemarksOf(entries))| == |entries|
  {
    var remarks := RemarksOf(entries + [e]);
    assert remarks[..|entries|] == RemarksOf(entries);
    AssignLength(RemarksOf(entries));
  }

  class ClashConfiguration {
    const meta: bool
    var proxies: seq<Node>
    var proxyRemarks: seq<string>
    ghost var taken: seq<Entry>

    /** The document is made of the entries taken so far, in order, under the names assigned to their remarks. */
    ghost predicate Valid()
      reads this
    {
      && proxyRemarks == Assign(RemarksOf(taken))
      && |proxyRemarks| == |taken|
      && proxies == NodesOf(taken, proxyRemarks, true)
    }

    constructor (meta: bool)
      ensures Valid() && taken == [] && this.meta == meta
    {
      this.meta := meta;
      proxies, proxyRemarks, taken := [], [], [];
    }

    method Add(e: Entry)
      requires Valid()
      modifies this
      ensures Valid() && taken == old(taken) + if ClashTakes(meta, e) then [e] else []
    {
      if e.network in UNSUPPORTED_NETWORKS || (meta && e.network == "quic" && e.headerType != "none") {
        return;
      }
      var name := ValidateRemark(e.remark, proxyRemarks);
      if e.protocol !in {"vmess", "trojan", "shadowsocks"} && !(meta && e.protocol == "vless") {
        return;
      }
      AssignStep(taken, e);
      proxies := proxies + [ClashNode(name, e)];
      proxyRemarks := proxyRemarks + [name];
      taken := taken + [e];
    }
  }

  class SingBoxConfiguration {
    const template: seq<Node>
    var outbounds: seq<Node>
    var proxyRemarks: seq<string>
    ghost var taken: seq<Entry>

    ghost predicate Valid()
      reads this
    {
      && proxyRemarks == Assign(RemarksOf(taken))
      && |proxyRemarks| == |taken|
      && outbounds == SingBoxOutbounds(template, taken)
    }

    constructor (template: seq<Node>)
      ensures Valid() && taken == [] && this.template == template
    {
      this.template := template;
      outbounds, proxyRemarks, taken := template, [], [];
    }

    method Add(e: Entry)
      requires Valid()
      modifies this
      ensures Valid() && taken == old(taken) + if SingBoxTakes(e) then [e] else []
    {
      if e.network in UNSUPPORTED_NETWORKS || (e.network == "quic" && e.headerType != "none") {
        return;
      }
      var name := ValidateRemark(e.remark, proxyRemarks);
      proxyRemarks := proxyRemarks + [name];
      AssignStep(taken, e);
      outbounds := outbounds + [Node(name, e.protocol, e.address)];
      taken := taken + [e];
    }
  }

  predicate DistinctNames(nodes: seq<Node>) {
    forall i, j | 0 <= i < j < |nodes| :: nodes[i].name != nodes[j].name
  }

  /** Whatever was added, the nodes of a Clash document have different names. */
  lemma ClashNamesAreDistinct(c: ClashConfiguration)
    requires c.Valid()
    ensures DistinctNames(c.proxies)
  {
    NamesAreDistinct(RemarksOf(c.taken));
  }

  // ---- The names given to remarks, in terms of the remarks

  /** Every remark is the name of some node: its own, or the one that took it before. */
  lemma RemarkIsAssigned(remarks: seq<string>, k: nat)
    requires k < |remarks|
    ensures remarks[k] in Assign(remarks)
  {
    NameOf(remarks, k);
    if Assign(remarks)[k] != remarks[k] {
      assert remarks[k] in Assign(remarks)[..k];
    }
  }

  /** No name is anything but a remark or a remark with a number of at most the number of nodes. */
  lemma AssignedIsRelated(remarks: seq<string>, name: string) returns (k: nat)
    requires name in Assign(remarks)
    ensures k < |remarks| && (name == remarks[k] || exists c :: 2 <= c <= |remarks| && name == Numbered(remarks[k], c))
  {
    AssignLength(remarks);
    k :| 0 <= k < |remarks| && Assign(remarks)[k] == name;
    NameOf(remarks, k);
    if name != remarks[k] {
      var c :| 2 <= c <= k + 1 && name == Numbered(remarks[k], c);
    }
  }

  /** A numbered name can be read back: the digits between its last brackets are the number. */
  lemma NumberedIdentifies(a: string, c: nat, b: string, d: nat)
    ensures Numbered(a, c) == Numbered(b, d) <==> a == b && c == d
  {
    var s, t := Numbered(a, c), Numbered(b, d);
    if s == t {
      BracketBefore(a, c);
      BracketBefore(b, d);
      if |Dec(d)| < |Dec(c)| {
        DigitAt(a, c, |Dec(d)|);
      } else if |Dec(c)| < |Dec(d)| {
        DigitAt(b, d, |Dec(c)|);
      }
      assert s[|a| + 2..|s| - 1] == Dec(c) && t[|b| + 2..|t| - 1] == Dec(d);
      DecInjective(c, d);
      assert s[..|a|] == a && t[..|b|] == b;
    }
  }

  lemma DigitAt(a: string, c: nat, width: nat)
    requires width < |Dec(c)|
    ensures Numbered(a, c)[|Numbered(a, c)| - 2 - width] != '('
  {
    var s := Numbered(a, c);
    assert s[|s| - 2 - width] == Dec(c)[|Dec(c)| - 1 - width];
    assert Dec(c)[|Dec(c)| - 1 - width] in Dec(c);
  }

  lemma BracketBefore(a: string, c: nat)
    ensures Numbered(a, c)[|Numbered(a, c)| - 2 - |Dec(c)|] == '('
  {
  }

  function Occurrences(remarks: seq<string>, r: string): nat {
    if remarks == [] then 0
    else Occurrences(remarks[..|remarks| - 1], r) + if remarks[|remarks| - 1] == r then 1 else 0
  }

  lemma {:induction false} OccursIff(remarks: seq<string>, r: string)
    ensures Occurrences(remarks, r) > 0 <==> r in remarks
  {
    if remarks != [] {
      OccursIff(remarks[..|remarks| - 1], r);
      assert remarks == remarks[..|remarks| - 1] + [remarks[|remarks| - 1]];
    }
  }

  /** No remark looks like another one with a number. */
  ghost predicate Plain(remarks: seq<string>) {
    forall r, c: nat | r in remarks && c >= 2 :: Numbered(r, c) !in remarks
  }

  /** The names that a remark listed n times leads to: itself and its numbers from 2 to n. */
  predicate NameFor(r: string, n: nat, name: string) {
    (n >= 1 && name == r) || exists c :: 2 <= c <= n && name == Numbered(r, c)
  }

  ghost predicate Given(remarks: seq<string>, name: string) {
    exists r :: r in remarks && NameFor(r, Occurrences(remarks, r), name)
  }

  /** What is in use for a plain remark after a list in which it occurred n times. */
  lemma UsedFor(before: seq<string>, r: string, used: seq<string>, n: nat)
    requires Plain(before + [r]) && n == Occurrences(before, r)
    requires forall name :: name in used <==> Given(before, name)
    ensures r in used <==> n >= 1
    ensures forall c: nat | c >= 2 :: Numbered(r, c) in used <==> c <= n
  {
    var remarks := before + [r];
    assert r in remarks && forall x | x in before :: x in remarks;
    OccursIff(before, r);
    if r in used {
      var x :| x in before && NameFor(x, Occurrences(before, x), r);
      assert forall c: nat | c >= 2 :: Numbered(x, c) !in remarks;
    }
    if n >= 1 {
      assert NameFor(r, n, r);
    }
    forall c: nat | c >= 2
      ensures Numbered(r, c) in used <==> c <= n
    {
      if Numbered(r, c) in used {
        var x :| x in before && NameFor(x, Occurrences(before, x), Numbered(r, c));
        assert Numbered(r, c) != x;
        var d :| 2 <= d <= Occurrences(before, x) && Numbered(r, c) == Numbered(x, d);
        NumberedIdentifies(r, c, x, d);
      }
      if c <= n {
        assert NameFor(r, n, Numbered(r, c));
      }
    }
  }

  /** The name of the next plain remark is its next number. */
  lemma NextName(remarks: seq<string>, used: seq<string>, r: string, n: nat)
    requires r in used <==> n >= 1
    requires forall c: nat | c >= 2 :: Numbered(r, c) in used <==> c <= n
    ensures UniqueRemark(r, used) == if n == 0 then r else Numbered(r, n + 1)
  {
    UniqueRemarkIs(r, used);
    if n >= 1 {
      var d :| 2 <= d <= |used| + 1 && IsFirstFree(r, used, d, UniqueRemark(r, used));
      assert d > n;
      assert d > 2 ==> Numbered(r, d - 1) in used;
    }
  }

  lemma OccursAppend(before: seq<string>, r: string, x: string)
    ensures Occurrences(before + [r], x) == Occurrences(before, x) + if x == r then 1 else 0
  {
    assert (before + [r])[..|before|] == before;
  }

  lemma MoreNames(r: string, n: nat, name: string)
    ensures NameFor(r, n + 1, name) <==> NameFor(r, n, name) || name == (if n == 0 then r else Numbered(r, n + 1))
  {
  }

  lemma OneMoreGiven(before: seq<string>, r: string, name: string)
    ensures var n := Occurrences(before, r);
            Given(before + [r], name) <==> Given(before, name) || name == (if n == 0 then r else Numbered(r, n + 1))
  {
    var remarks, n := before + [r], Occurrences(before, r);
    OccursIff(before, r);
    OccursAppend(before, r, r);
    MoreNames(r, n, name);
    assert r in remarks;
    if Given(remarks, name) {
      var x :| x in remarks && NameFor(x, Occurrences(remarks, x), name);
      OccursAppend(before, r, x);
    }
    if Given(before, name) {
      var x :| x in before && NameFor(x, Occurrences(before, x), name);
      OccursAppend(before, r, x);
      MoreNames(x, Occurrences(before, x), name);
      assert x in remarks;
    }
  }

  /** For plain remarks the names are known beforehand: each remark, and its numbers from 2 to how often it occurs. */
  lemma {:induction false} PlainNamesIff(remarks: seq<string>, name: string)
    requires Plain(remarks)
    ensures name in Assign(remarks) <==> Given(remarks, name)
  {
    if remarks != [] {
      var before, r := remarks[..|remarks| - 1], remarks[|remarks| - 1];
      assert remarks == before + [r];
      assert forall x | x in before :: x in remarks;
      forall x
        ensures x in Assign(before) <==> Given(before, x)
      {
        PlainNamesIff(before, x);
      }
      var n := Occurrences(before, r);
      UsedFor(before, r, Assign(before), n);
      NextName(remarks, Assign(before), r, n);
      OneMoreGiven(before, r, name);
    }
  }

  // ---- The tags of a sing-box document

  /** Names are checked against each other but not against the template. */
  lemma TagsByNames(template: seq<Node>, taken: seq<Entry>)
    ensures DistinctNames(SingBoxOutbounds(template, taken)) <==>
              && DistinctNames(template)
              && forall t | t in template :: t.name !in Assign(RemarksOf(taken))
  {
    var names, outbounds := Assign(RemarksOf(taken)), SingBoxOutbounds(template, taken);
    NamesAreDistinct(RemarksOf(taken));
    var n := |template|;
    assert forall i | 0 <= i < |taken| :: outbounds[n + i].name == names[i];
    assert forall i | 0 <= i < n :: outbounds[i] == template[i];
    if DistinctNames(outbounds) {
      forall t | t in template
        ensures t.name !in names
      {
        var i :| 0 <= i < n && template[i] == t;
        forall k | 0 <= k < |taken|
          ensures names[k] != t.name
        {
          assert outbounds[i].name != outbounds[n + k].name;
        }
      }
    }
  }

  /** All tags of a document whose remarks are plain are different exactly when those of the template are, and none of them
      is a remark or the number of a remark up to how often that occurs. */
  lemma SingBoxTagsAreDistinctIff(template: seq<Node>, taken: seq<Entry>)
    requires Plain(RemarksOf(taken))
    ensures DistinctNames(SingBoxOutbounds(template, taken)) <==>
              DistinctNames(template) && forall t | t in template :: !Given(RemarksOf(taken), t.name)
  {
    TagsByNames(template, taken);
    forall t | t in template
      ensures t.name in Assign(RemarksOf(taken)) <==> Given(RemarksOf(taken), t.name)
    {
      PlainNamesIff(RemarksOf(taken), t.name);
    }
  }

  /** Whatever the remarks are: a template tag that is the remark of an accepted entry always collides. */
  lemma TemplateTagCollides(template: seq<Node>, taken: seq<Entry>, t: Node, k: nat)
    requires t in template && k < |taken| && taken[k].remark == t.name
    ensures !DistinctNames(SingBoxOutbounds(template, taken))
  {
    RemarkIsAssigned(RemarksOf(taken), k);
    TagsByNames(template, taken);
  }

  /** Whatever the remarks are: a template that has none of them, with or without a number, never collides. */
  lemma UnrelatedTemplateIsDistinct(template: seq<Node>, taken: seq<Entry>)
    requires DistinctNames(template)
    requires forall t, k | t in template && 0 <= k < |taken| ::
               t.name != taken[k].remark && forall c | 2 <= c <= |taken| :: t.name != Numbered(taken[k].remark, c)
    ensures DistinctNames(SingBoxOutbounds(template, taken))
  {
    TagsByNames(template, taken);
    forall t | t in template
      ensures t.name !in Assign(RemarksOf(taken))
    {
      if t.name in Assign(RemarksOf(taken)) {
        var k := AssignedIsRelated(RemarksOf(taken), t.name);
      }
    }
  }

  /** A server called "direct" beside the template's own outbound of that name. */
  lemma DirectCollides()
    ensures var template := [Node("direct", "direct", "")];
            var taken := [Entry("direct", "192.0.2.1", "tcp", "none", "vless")];
            && SingBoxTakes(taken[0])
            && DistinctNames(template) && !DistinctNames(SingBoxOutbounds(template, taken))
  {
    var template := [Node("direct", "direct", "")];
    TemplateTagCollides(template, [Entry("direct", "192.0.2.1", "tcp", "none", "vless")], template[0], 0);
  }
}
