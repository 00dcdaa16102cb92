/** What routing rules mean: rules are tried from top to bottom and the first that matches decides. */
module XrayRouting {
  import opened Options

  datatype Network = Tcp | Udp

  /** `details` stands for everything else a condition may look at. */
  datatype Packet = Packet(network: Network, inbound: string, details: int)

  /** The conditions the generators never write themselves are judged by a parameter:
      (name, value, packet) -> holds. */
  type Conditions = (string, string, Packet) -> bool

  /** A rule document; None is an absent key. `others` are the remaining conditions. */
  datatype Rule = Rule(
    outboundTag: Option<string>,
    balancerTag: Option<string>,
    network: Option<string>,
    inboundTag: Option<seq<string>>,
    ruleTag: Option<string>,
    others: map<string, string>)

  datatype Target = Outbound(tag: string) | Balanced(tag: string) | NoTarget | Default

  predicate Present(tag: Option<string>) {
    tag.Some? && tag.value != ""
  }

  predicate BothNetworks(network: string) {
    network == "tcp,udp" || network == "udp,tcp"
  }

  predicate Matches(holds: Conditions, r: Rule, p: Packet) {
    && (r.network.Some? ==> BothNetworks(r.network.value) || holds("network", r.network.value, p))
    && (r.inboundTag.Some? ==> p.inbound in r.inboundTag.value)
    && (forall k | k in r.others :: holds(k, r.others[k], p))
  }

  /** An outbound named directly takes precedence over a balancer. */
  function TargetOf(r: Rule): Target {
    if Present(r.outboundTag) then Outbound(r.outboundTag.value)
    else if Present(r.balancerTag) then Balanced(r.balancerTag.value)
    else NoTarget
  }

  function FirstMatch(holds: Conditions, rules: seq<Rule>, p: Packet): Option<Rule> {
    if rules == [] then None
    else if Matches(holds, rules[0], p) then Some(rules[0])
    else FirstMatch(holds, rules[1..], p)
  }

  /** Unmatched packets leave by the first outbound. */
  function Eval(holds: Conditions, rules: seq<Rule>, p: Packet): Target {
    match FirstMatch(holds, rules, p)
    case Some(r) => TargetOf(r)
    case None => Default
  }

  lemma {:induction false} FirstMatchAppend(holds: Conditions, a: seq<Rule>, b: seq<Rule>, p: Packet)
    ensures FirstMatch(holds, a + b, p) ==
            if FirstMatch(holds, a, p).Some? then FirstMatch(holds, a, p) else FirstMatch(holds, b, p)
  {
    if a == [] {
      assert a + b == b;
    } else {
      assert (a + b)[1..] == a[1..] + b;
      FirstMatchAppend(holds, a[1..], b, p);
    }
  }

  lemma {:induction false} FirstMatchIsMember(holds: Conditions, rules: seq<Rule>, p: Packet)
    ensures match FirstMatch(holds, rules, p)
            case Some(r) => r in rules && Matches(holds, r, p)
            case None => forall r | r in rules :: !Matches(holds, r, p)
  {
    if rules != [] {
      FirstMatchIsMember(holds, rules[1..], p);
    }
  }

  /** A selector takes every outbound whose tag starts with one of its entries. */
  predicate SelectedBy(selector: seq<string>, tag: string) {
    exists s :: s in selector && s <= tag
  }

  function Selected(selector: seq<string>, tags: set<string>): set<string> {
    set t | t in tags && SelectedBy(selector, t)
  }

  function AsSet(s: seq<string>): set<string> {
    set t | t in s
  }

  /** Some other tag continues a tag of the selector. */
  predicate SomeContinues(own: set<string>, others: set<string>) {
    exists p, t :: p in own && t in others && p <= t
  }

  lemma SelectedByMember(selector: seq<string>, t: string)
    ensures SelectedBy(selector, t) <==> exists p :: p in AsSet(selector) && p <= t
    ensures t in AsSet(selector) ==> SelectedBy(selector, t)
  {
    if SelectedBy(selector, t) {
      var p :| p in selector && p <= t;
      assert p in AsSet(selector);
    }
    if t in AsSet(selector) {
      assert t in selector && t <= t;
    }
  }

  /** A selector that lists tags of the document reaches these, and nothing else exactly when no other tag of the
      document continues one of them. */
  lemma SelectedExactlyIff(selector: seq<string>, tags: set<string>)
    requires AsSet(selector) <= tags
    ensures AsSet(selector) <= Selected(selector, tags)
    ensures Selected(selector, tags) == AsSet(selector) <==> !SomeContinues(AsSet(selector), tags - AsSet(selector))
  {
    var own, others := AsSet(selector), tags - AsSet(selector);
    forall t
      ensures SelectedBy(selector, t) <==> exists p :: p in own && p <= t
      ensures t in own ==> SelectedBy(selector, t)
    {
      SelectedByMember(selector, t);
    }
    if SomeContinues(own, others) {
      var p, t :| p in own && t in others && p <= t;
      assert t in Selected(selector, tags);
    } else {
      assert forall t | t in others :: !SelectedBy(selector, t);
    }
  }
}
