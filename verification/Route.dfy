/** Conditions, rules and the first-match route table. */
module Route {
  import opened Common
  import opened Text
  import opened Cidr
  import opened Addr

  type SoundBlock = block: Block | Sound(block) witness Block(IpAddr.V4([0, 0, 0, 0]), 0)

  datatype Target = Numeric(ip: IpAddr) | Named(name: string)

  /** A flow: its target, a sniffed domain, and what the balancer would pick for it among so many tags. */
  datatype Query = Query(target: Target, port: U16, sniffed: Option<string>, pick: nat -> Option<nat>)

  /** Geo membership, from outside. */
  datatype Geo = Geo(site: (string, string) -> bool, ip: (string, IpAddr) -> bool)

  datatype Condition =
    | GeoSite(tag: string)
    | DomainSuffix(suffix: string)
    | GeoIp(tag: string)
    | Within(block: SoundBlock)
    | Port(lo: U16, hi: U16)
    | Any

  datatype Decision = Outbound(tag: string) | Freedom | Blackhole

  datatype Rule = Rule(conditions: seq<Condition>, outs: seq<string>)

  datatype Table = Table(rules: seq<Rule>, default: Decision)

  /** The domain to match against, in lower case. */
  function QueryDomain(q: Query): Option<string> {
    match q.target
    case Named(d) => Some(Lower(d))
    case Numeric(_) => if q.sniffed.Some? then Some(Lower(q.sniffed.value)) else None
  }

  predicate DomainSuffixMatch(d: string, suffix: string) {
    if Lower(d) == Lower(suffix) then true
    else if |d| >= |suffix| + 1 then
      var i := |d| - |suffix|;
      d[i - 1] == '.' && Lower(d[i..]) == Lower(suffix)
    else false
  }

  /** Suffix matching is about whole labels, whatever the case. */
  lemma SuffixMatchIsUnder(d: string, suffix: string)
    ensures DomainSuffixMatch(d, suffix) <==> Under(Lower(d), Lower(suffix))
  {
    UnderMeans(Lower(d), Lower(suffix));
    var i := |d| - |suffix|;
    if i >= 1 {
      assert Lower(d)[i..] == Lower(d[i..]);
      assert Lower(d)[i - 1] == '.' <==> d[i - 1] == '.';
    }
  }

  predicate Matches(c: Condition, q: Query, geo: Geo) {
    match c
    case Any => true
    case Port(lo, hi) => lo <= q.port <= hi
    case DomainSuffix(suffix) => var d := QueryDomain(q); d.Some? && DomainSuffixMatch(d.value, suffix)
    case GeoSite(tag) => var d := QueryDomain(q); d.Some? && geo.site(tag, d.value)
    case Within(block) => q.target.Numeric? && InBlock(block, q.target.ip)
    case GeoIp(tag) => q.target.Numeric? && geo.ip(tag, q.target.ip)
  }

  /** Some condition of the rule matches. */
  predicate RuleMatches(rule: Rule, q: Query, geo: Geo) {
    exists i :: 0 <= i < |rule.conditions| && Matches(rule.conditions[i], q, geo)
  }

  function Decide(rule: Rule, q: Query): Decision {
    if |rule.outs| == 0 then Blackhole
    else if |rule.outs| == 1 then Outbound(rule.outs[0])
    else
      var i := q.pick(|rule.outs|);
      if i.Some? && i.value < |rule.outs| then Outbound(rule.outs[i.value]) else Blackhole
  }

  /** The first matching rule decides, or else the default. */
  function Routed(rules: seq<Rule>, default: Decision, q: Query, geo: Geo): Decision {
    if rules == [] then default
    else if RuleMatches(rules[0], q, geo) then Decide(rules[0], q)
    else Routed(rules[1..], default, q, geo)
  }

  /** Order in the table is all that matters: the decision belongs to the least matching index. */
  lemma {:induction false} RoutedIsFirstMatch(rules: seq<Rule>, default: Decision, q: Query, geo: Geo, k: nat)
    requires k <= |rules| && forall i :: 0 <= i < k ==> !RuleMatches(rules[i], q, geo)
    requires k < |rules| ==> RuleMatches(rules[k], q, geo)
    ensures Routed(rules, default, q, geo) == if k < |rules| then Decide(rules[k], q) else default
  {
    if k > 0 {
      assert !RuleMatches(rules[0], q, geo);
      RoutedIsFirstMatch(rules[1..], default, q, geo, k - 1);
    }
  }

  method AnyMatches(rule: Rule, q: Query, geo: Geo) returns (r: bool)
    ensures r == RuleMatches(rule, q, geo)
  {
    for i := 0 to |rule.conditions|
      invariant forall j :: 0 <= j < i ==> !Matches(rule.conditions[j], q, geo)
    {
      if Matches(rule.conditions[i], q, geo) {
        return true;
      }
    }
    return false;
  }

  method RouteFlow(table: Table, q: Query, geo: Geo) returns (d: Decision)
    ensures d == Routed(table.rules, table.default, q, geo)
    ensures forall k :: 0 <= k < |table.rules| && RuleMatches(table.rules[k], q, geo)
              && (forall i :: 0 <= i < k ==> !RuleMatches(table.rules[i], q, geo))
              ==> d == Decide(table.rules[k], q)
    ensures (forall i :: 0 <= i < |table.rules| ==> !RuleMatches(table.rules[i], q, geo)) ==> d == table.default
  {
    for i := 0 to |table.rules|
      invariant forall j :: 0 <= j < i ==> !RuleMatches(table.rules[j], q, geo)
    {
      var hit := AnyMatches(table.rules[i], q, geo);
      if hit {
        RoutedIsFirstMatch(table.rules, table.default, q, geo, i);
        return Decide(table.rules[i], q);
      }
    }
    RoutedIsFirstMatch(table.rules, table.default, q, geo, |table.rules|);
    return table.default;
  }

  /** A port range matches exactly its ports, both ends included. */
  lemma PortRange(lo: U16, hi: U16, q: Query, geo: Geo)
    ensures q.port == lo <= hi || lo <= hi == q.port ==> Matches(Port(lo, hi), q, geo)
    ensures lo < q.port < hi ==> Matches(Port(lo, hi), q, geo)
    ensures q.port < lo || hi < q.port ==> !Matches(Port(lo, hi), q, geo)
  {
  }

  /** A rule decides for one of its own tags, its only one if there is one, and drops the flow without any. */
  lemma DecidesForOwnTag(rule: Rule, q: Query)
    ensures rule.outs == [] ==> Decide(rule, q) == Blackhole
    ensures |rule.outs| == 1 ==> Decide(rule, q) == Outbound(rule.outs[0])
    ensures Decide(rule, q).Outbound? ==> Decide(rule, q).tag in rule.outs
    ensures |rule.outs| > 1 && q.pick(|rule.outs|).Some? && q.pick(|rule.outs|).value < |rule.outs| ==>
              Decide(rule, q) == Outbound(rule.outs[q.pick(|rule.outs|).value])
  {
  }

  /** A block matches exactly the addresses of its family that agree with it in the prefix. */
  lemma WithinBlock(block: SoundBlock, q: Query, geo: Geo)
    ensures Matches(Within(block), q, geo) <==>
              && q.target.Numeric? && block.addr.V4? == q.target.ip.V4?
              && SameNetwork(Octets(block.addr), Octets(q.target.ip), block.prefix)
  {
    hide SameNetwork;
  }
}
