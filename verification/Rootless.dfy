/** Rootless Podman preparation (src/helper.rs): the rules of a policy, what they decide, and how DNS
    queries travel through the nat and filter tables. */
module Rootless {
  import opened Text
  import opened Addresses
  import opened Firewall
  import opened Iptables
  import opened HostRules
  import opened OutputPolicy

  const DNS_IP: U32 := 0xC612_0001    // 198.18.0.1
  const LOOPBACK: U32 := 0x7F00_0001  // 127.0.0.1
  const DNS_PORT: nat := 53

  datatype Plan = Plan(name: string, source: U32, interface: string, port: nat)

  function SourceCidr(plan: Plan): string {
    CidrText(plan.source, 32)
  }

  /** Where the daemon answers: on the alias itself for port 53, otherwise redirected to loopback. */
  function DnsDestination(port: nat): U32 {
    if port == DNS_PORT then DNS_IP else LOOPBACK
  }

  // ---------- the IPv4 block ----------

  function EstablishedRule(name: string, source: string): Rule {
    Rule([Source(source), Comment(Marker(name, "established")), Established], Accept)
  }

  function DnsRule(name: string, source: string, dns: string, protocol: Protocol, port: nat): Rule {
    Rule([Source(source), Dest(dns), Proto(protocol), DestPort(port),
          Comment(Marker(name, "dns-" + ProtocolName(protocol)))], Accept)
  }

  function AllowRule(name: string, source: string, set_: string): Rule {
    Rule([Source(source), Comment(Marker(name, "allow")), DestInSet(set_)], Accept)
  }

  function DropRule(name: string, source: string): Rule {
    Rule([Source(source), Comment(Marker(name, "drop"))], Drop)
  }

  function Block(name: string, source: string, dns: string, port: nat): seq<Rule> {
    [EstablishedRule(name, source), DnsRule(name, source, dns, Udp, port), DnsRule(name, source, dns, Tcp, port),
     AllowRule(name, source, name), DropRule(name, source)]
  }

  function DnsCidr(port: nat): string {
    CidrText(DnsDestination(port), 32)
  }

  function PolicyOf(plan: Plan): Policy {
    Policy(plan.name, SourceCidr(plan), Block(plan.name, SourceCidr(plan), DnsCidr(plan.port), plan.port))
  }

  lemma BlockIsGuarded(policy: Policy)
    requires |policy.block| == 5 && Distinct(policy.block)
    requires forall i :: 0 <= i < 5 ==> FitsBlock(policy.block[i], policy.source)
    requires |policy.block[4].matches| == 2 && policy.block[4].matches[1].Comment?
    ensures Guarded(policy) && Writable(policy)
  {
  }

  lemma FiveDistinct(block: seq<Rule>)
    requires |block| == 5
    requires |block[0].matches| == 3 == |block[3].matches| && block[0].matches[2] != block[3].matches[2]
    requires |block[1].matches| == |block[2].matches| > 3 && block[1] != block[2]
    requires |block[4].matches| == 2
    ensures Distinct(block)
  {
  }

  /** A rule that can stand in a policy's block. */
  predicate FitsBlock(r: Rule, source: string) {
    SourceFirst(r, source) && Printable(r) && Deciding(r.target)
  }

  lemma SmallRulesFit(name: string, source: string, set_: string)
    ensures FitsBlock(EstablishedRule(name, source), source)
    ensures FitsBlock(AllowRule(name, source, set_), source)
    ensures FitsBlock(DropRule(name, source), source)
  {
  }

  lemma DnsRuleFits(name: string, source: string, dns: string, protocol: Protocol, port: nat)
    requires !protocol.OtherProtocol?
    ensures FitsBlock(DnsRule(name, source, dns, protocol, port), source)
  {
  }

  lemma BlockShape(name: string, source: string, dns: string, port: nat)
    ensures Guarded(Policy(name, source, Block(name, source, dns, port)))
    ensures Writable(Policy(name, source, Block(name, source, dns, port)))
  {
    var udp, tcp := DnsRule(name, source, dns, Udp, port), DnsRule(name, source, dns, Tcp, port);
    DnsRuleFits(name, source, dns, Udp, port);
    DnsRuleFits(name, source, dns, Tcp, port);
    SmallRulesFit(name, source, name);
    assert udp.matches[2] != tcp.matches[2];
    FiveDistinct(Block(name, source, dns, port));
    BlockIsGuarded(Policy(name, source, Block(name, source, dns, port)));
  }

  lemma PolicyIsGuarded(plan: Plan)
    ensures Guarded(PolicyOf(plan)) && Writable(PolicyOf(plan))
  {
    BlockShape(plan.name, SourceCidr(plan), DnsCidr(plan.port), plan.port);
  }

  /** A query to the address and port where the filter lets DNS through. */
  predicate IsDns(port: nat, p: Packet) {
    (p.protocol == Udp || p.protocol == Tcp) && p.dst == V4(DnsDestination(port)) && p.dport == port
  }

  predicate InSet(sets: map<string, set<IpAddr>>, name: string, a: IpAddr) {
    name in sets && a in sets[name]
  }

  /** What a policy means: replies, DNS and allowed destinations pass, all else is dropped. */
  ghost function Meaning(env: Env, plan: Plan, p: Packet): Target {
    if p.established || IsDns(plan.port, p) || InSet(env.sets, plan.name, p.dst) then Accept else Drop
  }

  lemma DnsRuleMatches(env: Env, plan: Plan, protocol: Protocol, p: Packet)
    requires ReadsV4Blocks(env) && p.src == V4(plan.source)
    ensures Matches(env, DnsRule(plan.name, SourceCidr(plan), DnsCidr(plan.port), protocol, plan.port), p) <==>
      p.protocol == protocol && p.dst == V4(DnsDestination(plan.port)) && p.dport == plan.port
  {
    DnsRuleConditions(env, plan.name, SourceCidr(plan), DnsCidr(plan.port), protocol, plan.port, p);
    HostBlock(env, plan.source, p.src);
    HostBlock(env, DnsDestination(plan.port), p.dst);
  }

  lemma DnsRuleConditions(
    env: Env, name: string, source: string, dns: string, protocol: Protocol, port: nat, p: Packet)
    ensures Matches(env, DnsRule(name, source, dns, protocol, port), p) <==>
      env.inBlock(source, p.src) && env.inBlock(dns, p.dst) && p.protocol == protocol && p.dport == port
  {
    FiveMatches(env, DnsRule(name, source, dns, protocol, port), p);
  }

  lemma SmallRulesMatch(env: Env, name: string, source: string, set_: string, p: Packet)
    requires From(env, source, p)
    ensures Matches(env, EstablishedRule(name, source), p) <==> p.established
    ensures Matches(env, AllowRule(name, source, set_), p) <==> InSet(env.sets, set_, p.dst)
    ensures Matches(env, DropRule(name, source), p)
  {
    ThreeMatches(env, EstablishedRule(name, source), p);
    ThreeMatches(env, AllowRule(name, source, set_), p);
    TwoMatches(env, DropRule(name, source), p);
  }

  /** The first match among five rules, spelled out. */
  lemma FirstOfFive(env: Env, block: seq<Rule>, p: Packet)
    requires |block| == 5 && Matches(env, block[4], p)
    ensures FirstTarget(env, block, p) ==
      if Matches(env, block[0], p) then block[0].target
      else if Matches(env, block[1], p) then block[1].target
      else if Matches(env, block[2], p) then block[2].target
      else if Matches(env, block[3], p) then block[3].target
      else block[4].target
  {
    var b1, b2, b3, b4 := block[1..], block[1..][1..], block[1..][1..][1..], block[1..][1..][1..][1..];
    assert b1[3] == b2[2] == b3[1] == b4[0] == block[4];
    assert b1[0] == block[1] && b2[0] == block[2] && b3[0] == block[3];
    if !Matches(env, block[0], p) {
      assert FirstTarget(env, block, p) == FirstTarget(env, b1, p);
      if !Matches(env, block[1], p) {
        assert FirstTarget(env, b1, p) == FirstTarget(env, b2, p);
        if !Matches(env, block[2], p) {
          assert FirstTarget(env, b2, p) == FirstTarget(env, b3, p);
          if !Matches(env, block[3], p) {
            assert FirstTarget(env, b3, p) == FirstTarget(env, b4, p);
          }
        }
      }
    }
  }

  /** The five rules decide exactly as the policy means. */
  lemma BlockMeaning(env: Env, plan: Plan, p: Packet)
    requires ReadsV4Blocks(env) && p.src == V4(plan.source)
    ensures From(env, SourceCidr(plan), p)
    ensures Matches(env, Last(PolicyOf(plan).block), p)
    ensures FirstTarget(env, PolicyOf(plan).block, p) == Meaning(env, plan, p)
  {
    HostBlock(env, plan.source, p.src);
    SmallRulesMatch(env, plan.name, SourceCidr(plan), plan.name, p);
    DnsRuleMatches(env, plan, Udp, p);
    DnsRuleMatches(env, plan, Tcp, p);
    FirstOfFive(env, PolicyOf(plan).block, p);
  }

  // ---------- any run of preparations ----------

  function Policies(plans: seq<Plan>): (ps: seq<Policy>)
    ensures |ps| == |plans| && forall i :: 0 <= i < |plans| ==> ps[i] == PolicyOf(plans[i])
  {
    seq(|plans|, i requires 0 <= i < |plans| => PolicyOf(plans[i]))
  }

  /** The filter chains after a run of preparations. */
  function Prepared(filter: Chains, plans: seq<Plan>): Chains {
    InstallAll(filter, Policies(plans))
  }

  /** The latest plan with this source. */
  function LatestPlan(plans: seq<Plan>, source: IpAddr): (plan: Option<Plan>)
    ensures plan.Some? ==> plan.value in plans && V4(plan.value.source) == source
    ensures plan.None? ==> forall q :: q in plans ==> V4(q.source) != source
  {
    if plans == [] then None
    else if V4(plans[|plans| - 1].source) == source then Some(plans[|plans| - 1])
    else
      assert forall q :: q in plans ==> q in plans[..|plans| - 1] || q == plans[|plans| - 1];
      LatestPlan(plans[..|plans| - 1], source)
  }

  lemma {:induction false} GoverningPlan(env: Env, plans: seq<Plan>, p: Packet)
    requires ReadsV4Blocks(env)
    ensures Governing(env, Policies(plans), p) ==
      match LatestPlan(plans, p.src) case Some(plan) => Some(PolicyOf(plan)) case None => None
  {
    if plans != [] {
      var n := |plans| - 1;
      GoverningPlan(env, plans[..n], p);
      PoliciesPrefix(plans);
      PlanGoverns(env, plans[n], p);
    }
  }

  lemma PoliciesPrefix(plans: seq<Plan>)
    requires plans != []
    ensures Policies(plans)[..|plans| - 1] == Policies(plans[..|plans| - 1])
    ensures Policies(plans)[|plans| - 1] == PolicyOf(plans[|plans| - 1])
  {
  }

  lemma PlanGoverns(env: Env, plan: Plan, p: Packet)
    requires ReadsV4Blocks(env)
    ensures From(env, PolicyOf(plan).source, p) <==> p.src == V4(plan.source)
  {
    HostBlock(env, plan.source, p.src);
  }

  /** Default deny for every prepared source, nothing changed for any other: over any earlier contents of
      the chains, any run of preparations (repeats and changed ports included) and any jump depth. */
  lemma RootlessRun(env: Env, filter: Chains, plans: seq<Plan>, depth: nat, p: Packet)
    requires ReadsV4Blocks(env) && depth >= 1
    ensures Verdict(env, Prepared(filter, plans), depth, OUTPUT, p) ==
      match LatestPlan(plans, p.src)
      case Some(plan) => Decided(Meaning(env, plan, p))
      case None => Verdict(env, filter, depth, OUTPUT, p)
  {
    forall i | 0 <= i < |plans| ensures Guarded(Policies(plans)[i]) {
      PolicyIsGuarded(plans[i]);
    }
    RunDecides(env, filter, Policies(plans), depth, p);
    GoverningPlan(env, plans, p);
    if LatestPlan(plans, p.src).Some? {
      BlockMeaning(env, LatestPlan(plans, p.src).value, p);
    }
  }
}
