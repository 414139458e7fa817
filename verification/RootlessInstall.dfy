/** The IPv6 side of a rootless policy, and the procedure that writes all its rules (src/helper.rs). */
module RootlessInstall {
  import opened Text
  import opened Firewall
  import opened Iptables
  import opened HostRules
  import opened OutputPolicy
  import opened Rootless
  import opened DnsDelivery
  import Ipset

  function NeighborRule(name: string, source: string, kind: string): Rule {
    Rule([Source(source), Proto(Icmp6), IcmpType(kind), Comment(Marker(name, kind))], Accept)
  }

  const SOLICITATION := "neighbor-solicitation"
  const ADVERTISEMENT := "neighbor-advertisement"

  function Block6(name: string, source: string): seq<Rule> {
    [EstablishedRule(name, source), NeighborRule(name, source, SOLICITATION),
     NeighborRule(name, source, ADVERTISEMENT), AllowRule(name, source, Ipset.Ipv6Name(name)), DropRule(name, source)]
  }

  function Policy6(name: string, source: string): Policy {
    Policy(name, source, Block6(name, source))
  }

  lemma Policy6IsGuarded(name: string, source: string)
    ensures Guarded(Policy6(name, source)) && Writable(Policy6(name, source))
  {
    var a, b := NeighborRule(name, source, SOLICITATION), NeighborRule(name, source, ADVERTISEMENT);
    NeighborRuleFits(name, source, SOLICITATION);
    NeighborRuleFits(name, source, ADVERTISEMENT);
    SmallRulesFit(name, source, Ipset.Ipv6Name(name));
    assert |SOLICITATION| != |ADVERTISEMENT|;
    assert a.matches[2] != b.matches[2];
    FiveDistinct(Block6(name, source));
    BlockIsGuarded(Policy6(name, source));
  }

  lemma NeighborRuleFits(name: string, source: string, kind: string)
    ensures FitsBlock(NeighborRule(name, source, kind), source)
  {
  }

  predicate IsNeighborDiscovery(p: Packet) {
    p.protocol == Icmp6 && (p.icmpType == SOLICITATION || p.icmpType == ADVERTISEMENT)
  }

  /** What an IPv6 policy means: replies, neighbour discovery and allowed destinations pass. */
  ghost function Meaning6(env: Env, name: string, p: Packet): Target {
    if p.established
       || IsNeighborDiscovery(p)
       || InSet(env.sets, Ipset.Ipv6Name(name), p.dst)
    then Accept else Drop
  }

  lemma NeighborRuleMatches(env: Env, name: string, source: string, kind: string, p: Packet)
    requires From(env, source, p)
    ensures Matches(env, NeighborRule(name, source, kind), p) <==> p.protocol == Icmp6 && p.icmpType == kind
  {
    var r := NeighborRule(name, source, kind);
    if Matches(env, r, p) {
      assert MatchHolds(env, r.matches[1], p) && MatchHolds(env, r.matches[2], p);
    } else if p.protocol == Icmp6 && p.icmpType == kind {
      assert MatchHolds(env, r.matches[0], p) && MatchHolds(env, r.matches[1], p);
    }
  }

  lemma Block6Meaning(env: Env, name: string, source: string, p: Packet)
    requires From(env, source, p)
    ensures Matches(env, Last(Block6(name, source)), p)
    ensures FirstTarget(env, Block6(name, source), p) == Meaning6(env, name, p)
  {
    SmallRulesMatch(env, name, source, Ipset.Ipv6Name(name), p);
    NeighborRuleMatches(env, name, source, SOLICITATION, p);
    NeighborRuleMatches(env, name, source, ADVERTISEMENT, p);
    FirstOfFive(env, Block6(name, source), p);
  }

  datatype Plan6 = Plan6(name: string, source: string)

  function Policies6(plans: seq<Plan6>): (ps: seq<Policy>)
    ensures |ps| == |plans| && forall i :: 0 <= i < |plans| ==> ps[i] == Policy6(plans[i].name, plans[i].source)
  {
    seq(|plans|, i requires 0 <= i < |plans| => Policy6(plans[i].name, plans[i].source))
  }

  /** IPv6 default deny over any run: the latest preparation whose source block holds the packet's source
      decides by its meaning, and a packet of no prepared source keeps its verdict. */
  lemma RootlessRun6(env: Env, filter: Chains, plans: seq<Plan6>, depth: nat, p: Packet)
    requires depth >= 1
    ensures var verdict := Verdict(env, InstallAll(filter, Policies6(plans)), depth, OUTPUT, p);
      match Governing(env, Policies6(plans), p)
      case Some(policy) =>
        && (exists i :: 0 <= i < |plans| && policy == Policy6(plans[i].name, plans[i].source))
        && From(env, policy.source, p)
        && verdict == Decided(Meaning6(env, policy.name, p))
      case None =>
        && (forall i :: 0 <= i < |plans| ==> !From(env, plans[i].source, p))
        && verdict == Verdict(env, filter, depth, OUTPUT, p)
  {
    forall i | 0 <= i < |plans| ensures Guarded(Policies6(plans)[i]) {
      Policy6IsGuarded(plans[i].name, plans[i].source);
    }
    RunDecides(env, filter, Policies6(plans), depth, p);
    GoverningIsMember(env, Policies6(plans), p);
    if Governing(env, Policies6(plans), p).Some? {
      var policy := Governing(env, Policies6(plans), p).value;
      var i :| 0 <= i < |plans| && policy == Policies6(plans)[i];
      Block6Meaning(env, policy.name, policy.source, p);
    } else {
      forall i | 0 <= i < |plans| ensures !From(env, plans[i].source, p) {
        assert Policies6(plans)[i] in Policies6(plans);
      }
    }
  }

  // ---------- the procedure ----------

  predicate NatReady(tables: Tables) {
    HasChain(tables, "nat", OUTPUT) && HasChain(tables, "nat", PREROUTING) && HasChain(tables, "nat", POSTROUTING)
  }

  lemma NatRulesPrintable(plan: Plan, chain: string, protocol: Protocol)
    requires !protocol.OtherProtocol?
    ensures Printable(RedirectRule(plan.name, SourceCidr(plan), chain, protocol, plan.port))
    ensures Printable(MasqueradeRule(plan.name, SourceCidr(plan), plan.interface))
  {
  }

  /** Both redirects of one nat chain. */
  method EnsureRedirects(host: Host, chain: string, plan: Plan) returns (ok: bool)
    requires HasChain(host.tables, "nat", chain)
    modifies host
    ensures ok
    ensures host.tables == SetChain(old(host.tables), "nat", chain,
      WithRedirects(old(host.tables)["nat"][chain], chain, plan))
  {
    ghost var rules := host.tables["nat"][chain];
    var udp := RedirectRule(plan.name, SourceCidr(plan), chain, Udp, plan.port);
    var tcp := RedirectRule(plan.name, SourceCidr(plan), chain, Tcp, plan.port);
    NatRulesPrintable(plan, chain, Udp);
    NatRulesPrintable(plan, chain, Tcp);
    ok := EnsureFirst(host, "nat", chain, udp);
    ok := EnsureFirst(host, "nat", chain, tcp);
    SetChainTwice(old(host.tables), "nat", chain, Put(rules, udp), Put(Put(rules, udp), tcp));
  }

  /** The four redirects. */
  method EnsureDnsRedirects(host: Host, plan: Plan) returns (ok: bool)
    requires HasChain(host.tables, "nat", OUTPUT) && HasChain(host.tables, "nat", PREROUTING)
    requires plan.port != DNS_PORT
    modifies host
    ensures ok
    ensures host.tables == old(host.tables)["nat" := Redirected(old(host.tables)["nat"], plan)]
  {
    ghost var start := host.tables["nat"];
    ChainNames();
    ok := EnsureRedirects(host, OUTPUT, plan);
    ok := EnsureRedirects(host, PREROUTING, plan);
    assert host.tables["nat"] == Redirected(start, plan);
  }

  /** The nat part: redirects unless the daemon uses port 53, then masquerading. */
  method EnsureNatRules(host: Host, plan: Plan) returns (ok: bool)
    requires NatReady(host.tables)
    modifies host
    ensures ok
    ensures host.tables == old(host.tables)["nat" := InstallNat(old(host.tables)["nat"], plan)]
  {
    if plan.port != DNS_PORT {
      ok := EnsureDnsRedirects(host, plan);
    }
    assert host.tables["nat"] == Redirected(old(host.tables)["nat"], plan);
    NatRulesPrintable(plan, OUTPUT, Udp);
    ok := EnsureFirst(host, "nat", POSTROUTING, MasqueradeRule(plan.name, SourceCidr(plan), plan.interface));
  }

  /** All rules of a rootless policy. With the built-in chains in place no step can fail, every insert
      position is valid, and the tables end up as `Install` and `InstallNat` say. */
  method EnsureRootlessPodmanRules(host: Host, host6: Host, plan: Plan, source6: Option<string>) returns (ok: bool)
    requires host != host6
    requires HasChain(host.tables, "filter", OUTPUT) && NatReady(host.tables)
    requires HasChain(host6.tables, "filter", OUTPUT)
    modifies host, host6
    ensures ok
    ensures host.tables == old(host.tables)["filter" := Install(old(host.tables)["filter"], PolicyOf(plan))]
                                           ["nat" := InstallNat(old(host.tables)["nat"], plan)]
    ensures host6.tables == match source6
      case Some(s) => old(host6.tables)["filter" := Install(old(host6.tables)["filter"], Policy6(plan.name, s))]
      case None => old(host6.tables)
  {
    PolicyIsGuarded(plan);
    ok := InstallRules(host, PolicyOf(plan));
    assert "filter" != "nat";
    ok := EnsureNatRules(host, plan);
    if source6.Some? {
      Policy6IsGuarded(plan.name, source6.value);
      ok := InstallRules(host6, Policy6(plan.name, source6.value));
    }
  }
}
