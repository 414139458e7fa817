/** How a policy's DNS query reaches the daemon: the redirects in the nat table and the filter rules
    together (src/helper.rs). */
module DnsDelivery {
  import opened Text
  import opened Addresses
  import opened Firewall
  import opened Iptables
  import opened HostRules
  import opened OutputPolicy
  import opened Rootless

  const POSTROUTING := "POSTROUTING"

  function RedirectRule(name: string, source: string, chain: string, protocol: Protocol, port: nat): Rule {
    Rule([Source(source), Dest(CidrText(DNS_IP, 32)), Proto(protocol), DestPort(DNS_PORT),
          Comment(Marker(name, "dns-" + chain + "-" + ProtocolName(protocol)))], Redirect(port))
  }

  function MasqueradeRule(name: string, source: string, interface: string): Rule {
    Rule([Source(source), OutInterface(interface), Comment(Marker(name, "masquerade"))], Masquerade)
  }

  /** Both protocols, each ensured at position 1. */
  function WithRedirects(rules: seq<Rule>, chain: string, plan: Plan): seq<Rule> {
    Put(Put(rules, RedirectRule(plan.name, SourceCidr(plan), chain, Udp, plan.port)),
        RedirectRule(plan.name, SourceCidr(plan), chain, Tcp, plan.port))
  }

  function Redirected(nat_: Chains, plan: Plan): Chains {
    if plan.port == DNS_PORT then nat_
    else nat_[OUTPUT := WithRedirects(ChainOf(nat_, OUTPUT), OUTPUT, plan)]
             [PREROUTING := WithRedirects(ChainOf(nat_, PREROUTING), PREROUTING, plan)]
  }

  /** The nat table after one preparation. */
  function InstallNat(nat_: Chains, plan: Plan): Chains {
    var redirected := Redirected(nat_, plan);
    redirected[POSTROUTING :=
      Put(ChainOf(redirected, POSTROUTING), MasqueradeRule(plan.name, SourceCidr(plan), plan.interface))]
  }

  function PreparedNat(nat_: Chains, plans: seq<Plan>): Chains {
    if plans == [] then nat_
    else InstallNat(PreparedNat(nat_, plans[..|plans| - 1]), plans[|plans| - 1])
  }

  predicate IsQuery(p: Packet) {
    (p.protocol == Udp || p.protocol == Tcp) && p.dst == V4(DNS_IP) && p.dport == DNS_PORT
  }

  /** The latest plan with this source that needed redirects. */
  function LatestRedirecting(plans: seq<Plan>, source: IpAddr): (plan: Option<Plan>)
    ensures plan.Some? ==> plan.value in plans && V4(plan.value.source) == source && plan.value.port != DNS_PORT
    ensures plan.None? ==> forall q :: q in plans && V4(q.source) == source ==> q.port == DNS_PORT
  {
    if plans == [] then None
    else
      var last := plans[|plans| - 1];
      assert forall q :: q in plans ==> q in plans[..|plans| - 1] || q == last;
      if V4(last.source) == source && last.port != DNS_PORT then Some(last)
      else LatestRedirecting(plans[..|plans| - 1], source)
  }

  // ---------- the nat verdict of a packet ----------

  lemma RedirectMatches(env: Env, plan: Plan, chain: string, protocol: Protocol, p: Packet)
    requires ReadsV4Blocks(env)
    ensures Matches(env, RedirectRule(plan.name, SourceCidr(plan), chain, protocol, plan.port), p) <==>
      p.src == V4(plan.source) && p.dst == V4(DNS_IP) && p.protocol == protocol && p.dport == 53
  {
    RedirectConditions(env, plan.name, SourceCidr(plan), chain, protocol, plan.port, p);
    HostBlock(env, plan.source, p.src);
    HostBlock(env, DNS_IP, p.dst);
  }

  lemma RedirectConditions(
    env: Env, name: string, source: string, chain: string, protocol: Protocol, port: nat, p: Packet)
    ensures Matches(env, RedirectRule(name, source, chain, protocol, port), p) <==>
      && env.inBlock(source, p.src) && env.inBlock(CidrText(DNS_IP, 32), p.dst)
      && p.protocol == protocol && p.dport == DNS_PORT
  {
    FiveMatches(env, RedirectRule(name, source, chain, protocol, port), p);
  }

  lemma ProtocolsDiffer(name: string, source: string, chain: string, port: nat)
    ensures RedirectRule(name, source, chain, Udp, port) != RedirectRule(name, source, chain, Tcp, port)
  {
    assert RedirectRule(name, source, chain, Udp, port).matches[2]
        != RedirectRule(name, source, chain, Tcp, port).matches[2];
  }

  /** A query of the source leaves a redirecting chain with the plan's port. */
  lemma RedirectsDecide(env: Env, chains: Chains, rules: seq<Rule>, chain: string, plan: Plan, depth: nat, p: Packet)
    requires ReadsV4Blocks(env) && IsQuery(p) && p.src == V4(plan.source)
    ensures Walk(env, chains, depth, WithRedirects(rules, chain, plan), p) == Decided(Redirect(plan.port))
  {
    var udp := RedirectRule(plan.name, SourceCidr(plan), chain, Udp, plan.port);
    var tcp := RedirectRule(plan.name, SourceCidr(plan), chain, Tcp, plan.port);
    RedirectMatches(env, plan, chain, Udp, p);
    RedirectMatches(env, plan, chain, Tcp, p);
    ProtocolsDiffer(plan.name, SourceCidr(plan), chain, plan.port);
    PairOnTop(rules, udp, tcp);
    TwoDecide(env, chains, depth, tcp, udp, Without(Without(rules, udp), tcp), p);
  }

  /** Any other packet does not see them. */
  lemma RedirectsInvisible(env: Env, rules: seq<Rule>, chain: string, plan: Plan, p: Packet)
    requires ReadsV4Blocks(env) && !(IsQuery(p) && p.src == V4(plan.source))
    ensures Live(env, WithRedirects(rules, chain, plan), p) == Live(env, rules, p)
  {
    var udp := RedirectRule(plan.name, SourceCidr(plan), chain, Udp, plan.port);
    var tcp := RedirectRule(plan.name, SourceCidr(plan), chain, Tcp, plan.port);
    RedirectMatches(env, plan, chain, Udp, p);
    RedirectMatches(env, plan, chain, Tcp, p);
    PutInvisible(env, rules, udp, p);
    PutInvisible(env, Put(rules, udp), tcp, p);
  }

  lemma ChainNames()
    ensures OUTPUT != PREROUTING && OUTPUT != POSTROUTING && PREROUTING != POSTROUTING
  {
    assert |OUTPUT| == 6 && |PREROUTING| == 10 && |POSTROUTING| == 11;
  }

  lemma PutAvoids(rules: seq<Rule>, r: Rule, chain: string)
    requires Avoids(rules, chain) && TargetAvoids(r, chain)
    ensures Avoids(Put(rules, r), chain)
  {
    forall i | 0 <= i < |Put(rules, r)|
      ensures TargetAvoids(Put(rules, r)[i], chain)
    {
      if i > 0 {
        assert Put(rules, r)[i] in Without(rules, r);
      }
    }
  }

  lemma RedirectsAvoid(rules: seq<Rule>, chain: string, plan: Plan, hidden: string)
    requires Avoids(rules, hidden)
    ensures Avoids(WithRedirects(rules, chain, plan), hidden)
  {
    var udp := RedirectRule(plan.name, SourceCidr(plan), chain, Udp, plan.port);
    PutAvoids(rules, udp, hidden);
    PutAvoids(Put(rules, udp), RedirectRule(plan.name, SourceCidr(plan), chain, Tcp, plan.port), hidden);
  }

  lemma RedirectedAvoids(nat_: Chains, plan: Plan, hidden: string)
    requires NoJumpInto(nat_, hidden)
    ensures NoJumpInto(Redirected(nat_, plan), hidden)
  {
    if plan.port != DNS_PORT {
      RedirectsAvoid(ChainOf(nat_, OUTPUT), OUTPUT, plan, hidden);
      RedirectsAvoid(ChainOf(nat_, PREROUTING), PREROUTING, plan, hidden);
    }
  }

  lemma {:induction false} PreparedNatAvoids(nat_: Chains, plans: seq<Plan>, hidden: string)
    requires NoJumpInto(nat_, hidden)
    ensures NoJumpInto(PreparedNat(nat_, plans), hidden)
  {
    if plans != [] {
      var before, last := PreparedNat(nat_, plans[..|plans| - 1]), plans[|plans| - 1];
      PreparedNatAvoids(nat_, plans[..|plans| - 1], hidden);
      RedirectedAvoids(before, last, hidden);
      PutAvoids(ChainOf(Redirected(before, last), POSTROUTING),
        MasqueradeRule(last.name, SourceCidr(last), last.interface), hidden);
    }
  }

  /** The masquerading rule plays no part in the other chains. */
  lemma MasqueradeElsewhere(env: Env, nat_: Chains, plan: Plan, c: string, depth: nat, p: Packet)
    requires NoJumpInto(nat_, POSTROUTING) && c != POSTROUTING
    ensures Verdict(env, InstallNat(nat_, plan), depth, c, p) == Verdict(env, Redirected(nat_, plan), depth, c, p)
  {
    RedirectedAvoids(nat_, plan, POSTROUTING);
    var redirected := Redirected(nat_, plan);
    WalkIgnoresChain(env, redirected, POSTROUTING, InstallNat(nat_, plan)[POSTROUTING], depth,
      ChainOf(redirected, c), p);
  }

  /** One preparation and the verdict of the two chains that locally sent and forwarded queries enter. */
  lemma NatStep(env: Env, nat_: Chains, plan: Plan, c: string, depth: nat, p: Packet)
    requires ReadsV4Blocks(env) && NoJumpInto(nat_, POSTROUTING) && (c == OUTPUT || c == PREROUTING)
    ensures Verdict(env, InstallNat(nat_, plan), depth, c, p) ==
      if IsQuery(p) && p.src == V4(plan.source) && plan.port != DNS_PORT then Decided(Redirect(plan.port))
      else Verdict(env, nat_, depth, c, p)
  {
    ChainNames();
    MasqueradeElsewhere(env, nat_, plan, c, depth, p);
    if plan.port != DNS_PORT {
      RedirectedChains(nat_, plan, c);
      if IsQuery(p) && p.src == V4(plan.source) {
        RedirectsDecide(env, Redirected(nat_, plan), ChainOf(nat_, c), c, plan, depth, p);
      } else {
        OthersNotRedirected(env, nat_, plan, c, depth, p);
      }
    }
  }

  lemma RedirectedChains(nat_: Chains, plan: Plan, c: string)
    requires plan.port != DNS_PORT
    ensures c == OUTPUT || c == PREROUTING ==>
      ChainOf(Redirected(nat_, plan), c) == WithRedirects(ChainOf(nat_, c), c, plan)
    ensures c != OUTPUT && c != PREROUTING ==> ChainOf(Redirected(nat_, plan), c) == ChainOf(nat_, c)
  {
    ChainNames();
  }

  lemma OthersNotRedirected(env: Env, nat_: Chains, plan: Plan, c: string, depth: nat, p: Packet)
    requires ReadsV4Blocks(env) && !(IsQuery(p) && p.src == V4(plan.source)) && plan.port != DNS_PORT
    ensures Verdict(env, Redirected(nat_, plan), depth, c, p) == Verdict(env, nat_, depth, c, p)
  {
    var after := Redirected(nat_, plan);
    RedirectsInvisible(env, ChainOf(nat_, OUTPUT), OUTPUT, plan, p);
    RedirectsInvisible(env, ChainOf(nat_, PREROUTING), PREROUTING, plan, p);
    forall x ensures Live(env, ChainOf(nat_, x), p) == Live(env, ChainOf(after, x), p) {
      RedirectedChains(nat_, plan, x);
    }
    WalkSeesOnlyLive(env, nat_, after, depth, ChainOf(nat_, c), ChainOf(after, c), p);
  }

  /** Over a whole run, in the chains of locally sent and of forwarded packets alike: a query is redirected by the
      latest redirecting plan of its source, which stays in force even after a later preparation that needed no
      redirect; every other packet keeps its verdict. */
  lemma {:induction false} NatRun(env: Env, nat_: Chains, plans: seq<Plan>, c: string, depth: nat, p: Packet)
    requires ReadsV4Blocks(env) && NoJumpInto(nat_, POSTROUTING) && (c == OUTPUT || c == PREROUTING)
    ensures Verdict(env, PreparedNat(nat_, plans), depth, c, p) ==
      match LatestRedirecting(plans, p.src)
      case Some(plan) =>
        if IsQuery(p) then Decided(Redirect(plan.port)) else Verdict(env, nat_, depth, c, p)
      case None => Verdict(env, nat_, depth, c, p)
  {
    if plans != [] {
      var earlier := plans[..|plans| - 1];
      NatRun(env, nat_, earlier, c, depth, p);
      PreparedNatAvoids(nat_, earlier, POSTROUTING);
      NatStep(env, PreparedNat(nat_, earlier), plans[|plans| - 1], c, depth, p);
    }
  }

  // ---------- masquerading ----------

  /** The packet has the plan's source and leaves by its interface. */
  predicate LeavesBy(plan: Plan, p: Packet) {
    p.src == V4(plan.source) && p.outInterface == plan.interface
  }

  predicate SomePlanLeavesBy(plans: seq<Plan>, p: Packet) {
    exists i :: 0 <= i < |plans| && LeavesBy(plans[i], p)
  }

  lemma MasqueradeMatches(env: Env, plan: Plan, p: Packet)
    requires ReadsV4Blocks(env)
    ensures Matches(env, MasqueradeRule(plan.name, SourceCidr(plan), plan.interface), p) <==> LeavesBy(plan, p)
  {
    MasqueradeConditions(env, plan.name, SourceCidr(plan), plan.interface, p);
    HostBlock(env, plan.source, p.src);
  }

  lemma MasqueradeConditions(env: Env, name: string, source: string, interface: string, p: Packet)
    ensures Matches(env, MasqueradeRule(name, source, interface), p) <==>
      env.inBlock(source, p.src) && p.outInterface == interface
  {
    ThreeMatches(env, MasqueradeRule(name, source, interface), p);
  }

  /** The redirects play no part in POSTROUTING. */
  lemma RedirectsElsewhere(env: Env, nat_: Chains, plan: Plan, depth: nat, p: Packet)
    requires NoJumpInto(nat_, OUTPUT) && NoJumpInto(nat_, PREROUTING)
    ensures ChainOf(Redirected(nat_, plan), POSTROUTING) == ChainOf(nat_, POSTROUTING)
    ensures Verdict(env, Redirected(nat_, plan), depth, POSTROUTING, p) == Verdict(env, nat_, depth, POSTROUTING, p)
  {
    ChainNames();
    if plan.port != DNS_PORT {
      var rules := ChainOf(nat_, POSTROUTING);
      var first := WithRedirects(ChainOf(nat_, OUTPUT), OUTPUT, plan);
      var middle := nat_[OUTPUT := first];
      RedirectsAvoid(ChainOf(nat_, OUTPUT), OUTPUT, plan, PREROUTING);
      WalkIgnoresChain(env, nat_, OUTPUT, first, depth, rules, p);
      WalkIgnoresChain(env, middle, PREROUTING, WithRedirects(ChainOf(nat_, PREROUTING), PREROUTING, plan), depth,
        rules, p);
    }
  }

  /** One preparation and the verdict of POSTROUTING. */
  lemma MasqueradeStep(env: Env, nat_: Chains, plan: Plan, depth: nat, p: Packet)
    requires ReadsV4Blocks(env) && NoJumpInto(nat_, OUTPUT) && NoJumpInto(nat_, PREROUTING)
    ensures Verdict(env, InstallNat(nat_, plan), depth, POSTROUTING, p) ==
      if LeavesBy(plan, p) then Decided(Masquerade) else Verdict(env, nat_, depth, POSTROUTING, p)
  {
    var rule := MasqueradeRule(plan.name, SourceCidr(plan), plan.interface);
    RedirectsElsewhere(env, nat_, plan, depth, p);
    MasqueradeMatches(env, plan, p);
    PutDecides(env, Redirected(nat_, plan), POSTROUTING, rule, depth, p);
  }

  /** Over any run of preparations and any earlier nat table: a packet with the source of some prepared plan that
      leaves by that plan's interface is masqueraded, every other packet keeps its verdict. */
  lemma {:induction false} MasqueradeRun(env: Env, nat_: Chains, plans: seq<Plan>, depth: nat, p: Packet)
    requires ReadsV4Blocks(env) && NoJumpInto(nat_, OUTPUT) && NoJumpInto(nat_, PREROUTING)
    ensures Verdict(env, PreparedNat(nat_, plans), depth, POSTROUTING, p) ==
      if SomePlanLeavesBy(plans, p) then Decided(Masquerade) else Verdict(env, nat_, depth, POSTROUTING, p)
  {
    if plans != [] {
      var n := |plans| - 1;
      MasqueradeRun(env, nat_, plans[..n], depth, p);
      PreparedNatAvoids(nat_, plans[..n], OUTPUT);
      PreparedNatAvoids(nat_, plans[..n], PREROUTING);
      MasqueradeStep(env, PreparedNat(nat_, plans[..n]), plans[n], depth, p);
      SomePlanPrefix(plans, p);
    }
  }

  lemma SomePlanPrefix(plans: seq<Plan>, p: Packet)
    requires plans != []
    ensures var n := |plans| - 1;
      SomePlanLeavesBy(plans, p) <==> SomePlanLeavesBy(plans[..n], p) || LeavesBy(plans[n], p)
  {
    if i :| 0 <= i < |plans| && LeavesBy(plans[i], p) {
      if i < |plans| - 1 {
        assert plans[..|plans| - 1][i] == plans[i];
      }
    }
  }

  // ---------- delivery ----------

  /** The packet as it leaves the nat OUTPUT chain; a redirect sends it to the loopback address. */
  ghost function AfterNat(env: Env, nat_: Chains, depth: nat, p: Packet): Option<Packet> {
    match Verdict(env, nat_, depth, OUTPUT, p)
    case Decided(Redirect(port)) => Some(p.(dst := V4(LOOPBACK), dport := port))
    case Decided(Accept) => Some(p)
    case FellThrough => Some(p)
    case _ => None
  }

  /** The query is accepted, addressed to where the daemon with this port listens. */
  ghost predicate ReachesDaemon(env: Env, filter: Chains, nat_: Chains, depth: nat, port: nat, p: Packet) {
    var q := AfterNat(env, nat_, depth, p);
    && q == Some(p.(dst := V4(DnsDestination(port)), dport := port))
    && Verdict(env, filter, depth, OUTPUT, q.value) == Decided(Accept)
  }

  /** For a daemon port other than 53, queries of a prepared source always reach the daemon, whatever the nat
      and filter tables held before and whatever was prepared in between. */
  lemma DnsDelivered(env: Env, filter: Chains, nat_: Chains, plans: seq<Plan>, depth: nat, p: Packet)
    requires ReadsV4Blocks(env) && IsQuery(p) && NoJumpInto(nat_, POSTROUTING) && depth >= 1
    requires LatestPlan(plans, p.src).Some? && LatestPlan(plans, p.src).value.port != DNS_PORT
    ensures ReachesDaemon(env, Prepared(filter, plans), PreparedNat(nat_, plans), depth,
              LatestPlan(plans, p.src).value.port, p)
  {
    var plan := LatestPlan(plans, p.src).value;
    NatRun(env, nat_, plans, OUTPUT, depth, p);
    LatestAgree(plans, p.src);
    DnsPassesFilter(env, filter, plans, depth, p.(dst := V4(LOOPBACK), dport := plan.port));
    RedirectedReaches(env, Prepared(filter, plans), PreparedNat(nat_, plans), depth, plan.port, p);
  }

  /** The filter accepts what is addressed to the daemon. */
  lemma DnsPassesFilter(env: Env, filter: Chains, plans: seq<Plan>, depth: nat, q: Packet)
    requires ReadsV4Blocks(env) && depth >= 1
    requires LatestPlan(plans, q.src).Some? && IsDns(LatestPlan(plans, q.src).value.port, q)
    ensures Verdict(env, Prepared(filter, plans), depth, OUTPUT, q) == Decided(Accept)
  {
    RootlessRun(env, filter, plans, depth, q);
  }

  lemma RedirectedReaches(env: Env, filter: Chains, nat_: Chains, depth: nat, port: nat, p: Packet)
    requires port != DNS_PORT && Verdict(env, nat_, depth, OUTPUT, p) == Decided(Redirect(port))
    requires Verdict(env, filter, depth, OUTPUT, p.(dst := V4(LOOPBACK), dport := port)) == Decided(Accept)
    ensures ReachesDaemon(env, filter, nat_, depth, port, p)
  {
  }

  lemma UntouchedReaches(env: Env, filter: Chains, nat_: Chains, depth: nat, p: Packet)
    requires IsQuery(p) && AfterNat(env, nat_, depth, p) == Some(p)
    requires Verdict(env, filter, depth, OUTPUT, p) == Decided(Accept)
    ensures ReachesDaemon(env, filter, nat_, depth, DNS_PORT, p)
  {
    assert p.(dst := V4(DNS_IP), dport := DNS_PORT) == p;
  }

  lemma MisdirectedMisses(env: Env, filter: Chains, nat_: Chains, depth: nat, port: nat, stale: nat, p: Packet)
    requires Verdict(env, nat_, depth, OUTPUT, p) == Decided(Redirect(stale)) && stale != port
    ensures !ReachesDaemon(env, filter, nat_, depth, port, p)
  {
  }

  lemma SameNatOutcome(env: Env, before: Chains, after: Chains, depth: nat, p: Packet)
    requires Verdict(env, after, depth, OUTPUT, p) == Verdict(env, before, depth, OUTPUT, p)
    ensures AfterNat(env, after, depth, p) == AfterNat(env, before, depth, p)
  {
  }

  lemma {:induction false} LatestAgree(plans: seq<Plan>, source: IpAddr)
    requires LatestPlan(plans, source).Some? && LatestPlan(plans, source).value.port != DNS_PORT
    ensures LatestRedirecting(plans, source) == LatestPlan(plans, source)
  {
    if V4(plans[|plans| - 1].source) != source {
      LatestAgree(plans[..|plans| - 1], source);
    }
  }

  /** With port 53 nothing is redirected, but redirects of an earlier preparation stay. When the nat table
      itself lets the query pass, delivery holds exactly when the latest preparation of the source redirects
      or no preparation of that source ever did. */
  lemma DnsDeliveredIff(env: Env, filter: Chains, nat_: Chains, plans: seq<Plan>, depth: nat, p: Packet)
    requires ReadsV4Blocks(env) && IsQuery(p) && NoJumpInto(nat_, POSTROUTING) && depth >= 1
    requires LatestPlan(plans, p.src).Some?
    requires AfterNat(env, nat_, depth, p) == Some(p)
    ensures var port := LatestPlan(plans, p.src).value.port;
      ReachesDaemon(env, Prepared(filter, plans), PreparedNat(nat_, plans), depth, port, p) <==>
        port != DNS_PORT || forall q :: q in plans && V4(q.source) == p.src ==> q.port == DNS_PORT
  {
    var port := LatestPlan(plans, p.src).value.port;
    if port != DNS_PORT {
      DnsDelivered(env, filter, nat_, plans, depth, p);
    } else {
      NatRun(env, nat_, plans, OUTPUT, depth, p);
      if LatestRedirecting(plans, p.src).Some? {
        MisdirectedMisses(env, Prepared(filter, plans), PreparedNat(nat_, plans), depth, port,
          LatestRedirecting(plans, p.src).value.port, p);
      } else {
        DnsPassesFilter(env, filter, plans, depth, p);
        SameNatOutcome(env, nat_, PreparedNat(nat_, plans), depth, p);
        UntouchedReaches(env, Prepared(filter, plans), PreparedNat(nat_, plans), depth, p);
      }
    }
  }

  /** So a policy prepared for one port and again for port 53 loses its DNS. */
  lemma StaleRedirectBreaksPort53(env: Env, filter: Chains, nat_: Chains, plan: Plan, depth: nat, p: Packet)
    requires ReadsV4Blocks(env) && IsQuery(p) && NoJumpInto(nat_, POSTROUTING) && depth >= 1
    requires AfterNat(env, nat_, depth, p) == Some(p)
    requires plan.port != DNS_PORT && p.src == V4(plan.source)
    ensures var plans := [plan, plan.(port := DNS_PORT)];
      !ReachesDaemon(env, Prepared(filter, plans), PreparedNat(nat_, plans), depth, DNS_PORT, p)
  {
    var plans := [plan, plan.(port := DNS_PORT)];
    DnsDeliveredIff(env, filter, nat_, plans, depth, p);
    assert plan in plans;
  }
}
