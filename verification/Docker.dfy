/** Docker networks (src/helper.rs): the DOCKER-USER block of each network and what a run of preparations
    leaves it meaning. */
module Docker {
  import opened Text
  import opened Bits
  import opened Addresses
  import opened Firewall
  import opened Iptables
  import opened HostRules
  import opened OutputPolicy

  const DOCKER_USER := "DOCKER-USER"

  /** 172.16.0.0/12, the local address space of containers. */
  const LOCAL_NET: U32 := 0xAC10_0000
  const LOCAL_PREFIX: U32 := 12

  // ---------- addresses of a network ----------

  const USABLE_HOSTS: nat := 14
  const SUBNET_SLOTS: nat := 256 * USABLE_HOSTS

  /** 172.30.`third`.0/28 */
  function SubnetBase(third: nat): (base: U32)
    requires third < 256
    ensures base % 256 == 0
  {
    0xAC1E_0000 + 256 * third
  }

  datatype Plan = Plan(name: string, subnet: U32, gateway: U32, port: nat)

  /** The slot is a hash of the name and the attempt, which stays open here. */
  function PlanFor(name: string, hash: nat, port: nat): (plan: Plan)
    ensures exists third :: 0 <= third < 256 && plan.subnet == SubnetBase(third)
  {
    var slot := hash % SUBNET_SLOTS;
    var third, fourth := slot / USABLE_HOSTS, slot % USABLE_HOSTS;
    Plan(name, SubnetBase(third), SubnetBase(third) + fourth + 1, port)
  }

  /** Every gateway lies in its own /28 and is neither its first nor its last address. */
  lemma GatewayInsideSubnet(name: string, hash: nat, port: nat)
    ensures var plan := PlanFor(name, hash, port);
      && InBlock(V4(plan.gateway), plan.subnet, 28)
      && plan.gateway != plan.subnet
      && plan.gateway != plan.subnet + 15
  {
    assert Pow2(32 - 28) == 16 by {
      assert Pow2(2) == 4;
    }
  }

  /** The slot, and so every subnet and gateway, is the hash modulo 3584: 14 gateways in each of 256 subnets. */
  lemma PlanForMeaning(name: string, hash: nat, port: nat)
    ensures var plan, third, fourth := PlanFor(name, hash, port), hash % 3584 / 14, hash % 14;
      && plan.name == name && plan.port == port
      && third < 256 && plan.subnet == 0xAC1E_0000 + 256 * third && plan.gateway == plan.subnet + fourth + 1
  {
    assert hash % 3584 % 14 == hash % 14 by {
      assert hash == hash / 3584 * 256 * 14 + hash % 3584;
      ModUnique(hash, 14, hash / 3584 * 256 + hash % 3584 / 14, hash % 3584 % 14);
    }
  }

  /** The subnet and gateway as they are handed to Docker and iptables: 172.30.x.0/28 and 172.30.x.y. */
  lemma PlanTexts(name: string, hash: nat, port: nat)
    ensures var plan, third, fourth := PlanFor(name, hash, port), hash % 3584 / 14, hash % 14;
      && SubnetCidr(plan) == "172.30." + Decimal(third) + ".0/28"
      && FormatV4(plan.gateway) == "172.30." + Decimal(third) + "." + Decimal(fourth + 1)
  {
    PlanForMeaning(name, hash, port);
    SubnetText(hash % 3584 / 14);
    AddressText(hash % 3584 / 14, hash % 14 + 1);
  }

  lemma SubnetText(third: nat)
    requires third < 256
    ensures CidrText(0xAC1E_0000 + 256 * third, 28) == "172.30." + Decimal(third) + ".0/28"
  {
    SubnetTextAt(third, 0xAC1E_0000 + 256 * third, 0);
  }

  lemma SubnetTextAt(third: nat, v: U32, zero: nat)
    requires third < 256 && zero == 0 && v == 0xAC1E_0000 + 256 * third + zero
    ensures CidrText(v, 28) == "172.30." + Decimal(third) + ".0/28"
  {
    LastText(third, v, zero);
    SmallDecimals();
    SlashedText(v, "172.30." + Decimal(third), Decimal(zero), Decimal(28));
  }

  lemma LastText(third: nat, v: U32, last: nat)
    requires third < 256 && last < 256 && v == 0xAC1E_0000 + 256 * third + last
    ensures FormatV4(v) == "172.30." + Decimal(third) + "." + Decimal(last)
  {
    AddressText(third, last);
  }

  lemma SlashedText(v: U32, front: string, zero: string, len: string)
    requires FormatV4(v) == front + "." + zero && zero == "0" && len == Decimal(28) && len == "28"
    ensures CidrText(v, 28) == front + ".0/28"
  {
    SlashText(front, zero, len);
  }

  lemma AddressText(third: nat, d: nat)
    requires third < 256 && d < 256
    ensures FormatV4(0xAC1E_0000 + 256 * third + d) == "172.30." + Decimal(third) + "." + Decimal(d)
  {
    BlockOctets(third, d);
    QuadWithFront(0xAC1E_0000 + 256 * third + d, third, d);
  }

  lemma BlockOctets(third: nat, d: nat)
    requires third < 256 && d < 256
    ensures Octets(0xAC1E_0000 + 256 * third + d) == [172, 30, third, d]
  {
    OctetsOf(0xAC1E_0000 + 256 * third + d, 172, 30, third, d);
  }

  lemma QuadWithFront(v: U32, third: nat, d: nat)
    requires Octets(v) == [172, 30, third, d]
    ensures FormatV4(v) == "172.30." + Decimal(third) + "." + Decimal(d)
  {
    FrontText();
    TextWithFront(v, Decimal(172), Decimal(30), third, d);
  }

  lemma TextWithFront(v: U32, a: string, b: string, c: nat, d: nat)
    requires Octets(v) == [172, 30, c, d] && a == Decimal(172) && b == Decimal(30) && "172.30." == a + "." + b + "."
    ensures FormatV4(v) == "172.30." + Decimal(c) + "." + Decimal(d)
  {
    FormatOctets(v, 172, 30, c, d);
    Regrouped(a, b, Decimal(c), Decimal(d), "172.30.");
  }

  lemma FrontText()
    ensures "172.30." == Decimal(172) + "." + Decimal(30) + "."
  {
    SmallDecimals();
    JoinFront(Decimal(172), Decimal(30));
  }

  lemma JoinFront(a: string, b: string)
    requires a == "172" && b == "30"
    ensures a + "." + b + "." == "172.30."
  {
  }

  lemma Regrouped(p: string, q: string, r: string, s: string, front: string)
    requires front == p + "." + q + "."
    ensures p + "." + q + "." + r + "." + s == front + r + "." + s
  {
  }

  lemma SlashText(front: string, zero: string, len: string)
    requires zero == "0" && len == "28"
    ensures front + "." + zero + "/" + len == front + ".0/28"
  {
    assert "." + zero + "/" + len == ".0/28";
  }

  /** And the block of all containers. */
  lemma LocalNetText()
    ensures CidrText(LOCAL_NET, LOCAL_PREFIX) == "172.16.0.0/12"
  {
    SmallDecimals();
    QuadText(LOCAL_NET, 172, 16, 0, 0);
    LocalText(Decimal(172), Decimal(16), Decimal(0), Decimal(12));
  }

  lemma LocalText(a: string, b: string, c: string, len: string)
    requires a == "172" && b == "16" && c == "0" && len == "12"
    ensures a + "." + b + "." + c + "." + c + "/" + len == "172.16.0.0/12"
  {
  }

  lemma SmallDecimals()
    ensures Decimal(172) == "172" && Decimal(30) == "30" && Decimal(16) == "16" && Decimal(0) == "0"
    ensures Decimal(28) == "28" && Decimal(12) == "12"
  {
    DecimalDigits(17, 2);
    DecimalDigits(1, 7);
    DecimalDigits(3, 0);
    DecimalDigits(1, 6);
    DecimalDigits(2, 8);
    DecimalDigits(1, 2);
    DecimalDigits(0, 1);
    DecimalDigits(0, 2);
    DecimalDigits(0, 3);
  }

  function SubnetCidr(plan: Plan): string {
    CidrText(plan.subnet, 28)
  }

  // ---------- the block ----------

  function EstablishedRule(): Rule {
    Rule([Comment("dockerwall:established"), Established], Accept)
  }

  function AllowRule(name: string, subnet: string): Rule {
    Rule([Comment(Marker(name, "allow")), Source(subnet), DestInSet(name)], Accept)
  }

  function LocalRule(name: string, subnet: string): Rule {
    Rule([Comment(Marker(name, "allow-local")), Source(subnet), Dest(CidrText(LOCAL_NET, LOCAL_PREFIX))], Accept)
  }

  function DropRule(name: string, subnet: string): Rule {
    Rule([Comment(Marker(name, "drop")), Source(subnet)], Drop)
  }

  function Block(name: string, subnet: string): seq<Rule> {
    [EstablishedRule(), AllowRule(name, subnet), LocalRule(name, subnet), DropRule(name, subnet)]
  }

  function Prepare(filter: Chains, plan: Plan): Chains {
    filter[DOCKER_USER := OnTop(ChainOf(filter, DOCKER_USER), Block(plan.name, SubnetCidr(plan)))]
  }

  function PrepareAll(filter: Chains, plans: seq<Plan>): Chains {
    if plans == [] then filter
    else Prepare(PrepareAll(filter, plans[..|plans| - 1]), plans[|plans| - 1])
  }

  predicate Inside(plan: Plan, ip: IpAddr) {
    InBlock(ip, plan.subnet, 28)
  }

  /** The latest network that holds the address. */
  function LatestNetwork(plans: seq<Plan>, ip: IpAddr): (plan: Option<Plan>)
    ensures plan.Some? ==> plan.value in plans && Inside(plan.value, ip)
    ensures plan.None? ==> forall q :: q in plans ==> !Inside(q, ip)
  {
    if plans == [] then None
    else
      var last := plans[|plans| - 1];
      assert forall q :: q in plans ==> q in plans[..|plans| - 1] || q == last;
      if Inside(last, ip) then Some(last) else LatestNetwork(plans[..|plans| - 1], ip)
  }

  /** 172.16.0.0 up to 172.31.255.255. */
  predicate IsContainerAddress(ip: IpAddr) {
    ip.V4? && 0xAC10_0000 <= ip.bits4 < 0xAC20_0000
  }

  lemma LocalNetMeaning(ip: IpAddr)
    ensures InBlock(ip, LOCAL_NET, LOCAL_PREFIX) <==> IsContainerAddress(ip)
  {
    assert Pow2(32 - 12) == 0x10_0000 by {
      assert Pow2(4) == 16 && Pow2(8) == 256 && Pow2(12) == 4096 && Pow2(16) == 0x1_0000;
    }
  }

  /** What a network means: replies, allowed destinations and container addresses pass. */
  ghost function Meaning(env: Env, name: string, p: Packet): Target {
    if p.established || (name in env.sets && p.dst in env.sets[name]) || IsContainerAddress(p.dst)
    then Accept else Drop
  }

  lemma RuleConditions(env: Env, name: string, subnet: string, p: Packet)
    ensures Matches(env, EstablishedRule(), p) <==> p.established
    ensures Matches(env, AllowRule(name, subnet), p) <==>
      env.inBlock(subnet, p.src) && name in env.sets && p.dst in env.sets[name]
    ensures Matches(env, LocalRule(name, subnet), p) <==>
      env.inBlock(subnet, p.src) && env.inBlock(CidrText(LOCAL_NET, LOCAL_PREFIX), p.dst)
    ensures Matches(env, DropRule(name, subnet), p) <==> env.inBlock(subnet, p.src)
  {
    TwoMatches(env, EstablishedRule(), p);
    ThreeMatches(env, AllowRule(name, subnet), p);
    ThreeMatches(env, LocalRule(name, subnet), p);
    TwoMatches(env, DropRule(name, subnet), p);
  }

  lemma FirstOfFour(env: Env, block: seq<Rule>, p: Packet)
    requires |block| == 4 && Matches(env, block[3], p)
    ensures FirstTarget(env, block, p) ==
      if Matches(env, block[0], p) then block[0].target
      else if Matches(env, block[1], p) then block[1].target
      else if Matches(env, block[2], p) then block[2].target
      else block[3].target
  {
    var b1, b2, b3 := block[1..], block[1..][1..], block[1..][1..][1..];
    assert b1[2] == b2[1] == b3[0] == block[3] && b1[0] == block[1] && b2[0] == block[2];
    if !Matches(env, block[0], p) {
      assert FirstTarget(env, block, p) == FirstTarget(env, b1, p);
      if !Matches(env, block[1], p) {
        assert FirstTarget(env, b1, p) == FirstTarget(env, b2, p);
        if !Matches(env, block[2], p) {
          assert FirstTarget(env, b2, p) == FirstTarget(env, b3, p);
        }
      }
    }
  }

  lemma BlockDecidesAll(name: string, subnet: string)
    ensures forall i :: 0 <= i < |Block(name, subnet)| ==> Deciding(Block(name, subnet)[i].target)
  {
  }

  /** A packet of the network is decided by the network's own block. */
  lemma OwnNetwork(env: Env, filter: Chains, plan: Plan, depth: nat, p: Packet)
    requires ReadsV4Blocks(env) && Inside(plan, p.src)
    ensures Verdict(env, Prepare(filter, plan), depth, DOCKER_USER, p) == Decided(Meaning(env, plan.name, p))
  {
    var subnet := SubnetCidr(plan);
    var block := Block(plan.name, subnet);
    RuleConditions(env, plan.name, subnet, p);
    LocalNetMeaning(p.dst);
    BlockDecidesAll(plan.name, subnet);
    FirstOfFour(env, block, p);
    BlockDecides(env, Prepare(filter, plan), depth, block, WithoutAll(ChainOf(filter, DOCKER_USER), block), p);
  }

  /** A reply is accepted at once, whatever its source. */
  lemma RepliesPass(env: Env, filter: Chains, plan: Plan, depth: nat, p: Packet)
    requires p.established
    ensures Verdict(env, Prepare(filter, plan), depth, DOCKER_USER, p) == Decided(Accept)
  {
    var rules := ChainOf(Prepare(filter, plan), DOCKER_USER);
    TwoMatches(env, EstablishedRule(), p);
    assert rules[0] == EstablishedRule();
  }

  /** A new packet of another source meets what it met before. */
  lemma OtherSource(env: Env, filter: Chains, plan: Plan, depth: nat, p: Packet)
    requires ReadsV4Blocks(env) && !Inside(plan, p.src) && !p.established
    ensures Verdict(env, Prepare(filter, plan), depth, DOCKER_USER, p) == Verdict(env, filter, depth, DOCKER_USER, p)
  {
    var block := Block(plan.name, SubnetCidr(plan));
    RuleConditions(env, plan.name, SubnetCidr(plan), p);
    BlockInvisible(env, ChainOf(filter, DOCKER_USER), block, p);
    var after := Prepare(filter, plan);
    assert SameFor(env, filter, after, p);
    WalkSeesOnlyLive(env, filter, after, depth, ChainOf(filter, DOCKER_USER), ChainOf(after, DOCKER_USER), p);
  }

  /** Over any run of preparations, in any order and with repeats, the latest network holding the source
      decides; outside every network only replies change, by being accepted. */
  lemma {:induction false} DockerRun(env: Env, filter: Chains, plans: seq<Plan>, depth: nat, p: Packet)
    requires ReadsV4Blocks(env)
    ensures Verdict(env, PrepareAll(filter, plans), depth, DOCKER_USER, p) ==
      match LatestNetwork(plans, p.src)
      case Some(plan) => Decided(Meaning(env, plan.name, p))
      case None => if p.established && plans != [] then Decided(Accept) else Verdict(env, filter, depth, DOCKER_USER, p)
  {
    if plans != [] {
      var earlier, last := plans[..|plans| - 1], plans[|plans| - 1];
      var before := PrepareAll(filter, earlier);
      DockerRun(env, filter, earlier, depth, p);
      if Inside(last, p.src) {
        OwnNetwork(env, before, last, depth, p);
      } else if p.established {
        RepliesPass(env, before, last, depth, p);
      } else {
        OtherSource(env, before, last, depth, p);
      }
    }
  }

  /** Networks with disjoint subnets: each keeps its own meaning, however many others are prepared. */
  lemma DisjointNetworksKeepMeaning(env: Env, filter: Chains, plans: seq<Plan>, plan: Plan, depth: nat, p: Packet)
    requires ReadsV4Blocks(env) && plan in plans && Inside(plan, p.src)
    requires forall q :: q in plans && q.name != plan.name ==> !Inside(q, p.src)
    ensures Verdict(env, PrepareAll(filter, plans), depth, DOCKER_USER, p) == Decided(Meaning(env, plan.name, p))
  {
    DockerRun(env, filter, plans, depth, p);
  }

  // ---------- DNS of a network ----------

  function DnatRule(plan: Plan, protocol: Protocol): Rule {
    Rule([Comment(Marker(plan.name, "dns-" + ProtocolName(protocol))), Source(SubnetCidr(plan)), Proto(protocol),
          DestPort(53)], Dnat(FormatV4(plan.gateway) + ":" + Decimal(plan.port)))
  }

  /** Both protocols, each inserted without a position, that is in front. */
  function PrepareNat(nat_: Chains, plan: Plan): Chains {
    nat_[PREROUTING := Put(Put(ChainOf(nat_, PREROUTING), DnatRule(plan, Udp)), DnatRule(plan, Tcp))]
  }

  function PrepareAllNat(nat_: Chains, plans: seq<Plan>): Chains {
    if plans == [] then nat_
    else PrepareNat(PrepareAllNat(nat_, plans[..|plans| - 1]), plans[|plans| - 1])
  }

  lemma DnatMatches(env: Env, plan: Plan, protocol: Protocol, p: Packet)
    requires ReadsV4Blocks(env)
    ensures Matches(env, DnatRule(plan, protocol), p) <==>
      Inside(plan, p.src) && p.protocol == protocol && p.dport == 53
  {
    FourMatches(env, DnatRule(plan, protocol), p);
  }

  lemma DnatRulesDiffer(plan: Plan)
    ensures DnatRule(plan, Udp) != DnatRule(plan, Tcp)
  {
    assert DnatRule(plan, Udp).matches[2] != DnatRule(plan, Tcp).matches[2];
  }

  lemma OwnQueries(env: Env, nat_: Chains, plan: Plan, depth: nat, p: Packet)
    requires ReadsV4Blocks(env) && Inside(plan, p.src) && IsDnsQuery(p)
    ensures Verdict(env, PrepareNat(nat_, plan), depth, PREROUTING, p)
         == Decided(Dnat(FormatV4(plan.gateway) + ":" + Decimal(plan.port)))
  {
    var udp, tcp, rules := DnatRule(plan, Udp), DnatRule(plan, Tcp), ChainOf(nat_, PREROUTING);
    DnatMatches(env, plan, Udp, p);
    DnatMatches(env, plan, Tcp, p);
    DnatRulesDiffer(plan);
    PairOnTop(rules, udp, tcp);
    TwoDecide(env, PrepareNat(nat_, plan), depth, tcp, udp, Without(Without(rules, udp), tcp), p);
  }

  predicate IsDnsQuery(p: Packet) {
    (p.protocol == Udp || p.protocol == Tcp) && p.dport == 53
  }

  lemma OtherQueries(env: Env, nat_: Chains, plan: Plan, depth: nat, p: Packet)
    requires ReadsV4Blocks(env) && !(Inside(plan, p.src) && IsDnsQuery(p))
    ensures Verdict(env, PrepareNat(nat_, plan), depth, PREROUTING, p) == Verdict(env, nat_, depth, PREROUTING, p)
  {
    var udp, tcp, rules := DnatRule(plan, Udp), DnatRule(plan, Tcp), ChainOf(nat_, PREROUTING);
    DnatMatches(env, plan, Udp, p);
    DnatMatches(env, plan, Tcp, p);
    PutInvisible(env, rules, udp, p);
    PutInvisible(env, Put(rules, udp), tcp, p);
    var after := PrepareNat(nat_, plan);
    assert SameFor(env, nat_, after, p);
    WalkSeesOnlyLive(env, nat_, after, depth, rules, ChainOf(after, PREROUTING), p);
  }

  /** A DNS query of a prepared network, to whatever server, is sent to the gateway and port of the latest
      preparation holding its source; every other packet is left alone. */
  lemma {:induction false} DockerDnsRun(env: Env, nat_: Chains, plans: seq<Plan>, depth: nat, p: Packet)
    requires ReadsV4Blocks(env)
    ensures Verdict(env, PrepareAllNat(nat_, plans), depth, PREROUTING, p) ==
      match LatestNetwork(plans, p.src)
      case Some(plan) =>
        if IsDnsQuery(p) then Decided(Dnat(FormatV4(plan.gateway) + ":" + Decimal(plan.port)))
        else Verdict(env, nat_, depth, PREROUTING, p)
      case None => Verdict(env, nat_, depth, PREROUTING, p)
  {
    if plans != [] {
      var earlier, last := plans[..|plans| - 1], plans[|plans| - 1];
      var before := PrepareAllNat(nat_, earlier);
      DockerDnsRun(env, nat_, earlier, depth, p);
      if Inside(last, p.src) && IsDnsQuery(p) {
        OwnQueries(env, before, last, depth, p);
      } else {
        OtherQueries(env, before, last, depth, p);
      }
    }
  }

  // ---------- the procedure ----------

  lemma BlockDistinct(name: string, subnet: string)
    ensures Distinct(Block(name, subnet))
  {
    var b := Block(name, subnet);
    assert b[0].matches[1] != b[3].matches[1] && b[1].matches[2] != b[2].matches[2];
    assert |b[0].matches| == 2 == |b[3].matches| && |b[1].matches| == 3 == |b[2].matches|;
  }

  lemma BlockPrintable(name: string, subnet: string)
    ensures forall i :: 0 <= i < 4 ==> Printable(Block(name, subnet)[i])
  {
  }

  lemma DnatPrintable(plan: Plan, protocol: Protocol)
    requires !protocol.OtherProtocol?
    ensures Printable(DnatRule(plan, protocol))
  {
  }

  method EnsureFilterRules(host: Host, plan: Plan) returns (ok: bool)
    modifies host
    ensures ok == HasChain(old(host.tables), "filter", DOCKER_USER)
    ensures host.tables ==
      if ok then old(host.tables)["filter" := Prepare(old(host.tables)["filter"], plan)] else old(host.tables)
  {
    var block := Block(plan.name, SubnetCidr(plan));
    BlockDistinct(plan.name, SubnetCidr(plan));
    BlockDecidesAll(plan.name, SubnetCidr(plan));
    BlockPrintable(plan.name, SubnetCidr(plan));
    ok := EnsureBlock(host, "filter", DOCKER_USER, block);
    if ok {
      assert host.tables["filter"] == Prepare(old(host.tables)["filter"], plan);
    }
  }

  /** All rules of a Docker network. It fails, having changed nothing, exactly when Docker has not provided its
      chain. */
  method EnsureDockerIptablesRules(host: Host, plan: Plan) returns (ok: bool)
    requires HasChain(host.tables, "nat", PREROUTING)
    modifies host
    ensures ok == HasChain(old(host.tables), "filter", DOCKER_USER)
    ensures ok ==>
      host.tables == old(host.tables)["filter" := Prepare(old(host.tables)["filter"], plan)]
                                     ["nat" := PrepareNat(old(host.tables)["nat"], plan)]
    ensures !ok ==> host.tables == old(host.tables)
  {
    assert "filter" != "nat";
    ok := EnsureFilterRules(host, plan);
    if !ok {
      return;
    }
    ok := EnsureDnatRules(host, plan);
  }

  method EnsureDnatRules(host: Host, plan: Plan) returns (ok: bool)
    requires HasChain(host.tables, "nat", PREROUTING)
    modifies host
    ensures ok
    ensures host.tables == old(host.tables)["nat" := PrepareNat(old(host.tables)["nat"], plan)]
  {
    DnatPrintable(plan, Udp);
    DnatPrintable(plan, Tcp);
    ghost var rules := host.tables["nat"][PREROUTING];
    var udp, tcp := DnatRule(plan, Udp), DnatRule(plan, Tcp);
    ok := EnsureUnplaced(host, udp);
    ok := EnsureUnplaced(host, tcp);
    SetChainTwice(old(host.tables), "nat", PREROUTING, Put(rules, udp), Put(Put(rules, udp), tcp));
  }

  /** A nat rule ensured without a position. */
  method EnsureUnplaced(host: Host, r: Rule) returns (ok: bool)
    requires Printable(r) && Deciding(r.target) && HasChain(host.tables, "nat", PREROUTING)
    modifies host
    ensures ok
    ensures host.tables == SetChain(old(host.tables), "nat", PREROUTING, Put(old(host.tables)["nat"][PREROUTING], r))
  {
    ok := EnsureRule(host, "nat", PREROUTING, None, r);
    ghost var rest := Without(old(host.tables)["nat"][PREROUTING], r);
    assert InsertAt(rest, 0, r) == [r] + rest;
  }
}
