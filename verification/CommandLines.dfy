/** The iptables command lines, word by word as src/helper.rs writes them, for every rule of a policy or network. */
module CommandLines {
  import opened Text
  import opened Addresses
  import opened Firewall
  import opened Iptables
  import opened OutputPolicy
  import Rootless
  import RootlessInstall
  import DnsDelivery
  import Docker

  lemma ArgsOfTwo(a: Match, b: Match, t: Target)
    ensures RuleArgs(Rule([a, b], t)) == MatchArgs(a) + MatchArgs(b) + TargetArgs(t)
  {
    assert [a, b][1..] == [b] && [b][1..] == [];
    assert MatchesArgs([b]) == MatchArgs(b) + [];
  }

  lemma ArgsOfThree(a: Match, b: Match, c: Match, t: Target)
    ensures RuleArgs(Rule([a, b, c], t)) == MatchArgs(a) + MatchArgs(b) + MatchArgs(c) + TargetArgs(t)
  {
    ArgsOfMore(a, [b, c], t);
    assert [a] + [b, c] == [a, b, c];
    ArgsOfTwo(b, c, t);
    Regroup(MatchArgs(a), MatchArgs(b) + MatchArgs(c), TargetArgs(t));
    Regroup(MatchArgs(a), MatchArgs(b), MatchArgs(c));
  }

  lemma ArgsOfFour(a: Match, b: Match, c: Match, d: Match, t: Target)
    ensures RuleArgs(Rule([a, b, c, d], t)) ==
      MatchArgs(a) + MatchArgs(b) + MatchArgs(c) + MatchArgs(d) + TargetArgs(t)
  {
    ArgsOfMore(a, [b, c, d], t);
    assert [a] + [b, c, d] == [a, b, c, d];
    ArgsOfThree(b, c, d, t);
    Regroup(MatchArgs(a), MatchArgs(b) + MatchArgs(c) + MatchArgs(d), TargetArgs(t));
    Regroup(MatchArgs(a), MatchArgs(b) + MatchArgs(c), MatchArgs(d));
    Regroup(MatchArgs(a), MatchArgs(b), MatchArgs(c));
  }

  lemma Regroup(a: seq<string>, b: seq<string>, c: seq<string>)
    ensures a + (b + c) == a + b + c
  {
  }

  lemma QueryWords(
    chain: string, position: string, source: string, dst: string, word: string, port: string, text: string)
    ensures ["-I", chain, position]
      + (["-s", source, "-d", dst, "-p", word, "--dport", port, "-m", "comment", "--comment", text] + ["-j", "ACCEPT"])
      == ["-I", chain, position, "-s", source, "-d", dst, "-p", word, "--dport", port,
          "-m", "comment", "--comment", text, "-j", "ACCEPT"]
  {
  }

  lemma FilterArgs(chain: string, position: U32, r: Rule)
    ensures InsertArgs("filter", chain, Some(position), r) == ["-I", chain, Decimal(position)] + RuleArgs(r)
  {
  }

  /** The rules for queries all have the same five matches. */
  lemma ArgsOfQueryRule(source: string, dst: string, protocol: Protocol, port: nat, text: string, t: Target)
    ensures RuleArgs(Rule([Source(source), Dest(dst), Proto(protocol), DestPort(port), Comment(text)], t)) ==
      ["-s", source, "-d", dst, "-p", ProtocolName(protocol), "--dport", Decimal(port),
       "-m", "comment", "--comment", text] + TargetArgs(t)
  {
    var first, rest := Source(source), [Dest(dst), Proto(protocol), DestPort(port), Comment(text)];
    ArgsOfFour(Dest(dst), Proto(protocol), DestPort(port), Comment(text), t);
    ArgsOfMore(first, rest, t);
    assert [first] + rest == [Source(source), Dest(dst), Proto(protocol), DestPort(port), Comment(text)];
  }

  lemma ArgsOfMore(first: Match, rest: seq<Match>, t: Target)
    ensures RuleArgs(Rule([first] + rest, t)) == MatchArgs(first) + RuleArgs(Rule(rest, t))
  {
    assert ([first] + rest)[1..] == rest;
    Regroup(MatchArgs(first), MatchesArgs(rest), TargetArgs(t));
  }

  /** A marker, written with the separator in front of the role. */
  lemma MarkerText(name: string, role: string, tail: string)
    requires tail == ":" + role
    ensures Marker(name, role) == "dockerwall:" + name + tail
  {
  }

  // ---------- rootless policies ----------

  lemma HookCommand(name: string, source: string)
    ensures InsertArgs("filter", OUTPUT, Some(1), Hook(name, source)) ==
      ["-I", "OUTPUT", "1", "-s", source, "-m", "comment", "--comment", "dockerwall:" + name + ":output-hook",
       "-j", "DOCKERWALL-OUTPUT"]
  {
    DecimalDigits(0, 1);
    MarkerText(name, "output-hook", ":output-hook");
    var r := Hook(name, source);
    ArgsOfTwo(r.matches[0], r.matches[1], r.target);
  }

  lemma EstablishedCommand(name: string, source: string)
    ensures InsertArgs("filter", OUTPUT_CHAIN, Some(1), Rootless.EstablishedRule(name, source)) ==
      ["-I", "DOCKERWALL-OUTPUT", "1", "-s", source, "-m", "comment", "--comment",
       "dockerwall:" + name + ":established", "-m", "conntrack", "--ctstate", "ESTABLISHED,RELATED", "-j", "ACCEPT"]
  {
    MarkerText(name, "established", ":established");
    ReplyCommand(source, "dockerwall:" + name + ":established");
  }

  lemma ReplyCommand(source: string, text: string)
    ensures InsertArgs("filter", OUTPUT_CHAIN, Some(1), Rule([Source(source), Comment(text), Established], Accept)) ==
      ["-I", "DOCKERWALL-OUTPUT", "1", "-s", source, "-m", "comment", "--comment", text,
       "-m", "conntrack", "--ctstate", "ESTABLISHED,RELATED", "-j", "ACCEPT"]
  {
    DecimalDigits(0, 1);
    ArgsOfThree(Source(source), Comment(text), Established, Accept);
  }

  /** Positions 2 and 3, for UDP and TCP. */
  lemma DnsCommand(name: string, source: string, dns: string, protocol: Protocol, port: nat)
    requires protocol == Udp || protocol == Tcp
    ensures var (position, word) := if protocol == Udp then (2, "udp") else (3, "tcp");
      InsertArgs("filter", OUTPUT_CHAIN, Some(position), Rootless.DnsRule(name, source, dns, protocol, port)) ==
      ["-I", "DOCKERWALL-OUTPUT", Decimal(position), "-s", source, "-d", dns, "-p", word, "--dport", Decimal(port),
       "-m", "comment", "--comment", "dockerwall:" + name + ":dns-" + word, "-j", "ACCEPT"]
  {
    DnsMarker("dockerwall:" + name, ProtocolName(protocol));
    QueryCommand(source, dns, protocol, port, Marker(name, "dns-" + ProtocolName(protocol)),
      if protocol == Udp then 2 else 3);
  }

  lemma QueryCommand(source: string, dst: string, protocol: Protocol, port: nat, text: string, position: U32)
    ensures InsertArgs("filter", OUTPUT_CHAIN, Some(position),
              Rule([Source(source), Dest(dst), Proto(protocol), DestPort(port), Comment(text)], Accept)) ==
      ["-I", "DOCKERWALL-OUTPUT", Decimal(position), "-s", source, "-d", dst, "-p", ProtocolName(protocol),
       "--dport", Decimal(port), "-m", "comment", "--comment", text, "-j", "ACCEPT"]
  {
    ArgsOfQueryRule(source, dst, protocol, port, text, Accept);
    var r := Rule([Source(source), Dest(dst), Proto(protocol), DestPort(port), Comment(text)], Accept);
    FilterArgs(OUTPUT_CHAIN, position, r);
    QueryWords(OUTPUT_CHAIN, Decimal(position), source, dst, ProtocolName(protocol), Decimal(port), text);
  }

  lemma DnsMarker(front: string, word: string)
    ensures front + ":" + ("dns-" + word) == front + ":dns-" + word
  {
  }

  lemma AllowCommand(name: string, source: string, set_: string)
    ensures InsertArgs("filter", OUTPUT_CHAIN, Some(4), Rootless.AllowRule(name, source, set_)) ==
      ["-I", "DOCKERWALL-OUTPUT", "4", "-s", source, "-m", "comment", "--comment", "dockerwall:" + name + ":allow",
       "-m", "set", "--match-set", set_, "dst", "-j", "ACCEPT"]
  {
    DecimalDigits(0, 4);
    MarkerText(name, "allow", ":allow");
    var r := Rootless.AllowRule(name, source, set_);
    ArgsOfThree(r.matches[0], r.matches[1], r.matches[2], r.target);
  }

  lemma DropCommand(name: string, source: string)
    ensures InsertArgs("filter", OUTPUT_CHAIN, Some(5), Rootless.DropRule(name, source)) ==
      ["-I", "DOCKERWALL-OUTPUT", "5", "-s", source, "-m", "comment", "--comment", "dockerwall:" + name + ":drop",
       "-j", "DROP"]
  {
    DecimalDigits(0, 5);
    MarkerText(name, "drop", ":drop");
    var r := Rootless.DropRule(name, source);
    ArgsOfTwo(r.matches[0], r.matches[1], r.target);
  }

  /** Positions 2 and 3 of the IPv6 block. */
  lemma NeighborCommand(name: string, source: string, kind: string)
    requires kind == "neighbor-solicitation" || kind == "neighbor-advertisement"
    ensures var position := if kind == "neighbor-solicitation" then 2 else 3;
      InsertArgs("filter", OUTPUT_CHAIN, Some(position), RootlessInstall.NeighborRule(name, source, kind)) ==
      ["-I", "DOCKERWALL-OUTPUT", Decimal(position), "-s", source, "-p", "ipv6-icmp", "-m", "icmp6", "--icmpv6-type",
       kind, "-m", "comment", "--comment", "dockerwall:" + name + ":" + kind, "-j", "ACCEPT"]
  {
    var r := RootlessInstall.NeighborRule(name, source, kind);
    ArgsOfFour(r.matches[0], r.matches[1], r.matches[2], r.matches[3], r.target);
  }

  /** The block rules stand at these positions, with these sets and destinations. */
  lemma BlockMembers(plan: Rootless.Plan, source6: string)
    ensures var source, port := CidrText(plan.source, 32), plan.port;
      var dns := if port == 53 then "198.18.0.1/32" else "127.0.0.1/32";
      Rootless.PolicyOf(plan).block ==
        [Rootless.EstablishedRule(plan.name, source), Rootless.DnsRule(plan.name, source, dns, Udp, port),
         Rootless.DnsRule(plan.name, source, dns, Tcp, port), Rootless.AllowRule(plan.name, source, plan.name),
         Rootless.DropRule(plan.name, source)]
    ensures RootlessInstall.Block6(plan.name, source6) ==
        [Rootless.EstablishedRule(plan.name, source6),
         RootlessInstall.NeighborRule(plan.name, source6, "neighbor-solicitation"),
         RootlessInstall.NeighborRule(plan.name, source6, "neighbor-advertisement"),
         Rootless.AllowRule(plan.name, source6, plan.name + "-v6"), Rootless.DropRule(plan.name, source6)]
  {
    DnsTexts();
  }

  /** The two addresses of the daemon. */
  lemma DnsTexts()
    ensures CidrText(Rootless.DNS_IP, 32) == "198.18.0.1/32"
    ensures CidrText(Rootless.LOOPBACK, 32) == "127.0.0.1/32"
  {
    OctetsOf(Rootless.DNS_IP, 198, 18, 0, 1);
    OctetsOf(Rootless.LOOPBACK, 127, 0, 0, 1);
    HostText(Rootless.DNS_IP, 198, 18, 0, 1);
    HostText(Rootless.LOOPBACK, 127, 0, 0, 1);
    SmallNumbers();
    Dotted(Decimal(198), Decimal(18), Decimal(0), Decimal(1), Decimal(32));
    DottedLoopback(Decimal(127), Decimal(0), Decimal(1), Decimal(32));
  }

  lemma HostText(v: U32, a: nat, b: nat, c: nat, d: nat)
    requires Octets(v) == [a, b, c, d]
    ensures CidrText(v, 32) == Decimal(a) + "." + Decimal(b) + "." + Decimal(c) + "." + Decimal(d) + "/" + Decimal(32)
  {
    FormatOctets(v, a, b, c, d);
  }

  lemma SmallNumbers()
    ensures Decimal(198) == "198" && Decimal(18) == "18" && Decimal(127) == "127" && Decimal(32) == "32"
    ensures Decimal(0) == "0" && Decimal(1) == "1"
  {
    DecimalDigits(0, 1);
    DecimalDigits(0, 3);
    DecimalDigits(1, 9);
    DecimalDigits(19, 8);
    DecimalDigits(1, 8);
    DecimalDigits(1, 2);
    DecimalDigits(12, 7);
    DecimalDigits(3, 2);
    DecimalDigits(0, 0);
  }

  lemma Dotted(a: string, b: string, c: string, d: string, len: string)
    requires a == "198" && b == "18" && c == "0" && d == "1" && len == "32"
    ensures a + "." + b + "." + c + "." + d + "/" + len == "198.18.0.1/32"
  {
  }

  lemma DottedLoopback(a: string, b: string, d: string, len: string)
    requires a == "127" && b == "0" && d == "1" && len == "32"
    ensures a + "." + b + "." + b + "." + d + "/" + len == "127.0.0.1/32"
  {
  }

  lemma RedirectCommand(name: string, source: string, chain: string, protocol: Protocol, port: nat)
    requires protocol == Udp || protocol == Tcp
    ensures var word := if protocol == Udp then "udp" else "tcp";
      InsertArgs("nat", chain, Some(1), DnsDelivery.RedirectRule(name, source, chain, protocol, port)) ==
      ["-t", "nat", "-I", chain, "1", "-s", source, "-d", "198.18.0.1/32", "-p", word, "--dport", "53",
       "-m", "comment", "--comment", "dockerwall:" + name + ":dns-" + chain + "-" + word,
       "-j", "REDIRECT", "--to-ports", Decimal(port)]
  {
    RedirectRuleText(name, source, chain, protocol, port);
    NatCommand(source, chain, protocol, "dockerwall:" + name + ":dns-" + chain + "-" + ProtocolName(protocol), port);
  }

  lemma RedirectRuleText(name: string, source: string, chain: string, protocol: Protocol, port: nat)
    ensures DnsDelivery.RedirectRule(name, source, chain, protocol, port) ==
      Rule([Source(source), Dest("198.18.0.1/32"), Proto(protocol), DestPort(53),
            Comment("dockerwall:" + name + ":dns-" + chain + "-" + ProtocolName(protocol))], Redirect(port))
  {
    DnsTexts();
    RedirectMarker("dockerwall:" + name, chain, ProtocolName(protocol));
  }

  lemma NatCommand(source: string, chain: string, protocol: Protocol, text: string, port: nat)
    ensures InsertArgs("nat", chain, Some(1),
              Rule([Source(source), Dest("198.18.0.1/32"), Proto(protocol), DestPort(53), Comment(text)],
                   Redirect(port))) ==
      ["-t", "nat", "-I", chain, "1", "-s", source, "-d", "198.18.0.1/32", "-p", ProtocolName(protocol),
       "--dport", "53", "-m", "comment", "--comment", text, "-j", "REDIRECT", "--to-ports", Decimal(port)]
  {
    DecimalDigits(0, 1);
    FiftyThree();
    ArgsOfQueryRule(source, "198.18.0.1/32", protocol, 53, text, Redirect(port));
  }

  lemma RedirectMarker(front: string, chain: string, word: string)
    ensures front + ":" + ("dns-" + chain + "-" + word) == front + ":dns-" + chain + "-" + word
  {
  }

  lemma FiftyThree()
    ensures Decimal(53) == "53"
  {
    DecimalDigits(0, 5);
    DecimalDigits(5, 3);
  }

  lemma MasqueradeCommand(name: string, source: string, interface: string)
    ensures InsertArgs("nat", DnsDelivery.POSTROUTING, Some(1), DnsDelivery.MasqueradeRule(name, source, interface)) ==
      ["-t", "nat", "-I", "POSTROUTING", "1", "-s", source, "-o", interface, "-m", "comment", "--comment",
       "dockerwall:" + name + ":masquerade", "-j", "MASQUERADE"]
  {
    DecimalDigits(0, 1);
    MarkerText(name, "masquerade", ":masquerade");
    var r := DnsDelivery.MasqueradeRule(name, source, interface);
    ArgsOfThree(r.matches[0], r.matches[1], r.matches[2], r.target);
  }

  // ---------- Docker networks ----------

  /** Positions 1 to 4 of DOCKER-USER. */
  lemma DockerCommands(name: string, subnet: string)
    ensures var block := Docker.Block(name, subnet);
      && |block| == 4
      && InsertArgs("filter", Docker.DOCKER_USER, Some(1), block[0]) ==
         ["-I", "DOCKER-USER", "1", "-m", "comment", "--comment", "dockerwall:established",
          "-m", "conntrack", "--ctstate", "ESTABLISHED,RELATED", "-j", "ACCEPT"]
      && InsertArgs("filter", Docker.DOCKER_USER, Some(2), block[1]) ==
         ["-I", "DOCKER-USER", "2", "-m", "comment", "--comment", "dockerwall:" + name + ":allow", "-s", subnet,
          "-m", "set", "--match-set", name, "dst", "-j", "ACCEPT"]
      && InsertArgs("filter", Docker.DOCKER_USER, Some(3), block[2]) ==
         ["-I", "DOCKER-USER", "3", "-m", "comment", "--comment", "dockerwall:" + name + ":allow-local", "-s", subnet,
          "-d", "172.16.0.0/12", "-j", "ACCEPT"]
      && InsertArgs("filter", Docker.DOCKER_USER, Some(4), block[3]) ==
         ["-I", "DOCKER-USER", "4", "-m", "comment", "--comment", "dockerwall:" + name + ":drop", "-s", subnet,
          "-j", "DROP"]
  {
    DockerEstablishedCommand();
    DockerAllowCommand(name, subnet);
    DockerLocalCommand(name, subnet);
    DockerDropCommand(name, subnet);
  }

  lemma DockerEstablishedCommand()
    ensures InsertArgs("filter", Docker.DOCKER_USER, Some(1), Docker.EstablishedRule()) ==
      ["-I", "DOCKER-USER", "1", "-m", "comment", "--comment", "dockerwall:established",
       "-m", "conntrack", "--ctstate", "ESTABLISHED,RELATED", "-j", "ACCEPT"]
  {
    DecimalDigits(0, 1);
    var r := Docker.EstablishedRule();
    ArgsOfTwo(r.matches[0], r.matches[1], r.target);
  }

  lemma DockerAllowCommand(name: string, subnet: string)
    ensures InsertArgs("filter", Docker.DOCKER_USER, Some(2), Docker.AllowRule(name, subnet)) ==
      ["-I", "DOCKER-USER", "2", "-m", "comment", "--comment", "dockerwall:" + name + ":allow", "-s", subnet,
       "-m", "set", "--match-set", name, "dst", "-j", "ACCEPT"]
  {
    DecimalDigits(0, 2);
    MarkerText(name, "allow", ":allow");
    var r := Docker.AllowRule(name, subnet);
    ArgsOfThree(r.matches[0], r.matches[1], r.matches[2], r.target);
  }

  lemma DockerLocalCommand(name: string, subnet: string)
    ensures InsertArgs("filter", Docker.DOCKER_USER, Some(3), Docker.LocalRule(name, subnet)) ==
      ["-I", "DOCKER-USER", "3", "-m", "comment", "--comment", "dockerwall:" + name + ":allow-local", "-s", subnet,
       "-d", "172.16.0.0/12", "-j", "ACCEPT"]
  {
    LocalRuleText(name, subnet);
    DecimalDigits(0, 3);
    ArgsOfThree(Comment("dockerwall:" + name + ":allow-local"), Source(subnet), Dest("172.16.0.0/12"), Accept);
  }

  lemma LocalRuleText(name: string, subnet: string)
    ensures Docker.LocalRule(name, subnet) ==
      Rule([Comment("dockerwall:" + name + ":allow-local"), Source(subnet), Dest("172.16.0.0/12")], Accept)
  {
    Docker.LocalNetText();
    MarkerText(name, "allow-local", ":allow-local");
  }

  lemma DockerDropCommand(name: string, subnet: string)
    ensures InsertArgs("filter", Docker.DOCKER_USER, Some(4), Docker.DropRule(name, subnet)) ==
      ["-I", "DOCKER-USER", "4", "-m", "comment", "--comment", "dockerwall:" + name + ":drop", "-s", subnet,
       "-j", "DROP"]
  {
    DecimalDigits(0, 4);
    MarkerText(name, "drop", ":drop");
    var r := Docker.DropRule(name, subnet);
    ArgsOfTwo(r.matches[0], r.matches[1], r.target);
  }

  lemma DnatCommand(plan: Docker.Plan, protocol: Protocol)
    requires protocol == Udp || protocol == Tcp
    ensures var word := if protocol == Udp then "udp" else "tcp";
      InsertArgs("nat", PREROUTING, None, Docker.DnatRule(plan, protocol)) ==
      ["-t", "nat", "-I", "PREROUTING", "-m", "comment", "--comment", "dockerwall:" + plan.name + ":dns-" + word,
       "-s", CidrText(plan.subnet, 28), "-p", word, "--dport", "53",
       "-j", "DNAT", "--to-destination", FormatV4(plan.gateway) + ":" + Decimal(plan.port)]
  {
    FiftyThree();
    DnsMarker("dockerwall:" + plan.name, ProtocolName(protocol));
    var r := Docker.DnatRule(plan, protocol);
    ArgsOfFour(r.matches[0], r.matches[1], r.matches[2], r.matches[3], r.target);
  }
}
