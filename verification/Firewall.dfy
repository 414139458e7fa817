/** Packet filtering as the kernel does it: ordered chains, first match decides, jumps may fall through. */
module Firewall {
  import opened Addresses

  datatype Protocol = Udp | Tcp | Icmp6 | OtherProtocol(number: nat)

  datatype Match =
    | Source(cidr: string)
    | Dest(cidr: string)
    | Proto(protocol: Protocol)
    | DestPort(port: nat)
    | OutInterface(name: string)
    | Established                 // conntrack ESTABLISHED,RELATED
    | DestInSet(set_: string)     // ipset match on the destination
    | IcmpType(kind: string)
    | Comment(text: string)
    | Foreign(text: string)       // anything this program never writes

  datatype Target =
    | Accept
    | Drop
    | Redirect(port: nat)
    | Dnat(destination: string)
    | Masquerade
    | Jump(chain: string)
    | Goto(chain: string)
    | Return
    | Stop(text: string)          // any other deciding target, such as REJECT
    | Pass(text: string)          // any other target after which evaluation continues

  datatype Rule = Rule(matches: seq<Match>, target: Target)

  /** The chains of one table. */
  type Chains = map<string, seq<Rule>>

  datatype Packet = Packet(
    src: IpAddr, dst: IpAddr, protocol: Protocol, dport: nat,
    icmpType: string, established: bool, outInterface: string)

  /** What matching depends on besides the packet: the kernel's sets, how foreign matches behave, and
      which addresses a written block denotes. */
  datatype Env = Env(
    sets: map<string, set<IpAddr>>, foreign: (string, Packet) -> bool, inBlock: (string, IpAddr) -> bool)

  /** IPv4 blocks are read as they are meant. */
  ghost predicate ReadsV4Blocks(env: Env) {
    forall a: U32, len: U32, ip :: len <= 32 ==> env.inBlock(CidrText(a, len), ip) == InBlock(ip, a, len)
  }

  /** Reading the text of a block with the parser of this program is such a reading. */
  lemma ParsingReadsV4Blocks(env: Env, v6: V6Parser)
    requires forall cidr, ip :: env.inBlock(cidr, ip) == InCidr(ip, cidr, v6)
    ensures ReadsV4Blocks(env)
  {
    forall a: U32, len: U32, ip | len <= 32
      ensures env.inBlock(CidrText(a, len), ip) == InBlock(ip, a, len)
    {
      CidrTextMeaning(ip, a, len, v6);
    }
  }

  /** A /32 is one address. */
  lemma HostBlock(env: Env, a: U32, ip: IpAddr)
    requires ReadsV4Blocks(env)
    ensures env.inBlock(CidrText(a, 32), ip) <==> ip == V4(a)
  {
    SingleAddress(ip, a);
  }

  datatype Outcome = Decided(target: Target) | FellThrough | TooDeep

  ghost predicate MatchHolds(env: Env, m: Match, p: Packet) {
    match m
    case Source(cidr) => env.inBlock(cidr, p.src)
    case Dest(cidr) => env.inBlock(cidr, p.dst)
    case Proto(protocol) => p.protocol == protocol
    case DestPort(port) => p.dport == port
    case OutInterface(name) => p.outInterface == name
    case Established => p.established
    case DestInSet(name) => name in env.sets && p.dst in env.sets[name]
    case IcmpType(kind) => p.icmpType == kind
    case Comment(_) => true
    case Foreign(text) => env.foreign(text, p)
  }

  ghost predicate Matches(env: Env, r: Rule, p: Packet) {
    forall i :: 0 <= i < |r.matches| ==> MatchHolds(env, r.matches[i], p)
  }

  lemma TwoMatches(env: Env, r: Rule, p: Packet)
    requires |r.matches| == 2
    ensures Matches(env, r, p) <==> MatchHolds(env, r.matches[0], p) && MatchHolds(env, r.matches[1], p)
  {
  }

  lemma ThreeMatches(env: Env, r: Rule, p: Packet)
    requires |r.matches| == 3
    ensures Matches(env, r, p) <==>
      MatchHolds(env, r.matches[0], p) && MatchHolds(env, r.matches[1], p) && MatchHolds(env, r.matches[2], p)
  {
  }

  lemma FourMatches(env: Env, r: Rule, p: Packet)
    requires |r.matches| == 4
    ensures Matches(env, r, p) <==>
      && MatchHolds(env, r.matches[0], p) && MatchHolds(env, r.matches[1], p)
      && MatchHolds(env, r.matches[2], p) && MatchHolds(env, r.matches[3], p)
  {
  }

  lemma FiveMatches(env: Env, r: Rule, p: Packet)
    requires |r.matches| == 5
    ensures Matches(env, r, p) <==>
      && MatchHolds(env, r.matches[0], p) && MatchHolds(env, r.matches[1], p) && MatchHolds(env, r.matches[2], p)
      && MatchHolds(env, r.matches[3], p) && MatchHolds(env, r.matches[4], p)
  {
  }

  function ChainOf(chains: Chains, name: string): seq<Rule> {
    if name in chains then chains[name] else []
  }

  /** Evaluate a list of rules; `depth` bounds how deep jumps may nest. */
  ghost function Walk(env: Env, chains: Chains, depth: nat, rules: seq<Rule>, p: Packet): Outcome
    decreases depth, |rules|
  {
    if rules == [] then FellThrough
    else if !Matches(env, rules[0], p) then Walk(env, chains, depth, rules[1..], p)
    else match rules[0].target
      case Jump(c) =>
        if depth == 0 then TooDeep
        else
          var inner := Walk(env, chains, depth - 1, ChainOf(chains, c), p);
          if inner.FellThrough? then Walk(env, chains, depth, rules[1..], p) else inner
      case Goto(c) => if depth == 0 then TooDeep else Walk(env, chains, depth - 1, ChainOf(chains, c), p)
      case Return => FellThrough
      case Pass(_) => Walk(env, chains, depth, rules[1..], p)
      case t => Decided(t)
  }

  ghost function Verdict(env: Env, chains: Chains, depth: nat, chain: string, p: Packet): Outcome {
    Walk(env, chains, depth, ChainOf(chains, chain), p)
  }

  // ---------- only matching rules count ----------

  /** The rules of a list that match the packet, in order. */
  ghost function Live(env: Env, rules: seq<Rule>, p: Packet): seq<Rule> {
    if rules == [] then []
    else if Matches(env, rules[0], p) then [rules[0]] + Live(env, rules[1..], p)
    else Live(env, rules[1..], p)
  }

  lemma {:induction false} LiveAppend(env: Env, a: seq<Rule>, b: seq<Rule>, p: Packet)
    ensures Live(env, a + b, p) == Live(env, a, p) + Live(env, b, p)
  {
    if a == [] {
      assert a + b == b;
    } else {
      assert (a + b)[1..] == a[1..] + b;
      LiveAppend(env, a[1..], b, p);
    }
  }

  /** No chain differs in the rules that match the packet. */
  ghost predicate SameFor(env: Env, before: Chains, after: Chains, p: Packet) {
    forall c :: Live(env, ChainOf(before, c), p) == Live(env, ChainOf(after, c), p)
  }

  /** Rules that do not match a packet may come and go without changing anything for it. */
  lemma {:induction false} WalkSeesOnlyLive(
    env: Env, before: Chains, after: Chains, depth: nat, a: seq<Rule>, b: seq<Rule>, p: Packet)
    requires SameFor(env, before, after, p)
    requires Live(env, a, p) == Live(env, b, p)
    ensures Walk(env, before, depth, a, p) == Walk(env, after, depth, b, p)
    decreases depth, |a| + |b|
  {
    if a != [] && !Matches(env, a[0], p) {
      WalkSeesOnlyLive(env, before, after, depth, a[1..], b, p);
    } else if b != [] && !Matches(env, b[0], p) {
      WalkSeesOnlyLive(env, before, after, depth, a, b[1..], p);
    } else if a != [] && b != [] {
      assert a[0] == Live(env, a, p)[0] == Live(env, b, p)[0] == b[0];
      assert Live(env, a[1..], p) == Live(env, a, p)[1..] == Live(env, b, p)[1..] == Live(env, b[1..], p);
      WalkSeesOnlyLive(env, before, after, depth, a[1..], b[1..], p);
      if depth > 0 && (a[0].target.Jump? || a[0].target.Goto?) {
        var c := a[0].target.chain;
        WalkSeesOnlyLive(env, before, after, depth - 1, ChainOf(before, c), ChainOf(after, c), p);
      }
    }
  }

  // ---------- a block of rules in front of a chain ----------

  predicate Deciding(t: Target) {
    !t.Jump? && !t.Goto? && !t.Return? && !t.Pass?
  }

  /** The target of the first rule that matches. */
  ghost function FirstTarget(env: Env, rules: seq<Rule>, p: Packet): Target
    requires exists i :: 0 <= i < |rules| && Matches(env, rules[i], p)
  {
    if Matches(env, rules[0], p) then rules[0].target
    else
      assert exists i :: 0 <= i < |rules[1..]| && Matches(env, rules[1..][i], p) by {
        var i :| 0 <= i < |rules| && Matches(env, rules[i], p);
        assert rules[i] == rules[1..][i - 1];
      }
      FirstTarget(env, rules[1..], p)
  }

  /** Deciding rules, one of which matches, settle the packet whatever follows them. */
  lemma {:induction false} BlockDecides(
    env: Env, chains: Chains, depth: nat, block: seq<Rule>, rest: seq<Rule>, p: Packet)
    requires forall i :: 0 <= i < |block| ==> Deciding(block[i].target)
    requires exists i :: 0 <= i < |block| && Matches(env, block[i], p)
    ensures Walk(env, chains, depth, block + rest, p) == Decided(FirstTarget(env, block, p))
  {
    assert (block + rest)[0] == block[0];
    if !Matches(env, block[0], p) {
      var i :| 0 <= i < |block| && Matches(env, block[i], p);
      assert block[1..][i - 1] == block[i];
      assert (block + rest)[1..] == block[1..] + rest;
      BlockDecides(env, chains, depth, block[1..], rest, p);
    }
  }

  /** Two rules with the same deciding target, one of which matches. */
  lemma TwoDecide(env: Env, chains: Chains, depth: nat, a: Rule, b: Rule, rest: seq<Rule>, p: Packet)
    requires a.target == b.target && Deciding(a.target) && (Matches(env, a, p) || Matches(env, b, p))
    ensures Walk(env, chains, depth, [a, b] + rest, p) == Decided(a.target)
  {
    var rules := [a, b] + rest;
    assert rules[0] == a && rules[1..][0] == b;
  }

  /** A matching jump into a chain that decides the packet decides it. */
  lemma JumpDecides(env: Env, chains: Chains, depth: nat, r: Rule, rest: seq<Rule>, p: Packet)
    requires r.target.Jump? && Matches(env, r, p) && depth >= 1
    requires Walk(env, chains, depth - 1, ChainOf(chains, r.target.chain), p).Decided?
    ensures Walk(env, chains, depth, [r] + rest, p)
         == Walk(env, chains, depth - 1, ChainOf(chains, r.target.chain), p)
  {
  }

  // ---------- chains nothing jumps into ----------

  predicate TargetAvoids(r: Rule, chain: string) {
    (r.target.Jump? || r.target.Goto?) ==> r.target.chain != chain
  }

  predicate Avoids(rules: seq<Rule>, chain: string) {
    forall i :: 0 <= i < |rules| ==> TargetAvoids(rules[i], chain)
  }

  /** No rule jumps into the chain, as iptables guarantees for its built-in ones. */
  predicate NoJumpInto(chains: Chains, chain: string) {
    forall c :: c in chains ==> Avoids(chains[c], chain)
  }

  /** What such a chain holds does not matter elsewhere. */
  lemma {:induction false} WalkIgnoresChain(
    env: Env, chains: Chains, hidden: string, content: seq<Rule>, depth: nat, rules: seq<Rule>, p: Packet)
    requires NoJumpInto(chains, hidden) && Avoids(rules, hidden)
    ensures Walk(env, chains[hidden := content], depth, rules, p) == Walk(env, chains, depth, rules, p)
    decreases depth, |rules|
  {
    if rules != [] {
      WalkIgnoresChain(env, chains, hidden, content, depth, rules[1..], p);
      if depth > 0 && (rules[0].target.Jump? || rules[0].target.Goto?) {
        var c := rules[0].target.chain;
        assert TargetAvoids(rules[0], hidden);
        WalkIgnoresChain(env, chains, hidden, content, depth - 1, ChainOf(chains, c), p);
      }
    }
  }
}
