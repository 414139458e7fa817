/** Rootless policies in the OUTPUT path: a hook in OUTPUT, and in DOCKERWALL-OUTPUT a block of rules that
    decides every packet of the policy's source (src/helper.rs, the same shape for iptables and ip6tables). */
module OutputPolicy {
  import opened Text
  import opened Firewall
  import opened Iptables
  import opened HostRules

  const OUTPUT := "OUTPUT"
  const PREROUTING := "PREROUTING"
  const OUTPUT_CHAIN := "DOCKERWALL-OUTPUT"

  datatype Policy = Policy(name: string, source: string, block: seq<Rule>)

  function Marker(name: string, role: string): string {
    "dockerwall:" + name + ":" + role
  }

  function Hook(name: string, source: string): Rule {
    Rule([Source(source), Comment(Marker(name, "output-hook"))], Jump(OUTPUT_CHAIN))
  }

  /** Each rule asks for the source first and decides; the last one asks for nothing else. */
  predicate Guarded(p: Policy) {
    && p.block != []
    && Distinct(p.block)
    && (forall i :: 0 <= i < |p.block| ==> SourceFirst(p.block[i], p.source) && Deciding(p.block[i].target))
    && (forall i :: 0 <= i < |Last(p.block).matches| ==>
          Last(p.block).matches[i].Comment? || Last(p.block).matches[i] == Source(p.source))
  }

  predicate SourceFirst(r: Rule, source: string) {
    r.matches != [] && r.matches[0] == Source(source)
  }

  function Last(rules: seq<Rule>): Rule
    requires rules != []
  {
    rules[|rules| - 1]
  }

  function Install(chains: Chains, p: Policy): Chains {
    chains[OUTPUT := Put(ChainOf(chains, OUTPUT), Hook(p.name, p.source))]
          [OUTPUT_CHAIN := OnTop(ChainOf(chains, OUTPUT_CHAIN), p.block)]
  }

  function InstallAll(chains: Chains, policies: seq<Policy>): Chains {
    if policies == [] then chains
    else Install(InstallAll(chains, policies[..|policies| - 1]), policies[|policies| - 1])
  }

  ghost predicate From(env: Env, source: string, p: Packet) {
    env.inBlock(source, p.src)
  }

  // ---------- one installation ----------

  lemma OtherSourceNoMatch(env: Env, r: Rule, source: string, p: Packet)
    requires SourceFirst(r, source) && !From(env, source, p)
    ensures !Matches(env, r, p)
  {
    assert !MatchHolds(env, r.matches[0], p);
  }

  lemma PutInvisible(env: Env, rules: seq<Rule>, r: Rule, p: Packet)
    requires !Matches(env, r, p)
    ensures Live(env, Put(rules, r), p) == Live(env, rules, p)
  {
    assert Put(rules, r)[1..] == Without(rules, r);
    LiveWithout(env, rules, r, p);
  }

  /** A deciding rule put in front of a chain decides what it matches there, and nothing else changes. */
  lemma PutDecides(env: Env, before: Chains, chain: string, r: Rule, depth: nat, p: Packet)
    requires Deciding(r.target)
    ensures Verdict(env, before[chain := Put(ChainOf(before, chain), r)], depth, chain, p) ==
      if Matches(env, r, p) then Decided(r.target) else Verdict(env, before, depth, chain, p)
  {
    var rules, after := ChainOf(before, chain), before[chain := Put(ChainOf(before, chain), r)];
    if Matches(env, r, p) {
      assert [r][0] == r;
      BlockDecides(env, after, depth, [r], Without(rules, r), p);
    } else {
      PutInvisible(env, rules, r, p);
      assert SameFor(env, before, after, p);
      WalkSeesOnlyLive(env, before, after, depth, rules, Put(rules, r), p);
    }
  }

  /** What an installation leaves in each chain. */
  lemma InstalledChains(chains: Chains, policy: Policy, c: string)
    ensures ChainOf(Install(chains, policy), OUTPUT) == Put(ChainOf(chains, OUTPUT), Hook(policy.name, policy.source))
    ensures ChainOf(Install(chains, policy), OUTPUT_CHAIN) == OnTop(ChainOf(chains, OUTPUT_CHAIN), policy.block)
    ensures c != OUTPUT && c != OUTPUT_CHAIN ==> ChainOf(Install(chains, policy), c) == ChainOf(chains, c)
  {
    assert |OUTPUT| != |OUTPUT_CHAIN|;
  }

  /** A packet from any other source meets exactly the rules it met before. */
  lemma InstallInvisible(env: Env, chains: Chains, policy: Policy, p: Packet)
    requires Guarded(policy) && !From(env, policy.source, p)
    ensures SameFor(env, chains, Install(chains, policy), p)
  {
    OtherSourceNoMatch(env, Hook(policy.name, policy.source), policy.source, p);
    PutInvisible(env, ChainOf(chains, OUTPUT), Hook(policy.name, policy.source), p);
    forall i | 0 <= i < |policy.block|
      ensures !Matches(env, policy.block[i], p)
    {
      OtherSourceNoMatch(env, policy.block[i], policy.source, p);
    }
    BlockInvisible(env, ChainOf(chains, OUTPUT_CHAIN), policy.block, p);
    forall c
      ensures Live(env, ChainOf(chains, c), p) == Live(env, ChainOf(Install(chains, policy), c), p)
    {
      InstalledChains(chains, policy, c);
    }
  }

  lemma HookMatches(env: Env, name: string, source: string, p: Packet)
    requires From(env, source, p)
    ensures Matches(env, Hook(name, source), p)
  {
  }

  lemma LastRuleMatches(env: Env, policy: Policy, p: Packet)
    requires Guarded(policy) && From(env, policy.source, p)
    ensures Matches(env, Last(policy.block), p)
  {
  }

  /** A packet from the policy's source gets the verdict of the policy's own block, whatever else
      the chains hold: stale rules are shadowed. */
  lemma InstallDecides(env: Env, chains: Chains, policy: Policy, depth: nat, p: Packet)
    requires Guarded(policy) && From(env, policy.source, p) && depth >= 1
    ensures Matches(env, Last(policy.block), p)
    ensures Verdict(env, Install(chains, policy), depth, OUTPUT, p) == Decided(FirstTarget(env, policy.block, p))
  {
    LastRuleMatches(env, policy, p);
    var after := Install(chains, policy);
    var hook := Hook(policy.name, policy.source);
    HookMatches(env, policy.name, policy.source, p);
    assert ChainOf(after, OUTPUT) == Put(ChainOf(chains, OUTPUT), hook)
        && ChainOf(after, OUTPUT_CHAIN) == OnTop(ChainOf(chains, OUTPUT_CHAIN), policy.block) by {
      InstalledChains(chains, policy, OUTPUT);
    }
    assert Walk(env, after, depth - 1, ChainOf(after, OUTPUT_CHAIN), p)
        == Decided(FirstTarget(env, policy.block, p)) by {
      BlockDecides(env, after, depth - 1, policy.block, WithoutAll(ChainOf(chains, OUTPUT_CHAIN), policy.block), p);
    }
    JumpDecides(env, after, depth, hook, Without(ChainOf(chains, OUTPUT), hook), p);
  }

  // ---------- any sequence of installations ----------

  /** The most recent policy whose source the packet has. */
  ghost function Governing(env: Env, policies: seq<Policy>, p: Packet): Option<Policy> {
    if policies == [] then None
    else
      var last := policies[|policies| - 1];
      if From(env, last.source, p) then Some(last) else Governing(env, policies[..|policies| - 1], p)
  }

  lemma {:induction false} GoverningIsMember(env: Env, policies: seq<Policy>, p: Packet)
    ensures Governing(env, policies, p).Some? ==>
      Governing(env, policies, p).value in policies && From(env, Governing(env, policies, p).value.source, p)
    ensures Governing(env, policies, p).None? ==> forall q :: q in policies ==> !From(env, q.source, p)
  {
    if policies != [] {
      GoverningIsMember(env, policies[..|policies| - 1], p);
      assert forall q :: q in policies ==> q in policies[..|policies| - 1] || q == policies[|policies| - 1];
    }
  }

  /** After any sequence of installations, repeats included, over any earlier chains: the latest policy of
      the packet's source decides it alone, and a packet of no policy's source gets its old verdict. */
  lemma {:induction false} RunDecides(env: Env, chains: Chains, policies: seq<Policy>, depth: nat, p: Packet)
    requires forall i :: 0 <= i < |policies| ==> Guarded(policies[i])
    requires depth >= 1
    ensures var verdict := Verdict(env, InstallAll(chains, policies), depth, OUTPUT, p);
      match Governing(env, policies, p)
      case Some(policy) =>
        Guarded(policy) && Matches(env, Last(policy.block), p)
        && verdict == Decided(FirstTarget(env, policy.block, p))
      case None => verdict == Verdict(env, chains, depth, OUTPUT, p)
  {
    if policies != [] {
      var earlier, last := policies[..|policies| - 1], policies[|policies| - 1];
      var before := InstallAll(chains, earlier);
      if From(env, last.source, p) {
        InstallDecides(env, before, last, depth, p);
      } else {
        RunDecides(env, chains, earlier, depth, p);
        InstallInvisible(env, before, last, p);
        WalkSeesOnlyLive(env, before, Install(before, last), depth,
          ChainOf(before, OUTPUT), ChainOf(Install(before, last), OUTPUT), p);
      }
    }
  }

  // ---------- the commands that install a policy ----------

  predicate Writable(p: Policy) {
    |p.block| < 100 && forall i :: 0 <= i < |p.block| ==> Printable(p.block[i]) && Deciding(p.block[i].target)
  }

  /** Chain creation, the hook at position 1, then the block. */
  method InstallRules(host: Host, p: Policy) returns (ok: bool)
    requires Guarded(p) && Writable(p)
    requires HasChain(host.tables, "filter", OUTPUT)
    modifies host
    ensures ok
    ensures host.tables == old(host.tables)["filter" := Install(old(host.tables)["filter"], p)]
  {
    ghost var start := host.tables["filter"];
    ghost var rules := ChainOf(start, OUTPUT_CHAIN);
    ok := EnsureChain(host, OUTPUT_CHAIN);
    ok := EnsureFirst(host, "filter", OUTPUT, Hook(p.name, p.source));
    ok := EnsureBlock(host, "filter", OUTPUT_CHAIN, p.block);
    assert OUTPUT != OUTPUT_CHAIN;
    assert host.tables["filter"] == Install(start, p);
  }
}
