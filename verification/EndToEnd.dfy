/** The firewall and the daemon together: what a prepared rootless policy lets out, in every run. */
module EndToEnd {
  import opened Text
  import opened Addresses
  import opened Firewall
  import opened HostRules
  import opened OutputPolicy
  import opened Rootless
  import RootlessInstall
  import opened SourceAllocator
  import SourceRun
  import AllowRun
  import SinceCreate
  import Races
  import DomainMatcher
  import Ipset
  import Fnv

  /** The filter table, the latest plan of each prepared policy, and the daemon with the kernel's sets. */
  datatype World = World(filter: Chains, latest: map<string, Plan>, allow: AllowRun.State)

  datatype Step =
    | Prepare(name: string, held: set<U32>, interface: string, port: nat)  // source allocated, rules written
    | EditElsewhere(filter: Chains)    // anything done to other chains, Docker preparations included
    | Daemon(step: AllowRun.Step)      // control requests, answers, kernel writes

  function OutputRules(w: World): seq<Rule> {
    ChainOf(w.filter, OUTPUT)
  }

  function AllocatedPlan(w: World, step: Step): Option<Plan>
    requires step.Prepare?
  {
    match Allocated(Listing(OutputRules(w)), step.held, step.name)
    case Some(a) => Some(Plan(step.name, a, step.interface, step.port))
    case None => None
  }

  ghost predicate Enabled(w: World, step: Step) {
    match step
    case Prepare(name, _, _, _) => CleanName(name)
    case EditElsewhere(filter) =>
      && ChainOf(filter, OUTPUT) == ChainOf(w.filter, OUTPUT)
      && ChainOf(filter, OUTPUT_CHAIN) == ChainOf(w.filter, OUTPUT_CHAIN)
    case Daemon(s) => AllowRun.Enabled(w.allow, s)
  }

  function Next(w: World, step: Step): World {
    match step
    case Prepare(name, _, _, _) =>
      (match AllocatedPlan(w, step)
       case Some(plan) => w.(filter := Install(w.filter, PolicyOf(plan)), latest := w.latest[name := plan])
       case None => w)
    case EditElsewhere(filter) => w.(filter := filter)
    case Daemon(s) => w.(allow := AllowRun.Next(w.allow, s))
  }

  /** Any filter table whose OUTPUT rules are foreign, no policy, an empty kernel and an idle daemon. */
  predicate Initial(w: World) {
    && w.latest == map[] && w.allow == AllowRun.State(map[], map[], [], 0)
    && forall i :: 0 <= i < |OutputRules(w)| ==> SourceRun.ForeignRule(OutputRules(w)[i])
  }

  ghost predicate Run(worlds: seq<World>, steps: seq<Step>) {
    && |worlds| == |steps| + 1 && Initial(worlds[0])
    && forall i :: 0 <= i < |steps| ==> Follows(worlds[i], steps[i], worlds[i + 1])
  }

  ghost predicate Follows(w: World, step: Step, w': World) {
    Enabled(w, step) && w' == Next(w, step)
  }

  // ---------- a source in the hands of its policy ----------

  /** The packet's first matching OUTPUT rule leads to DOCKERWALL-OUTPUT, whose first matching rule decides it
      as the plan means. */
  ghost predicate Owned(env: Env, chains: Chains, plan: Plan, p: Packet) {
    var hooks, rules := Live(env, ChainOf(chains, OUTPUT), p), Live(env, ChainOf(chains, OUTPUT_CHAIN), p);
    && hooks != [] && hooks[0].target == Jump(OUTPUT_CHAIN)
    && rules != [] && rules[0].target == Meaning(env, plan, p)
  }

  ghost predicate Controls(chains: Chains, plan: Plan) {
    forall env: Env, p: Packet :: ReadsV4Blocks(env) && p.src == V4(plan.source) ==> Owned(env, chains, plan, p)
  }

  lemma {:induction false} FirstLive(env: Env, chains: Chains, depth: nat, rules: seq<Rule>, p: Packet)
    requires Live(env, rules, p) != []
    ensures var r := Live(env, rules, p)[0];
      && (Deciding(r.target) ==> Walk(env, chains, depth, rules, p) == Decided(r.target))
      && (r.target.Jump? && depth >= 1 && Walk(env, chains, depth - 1, ChainOf(chains, r.target.chain), p).Decided? ==>
            Walk(env, chains, depth, rules, p) == Walk(env, chains, depth - 1, ChainOf(chains, r.target.chain), p))
    decreases |rules|
  {
    if !Matches(env, rules[0], p) {
      FirstLive(env, chains, depth, rules[1..], p);
    }
  }

  /** An owned packet is decided as its plan means, at every jump depth. */
  lemma OwnedVerdict(env: Env, chains: Chains, plan: Plan, depth: nat, p: Packet)
    requires Owned(env, chains, plan, p) && depth >= 1
    ensures Verdict(env, chains, depth, OUTPUT, p) == Decided(Meaning(env, plan, p))
  {
    FirstLive(env, chains, depth - 1, ChainOf(chains, OUTPUT_CHAIN), p);
    FirstLive(env, chains, depth, ChainOf(chains, OUTPUT), p);
  }

  lemma {:induction false} LiveFirstTarget(env: Env, block: seq<Rule>, p: Packet)
    requires exists i :: 0 <= i < |block| && Matches(env, block[i], p)
    ensures Live(env, block, p) != [] && Live(env, block, p)[0].target == FirstTarget(env, block, p)
  {
    if !Matches(env, block[0], p) {
      var i :| 0 <= i < |block| && Matches(env, block[i], p);
      assert block[1..][i - 1] == block[i];
      LiveFirstTarget(env, block[1..], p);
    }
  }

  lemma InstallOwns(env: Env, chains: Chains, plan: Plan, p: Packet)
    requires ReadsV4Blocks(env) && p.src == V4(plan.source)
    ensures Owned(env, Install(chains, PolicyOf(plan)), plan, p)
  {
    var policy := PolicyOf(plan);
    BlockMeaning(env, plan, p);
    InstalledChains(chains, policy, OUTPUT);
    LiveFirstTarget(env, policy.block, p);
    LiveAppend(env, policy.block, WithoutAll(ChainOf(chains, OUTPUT_CHAIN), policy.block), p);
    HookMatches(env, policy.name, policy.source, p);
  }

  lemma InstallControls(chains: Chains, plan: Plan)
    ensures Controls(Install(chains, PolicyOf(plan)), plan)
  {
    forall env: Env, p: Packet | ReadsV4Blocks(env) && p.src == V4(plan.source)
      ensures Owned(env, Install(chains, PolicyOf(plan)), plan, p)
    {
      InstallOwns(env, chains, plan, p);
    }
  }

  lemma OtherInstallKeepsControl(chains: Chains, plan: Plan, other: Plan)
    requires Controls(chains, plan) && other.source != plan.source
    ensures Controls(Install(chains, PolicyOf(other)), plan)
  {
    PolicyIsGuarded(other);
    forall env: Env, p: Packet | ReadsV4Blocks(env) && p.src == V4(plan.source)
      ensures Owned(env, Install(chains, PolicyOf(other)), plan, p)
    {
      assert Owned(env, chains, plan, p);
      HostBlock(env, other.source, p.src);
      InstallInvisible(env, chains, PolicyOf(other), p);
    }
  }

  // ---------- the invariant of the world ----------

  function Given(latest: map<string, Plan>): map<string, U32> {
    map n | n in latest :: latest[n].source
  }

  function SourceState(w: World): SourceRun.State {
    SourceRun.State(OutputRules(w), Given(w.latest))
  }

  ghost predicate Protected(w: World) {
    && SourceRun.Consistent(SourceState(w))
    && (forall n :: n in w.latest ==> w.latest[n].name == n && Controls(w.filter, w.latest[n]))
  }

  /** A preparation changes the OUTPUT chain and the given sources as `SourceRun` describes. */
  lemma PrepareRefines(w: World, step: Step)
    requires step.Prepare?
    ensures SourceState(Next(w, step)) == SourceRun.PrepareOnce(SourceState(w), SourceRun.Attempt(step.name, step.held))
  {
    match AllocatedPlan(w, step) {
      case Some(plan) =>
        InstalledChains(w.filter, PolicyOf(plan), OUTPUT);
        assert Given(w.latest[step.name := plan]) == Given(w.latest)[step.name := plan.source];
      case None =>
    }
  }

  lemma PrepareProtects(w: World, step: Step)
    requires Protected(w) && step.Prepare? && CleanName(step.name)
    ensures Protected(Next(w, step))
  {
    PrepareRefines(w, step);
    SourceRun.StepConsistent(SourceState(w), SourceRun.Attempt(step.name, step.held));
    var w' := Next(w, step);
    if AllocatedPlan(w, step).Some? {
      var plan := AllocatedPlan(w, step).value;
      forall n | n in w'.latest ensures w'.latest[n].name == n && Controls(w'.filter, w'.latest[n]) {
        if n == step.name {
          InstallControls(w.filter, plan);
        } else {
          assert Given(w'.latest)[n] != Given(w'.latest)[step.name];
          OtherInstallKeepsControl(w.filter, w.latest[n], plan);
        }
      }
    }
  }

  lemma EditKeepsControl(before: Chains, after: Chains, plan: Plan)
    requires Controls(before, plan)
    requires ChainOf(after, OUTPUT) == ChainOf(before, OUTPUT)
    requires ChainOf(after, OUTPUT_CHAIN) == ChainOf(before, OUTPUT_CHAIN)
    ensures Controls(after, plan)
  {
    forall env: Env, p: Packet | ReadsV4Blocks(env) && p.src == V4(plan.source) ensures Owned(env, after, plan, p) {
      assert Owned(env, before, plan, p);
    }
  }

  lemma StepProtects(w: World, step: Step)
    requires Protected(w) && Enabled(w, step)
    ensures Protected(Next(w, step))
  {
    match step {
      case Prepare(_, _, _, _) => PrepareProtects(w, step);
      case EditElsewhere(filter) =>
        forall n | n in w.latest ensures Controls(filter, w.latest[n]) {
          EditKeepsControl(w.filter, filter, w.latest[n]);
        }
      case Daemon(_) =>
    }
  }

  lemma {:induction false} RunProtected(worlds: seq<World>, steps: seq<Step>)
    requires Run(worlds, steps)
    ensures Protected(worlds[|steps|])
    decreases |steps|
  {
    if steps != [] {
      var n := |steps| - 1;
      RunProtected(worlds[..n + 1], steps[..n]);
      assert Follows(worlds[n], steps[n], worlds[n + 1]);
      StepProtects(worlds[n], steps[n]);
    }
  }

  // ---------- the daemon's part of the run ----------

  function AllowStates(worlds: seq<World>): (states: seq<AllowRun.State>)
    ensures |states| == |worlds| && forall i :: 0 <= i < |worlds| ==> states[i] == worlds[i].allow
  {
    seq(|worlds|, i requires 0 <= i < |worlds| => worlds[i].allow)
  }

  function AllowSteps(steps: seq<Step>): (r: seq<AllowRun.Step>)
    ensures |r| == |steps|
    ensures forall i :: 0 <= i < |steps| ==> r[i] == if steps[i].Daemon? then steps[i].step else AllowRun.Idle
  {
    seq(|steps|, i requires 0 <= i < |steps| => if steps[i].Daemon? then steps[i].step else AllowRun.Idle)
  }

  lemma DaemonRun(worlds: seq<World>, steps: seq<Step>)
    requires Run(worlds, steps)
    ensures AllowRun.Run(AllowStates(worlds), AllowSteps(steps))
  {
    forall i | 0 <= i < |steps|
      ensures AllowRun.Follows(AllowStates(worlds)[i], AllowSteps(steps)[i], AllowStates(worlds)[i + 1])
    {
      assert Follows(worlds[i], steps[i], worlds[i + 1]);
    }
  }

  /** What the firewall sees of the kernel's sets. */
  function SetsOf(kernel: Ipset.Kernel): map<string, set<IpAddr>> {
    map s | s in kernel :: kernel[s].members
  }

  /** End-to-end default deny. In every run, under every interleaving of preparations, edits to other chains,
      control requests, answers and kernel writes: a new IPv4 packet from the source of a prepared policy, other than
      DNS to the daemon, is either dropped, or accepted to an address in the policy's kernel set, and then that address
      came from an answer to a query which the policy's patterns allowed when the answer was applied. */
  lemma DefaultDeny(worlds: seq<World>, steps: seq<Step>, name: string, env: Env, depth: nat, p: Packet)
    requires Run(worlds, steps) && name in worlds[|steps|].latest && depth >= 1
    requires env.sets == SetsOf(worlds[|steps|].allow.kernel) && ReadsV4Blocks(env)
    requires var plan := worlds[|steps|].latest[name];
      p.src == V4(plan.source) && p.dst.V4? && !p.established && !IsDns(plan.port, p)
    ensures var allowed := InSet(env.sets, name, p.dst);
      && Verdict(env, worlds[|steps|].filter, depth, OUTPUT, p) == Decided(if allowed then Accept else Drop)
      && (allowed ==> AllowRun.Justified(AllowStates(worlds), AllowSteps(steps), name, p.dst))
  {
    var w := worlds[|steps|];
    RunProtected(worlds, steps);
    assert Owned(env, w.filter, w.latest[name], p);
    OwnedVerdict(env, w.filter, w.latest[name], depth, p);
    if InSet(env.sets, name, p.dst) {
      DaemonRun(worlds, steps);
      AllowRun.KernelProvenanceV4(AllowStates(worlds), AllowSteps(steps), name, p.dst);
    }
  }

  // ---------- such runs exist ----------

  lemma NoDotNoAddress(line: string, a: U32)
    requires '.' !in line
    ensures !Contains(line, CidrText(a, 32))
  {
    DottedText(a);
    if Contains(line, CidrText(a, 32)) {
      ContainedChars(line, CidrText(a, 32), '.');
    }
  }

  lemma ContainedChars(line: string, text: string, c: char)
    requires Contains(line, text) && c in text
    ensures c in line
  {
    var i :| 0 <= i <= |line| && OccursAt(line, text, i);
    var k :| 0 <= k < |text| && text[k] == c;
    assert line[i..i + |text|][k] == line[i + k];
  }

  lemma DottedText(a: U32)
    ensures '.' in CidrText(a, 32)
  {
    var o := Octets(a);
    FormatOctets(a, o[0], o[1], o[2], o[3]);
    var first := Decimal(o[0]);
    assert FormatV4(a) == first + "." + Decimal(o[1]) + "." + Decimal(o[2]) + "." + Decimal(o[3]);
    assert CidrText(a, 32)[|first|] == '.';
  }

  /** On a host without OUTPUT rules and with no managed address assigned, a policy is given a source. */
  lemma FirstSource(name: string)
    ensures Allocated(Listing([]), {}, name).Some?
  {
    SourceRun.PolicyLineUnmarked(name);
    var lines, a := Listing([]), Fnv.SourceIp(Utf8(name), 0);
    assert lines == ["-P OUTPUT ACCEPT"];
    assert lines[1..] == [];
    assert OwnAddress(lines, name).None?;
    NoDotNoAddress(lines[0], a);
    assert !InUse(lines, {}, a);
  }

  /** The run of one daemon, after one preparation. */
  lemma RunAfterPreparation(
    states: seq<AllowRun.State>, steps: seq<AllowRun.Step>, name: string, interface: string, port: nat)
    returns (worlds: seq<World>, all: seq<Step>)
    requires AllowRun.Run(states, steps) && CleanName(name)
    ensures Run(worlds, all)
    ensures worlds[|all|].allow == states[|steps|] && worlds[|all|].latest.Keys == {name}
    ensures worlds[|all|].latest[name].port == port
  {
    var start, prepare := World(map[], map[], states[0]), Prepare(name, {}, interface, port);
    FirstSource(name);
    assert OutputRules(start) == [];
    var prepared := Next(start, prepare);
    assert Follows(start, prepare, prepared);
    worlds := [start] + seq(|states|, k requires 0 <= k < |states| => prepared.(allow := states[k]));
    all := [prepare] + seq(|steps|, k requires 0 <= k < |steps| => Daemon(steps[k]));
    forall i | 0 <= i < |all| ensures Follows(worlds[i], all[i], worlds[i + 1]) {
      if i > 0 {
        assert AllowRun.Follows(states[i - 1], steps[i - 1], states[i]);
      }
    }
  }

  /** What a policy is for: whatever its name, patterns, interface and port, there is a run in which an answer to an
      allowed query lets packets from the policy's source through to that address. */
  lemma AllowedAddressGetsThrough(
    name: string, patterns: seq<string>, domain: string, a: U32, interface: string, port: nat)
    returns (worlds: seq<World>, steps: seq<Step>)
    requires CleanName(name) && DomainMatcher.SomeLabelsMatch([domain], patterns)
    ensures Run(worlds, steps) && name in worlds[|steps|].latest && worlds[|steps|].latest[name].port == port
    ensures forall env: Env, depth: nat, p: Packet ::
      depth >= 1 && env.sets == SetsOf(worlds[|steps|].allow.kernel) && ReadsV4Blocks(env)
      && p.src == V4(worlds[|steps|].latest[name].source) && p.dst == V4(a) ==>
        Verdict(env, worlds[|steps|].filter, depth, OUTPUT, p) == Decided(Accept)
  {
    worlds, steps := AllowedRun(name, patterns, domain, a, interface, port);
    var w := worlds[|steps|];
    forall env: Env, depth: nat, p: Packet |
      depth >= 1 && env.sets == SetsOf(w.allow.kernel) && ReadsV4Blocks(env)
      && p.src == V4(w.latest[name].source) && p.dst == V4(a)
      ensures Verdict(env, w.filter, depth, OUTPUT, p) == Decided(Accept)
    {
      MemberPasses(w, name, env, depth, p);
    }
  }

  lemma AllowedRun(name: string, patterns: seq<string>, domain: string, a: U32, interface: string, port: nat)
    returns (worlds: seq<World>, steps: seq<Step>)
    requires CleanName(name) && DomainMatcher.SomeLabelsMatch([domain], patterns)
    ensures Run(worlds, steps) && Protected(worlds[|steps|])
    ensures var w := worlds[|steps|];
      && name in w.latest && w.latest[name].port == port
      && name in w.allow.kernel && V4(a) in w.allow.kernel[name].members
  {
    DomainMatcher.AnyPatternIsLabelLevel([domain], patterns);
    var i :| 0 <= i < |[domain]| && DomainMatcher.AnyPatternMatches([domain][i], patterns);
    var states, daemonSteps := Races.FirstWritten(name, patterns, domain, a, {V6(0)});
    FirstKernel(states[|daemonSteps|].kernel, name, a);
    worlds, steps := RunAfterPreparation(states, daemonSteps, name, interface, port);
    RunProtected(worlds, steps);
  }

  lemma FirstKernel(kernel: Ipset.Kernel, name: string, a: U32)
    requires kernel == Races.Sets(name, {V4(a)})
    ensures name in kernel && V4(a) in kernel[name].members
  {
    Ipset.Ipv6NameInjective(name, name);
  }

  lemma MemberPasses(w: World, name: string, env: Env, depth: nat, p: Packet)
    requires Protected(w) && name in w.latest && p.src == V4(w.latest[name].source) && depth >= 1
    requires env.sets == SetsOf(w.allow.kernel) && ReadsV4Blocks(env)
    requires name in w.allow.kernel && p.dst in w.allow.kernel[name].members
    ensures Verdict(env, w.filter, depth, OUTPUT, p) == Decided(Accept)
  {
    assert Owned(env, w.filter, w.latest[name], p);
    OwnedVerdict(env, w.filter, w.latest[name], depth, p);
    assert InSet(env.sets, w.latest[name].name, p.dst);
  }

  // ---------- how far the justification reaches ----------

  /** How far that justification reaches back: such a packet is accepted to an address that was not allowed since the
      policy's latest CREATE exactly when the kernel holds the address and the daemon does not, the case of a policy
      created again or removed over sets that stay in place. */
  lemma StaleDestinationIff(worlds: seq<World>, steps: seq<Step>, name: string, env: Env, depth: nat, p: Packet)
    requires Run(worlds, steps) && name in worlds[|steps|].latest && depth >= 1
    requires env.sets == SetsOf(worlds[|steps|].allow.kernel) && ReadsV4Blocks(env)
    requires var plan := worlds[|steps|].latest[name];
      p.src == V4(plan.source) && p.dst.V4? && !p.established && !IsDns(plan.port, p)
    ensures var w := worlds[|steps|];
      && Verdict(env, w.filter, depth, OUTPUT, p) == Decided(Accept)
      && !SinceCreate.JustifiedSinceCreate(AllowStates(worlds), AllowSteps(steps), name, p.dst)
      <==>
      InSet(env.sets, name, p.dst) && !SinceCreate.StateHolds(w.allow, name, p.dst)
  {
    DefaultDeny(worlds, steps, name, env, depth, p);
    DaemonRun(worlds, steps);
    SinceCreate.StateIsSinceCreate(AllowStates(worlds), AllowSteps(steps), name, p.dst);
  }

  /** The IPv6 side: over any earlier chains, any run of preparations and any run of the daemon, a new IPv6 packet of a
      prepared source, other than neighbour discovery, is accepted exactly to the members of the policy's IPv6 set, and
      each of those came from an answer that the policy's patterns allowed. */
  lemma DefaultDeny6(
    states: seq<AllowRun.State>, steps: seq<AllowRun.Step>, filter: Chains, plans: seq<RootlessInstall.Plan6>,
    env: Env, depth: nat, p: Packet)
    requires AllowRun.Run(states, steps) && depth >= 1 && env.sets == SetsOf(states[|steps|].kernel)
    requires Governing(env, RootlessInstall.Policies6(plans), p).Some?
    requires p.dst.V6? && !p.established && !RootlessInstall.IsNeighborDiscovery(p)
    ensures var name := Governing(env, RootlessInstall.Policies6(plans), p).value.name;
      var allowed := InSet(env.sets, Ipset.Ipv6Name(name), p.dst);
      && Verdict(env, InstallAll(filter, RootlessInstall.Policies6(plans)), depth, OUTPUT, p)
         == Decided(if allowed then Accept else Drop)
      && (allowed ==> AllowRun.Justified(states, steps, name, p.dst))
  {
    RootlessInstall.RootlessRun6(env, filter, plans, depth, p);
    var name := Governing(env, RootlessInstall.Policies6(plans), p).value.name;
    if InSet(env.sets, Ipset.Ipv6Name(name), p.dst) {
      AllowRun.KernelProvenanceV6(states, steps, name, p.dst);
    }
  }

  /** Along the way no two policies ever share a source, and every source is a managed address. */
  lemma SourcesStaySeparate(worlds: seq<World>, steps: seq<Step>, m: string, n: string)
    requires Run(worlds, steps) && m in worlds[|steps|].latest && n in worlds[|steps|].latest && m != n
    ensures worlds[|steps|].latest[m].source != worlds[|steps|].latest[n].source
    ensures Fnv.IsManaged(worlds[|steps|].latest[m].source)
  {
    RunProtected(worlds, steps);
    var given := Given(worlds[|steps|].latest);
    assert given[m] != given[n];
  }
}
