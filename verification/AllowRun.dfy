/** The daemon and the kernel's sets as a system of interleaved steps: control requests, DNS answers applied
    under the state lock, and kernel writes that happen later, line by line (src/state.rs, src/proxy.rs,
    src/ipset.rs, src/control.rs). */
module AllowRun {
  import opened Addresses
  import opened AllowSet
  import opened Ipset
  import opened DomainMatcher
  import Control

  /** A snapshot on its way to the kernel: a restore process with `done` lines executed. The ticket numbers
      snapshots in the order they were taken. */
  datatype Pending = Pending(name: string, listing: seq<IpAddr>, done: nat, ticket: nat)

  datatype State = State(policies: Policies, kernel: Kernel, pending: seq<Pending>, tickets: nat)

  datatype Step =
    | Control(request: Control.Request)                   // a control request handled
    | Resolve(message: Message, snapshots: seq<Pending>)  // a response applied, snapshots taken
    | Line(index: nat)      // one line of a restore process
    | Abort(index: nat)     // a restore process fails or is killed
    | Write(index: nat)     // a restore process runs from start to end
    | MakeSets(name: string, keep4: bool, keep6: bool)  // destroy (which may fail) and create both sets
    | Idle                  // anything that touches none of this

  function Lines(p: Pending): seq<Command> {
    Payload(p.name, p.listing)
  }

  function Without<T>(s: seq<T>, i: nat): seq<T>
    requires i < |s|
  {
    s[..i] + s[i + 1..]
  }

  /** The set after preparation: kept when it could not be destroyed, otherwise new and empty. */
  function MadeSet(k: Kernel, name: string, family: Family, keep: bool): KernelSet {
    if keep && name in k && k[name].family == family then k[name] else KernelSet(family, {})
  }

  /** The snapshots a Resolve step hands over: one for each policy that grew, listing its new set in some order. */
  ghost predicate TakesSnapshots(s: State, step: Step)
    requires step.Resolve?
  {
    var after, grown := ApplyMessage(s.policies, step.message), ChangedBy(s.policies, step.message);
    && (forall i :: 0 <= i < |step.snapshots| ==> TakenFrom(after, grown, s.tickets, step.snapshots[i], i))
    && (forall n :: n in grown ==> exists i :: 0 <= i < |step.snapshots| && step.snapshots[i].name == n)
    && (forall i, j :: 0 <= i < j < |step.snapshots| ==> step.snapshots[i].name != step.snapshots[j].name)
  }

  predicate TakenFrom(after: Policies, grown: set<string>, tickets: nat, p: Pending, i: nat) {
    && p.name in after && p.name in grown && p.done == 0 && p.ticket == tickets + i
    && ToSet(p.listing) == after[p.name].ips
  }

  ghost predicate Enabled(s: State, step: Step) {
    match step
    case Resolve(_, _) => TakesSnapshots(s, step)
    case Line(i) => i < |s.pending|
    case Abort(i) => i < |s.pending|
    case Write(i) => i < |s.pending| && s.pending[i].done == 0 && Restore(s.kernel, Lines(s.pending[i])).1
    case _ => true
  }

  function Next(s: State, step: Step): State {
    match step
    case Control(request) => s.(policies := AfterRequest(s.policies, request))
    case Resolve(message, snapshots) =>
      s.(policies := ApplyMessage(s.policies, message), pending := s.pending + snapshots,
         tickets := s.tickets + |snapshots|)
    case Line(i) => if i < |s.pending| then RunLine(s, i) else s
    case Abort(i) => if i < |s.pending| then s.(pending := Without(s.pending, i)) else s
    case Write(i) =>
      if i < |s.pending|
      then s.(kernel := Restore(s.kernel, Lines(s.pending[i])).0, pending := Without(s.pending, i)) else s
    case MakeSets(n, keep4, keep6) =>
      s.(kernel := s.kernel[n := MadeSet(s.kernel, n, Inet, keep4)]
                           [Ipv6Name(n) := MadeSet(s.kernel, Ipv6Name(n), Inet6, keep6)])
    case Idle => s
  }

  /** A rejected line ends the process. */
  function RunLine(s: State, i: nat): State
    requires i < |s.pending|
  {
    var p := s.pending[i];
    if p.done >= |Lines(p)| then s.(pending := Without(s.pending, i))
    else match Exec(s.kernel, Lines(p)[p.done])
      case Some(k) => s.(kernel := k, pending := s.pending[i := p.(done := p.done + 1)])
      case None => s.(pending := Without(s.pending, i))
  }

  /** A request that ends what the daemon knows of a policy. */
  predicate Resets(request: Control.Request, name: string) {
    (request.Create? || request.Remove?) && request.name == name
  }

  /** A run: states[i + 1] follows states[i] by steps[i]. It starts with no policy, no set and no write. */
  ghost predicate Run(states: seq<State>, steps: seq<Step>) {
    && |states| == |steps| + 1
    && states[0] == State(map[], map[], [], 0)
    && forall i :: 0 <= i < |steps| ==> Follows(states[i], steps[i], states[i + 1])
  }

  ghost predicate Follows(s: State, step: Step, s': State) {
    Enabled(s, step) && s' == Next(s, step)
  }

  /** This step applied a response in which some answer record carries the address and the labels of some queried name
      match those of a pattern that the policy held at that moment. */
  ghost predicate Answered(s: State, step: Step, name: string, ip: IpAddr) {
    && step.Resolve? && Carries(step.message, ip)
    && name in s.policies && SomeLabelsMatch(step.message.queries, s.policies[name].patterns)
  }

  ghost predicate Justified(states: seq<State>, steps: seq<Step>, name: string, ip: IpAddr)
    requires |states| == |steps| + 1
  {
    exists i :: 0 <= i < |steps| && Answered(states[i], steps[i], name, ip)
  }

  /** What `ApplyResolvedIps` returns is what a Resolve step hands over, whatever order the sets are listed in. */
  lemma ChangesAreSnapshots(
    s: State, message: Message, changes: seq<Snapshot>, snapshots: seq<Pending>)
    requires Snapshots(changes, ApplyMessage(s.policies, message), ChangedBy(s.policies, message))
    requires |snapshots| == |changes|
    requires forall i :: 0 <= i < |changes| ==>
      var p := snapshots[i];
      p.name == changes[i].0 && ToSet(p.listing) == changes[i].1 && p.done == 0 && p.ticket == s.tickets + i
    ensures Enabled(s, Resolve(message, snapshots))
  {
    var after, grown := ApplyMessage(s.policies, message), ChangedBy(s.policies, message);
    forall i | 0 <= i < |snapshots| ensures TakenFrom(after, grown, s.tickets, snapshots[i], i) {
      assert Names(changes)[i] in Names(changes);
    }
    forall n | n in grown ensures exists i :: 0 <= i < |snapshots| && snapshots[i].name == n {
      assert n in Names(changes);
      var i :| 0 <= i < |changes| && Names(changes)[i] == n;
      assert snapshots[i].name == n;
    }
    forall i, j | 0 <= i < j < |snapshots| ensures snapshots[i].name != snapshots[j].name {
      assert Names(changes)[i] != Names(changes)[j];
    }
  }

  // ---------- provenance ----------

  ghost predicate AllJustified(states: seq<State>, steps: seq<Step>, name: string, ips: set<IpAddr>)
    requires |states| == |steps| + 1
  {
    forall ip :: ip in ips ==> Justified(states, steps, name, ip)
  }

  /** An address in a kernel set came from the policy the set belongs to, for its family. */
  ghost predicate KernelJustified(states: seq<State>, steps: seq<Step>, s: string, ip: IpAddr)
    requires |states| == |steps| + 1
  {
    exists name :: SetFor(name, ip) == s && Justified(states, steps, name, ip)
  }

  ghost predicate Sound(states: seq<State>, steps: seq<Step>)
    requires |states| == |steps| + 1
  {
    var s := states[|steps|];
    && (forall n :: n in s.policies ==> AllJustified(states, steps, n, s.policies[n].ips))
    && (forall i :: 0 <= i < |s.pending| ==>
          AllJustified(states, steps, s.pending[i].name, ToSet(s.pending[i].listing)))
    && (forall n, ip :: n in s.kernel && ip in s.kernel[n].members ==> KernelJustified(states, steps, n, ip))
  }

  lemma JustifiedExtends(states: seq<State>, steps: seq<Step>, s: State, step: Step, name: string, ip: IpAddr)
    requires |states| == |steps| + 1 && Justified(states, steps, name, ip)
    ensures Justified(states + [s], steps + [step], name, ip)
  {
    var i :| 0 <= i < |steps| && Answered(states[i], steps[i], name, ip);
    assert (states + [s])[i] == states[i] && (steps + [step])[i] == steps[i];
  }

  /** What was justified stays justified as the run goes on. */
  lemma SoundFactsExtend(states: seq<State>, steps: seq<Step>, s: State, step: Step)
    requires |states| == |steps| + 1
    ensures forall name, ip :: Justified(states, steps, name, ip) ==> Justified(states + [s], steps + [step], name, ip)
    ensures forall n, ip :: KernelJustified(states, steps, n, ip) ==>
      KernelJustified(states + [s], steps + [step], n, ip)
  {
    forall name, ip | Justified(states, steps, name, ip) ensures Justified(states + [s], steps + [step], name, ip) {
      JustifiedExtends(states, steps, s, step, name, ip);
    }
  }

  /** The addresses a line adds are those of its listing, in the set of their family. */
  lemma {:induction false} LineAdds(name: string, ips: seq<IpAddr>, i: nat)
    requires i < |Payload(name, ips)|
    ensures var line := Payload(name, ips)[i];
      line.Add? ==> line.ip in ips && line.name == SetFor(name, line.ip)
    decreases |ips|
  {
    if ips != [] {
      PayloadStep(name, ips);
      if i < |Payload(name, ips)| - 1 {
        LineAdds(name, ips[..|ips| - 1], i);
        assert Payload(name, ips)[i] == Payload(name, ips[..|ips| - 1])[i];
      }
    }
  }

  /** A restored kernel holds only what it held and what was listed. */
  lemma {:induction false} RestoreAddsListed(k: Kernel, lines: seq<Command>)
    ensures var after := Restore(k, lines).0;
      forall n, ip :: n in after && ip in after[n].members ==> (n in k && ip in k[n].members) || Add(n, ip) in lines
  {
    if lines != [] {
      var earlier := lines[..|lines| - 1];
      RestoreAddsListed(k, earlier);
      assert forall c :: c in earlier ==> c in lines;
      assert lines[|lines| - 1] in lines;
    }
  }

  lemma ResolveJustifies(states: seq<State>, steps: seq<Step>, step: Step, s': State, name: string)
    requires |states| == |steps| + 1 && Sound(states, steps)
    requires step.Resolve? && Follows(states[|steps|], step, s') && name in s'.policies
    ensures AllJustified(states + [s'], steps + [step], name, s'.policies[name].ips)
  {
    var s := states[|steps|];
    SoundFactsExtend(states, steps, s', step);
    ApplyMessageMeaning(s.policies, step.message, name);
    forall ip | ip in s'.policies[name].ips ensures Justified(states + [s'], steps + [step], name, ip) {
      if ip !in s.policies[name].ips {
        assert Answered((states + [s'])[|steps|], (steps + [step])[|steps|], name, ip);
      } else {
        assert AllJustified(states, steps, name, s.policies[name].ips);
      }
    }
  }

  lemma PoliciesStaySound(states: seq<State>, steps: seq<Step>, step: Step, s': State)
    requires |states| == |steps| + 1 && Sound(states, steps) && Follows(states[|steps|], step, s')
    ensures forall n :: n in s'.policies ==> AllJustified(states + [s'], steps + [step], n, s'.policies[n].ips)
  {
    SoundFactsExtend(states, steps, s', step);
    forall n | n in s'.policies ensures AllJustified(states + [s'], steps + [step], n, s'.policies[n].ips) {
      if step.Resolve? {
        ResolveJustifies(states, steps, step, s', n);
      } else if n in states[|steps|].policies {
        assert AllJustified(states, steps, n, states[|steps|].policies[n].ips);
      }
    }
  }

  lemma NewSnapshotJustified(states: seq<State>, steps: seq<Step>, step: Step, s': State, i: nat)
    requires |states| == |steps| + 1 && Sound(states, steps) && Follows(states[|steps|], step, s')
    requires step.Resolve? && i < |step.snapshots|
    ensures AllJustified(states + [s'], steps + [step], step.snapshots[i].name, ToSet(step.snapshots[i].listing))
  {
    var s, p := states[|steps|], step.snapshots[i];
    assert TakenFrom(ApplyMessage(s.policies, step.message), ChangedBy(s.policies, step.message), s.tickets, p, i);
    ResolveJustifies(states, steps, step, s', p.name);
  }

  lemma OldSnapshotJustified(states: seq<State>, steps: seq<Step>, step: Step, s': State, i: nat)
    requires |states| == |steps| + 1 && Sound(states, steps) && Follows(states[|steps|], step, s')
    requires i < |s'.pending| && !(step.Resolve? && i >= |states[|steps|].pending|)
    ensures AllJustified(states + [s'], steps + [step], s'.pending[i].name, ToSet(s'.pending[i].listing))
  {
    var j := OldIndex(states[|steps|], step, s', i);
    var p := states[|steps|].pending[j];
    assert AllJustified(states, steps, p.name, ToSet(p.listing));
    SoundFactsExtend(states, steps, s', step);
  }

  lemma ResolveAppends(s: State, step: Step, s': State, i: nat) returns (j: nat)
    requires step.Resolve? && s' == Next(s, step) && |s.pending| <= i < |s'.pending|
    ensures j < |step.snapshots| && s'.pending[i] == step.snapshots[j]
  {
    j := i - |s.pending|;
  }

  lemma SnapshotJustified(states: seq<State>, steps: seq<Step>, step: Step, s': State, i: nat)
    requires |states| == |steps| + 1 && Sound(states, steps) && Follows(states[|steps|], step, s')
    requires i < |s'.pending|
    ensures AllJustified(states + [s'], steps + [step], s'.pending[i].name, ToSet(s'.pending[i].listing))
  {
    if step.Resolve? && i >= |states[|steps|].pending| {
      var j := ResolveAppends(states[|steps|], step, s', i);
      NewSnapshotJustified(states, steps, step, s', j);
    } else {
      OldSnapshotJustified(states, steps, step, s', i);
    }
  }

  lemma PendingStaysSound(states: seq<State>, steps: seq<Step>, step: Step, s': State)
    requires |states| == |steps| + 1 && Sound(states, steps) && Follows(states[|steps|], step, s')
    ensures forall i :: 0 <= i < |s'.pending| ==>
      AllJustified(states + [s'], steps + [step], s'.pending[i].name, ToSet(s'.pending[i].listing))
  {
    forall i | 0 <= i < |s'.pending|
      ensures AllJustified(states + [s'], steps + [step], s'.pending[i].name, ToSet(s'.pending[i].listing))
    {
      SnapshotJustified(states, steps, step, s', i);
    }
  }

  /** A process that was not taken just now was there before, with the same listing. */
  lemma OldIndex(s: State, step: Step, s': State, i: nat) returns (j: nat)
    requires s' == Next(s, step) && i < |s'.pending| && !(step.Resolve? && i >= |s.pending|)
    ensures j < |s.pending| && s.pending[j] == s'.pending[i].(done := s.pending[j].done)
    ensures !step.Line? || |s'.pending| < |s.pending| ==> s.pending[j] == s'.pending[i]
  {
    j := i;
    if step.Abort? || step.Write? || (step.Line? && |s'.pending| < |s.pending|) {
      j := if i < step.index then i else i + 1;
    }
  }

  lemma ListedIsJustified(states: seq<State>, steps: seq<Step>, p: Pending, i: nat)
    requires |states| == |steps| + 1 && AllJustified(states, steps, p.name, ToSet(p.listing)) && i < |Lines(p)|
    ensures Lines(p)[i].Add? ==> KernelJustified(states, steps, Lines(p)[i].name, Lines(p)[i].ip)
  {
    LineAdds(p.name, p.listing, i);
    if Lines(p)[i].Add? {
      assert Lines(p)[i].ip in ToSet(p.listing);
      assert Justified(states, steps, p.name, Lines(p)[i].ip);
    }
  }

  lemma WriteIsJustified(states: seq<State>, steps: seq<Step>, p: Pending, n: string, ip: IpAddr)
    requires |states| == |steps| + 1 && Sound(states, steps)
    requires AllJustified(states, steps, p.name, ToSet(p.listing))
    requires var k := Restore(states[|steps|].kernel, Lines(p)).0; n in k && ip in k[n].members
    ensures KernelJustified(states, steps, n, ip)
  {
    RestoreAddsListed(states[|steps|].kernel, Lines(p));
    if Add(n, ip) in Lines(p) {
      var i :| 0 <= i < |Lines(p)| && Lines(p)[i] == Add(n, ip);
      ListedIsJustified(states, steps, p, i);
    }
  }

  lemma KernelBeforeJustified(states: seq<State>, steps: seq<Step>, step: Step, s': State, n: string, ip: IpAddr)
    requires |states| == |steps| + 1 && Sound(states, steps) && Follows(states[|steps|], step, s')
    requires n in s'.kernel && ip in s'.kernel[n].members
    ensures KernelJustified(states, steps, n, ip)
  {
    var s := states[|steps|];
    match step
    case Write(i) => WriteIsJustified(states, steps, s.pending[i], n, ip);
    case Line(i) => LineIsJustified(states, steps, i, n, ip);
    case MakeSets(name, keep4, keep6) => MadeSetsAreOld(s, name, keep4, keep6, n, ip);
    case _ =>
  }

  lemma LineIsJustified(states: seq<State>, steps: seq<Step>, i: nat, n: string, ip: IpAddr)
    requires |states| == |steps| + 1 && Sound(states, steps) && i < |states[|steps|].pending|
    requires var k := Next(states[|steps|], Line(i)).kernel; n in k && ip in k[n].members
    ensures KernelJustified(states, steps, n, ip)
  {
    var s := states[|steps|];
    if ip in AddedByLine(s, i, n) {
      ListedIsJustified(states, steps, s.pending[i], s.pending[i].done);
    } else {
      LineAddsNothingElse(s, i, n, ip);
    }
  }

  /** The address that the next line of a process adds to a set. */
  function AddedByLine(s: State, i: nat, n: string): set<IpAddr>
    requires i < |s.pending|
  {
    var p := s.pending[i];
    if p.done < |Lines(p)| && Lines(p)[p.done].Add? && Lines(p)[p.done].name == n then {Lines(p)[p.done].ip} else {}
  }

  lemma LineAddsNothingElse(s: State, i: nat, n: string, ip: IpAddr)
    requires i < |s.pending| && ip !in AddedByLine(s, i, n)
    requires var k := Next(s, Line(i)).kernel; n in k && ip in k[n].members
    ensures n in s.kernel && ip in s.kernel[n].members
  {
  }

  lemma MadeSetsAreOld(s: State, name: string, keep4: bool, keep6: bool, n: string, ip: IpAddr)
    requires var k := Next(s, MakeSets(name, keep4, keep6)).kernel; n in k && ip in k[n].members
    ensures n in s.kernel && ip in s.kernel[n].members
  {
  }

  lemma SoundStep(states: seq<State>, steps: seq<Step>, step: Step, s': State)
    requires |states| == |steps| + 1 && Sound(states, steps) && Follows(states[|steps|], step, s')
    ensures Sound(states + [s'], steps + [step])
  {
    PoliciesStaySound(states, steps, step, s');
    PendingStaysSound(states, steps, step, s');
    SoundFactsExtend(states, steps, s', step);
    forall n, ip | n in s'.kernel && ip in s'.kernel[n].members
      ensures KernelJustified(states + [s'], steps + [step], n, ip)
    {
      KernelBeforeJustified(states, steps, step, s', n, ip);
    }
  }

  /** Provenance: in every run, under every interleaving, whatever restore processes are cut short, each address
      of a policy, of a pending write or of a kernel set came from an answer to a query that the policy's patterns
      allowed at the moment the answer was applied. */
  lemma {:induction false} Provenance(states: seq<State>, steps: seq<Step>)
    requires Run(states, steps)
    ensures Sound(states, steps)
    decreases |steps|
  {
    if |steps| > 0 {
      RunPrefix(states, steps);
      Provenance(states[..|steps|], steps[..|steps| - 1]);
      SoundLonger(states, steps, states[..|steps|], steps[..|steps| - 1], steps[|steps| - 1], states[|steps|]);
    }
  }

  lemma RunPrefix(states: seq<State>, steps: seq<Step>)
    requires Run(states, steps) && steps != []
    ensures Run(states[..|steps|], steps[..|steps| - 1])
    ensures Follows(states[|steps| - 1], steps[|steps| - 1], states[|steps|])
    ensures states == states[..|steps|] + [states[|steps|]] && steps == steps[..|steps| - 1] + [steps[|steps| - 1]]
  {
    var n := |steps| - 1;
    assert Follows(states[n], steps[n], states[n + 1]);
  }

  lemma SoundLonger(
    all: seq<State>, allSteps: seq<Step>, states: seq<State>, steps: seq<Step>, step: Step, s': State)
    requires |states| == |steps| + 1 && Sound(states, steps) && Follows(states[|steps|], step, s')
    requires all == states + [s'] && allSteps == steps + [step]
    ensures Sound(all, allSteps)
  {
    SoundStep(states, steps, step, s');
  }

  /** So an IPv4 address in the set named after a policy came from that policy itself. */
  lemma KernelProvenanceV4(states: seq<State>, steps: seq<Step>, name: string, ip: IpAddr)
    requires Run(states, steps) && name in states[|steps|].kernel
    requires ip.V4? && ip in states[|steps|].kernel[name].members
    ensures Justified(states, steps, name, ip)
  {
    Provenance(states, steps);
    assert KernelJustified(states, steps, name, ip);
  }

  lemma KernelProvenanceV6(states: seq<State>, steps: seq<Step>, name: string, ip: IpAddr)
    requires Run(states, steps) && Ipv6Name(name) in states[|steps|].kernel
    requires ip.V6? && ip in states[|steps|].kernel[Ipv6Name(name)].members
    ensures Justified(states, steps, name, ip)
  {
    Provenance(states, steps);
    assert KernelJustified(states, steps, Ipv6Name(name), ip);
    var n :| SetFor(n, ip) == Ipv6Name(name) && Justified(states, steps, n, ip);
    Ipv6NameInjective(n, name);
  }
}
