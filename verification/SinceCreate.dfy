/** What the daemon and the kernel hold relative to the latest CREATE of a policy (src/control.rs, src/state.rs). */
module SinceCreate {
  import opened Addresses
  import opened AllowSet
  import opened Ipset
  import opened AllowRun
  import opened Agreement

  predicate ResetStep(step: Step, name: string) {
    step.Control? && Resets(step.request, name)
  }

  predicate NoResetFrom(steps: seq<Step>, from: nat, name: string) {
    forall k :: from <= k < |steps| ==> !ResetStep(steps[k], name)
  }

  /** An answer with the address was applied for the policy, and the policy was not created again or removed since. So
      the query was allowed by the patterns the policy still has. */
  ghost predicate JustifiedSinceCreate(states: seq<State>, steps: seq<Step>, name: string, ip: IpAddr)
    requires |states| == |steps| + 1
  {
    exists i :: 0 <= i < |steps| && Answered(states[i], steps[i], name, ip) && NoResetFrom(steps, i + 1, name)
  }

  predicate StateHolds(s: State, name: string, ip: IpAddr) {
    name in s.policies && ip in s.policies[name].ips
  }

  /** What one more step does to the justification. */
  lemma JustifiedStep(states: seq<State>, steps: seq<Step>, step: Step, s': State, name: string, ip: IpAddr)
    requires |states| == |steps| + 1
    ensures JustifiedSinceCreate(states + [s'], steps + [step], name, ip) <==>
      Answered(states[|steps|], step, name, ip)
      || (!ResetStep(step, name) && JustifiedSinceCreate(states, steps, name, ip))
  {
    if Answered(states[|steps|], step, name, ip)
       || (!ResetStep(step, name) && JustifiedSinceCreate(states, steps, name, ip)) {
      StillJustified(states, steps, step, s', name, ip);
    }
    if JustifiedSinceCreate(states + [s'], steps + [step], name, ip) {
      WasJustified(states, steps, step, s', name, ip);
    }
  }

  lemma StillJustified(states: seq<State>, steps: seq<Step>, step: Step, s': State, name: string, ip: IpAddr)
    requires |states| == |steps| + 1
    requires Answered(states[|steps|], step, name, ip)
      || (!ResetStep(step, name) && JustifiedSinceCreate(states, steps, name, ip))
    ensures JustifiedSinceCreate(states + [s'], steps + [step], name, ip)
  {
    if Answered(states[|steps|], step, name, ip) {
      NoResetLonger(steps, step, |steps|, name);
      assert Answered((states + [s'])[|steps|], (steps + [step])[|steps|], name, ip);
    } else {
      var i :| 0 <= i < |steps| && Answered(states[i], steps[i], name, ip) && NoResetFrom(steps, i + 1, name);
      NoResetLonger(steps, step, i, name);
      assert Answered((states + [s'])[i], (steps + [step])[i], name, ip);
    }
  }

  lemma NoResetLonger(steps: seq<Step>, step: Step, i: nat, name: string)
    requires i <= |steps|
    ensures NoResetFrom(steps + [step], i + 1, name) <==>
      i == |steps| || (NoResetFrom(steps, i + 1, name) && !ResetStep(step, name))
  {
    var longer := steps + [step];
    assert longer[|steps|] == step;
    assert forall k :: 0 <= k < |steps| ==> longer[k] == steps[k];
  }

  lemma WasJustified(states: seq<State>, steps: seq<Step>, step: Step, s': State, name: string, ip: IpAddr)
    requires |states| == |steps| + 1 && JustifiedSinceCreate(states + [s'], steps + [step], name, ip)
    ensures Answered(states[|steps|], step, name, ip)
      || (!ResetStep(step, name) && JustifiedSinceCreate(states, steps, name, ip))
  {
    var states', steps' := states + [s'], steps + [step];
    var i :| 0 <= i < |steps'| && Answered(states'[i], steps'[i], name, ip) && NoResetFrom(steps', i + 1, name);
    NoResetLonger(steps, step, i, name);
    if i < |steps| {
      assert Answered(states[i], steps[i], name, ip);
    }
  }

  /** What one more step does to the policy's set. */
  lemma HoldsStep(s: State, step: Step, name: string, ip: IpAddr)
    requires Enabled(s, step)
    ensures StateHolds(Next(s, step), name, ip) <==>
      Answered(s, step, name, ip) || (!ResetStep(step, name) && StateHolds(s, name, ip))
  {
    if step.Resolve? {
      if name in s.policies {
        ApplyMessageMeaning(s.policies, step.message, name);
      }
    }
  }

  /** In every run the state holds for a policy exactly the addresses answered, to queries its patterns allow, since
      its latest CREATE, and nothing for a policy that is not there. */
  lemma {:induction false} StateIsSinceCreate(states: seq<State>, steps: seq<Step>, name: string, ip: IpAddr)
    requires Run(states, steps)
    ensures StateHolds(states[|steps|], name, ip) <==> JustifiedSinceCreate(states, steps, name, ip)
    decreases |steps|
  {
    if steps != [] {
      var n := |steps| - 1;
      var earlier, before := states[..n + 1], steps[..n];
      StateIsSinceCreate(earlier, before, name, ip);
      assert Follows(states[n], steps[n], states[n + 1]);
      SinceCreateStep(earlier, before, steps[n], states[n + 1], name, ip);
      assert states == earlier + [states[n + 1]] && steps == before + [steps[n]];
    }
  }

  lemma SinceCreateStep(states: seq<State>, steps: seq<Step>, step: Step, s': State, name: string, ip: IpAddr)
    requires |states| == |steps| + 1 && Follows(states[|steps|], step, s')
    requires StateHolds(states[|steps|], name, ip) <==> JustifiedSinceCreate(states, steps, name, ip)
    ensures StateHolds(s', name, ip) <==> JustifiedSinceCreate(states + [s'], steps + [step], name, ip)
  {
    JustifiedStep(states, steps, step, s', name, ip);
    HoldsStep(states[|steps|], step, name, ip);
  }

  // ---------- the kernel ----------

  function Members(pair: (KernelSet, KernelSet)): set<IpAddr> {
    pair.0.members + pair.1.members
  }

  /** The write that completed last was taken in this epoch; or what it carried, or what the sets held from the start,
      has been learnt again. */
  predicate NoneStale(t: Track) {
    if t.written == [] then Members(t.base) <= Current(t)
    else
      var last := t.written[|t.written| - 1];
      last in t.snaps || Content(t, last) <= Current(t)
  }

  lemma NoneStaleMeaning(t: Track)
    requires Growing(t)
    ensures Members(LastPair(t)) <= Current(t) <==> NoneStale(t)
  {
    if t.written != [] {
      var last := t.written[|t.written| - 1];
      var carried := Content(t, last);
      assert Members(Pair(carried)) == carried by {
        assert forall ip :: ip in carried ==> ip in OfFamily(carried, FamilyOf(ip));
      }
      if last in t.snaps {
        assert last <= t.newest.value;
        assert last == t.newest.value || t.snaps[last] < t.snaps[t.newest.value];
      }
    }
  }

  ghost predicate AllSinceCreate(states: seq<State>, steps: seq<Step>, name: string, ips: set<IpAddr>)
    requires |states| == |steps| + 1
  {
    forall ip :: ip in ips ==> JustifiedSinceCreate(states, steps, name, ip)
  }

  /** In every run and every epoch of it: all members of the policy's kernel sets were allowed since its CREATE exactly
      when the kernel holds nothing stale in this sense. */
  lemma SinceCreateIff(states: seq<State>, steps: seq<Step>, start: nat, name: string)
    requires Run(states, steps) && start <= |steps| && Epoch(states[start..], steps[start..], name)
    ensures HasPair(states[|steps|].kernel, name)
    ensures AllSinceCreate(states, steps, name, Members(PairOf(states[|steps|].kernel, name))) <==>
      NoneStale(TrackOf(states[start..], steps[start..], name))
  {
    var s, t := states[|steps|], TrackOf(states[start..], steps[start..], name);
    EpochTracked(states[start..], steps[start..], name);
    assert Tracked(s, name, t);
    NoneStaleMeaning(t);
    forall ip ensures ip in Current(t) <==> JustifiedSinceCreate(states, steps, name, ip) {
      StateIsSinceCreate(states, steps, name, ip);
    }
  }
}
