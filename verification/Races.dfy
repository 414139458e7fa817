/** Runs in which kernel and state part ways: writes that overtake each other, writes whose lines mix, and a policy
    created again over sets that are still there (src/proxy.rs, src/helper.rs). */
module Races {
  import opened Addresses
  import opened AllowSet
  import opened Ipset
  import opened AllowRun
  import opened Agreement
  import opened SinceCreate
  import DomainMatcher
  import Control

  // ---------- building runs ----------

  lemma LongerRun(states: seq<State>, steps: seq<Step>, step: Step, s': State)
    requires Run(states, steps) && Follows(states[|steps|], step, s')
    ensures Run(states + [s'], steps + [step])
  {
    var states', steps' := states + [s'], steps + [step];
    forall i | 0 <= i < |steps'| ensures Follows(states'[i], steps'[i], states'[i + 1]) {
      if i < |steps| {
        assert Follows(states[i], steps[i], states[i + 1]);
      }
    }
  }

  /** A run goes on; if no state held the set before and the new one does not, none does. */
  lemma Extend(states: seq<State>, steps: seq<Step>, step: Step, s': State, name: string, never: set<IpAddr>)
    returns (states': seq<State>, steps': seq<Step>)
    requires Run(states, steps) && Follows(states[|steps|], step, s')
    requires !Held(states, name, never) && !Holds(s', name, never)
    ensures Run(states', steps') && states'[|steps'|] == s' && !Held(states', name, never)
  {
    LongerRun(states, steps, step, s');
    states', steps' := states + [s'], steps + [step];
    forall i | 0 <= i < |states'| ensures !Holds(states'[i], name, never) {
      if i < |states| {
        assert states'[i] == states[i];
      }
    }
  }

  /** A response to one query. */
  function Reply(domain: string, answers: seq<RData>): Message {
    Message([domain], answers)
  }

  /** Both sets of one policy, the IPv6 one empty. */
  function Sets(name: string, members: set<IpAddr>): Kernel {
    map[name := KernelSet(Inet, members), Ipv6Name(name) := KernelSet(Inet6, {})]
  }

  function Single(name: string, patterns: seq<string>, ips: set<IpAddr>): Policies {
    map[name := Managed(patterns, ips)]
  }

  lemma AcceptsReply(patterns: seq<string>, ips: set<IpAddr>, domain: string, answers: seq<RData>)
    requires DomainMatcher.AnyPatternMatches(domain, patterns)
    ensures Accepts(Managed(patterns, ips), QueryNames(Reply(domain, answers)))
  {
    var m, message := Managed(patterns, ips), Reply(domain, answers);
    assert message.queries[0] == domain;
    assert Accepts(m, message.queries);
    QueryNamesKeepMatches(m, message);
  }

  /** An answer with new addresses applied to the only policy. */
  lemma OneAnswer(s: State, name: string, patterns: seq<string>, ips: set<IpAddr>, message: Message, p: Pending)
    requires s.policies == Single(name, patterns, ips) && Accepts(Managed(patterns, ips), QueryNames(message))
    requires !(ToSet(ResolvedIps(message.answers)) <= ips) && p.name == name && p.done == 0 && p.ticket == s.tickets
    requires ToSet(p.listing) == ips + ToSet(ResolvedIps(message.answers))
    ensures Enabled(s, Resolve(message, [p]))
    ensures Next(s, Resolve(message, [p])) ==
      State(Single(name, patterns, ToSet(p.listing)), s.kernel, s.pending + [p], s.tickets + 1)
  {
    var m, answers := s.policies[name], ResolvedIps(message.answers);
    assert Extended(m, QueryNames(message), answers) == Managed(patterns, ToSet(p.listing));
    assert ApplyMessage(s.policies, message) == Single(name, patterns, ToSet(p.listing));
    assert ChangedBy(s.policies, message) == {name};
    assert [p][0].name == name;
  }

  lemma OneAddress(a: U32)
    ensures ResolvedIps([A(a)]) == [V4(a)] && ToSet([V4(a)]) == {V4(a)}
  {
    assert [A(a)][..0] == [];
  }

  lemma TwoAddresses(b: U32, c: U32)
    ensures ResolvedIps([A(b), A(c)]) == [V4(b), V4(c)]
  {
    OneAddress(b);
    assert [A(b), A(c)][..1] == [A(b)];
  }

  /** A policy created over new sets, and the first address learnt for it. */
  lemma FirstAnswer(name: string, patterns: seq<string>, domain: string, a: U32, never: set<IpAddr>)
    returns (states: seq<State>, steps: seq<Step>)
    requires DomainMatcher.AnyPatternMatches(domain, patterns) && never != {} && never != {V4(a)}
    ensures Run(states, steps) && !Held(states, name, never)
    ensures states[|steps|] ==
      State(Single(name, patterns, {V4(a)}), Sets(name, {}), [Pending(name, [V4(a)], 0, 0)], 1)
  {
    var start := State(map[], map[], [], 0);
    states, steps := [start], [];
    var made, created := State(map[], Sets(name, {}), [], 0), State(Single(name, patterns, {}), Sets(name, {}), [], 0);
    Ipv6NameInjective(name, name);
    assert Follows(start, MakeSets(name, false, false), made);
    states, steps := Extend(states, steps, MakeSets(name, false, false), made, name, never);
    var create := Control(Control.Create(name, "", patterns));
    assert Follows(made, create, created);
    states, steps := Extend(states, steps, create, created, name, never);
    var p := Pending(name, [V4(a)], 0, 0);
    OneAddress(a);
    AcceptsReply(patterns, {}, domain, [A(a)]);
    OneAnswer(created, name, patterns, {}, Reply(domain, [A(a)]), p);
    var answer := Resolve(Reply(domain, [A(a)]), [p]);
    states, steps := Extend(states, steps, answer, Next(created, answer), name, never);
  }

  // ---------- writes that overtake each other ----------

  /** Writing a pending snapshot of IPv4 addresses. */
  lemma OneWrite(s: State, i: nat, name: string, members: set<IpAddr>)
    requires i < |s.pending| && s.pending[i].name == name && s.pending[i].done == 0 && s.kernel == Sets(name, members)
    requires forall ip :: ip in s.pending[i].listing ==> ip.V4?
    ensures Enabled(s, Write(i))
    ensures Next(s, Write(i)) ==
      s.(kernel := Sets(name, ToSet(s.pending[i].listing)), pending := AllowRun.Without(s.pending, i))
  {
    var listing := s.pending[i].listing;
    Ipv6NameInjective(name, name);
    RestoreFillsPair(s.kernel, name, listing);
    assert OfFamily(ToSet(listing), Inet) == ToSet(listing) && OfFamily(ToSet(listing), Inet6) == {};
    assert Restore(s.kernel, Lines(s.pending[i])).0 == Sets(name, ToSet(listing));
  }

  /** Two answers whose writes complete in the opposite order: the later address is in the state but not in the
      kernel, nothing is pending, and answering it again takes no new snapshot. */
  lemma OvertakenWriteLosesAddress(name: string, patterns: seq<string>, domain: string, a: U32, b: U32)
    returns (states: seq<State>, steps: seq<Step>)
    requires DomainMatcher.AnyPatternMatches(domain, patterns) && a != b
    ensures Run(states, steps)
    ensures states[|steps|] == State(Single(name, patterns, {V4(a), V4(b)}), Sets(name, {V4(a)}), [], 2)
    ensures ChangedBy(states[|steps|].policies, Reply(domain, [A(b)])) == {}
  {
    var never := {V6(0)};
    states, steps := FirstAnswer(name, patterns, domain, a, never);
    var policies := Single(name, patterns, {V4(a), V4(b)});
    var s1, p, q := states[|steps|], Pending(name, [V4(a)], 0, 0), Pending(name, [V4(a), V4(b)], 0, 1);
    var s2 := State(policies, Sets(name, {}), [p, q], 2);
    var s3 := State(policies, Sets(name, {V4(a), V4(b)}), [p], 2);
    var s4 := State(policies, Sets(name, {V4(a)}), [], 2);
    var answer := Resolve(Reply(domain, [A(b)]), [q]);
    LaterAnswer(s1, name, patterns, domain, a, b, s2);
    states, steps := Extend(states, steps, answer, s2, name, never);
    WritesSwapped(s2, s3, s4, name, a, b);
    states, steps := Extend(states, steps, Write(1), s3, name, never);
    states, steps := Extend(states, steps, Write(0), s4, name, never);
    KnownAddress(policies, name, domain, a, b);
  }

  lemma LaterAnswer(s1: State, name: string, patterns: seq<string>, domain: string, a: U32, b: U32, s2: State)
    requires DomainMatcher.AnyPatternMatches(domain, patterns) && a != b
    requires var p, q := Pending(name, [V4(a)], 0, 0), Pending(name, [V4(a), V4(b)], 0, 1);
      && s1 == State(Single(name, patterns, {V4(a)}), Sets(name, {}), [p], 1)
      && s2 == State(Single(name, patterns, {V4(a), V4(b)}), Sets(name, {}), [p, q], 2)
    ensures Follows(s1, Resolve(Reply(domain, [A(b)]), [Pending(name, [V4(a), V4(b)], 0, 1)]), s2)
  {
    var q := Pending(name, [V4(a), V4(b)], 0, 1);
    OneAddress(b);
    AcceptsReply(patterns, {V4(a)}, domain, [A(b)]);
    assert ToSet(q.listing) == {V4(a), V4(b)} == {V4(a)} + {V4(b)};
    OneAnswer(s1, name, patterns, {V4(a)}, Reply(domain, [A(b)]), q);
  }

  lemma WritesSwapped(s2: State, s3: State, s4: State, name: string, a: U32, b: U32)
    requires var p, q := Pending(name, [V4(a)], 0, 0), Pending(name, [V4(a), V4(b)], 0, 1);
      && s2.kernel == Sets(name, {}) && s2.pending == [p, q]
      && s3 == s2.(kernel := Sets(name, {V4(a), V4(b)}), pending := [p])
      && s4 == s2.(kernel := Sets(name, {V4(a)}), pending := [])
    ensures Follows(s2, Write(1), s3) && Follows(s3, Write(0), s4)
  {
    OneAddress(a);
    assert ToSet([V4(a), V4(b)]) == {V4(a), V4(b)};
    OneWrite(s2, 1, name, {});
    OneWrite(s3, 0, name, {V4(a), V4(b)});
  }

  lemma KnownAddress(policies: Policies, name: string, domain: string, a: U32, b: U32)
    requires policies.Keys == {name} && policies[name].ips == {V4(a), V4(b)}
    ensures ChangedBy(policies, Reply(domain, [A(b)])) == {}
  {
    OneAddress(b);
    var known := {V4(a), V4(b)};
    assert known + ToSet([V4(b)]) == known;
  }

  // ---------- writes whose lines mix ----------

  /** What a line does to the IPv4 set of the policy. */
  function AfterLine(members: set<IpAddr>, name: string, line: Command): set<IpAddr> {
    match line
    case Flush(n) => if n == name then {} else members
    case Add(_, ip) => members + {ip}
  }

  lemma OneLine(s: State, i: nat, name: string, members: set<IpAddr>)
    requires i < |s.pending| && s.pending[i].done < |Lines(s.pending[i])| && s.kernel == Sets(name, members)
    requires var line := Lines(s.pending[i])[s.pending[i].done];
      line == Flush(name) || line == Flush(Ipv6Name(name)) || (line.Add? && line.name == name && line.ip.V4?)
    ensures var p := s.pending[i];
      Next(s, Line(i)) == s.(kernel := Sets(name, AfterLine(members, name, Lines(p)[p.done])),
                             pending := s.pending[i := p.(done := p.done + 1)])
  {
    Ipv6NameInjective(name, name);
    var p := s.pending[i];
    var line, before := Lines(p)[p.done], s.kernel;
    match line {
      case Flush(n) => assert before[n := before[n].(members := {})] == Sets(name, AfterLine(members, name, line));
      case Add(n, ip) =>
        assert before[n := before[n].(members := members + {ip})] == Sets(name, AfterLine(members, name, line));
    }
  }

  lemma PayloadOfOne(name: string, a: U32)
    ensures Payload(name, [V4(a)]) == [Flush(name), Flush(Ipv6Name(name)), Add(name, V4(a))]
  {
    assert [V4(a)][..0] == [];
    assert Adds(name, []) == [];
    assert Adds(name, [V4(a)]) == [Add(name, V4(a))];
  }

  lemma PayloadOfThree(name: string, a: U32, b: U32, c: U32)
    ensures Payload(name, [V4(b), V4(c), V4(a)]) ==
      [Flush(name), Flush(Ipv6Name(name)), Add(name, V4(b)), Add(name, V4(c)), Add(name, V4(a))]
  {
    assert [V4(b), V4(c), V4(a)][..2] == [V4(b), V4(c)];
    assert [V4(b), V4(c)][..1] == [V4(b)];
    assert [V4(b)][..0] == [];
    assert Adds(name, []) == [];
    assert Adds(name, [V4(b)]) == [Add(name, V4(b))];
    assert Adds(name, [V4(b), V4(c)]) == [Add(name, V4(b)), Add(name, V4(c))];
    assert Adds(name, [V4(b), V4(c), V4(a)]) == [Add(name, V4(b)), Add(name, V4(c)), Add(name, V4(a))];
  }

  /** The two writes of the run below, so far executed. */
  function Two(name: string, a: U32, b: U32, c: U32, first: nat, second: nat): seq<Pending> {
    [Pending(name, [V4(a)], first, 0), Pending(name, [V4(b), V4(c), V4(a)], second, 1)]
  }

  function NextLine(name: string, a: U32, b: U32, c: U32, first: nat, second: nat, i: nat): Command
    requires if i == 0 then first < 3 else second < 5
  {
    if i == 0 then [Flush(name), Flush(Ipv6Name(name)), Add(name, V4(a))][first]
    else [Flush(name), Flush(Ipv6Name(name)), Add(name, V4(b)), Add(name, V4(c)), Add(name, V4(a))][second]
  }

  /** One more line of either write, noted in the run. */
  lemma RunOneLine(
    states: seq<State>, steps: seq<Step>, name: string, policies: Policies, a: U32, b: U32, c: U32,
    members: set<IpAddr>, first: nat, second: nat, i: nat, never: set<IpAddr>)
    returns (states': seq<State>, steps': seq<Step>)
    requires Run(states, steps) && !Held(states, name, never)
    requires name in policies && policies[name].ips != never
    requires states[|steps|] == State(policies, Sets(name, members), Two(name, a, b, c, first, second), 2)
    requires (i == 0 && first < 3) || (i == 1 && second < 5)
    ensures Run(states', steps') && !Held(states', name, never)
    ensures var line := NextLine(name, a, b, c, first, second, i);
      var pending := if i == 0 then Two(name, a, b, c, first + 1, second) else Two(name, a, b, c, first, second + 1);
      states'[|steps'|] == State(policies, Sets(name, AfterLine(members, name, line)), pending, 2)
  {
    var s := states[|steps|];
    PayloadOfOne(name, a);
    PayloadOfThree(name, a, b, c);
    OneLine(s, i, name, members);
    states', steps' := Extend(states, steps, Line(i), Next(s, Line(i)), name, never);
  }

  /** A second answer adds two addresses while the first write has not begun. */
  lemma TwoWritesPending(
    name: string, patterns: seq<string>, domain: string, a: U32, b: U32, c: U32, never: set<IpAddr>)
    returns (states: seq<State>, steps: seq<Step>)
    requires DomainMatcher.AnyPatternMatches(domain, patterns) && a != b
    requires never != {} && never != {V4(a)} && never != {V4(a), V4(b), V4(c)}
    ensures Run(states, steps) && !Held(states, name, never)
    ensures states[|steps|] ==
      State(Single(name, patterns, {V4(a), V4(b), V4(c)}), Sets(name, {}), Two(name, a, b, c, 0, 0), 2)
  {
    states, steps := FirstAnswer(name, patterns, domain, a, never);
    var s, q := states[|steps|], Pending(name, [V4(b), V4(c), V4(a)], 0, 1);
    TwoAddresses(b, c);
    AcceptsReply(patterns, {V4(a)}, domain, [A(b), A(c)]);
    assert ToSet([V4(b), V4(c)]) == {V4(b), V4(c)};
    assert V4(b) in ToSet([V4(b), V4(c)]);
    assert ToSet(q.listing) == {V4(a), V4(b), V4(c)} == {V4(a)} + {V4(b), V4(c)};
    var answer := Resolve(Reply(domain, [A(b), A(c)]), [q]);
    OneAnswer(s, name, patterns, {V4(a)}, Reply(domain, [A(b), A(c)]), q);
    assert s.pending + [q] == Two(name, a, b, c, 0, 0);
    states, steps := Extend(states, steps, answer, Next(s, answer), name, never);
  }

  /** Two writes whose lines mix: both execute all their lines, none is rejected, and the set ends up with a value that
      the state never held. */
  lemma MixedWritesLeaveNewValue(name: string, patterns: seq<string>, domain: string, a: U32, b: U32, c: U32)
    returns (states: seq<State>, steps: seq<Step>)
    requires DomainMatcher.AnyPatternMatches(domain, patterns) && a != b && a != c && b != c
    ensures Run(states, steps)
    ensures var s := states[|steps|];
      && s.pending == Two(name, a, b, c, 3, 5) && |Lines(s.pending[0])| == 3 && |Lines(s.pending[1])| == 5
      && s.kernel == Sets(name, {V4(a), V4(c)})
    ensures !Held(states, name, {V4(a), V4(c)})
  {
    var never := {V4(a), V4(c)};
    assert V4(c) in never && V4(b) !in never;
    var all := {V4(a), V4(b), V4(c)};
    assert V4(b) in all;
    var policies := Single(name, patterns, all);
    states, steps := TwoWritesPending(name, patterns, domain, a, b, c, never);
    PayloadOfOne(name, a);
    PayloadOfThree(name, a, b, c);
    states, steps := RunOneLine(states, steps, name, policies, a, b, c, {}, 0, 0, 1, never);
    states, steps := RunOneLine(states, steps, name, policies, a, b, c, {}, 0, 1, 1, never);
    states, steps := RunOneLine(states, steps, name, policies, a, b, c, {}, 0, 2, 1, never);
    states, steps := RunOneLine(states, steps, name, policies, a, b, c, {} + {V4(b)}, 0, 3, 0, never);
    states, steps := RunOneLine(states, steps, name, policies, a, b, c, {}, 1, 3, 0, never);
    states, steps := RunOneLine(states, steps, name, policies, a, b, c, {}, 2, 3, 1, never);
    states, steps := RunOneLine(states, steps, name, policies, a, b, c, {} + {V4(c)}, 2, 4, 1, never);
    states, steps := RunOneLine(states, steps, name, policies, a, b, c, {} + {V4(c)} + {V4(a)}, 2, 5, 0, never);
    assert {} + {V4(c)} + {V4(a)} + {V4(a)} == {V4(a), V4(c)};
  }

  // ---------- created again ----------

  /** A policy created again, with whatever patterns, while its sets cannot be destroyed because rules still use them:
      the address learnt before stays in the kernel though nothing was allowed since the CREATE. */
  lemma StaleAddressSurvivesCreate(name: string, patterns: seq<string>, later: seq<string>, domain: string, a: U32)
    returns (states: seq<State>, steps: seq<Step>)
    requires DomainMatcher.AnyPatternMatches(domain, patterns)
    ensures Run(states, steps)
    ensures states[|steps|] == State(Single(name, later, {}), Sets(name, {V4(a)}), [], 1)
    ensures !JustifiedSinceCreate(states, steps, name, V4(a))
  {
    var never := {V6(0)};
    states, steps := FirstWritten(name, patterns, domain, a, never);
    var s2 := states[|steps|];
    var s3 := State(Single(name, later, {}), Sets(name, {V4(a)}), [], 1);
    CreatedAgain(s2, s3, name, {V4(a)}, later);
    states, steps := Extend(states, steps, MakeSets(name, true, true), s2, name, never);
    states, steps := Extend(states, steps, Control(Control.Create(name, "", later)), s3, name, never);
    StateIsSinceCreate(states, steps, name, V4(a));
  }

  lemma FirstWritten(name: string, patterns: seq<string>, domain: string, a: U32, never: set<IpAddr>)
    returns (states: seq<State>, steps: seq<Step>)
    requires DomainMatcher.AnyPatternMatches(domain, patterns) && never != {} && never != {V4(a)}
    ensures Run(states, steps) && !Held(states, name, never)
    ensures states[|steps|] == State(Single(name, patterns, {V4(a)}), Sets(name, {V4(a)}), [], 1)
  {
    states, steps := FirstAnswer(name, patterns, domain, a, never);
    var s1 := states[|steps|];
    OneAddress(a);
    OneWrite(s1, 0, name, {});
    assert AllowRun.Without(s1.pending, 0) == [];
    states, steps := Extend(states, steps, Write(0), Next(s1, Write(0)), name, never);
  }

  lemma CreatedAgain(s2: State, s3: State, name: string, members: set<IpAddr>, later: seq<string>)
    requires s2.policies.Keys == {name} && s3 == s2.(policies := Single(name, later, {}))
    requires s2.kernel == Sets(name, members)
    ensures Follows(s2, MakeSets(name, true, true), s2)
    ensures Follows(s2, Control(Control.Create(name, "", later)), s3)
  {
    Ipv6NameInjective(name, name);
    ReCreateKeepsMembers(s2, name, "", later);
    assert s2.policies[name := Managed(later, {})] == Single(name, later, {});
  }

  /** REMOVE leaves the kernel alone too: what a removed policy's set holds was never allowed since. */
  lemma RemovedPolicyKeepsMembers(states: seq<State>, steps: seq<Step>, name: string, ip: IpAddr)
    requires Run(states, steps)
    ensures var remove := Control(Control.Remove(name));
      var s' := Next(states[|steps|], remove);
      s'.kernel == states[|steps|].kernel && !JustifiedSinceCreate(states + [s'], steps + [remove], name, ip)
  {
    JustifiedStep(states, steps, Control(Control.Remove(name)),
      Next(states[|steps|], Control(Control.Remove(name))), name, ip);
  }
}
