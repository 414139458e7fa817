/** The daemon's procedures over its global tables: control requests (src/control.rs), the statistics of a resolve
    (src/stats.rs) and what a DNS response sets off (src/proxy.rs). */
module Handlers {
  import opened Text
  import opened Addresses
  import opened AllowSet
  import Control
  import DomainMatcher
  import AllowRun
  import Stats
  import Registry
  import Report

  /** A CREATE with a subnet registers the network. */
  function RegistryAfter(r: Registry.Registry, request: Control.Request): Registry.Registry {
    match request
    case Create(name, subnet, _) => if subnet == "" then r else Registry.Registered(r, name, subnet)
    case _ => r
  }

  /** The verdict of the policy named like the origin's network: the labels of the domain match those of one of its
      patterns. Without such a network there is none. */
  ghost predicate IsVerdict(
    accepted: Option<bool>, policies: Policies, r: Registry.Registry, network: Option<nat>, domain: string) {
    if network.Some? && network.value in r.networks then
      var name := r.networks[network.value].name;
      && accepted.Some?
      && (accepted.value <==>
            name in policies && DomainMatcher.SomeLabelsMatch([domain], policies[name].patterns))
    else accepted.None?
  }

  function RecordAll(entries: Stats.Entries, events: seq<Stats.Event>, ttl: nat): Stats.Entries {
    if events == [] then entries
    else Stats.Recorded(RecordAll(entries, events[..|events| - 1], ttl), events[|events| - 1], ttl)
  }

  lemma RecordOneMore(entries: Stats.Entries, events: seq<Stats.Event>, e: Stats.Event, ttl: nat)
    ensures RecordAll(entries, events + [e], ttl) == Stats.Recorded(RecordAll(entries, events, ttl), e, ttl)
  {
    assert (events + [e])[..|events|] == events;
  }

  lemma PrefixGrows<T>(s: seq<T>, i: nat)
    requires i < |s|
    ensures s[..i + 1] == s[..i] + [s[i]]
  {
  }

  /** What the policies of a running daemon do when its table goes from one value to another. */
  ghost predicate IsStep(before: Policies, step: AllowRun.Step, after: Policies) {
    forall s: AllowRun.State :: s.policies == before ==> AllowRun.Next(s, step).policies == after
  }

  /** One resolve as it is recorded. */
  ghost predicate Recordable(
    e: Stats.Event, domain: string, origin: IpAddr, now: nat, policies: Policies, r: Registry.Registry, v6: V6Parser) {
    && e.key == (domain, origin) && e.now == now
    && (e.network.None? ==> forall s :: !Registry.Candidate(r, origin, s, v6))
    && (e.network.Some? ==> exists s :: Registry.Candidate(r, origin, s, v6) && r.subnetToId[s] == e.network.value)
    && IsVerdict(e.accepted, policies, r, e.network, domain)
  }

  /** All queries of a response, each recorded under its normalized name. */
  ghost predicate AllRecordable(
    events: seq<Stats.Event>, names: seq<string>, origin: IpAddr, times: seq<nat>, policies: Policies,
    r: Registry.Registry, v6: V6Parser) {
    && |events| == |names| == |times|
    && forall i :: 0 <= i < |events| ==> Recordable(events[i], names[i], origin, times[i], policies, r, v6)
  }

  lemma AppendRecordable(
    events: seq<Stats.Event>, e: Stats.Event, names: seq<string>, name: string, origin: IpAddr, times: seq<nat>,
    now: nat, policies: Policies, r: Registry.Registry, v6: V6Parser)
    requires AllRecordable(events, names, origin, times, policies, r, v6)
    requires Recordable(e, name, origin, now, policies, r, v6)
    ensures AllRecordable(events + [e], names + [name], origin, times + [now], policies, r, v6)
  {
  }

  class Daemon {
    const table: PolicyTable
    const networks: Registry.NetworkRegistry
    const store: Stats.Store

    constructor ()
      ensures table.policies == map[] && networks.State() == Registry.EMPTY && store.entries == map[]
      ensures fresh(table) && fresh(networks) && fresh(store)
    {
      table := new PolicyTable();
      networks := new Registry.NetworkRegistry();
      store := new Stats.Store();
    }

    /** A control line changes the policies as the request's step of a run does, and registers the network. */
    method HandleControl(line: string) returns (request: Control.Request)
      modifies table, networks
      ensures request == Control.ParseRequest(line)
      ensures IsStep(old(table.policies), AllowRun.Control(request), table.policies)
      ensures networks.State() == RegistryAfter(old(networks.State()), request)
    {
      request := Control.ParseRequest(line);
      match request {
        case Create(name, subnet, patterns) =>
          if subnet != "" {
            networks.RegisterNetwork(name, subnet);
          }
          table.policies := table.policies[name := Managed(patterns, {})];
        case Remove(name) => table.policies := table.policies - {name};
        case _ =>
      }
    }

    /** Attribute a resolve to a network and a verdict, and count it. */
    method RecordResolve(domain: string, origin: IpAddr, now: nat, ttl: nat, v6: V6Parser) returns (e: Stats.Event)
      modifies store
      ensures Recordable(e, domain, origin, now, table.policies, networks.State(), v6)
      ensures store.entries == Stats.Recorded(old(store.entries), e, ttl)
    {
      var r := networks.State();
      var network := Registry.FindNetwork(r, origin, v6);
      var accepted := None;
      if network.Some? && network.value in r.networks {
        var name := r.networks[network.value].name;
        if name in table.policies {
          VerdictIsLabelLevel(domain, table.policies[name].patterns);
        }
        accepted := Some(IsDomainAcceptedByNetwork(domain, r.networks[network.value].name));
      }
      e := Stats.Event((domain, origin), now, network, accepted);
      store.RecordResolve(e, ttl);
    }

    /** `is_domain_accepted_by_network` */
    predicate IsDomainAcceptedByNetwork(domain: string, name: string)
      reads table
    {
      name in table.policies && DomainMatcher.AnyPatternMatches(domain, table.policies[name].patterns)
    }

    /** A response: nothing if it cannot be decoded; otherwise every query is recorded under its normalized name, and
        the answers are applied as one step of a run. `times` are the clock readings, one per query. */
    method InspectAndUpdateState(
      response: Option<Message>, origin: IpAddr, times: seq<nat>, ttl: nat, v6: V6Parser)
      returns (events: seq<Stats.Event>, changes: seq<Snapshot>)
      requires response.Some? ==> |times| == |response.value.queries|
      modifies table, store
      ensures response.None? ==>
        events == [] && changes == [] && table.policies == old(table.policies) && store.entries == old(store.entries)
      ensures response.Some? ==>
        && AllRecordable(events, QueryNames(response.value), origin, times, old(table.policies), networks.State(), v6)
        && table.policies == ApplyMessage(old(table.policies), response.value)
        && Snapshots(changes, table.policies, ChangedBy(old(table.policies), response.value))
      ensures store.entries == RecordAll(old(store.entries), events, ttl)
    {
      events, changes := [], [];
      if response.None? {
        return;
      }
      events := RecordQueries(response.value, origin, times, ttl, v6);
      changes := ApplyAnswers(response.value);
    }

    method RecordQueries(message: Message, origin: IpAddr, times: seq<nat>, ttl: nat, v6: V6Parser)
      returns (events: seq<Stats.Event>)
      requires |times| == |message.queries|
      modifies store
      ensures AllRecordable(events, QueryNames(message), origin, times, table.policies, networks.State(), v6)
      ensures store.entries == RecordAll(old(store.entries), events, ttl)
    {
      events := [];
      ghost var names, policies, r := QueryNames(message), table.policies, networks.State();
      for i := 0 to |message.queries|
        invariant |events| == i && AllRecordable(events, names[..i], origin, times[..i], policies, r, v6)
        invariant store.entries == RecordAll(old(store.entries), events, ttl)
      {
        var domain := DomainMatcher.NormalizeDomain(message.queries[i]);
        var e := RecordResolve(domain, origin, times[i], ttl, v6);
        AppendRecordable(events, e, names[..i], domain, origin, times[..i], times[i], policies, r, v6);
        PrefixGrows(names, i);
        PrefixGrows(times, i);
        RecordOneMore(old(store.entries), events, e, ttl);
        events := events + [e];
      }
      assert names[..|names|] == names && times[..|times|] == times;
    }

    method ApplyAnswers(message: Message) returns (changes: seq<Snapshot>)
      modifies table
      ensures table.policies == ApplyMessage(old(table.policies), message)
      ensures Snapshots(changes, table.policies, ChangedBy(old(table.policies), message))
    {
      var resolved := CollectResolvedIps(message);
      if resolved == [] {
        NothingToApply(table.policies, QueryNames(message));
        changes := [];
        return;
      }
      changes := table.ApplyResolvedIps(QueryNames(message), resolved);
    }
  }

  lemma VerdictIsLabelLevel(domain: string, patterns: seq<string>)
    ensures DomainMatcher.AnyPatternMatches(domain, patterns) <==> DomainMatcher.SomeLabelsMatch([domain], patterns)
  {
    DomainMatcher.AnyPatternIsLabelLevel([domain], patterns);
    assert [domain][0] == domain;
  }

  lemma NothingToApply(policies: Policies, domains: seq<string>)
    ensures Apply(policies, domains, []) == policies && Changed(policies, domains, []) == {}
    ensures Snapshots([], policies, {})
  {
  }

  /** What a client's CREATE ends up doing: the policy has exactly the flattened patterns and no address yet, every
      other policy is as before. */
  lemma SentCreateTakesEffect(policies: Policies, name: string, subnet: string, patterns: seq<string>)
    requires Control.CleanField(name) && name != "" && Control.CleanField(subnet)
    requires forall i :: 0 <= i < |patterns| ==> '\n' !in patterns[i]
    ensures var line := Control.ReadLine(Control.PrintCreate(name, subnet, patterns));
      var after := AfterRequest(policies, Control.ParseRequest(line));
      && after.Keys == policies.Keys + {name} && after[name] == Managed(Control.Flatten(patterns), {})
      && forall n :: n in policies && n != name ==> after[n] == policies[n]
  {
    Control.CreateRoundTrip(name, subnet, patterns);
    CreateEffect(policies, name, subnet, Control.Flatten(patterns));
  }

  lemma CreateEffect(policies: Policies, name: string, subnet: string, patterns: seq<string>)
    ensures var after := AfterRequest(policies, Control.Create(name, subnet, patterns));
      && after.Keys == policies.Keys + {name} && after[name] == Managed(patterns, {})
      && forall n :: n in policies && n != name ==> after[n] == policies[n]
  {
  }

  /** It also registers the network: the subnet, when there is one, has an id whose entry is this name and this subnet,
      also when the subnet was known under another name, and then the id stays. No other subnet changes its id and no
      other id its entry; and as long as ids are not used up a new subnet gets a new one. Without a subnet nothing is
      registered. */
  lemma SentCreateRegisters(r: Registry.Registry, name: string, subnet: string, patterns: seq<string>)
    requires Control.CleanField(name) && name != "" && Control.CleanField(subnet)
    requires forall i :: 0 <= i < |patterns| ==> '\n' !in patterns[i]
    ensures var line := Control.ReadLine(Control.PrintCreate(name, subnet, patterns));
      var after := RegistryAfter(r, Control.ParseRequest(line));
      if subnet == "" then after == r
      else
        && RegistersNetwork(r, after, name, subnet)
        && (Registry.InStep(r) && subnet !in r.subnetToId && |r.subnetToId| < 0x1_0000_0000 ==>
              after.subnetToId[subnet] !in r.networks)
  {
    Control.CreateRoundTrip(name, subnet, patterns);
    if subnet != "" {
      RegisteredMeaning(r, name, subnet);
      if Registry.InStep(r) && |r.subnetToId| < 0x1_0000_0000 {
        FreshId(r);
      }
    }
  }

  ghost predicate RegistersNetwork(r: Registry.Registry, after: Registry.Registry, name: string, subnet: string) {
    && after.subnetToId.Keys == r.subnetToId.Keys + {subnet}
    && after.subnetToId[subnet] in after.networks
    && after.networks[after.subnetToId[subnet]] == Registry.NetworkInfo(name, subnet)
    && (forall s :: s in r.subnetToId ==> after.subnetToId[s] == r.subnetToId[s])
    && (forall id :: id != after.subnetToId[subnet] ==>
          (id in after.networks <==> id in r.networks) && (id in r.networks ==> after.networks[id] == r.networks[id]))
  }

  lemma FreshId(r: Registry.Registry)
    requires Registry.InStep(r) && |r.subnetToId| < 0x1_0000_0000
    ensures r.nextId !in r.networks
  {
    Registry.NextIdIsNew(|r.subnetToId|);
  }

  lemma RegisteredMeaning(r: Registry.Registry, name: string, subnet: string)
    ensures RegistersNetwork(r, Registry.Registered(r, name, subnet), name, subnet)
  {
  }

  /** No other request touches policies or registry: not REMOVE the registry, and nothing at all any line that is
      neither CREATE nor REMOVE, lacks fields or has a blank name. */
  lemma OtherRequestsRegisterNothing(policies: Policies, r: Registry.Registry, request: Control.Request)
    ensures !request.Create? ==> RegistryAfter(r, request) == r
    ensures !request.Create? && !request.Remove? ==> AfterRequest(policies, request) == policies
  {
  }

  /** And a REMOVE: the policy is gone, every other is as before. */
  lemma SentRemoveTakesEffect(policies: Policies, r: Registry.Registry, name: string)
    requires Trim(name) == name && name != "" && '\n' !in name
    ensures RegistryAfter(r, Control.ParseRequest(Control.ReadLine(Control.PrintRemove(name)))) == r
    ensures var line := Control.ReadLine(Control.PrintRemove(name));
      var after := AfterRequest(policies, Control.ParseRequest(line));
      after.Keys == policies.Keys - {name} && forall n :: n in after ==> after[n] == policies[n]
  {
    Control.RemoveRoundTrip(name);
  }

  function Resolves(events: seq<Stats.Event>): (actions: seq<Report.Action>)
    ensures |actions| == |events| && forall i :: 0 <= i < |events| ==> actions[i] == Report.Resolve(events[i])
  {
    seq(|events|, i requires 0 <= i < |events| => Report.Resolve(events[i]))
  }

  /** The events an inspected response records keep a run of the statistics legal, as their networks were looked up,
      and lead to the entries the inspection leaves. */
  lemma {:induction false} InspectionsAreLegal(actions: seq<Report.Action>, events: seq<Stats.Event>, ttl: nat)
    requires Report.Legal(actions, ttl)
    requires forall i :: 0 <= i < |events| ==> Report.LookedUp(Report.After(actions, ttl).registry, events[i])
    ensures Report.Legal(actions + Resolves(events), ttl)
    ensures var d := Report.After(actions, ttl);
      Report.After(actions + Resolves(events), ttl) == d.(entries := RecordAll(d.entries, events, ttl))
  {
    var d := Report.After(actions, ttl);
    if events == [] {
      assert actions + Resolves(events) == actions;
    } else {
      var n := |events| - 1;
      InspectionsAreLegal(actions, events[..n], ttl);
      ResolvesSplit(actions, events);
      OneMoreResolve(actions + Resolves(events[..n]), d, RecordAll(d.entries, events[..n], ttl), events[n], ttl);
    }
  }

  lemma ResolvesSplit(actions: seq<Report.Action>, events: seq<Stats.Event>)
    requires events != []
    ensures var n := |events| - 1;
      actions + Resolves(events) == (actions + Resolves(events[..n])) + [Report.Resolve(events[n])]
  {
  }

  lemma OneMoreResolve(
    actions: seq<Report.Action>, d: Report.Daemon, entries: Stats.Entries, e: Stats.Event, ttl: nat)
    requires Report.Legal(actions, ttl) && Report.After(actions, ttl) == d.(entries := entries)
    requires Report.LookedUp(d.registry, e)
    ensures Report.Legal(actions + [Report.Resolve(e)], ttl)
    ensures Report.After(actions + [Report.Resolve(e)], ttl) == d.(entries := Stats.Recorded(entries, e, ttl))
  {
    LegalAppend(actions, Report.Resolve(e), ttl);
    assert (actions + [Report.Resolve(e)])[..|actions|] == actions;
  }

  lemma LegalAppend(actions: seq<Report.Action>, action: Report.Action, ttl: nat)
    requires Report.Legal(actions, ttl)
    requires action.Resolve? ==> Report.LookedUp(Report.After(actions, ttl).registry, action.event)
    ensures Report.Legal(actions + [action], ttl)
  {
    var all := actions + [action];
    forall i | 0 <= i < |all| && all[i].Resolve?
      ensures Report.LookedUp(Report.After(all[..i], ttl).registry, all[i].event)
    {
      assert all[..i] == actions[..i];
      if i == |actions| {
        assert actions[..i] == actions;
      }
    }
  }
}
