/** The daemon's policies and what a DNS response does to them (src/state.rs, src/proxy.rs). */
module AllowSet {
  import opened Text
  import opened Addresses
  import opened DomainMatcher
  import Control

  datatype Managed = Managed(patterns: seq<string>, ips: set<IpAddr>)

  type Policies = map<string, Managed>

  // ---------- a response ----------

  datatype RData = A(v4: U32) | AAAA(v6: U128) | OtherData

  /** A decoded DNS message: the queried names and the answer records. */
  datatype Message = Message(queries: seq<string>, answers: seq<RData>)

  function ResolvedIps(answers: seq<RData>): seq<IpAddr> {
    if answers == [] then []
    else
      var rest := ResolvedIps(answers[..|answers| - 1]);
      match answers[|answers| - 1]
      case A(a) => rest + [V4(a)]
      case AAAA(b) => rest + [V6(b)]
      case OtherData => rest
  }

  /** The record that carries an address. */
  function RecordOf(ip: IpAddr): RData {
    match ip case V4(a) => A(a) case V6(b) => AAAA(b)
  }

  method CollectResolvedIps(message: Message) returns (ips: seq<IpAddr>)
    ensures ips == ResolvedIps(message.answers)
    ensures forall ip :: ip in ips <==> exists i :: 0 <= i < |message.answers| && message.answers[i] == RecordOf(ip)
  {
    ips := [];
    for i := 0 to |message.answers|
      invariant ips == ResolvedIps(message.answers[..i])
      invariant forall ip :: ip in ips <==> exists k :: 0 <= k < i && message.answers[k] == RecordOf(ip)
    {
      assert message.answers[..i + 1][..i] == message.answers[..i];
      match message.answers[i]
      case A(a) => ips := ips + [V4(a)];
      case AAAA(b) => ips := ips + [V6(b)];
      case OtherData =>
    }
    assert message.answers[..|message.answers|] == message.answers;
  }

  /** The queried names, without trailing dots and in lower case. */
  function QueryNames(message: Message): (names: seq<string>)
    ensures |names| == |message.queries|
    ensures forall i :: 0 <= i < |names| ==> names[i] == NormalizeDomain(message.queries[i])
  {
    seq(|message.queries|, i requires 0 <= i < |message.queries| => NormalizeDomain(message.queries[i]))
  }

  // ---------- applying answers ----------

  /** Some queried name is allowed by some pattern. */
  predicate Accepts(m: Managed, domains: seq<string>) {
    exists i :: 0 <= i < |domains| && AnyPatternMatches(domains[i], m.patterns)
  }

  function Extended(m: Managed, domains: seq<string>, ips: seq<IpAddr>): Managed {
    if domains != [] && ips != [] && Accepts(m, domains) then m.(ips := m.ips + ToSet(ips)) else m
  }

  /** Every policy that accepts a queried name gets all the answers. */
  function Apply(policies: Policies, domains: seq<string>, ips: seq<IpAddr>): Policies {
    map n | n in policies :: Extended(policies[n], domains, ips)
  }

  /** The whole effect of a response. */
  function ApplyMessage(policies: Policies, message: Message): Policies {
    Apply(policies, QueryNames(message), ResolvedIps(message.answers))
  }

  function ChangedBy(policies: Policies, message: Message): set<string> {
    Changed(policies, QueryNames(message), ResolvedIps(message.answers))
  }

  /** Normalizing the queried names first changes nothing for the patterns. */
  lemma QueryNamesKeepMatches(m: Managed, message: Message)
    ensures Accepts(m, QueryNames(message)) <==> Accepts(m, message.queries)
  {
    forall i, k | 0 <= i < |message.queries| && 0 <= k < |m.patterns|
      ensures DomainMatchesPattern(QueryNames(message)[i], m.patterns[k])
           == DomainMatchesPattern(message.queries[i], m.patterns[k])
    {
      NormalizeIdempotent(message.queries[i]);
    }
    forall i | 0 <= i < |message.queries|
      ensures AnyPatternMatches(QueryNames(message)[i], m.patterns) == AnyPatternMatches(message.queries[i], m.patterns)
    {
    }
  }

  /** One of the answer records carries the address. */
  predicate Carries(message: Message, ip: IpAddr) {
    exists i :: 0 <= i < |message.answers| && message.answers[i] == RecordOf(ip)
  }

  lemma {:induction false} ResolvedAreCarried(answers: seq<RData>, ip: IpAddr)
    ensures ip in ResolvedIps(answers) <==> exists i :: 0 <= i < |answers| && answers[i] == RecordOf(ip)
  {
    if answers != [] {
      var n := |answers| - 1;
      ResolvedAreCarried(answers[..n], ip);
      if i :| 0 <= i < |answers| && answers[i] == RecordOf(ip) {
        if i < n {
          assert answers[..n][i] == RecordOf(ip);
        }
      }
    }
  }

  /** Acceptance of a response, on the labels of its names as written. */
  lemma AcceptsIsLabelLevel(m: Managed, message: Message)
    ensures Accepts(m, QueryNames(message)) <==> SomeLabelsMatch(message.queries, m.patterns)
  {
    QueryNamesKeepMatches(m, message);
    AnyPatternIsLabelLevel(message.queries, m.patterns);
  }

  /** A policy gains exactly the addresses in the answer records, if the labels of some queried name match those of
      some of its patterns, and nothing otherwise; no policy comes, goes or changes its patterns. */
  lemma ApplyMessageMeaning(policies: Policies, message: Message, name: string)
    ensures ApplyMessage(policies, message).Keys == policies.Keys
    ensures name in policies ==>
      var before, after := policies[name], ApplyMessage(policies, message)[name];
      && after.patterns == before.patterns
      && (forall ip :: ip in after.ips <==>
            ip in before.ips || (Carries(message, ip) && SomeLabelsMatch(message.queries, before.patterns)))
      && (!SomeLabelsMatch(message.queries, before.patterns) ==> after == before)
  {
    if name in policies {
      AcceptsIsLabelLevel(policies[name], message);
      forall ip ensures ip in ResolvedIps(message.answers) <==> Carries(message, ip) {
        ResolvedAreCarried(message.answers, ip);
      }
    }
  }

  /** Reported are exactly the policies that a response allowed by some pattern gave an address they did not have. */
  lemma ChangedByMeaning(policies: Policies, message: Message, name: string)
    ensures name in ChangedBy(policies, message) <==>
      && name in policies && SomeLabelsMatch(message.queries, policies[name].patterns)
      && exists ip :: Carries(message, ip) && ip !in policies[name].ips
  {
    ApplyMessageMeaning(policies, message, name);
    if name in policies {
      var before, after := policies[name], ApplyMessage(policies, message)[name];
      if ip :| Carries(message, ip) && ip !in before.ips && SomeLabelsMatch(message.queries, before.patterns) {
        assert ip in after.ips;
      }
      if after.ips != before.ips {
        assert before.ips <= after.ips;
        var ip :| ip in after.ips && ip !in before.ips;
        assert Carries(message, ip);
      }
    }
  }

  /** The policies whose set grew. */
  function Changed(policies: Policies, domains: seq<string>, ips: seq<IpAddr>): set<string> {
    set n | n in policies && Extended(policies[n], domains, ips).ips != policies[n].ips
  }

  type Snapshot = (string, set<IpAddr>)

  function Names(changes: seq<Snapshot>): (names: seq<string>)
    ensures |names| == |changes| && forall i :: 0 <= i < |changes| ==> names[i] == changes[i].0
  {
    seq(|changes|, i requires 0 <= i < |changes| => changes[i].0)
  }

  /** The snapshots handed to the kernel writer: each policy that grew, once, with its new set. */
  ghost predicate Snapshots(changes: seq<Snapshot>, after: Policies, grown: set<string>) {
    && NoDuplicates(Names(changes))
    && (forall n :: n in Names(changes) <==> n in grown)
    && forall i :: 0 <= i < |changes| ==> changes[i].0 in after && changes[i].1 == after[changes[i].0].ips
  }

  lemma {:induction false} SameSizeSubset(a: set<IpAddr>, b: set<IpAddr>)
    requires a <= b && |a| == |b|
    ensures a == b
  {
    if a != b {
      var x :| x in b && x !in a;
      SubsetSize(a, b - {x});
    }
  }

  lemma {:induction false} SubsetSize(a: set<IpAddr>, b: set<IpAddr>)
    requires a <= b
    ensures |a| <= |b|
  {
    if a != {} {
      var x :| x in a;
      SubsetSize(a - {x}, b - {x});
    }
  }

  /** What a control request does to the policies. */
  function AfterRequest(policies: Policies, request: Control.Request): Policies {
    match request
    case Create(name, _, patterns) => policies[name := Managed(patterns, {})]
    case Remove(name) => policies - {name}
    case _ => policies
  }

  /** The policies, as the daemon updates them in place. */
  class PolicyTable {
    var policies: Policies

    constructor ()
      ensures policies == map[]
    {
      policies := map[];
    }

    /** Does some pattern of the policy match one of the domains? */
    method AcceptsAny(m: Managed, domains: seq<string>) returns (matches: bool)
      ensures matches == Accepts(m, domains)
    {
      matches := false;
      for i := 0 to |domains|
        invariant matches <==> exists k :: 0 <= k < i && AnyPatternMatches(domains[k], m.patterns)
      {
        if AnyPatternMatches(domains[i], m.patterns) {
          matches := true;
        }
      }
    }

    /** One policy: extend it if it matches, and report it if that made its set larger. */
    method Visit(name: string, domains: seq<string>, resolved: seq<IpAddr>) returns (report: seq<Snapshot>)
      requires name in policies && domains != [] && resolved != []
      modifies this
      ensures policies == old(policies)[name := Extended(old(policies)[name], domains, resolved)]
      ensures report == if policies[name].ips != old(policies)[name].ips then [(name, policies[name].ips)] else []
    {
      report := [];
      var m := policies[name];
      var matches := AcceptsAny(m, domains);
      if matches {
        var beforeLen := |m.ips|;
        var ips := m.ips + ToSet(resolved);
        policies := policies[name := m.(ips := ips)];
        if |ips| != beforeLen {
          report := [(name, ips)];
        } else {
          SameSizeSubset(m.ips, ips);
        }
      } else {
        assert policies[name := m] == policies;
      }
    }

    /** Extend every matching policy; report those that grew, with their new sets. The policies are visited in
        an arbitrary order. */
    method ApplyResolvedIps(domains: seq<string>, resolved: seq<IpAddr>) returns (changes: seq<Snapshot>)
      modifies this
      ensures policies == Apply(old(policies), domains, resolved)
      ensures Snapshots(changes, policies, Changed(old(policies), domains, resolved))
    {
      changes := [];
      ghost var start := policies;
      if domains == [] || resolved == [] {
        assert policies == Apply(start, domains, resolved);
        return;
      }
      ghost var grown := Changed(start, domains, resolved);
      var todo := policies.Keys;
      while todo != {}
        invariant todo <= start.Keys == policies.Keys
        invariant forall n :: n in start ==>
          policies[n] == if n in todo then start[n] else Extended(start[n], domains, resolved)
        invariant Snapshots(changes, policies, grown - todo)
        decreases todo
      {
        var name :| name in todo;
        ghost var before := policies;
        var report := Visit(name, domains, resolved);
        SnapshotsGrow(changes, report, before, policies, grown - todo, name);
        TodoStep(grown, todo, name);
        assert name in grown <==> report != [];
        todo := todo - {name};
        changes := changes + report;
      }
      assert policies == Apply(start, domains, resolved);
    }
  }

  lemma TodoStep(grown: set<string>, todo: set<string>, name: string)
    requires name in todo
    ensures grown - (todo - {name}) == if name in grown then grown - todo + {name} else grown - todo
  {
  }

  lemma SnapshotsGrow(
    changes: seq<Snapshot>, report: seq<Snapshot>, before: Policies, after: Policies, grown: set<string>, name: string)
    requires Snapshots(changes, before, grown) && name in before && name !in grown
    requires name in after && after == before[name := after[name]]
    requires report == [] || report == [(name, after[name].ips)]
    ensures Snapshots(changes + report, after, if report == [] then grown else grown + {name})
  {
    var all := changes + report;
    forall i | 0 <= i < |changes| ensures changes[i].0 != name {
      assert Names(changes)[i] in Names(changes);
    }
    if report == [] {
      assert all == changes;
    } else {
      assert Names(all) == Names(changes) + [name];
    }
  }

  /** The set of a policy never shrinks when answers are applied, and grows only by answers to a query that
      one of its patterns matches. */
  lemma ApplyGrowsByAnswers(policies: Policies, domains: seq<string>, ips: seq<IpAddr>, name: string)
    requires name in policies
    ensures var after := Apply(policies, domains, ips);
      && name in after && after[name].patterns == policies[name].patterns
      && policies[name].ips <= after[name].ips
      && (forall ip :: ip in after[name].ips && ip !in policies[name].ips ==>
            ip in ips && Accepts(policies[name], domains))
      && (Accepts(policies[name], domains) ==> forall ip :: ip in ips ==> ip in after[name].ips)
  {
  }
}
