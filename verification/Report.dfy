/** The statistics report (src/stats.rs) as a sequence of records: networks by id, then unknown origins. */
module Report {
  import opened Text
  import opened Addresses
  import opened Stats
  import opened Registry

  datatype Record = Record(network: Option<nat>, ip: IpAddr, domain: string, entry: Entry)

  type Group = (Option<nat>, IpAddr)

  /** The line of an entry. */
  function RecordOf(key: Key, entry: Entry): Record {
    Record(entry.network, key.1, key.0, entry)
  }

  function GroupOf(r: Record): Group {
    (r.network, r.ip)
  }

  predicate IsItem(entries: Entries, r: Record) {
    && (r.domain, r.ip) in entries && r.entry == entries[(r.domain, r.ip)]
    && r.network == entries[(r.domain, r.ip)].network
  }

  lemma NoDuplicatesAppend(a: seq<Record>, b: seq<Record>)
    requires NoDuplicates(a) && NoDuplicates(b) && forall r :: r in a ==> r !in b
    ensures NoDuplicates(a + b)
  {
    forall i, j | 0 <= i < j < |a + b| ensures (a + b)[i] != (a + b)[j] {
      if i < |a| <= j {
        assert a[i] in a && (a + b)[j] in b;
      }
    }
  }

  // ---------- sorting ----------

  /** `IpAddr` orders every IPv4 address before every IPv6 address. */
  function Rank(ip: IpAddr): nat {
    match ip case V4(a) => a case V6(b) => TWO32 + b
  }

  lemma RankInjective(a: IpAddr, b: IpAddr)
    ensures Rank(a) == Rank(b) <==> a == b
  {
  }

  /** Rank is the order of `IpAddr`: IPv4 before IPv6, and by value within each. */
  lemma RankIsIpOrder(a: IpAddr, b: IpAddr)
    ensures Rank(a) <= Rank(b) <==>
      match (a, b)
      case (V4(x), V4(y)) => x <= y
      case (V6(x), V6(y)) => x <= y
      case (V4(_), V6(_)) => true
      case (V6(_), V4(_)) => false
  {
  }

  method Smallest(s: set<nat>) returns (m: nat)
    requires s != {}
    ensures m in s && forall x :: x in s ==> m <= x
  {
    m :| m in s;
    var todo := s - {m};
    while todo != {}
      invariant todo <= s && m in s && forall x :: x in s && x !in todo ==> m <= x
      decreases todo
    {
      var x :| x in todo;
      if x < m {
        m := x;
      }
      todo := todo - {x};
    }
  }

  method SortIds(ids: set<nat>) returns (sorted: seq<nat>)
    ensures forall i, j :: 0 <= i < j < |sorted| ==> sorted[i] < sorted[j]
    ensures forall x :: x in sorted <==> x in ids
  {
    sorted := [];
    var rest := ids;
    while rest != {}
      invariant rest <= ids
      invariant forall i, j :: 0 <= i < j < |sorted| ==> sorted[i] < sorted[j]
      invariant forall x :: x in sorted <==> x in ids && x !in rest
      invariant forall i, x :: 0 <= i < |sorted| && x in rest ==> sorted[i] < x
      decreases rest
    {
      var m := Smallest(rest);
      sorted := sorted + [m];
      rest := rest - {m};
    }
  }

  method SortIps(ips: set<IpAddr>) returns (sorted: seq<IpAddr>)
    ensures forall i, j :: 0 <= i < j < |sorted| ==> Rank(sorted[i]) < Rank(sorted[j])
    ensures forall ip :: ip in sorted <==> ip in ips
  {
    var ranks := set ip | ip in ips :: Rank(ip);
    var order := SortIds(ranks);
    sorted := [];
    for i := 0 to |order|
      invariant |sorted| == i
      invariant forall k :: 0 <= k < i ==> sorted[k] in ips && Rank(sorted[k]) == order[k]
    {
      assert order[i] in ranks;
      var ip :| ip in ips && Rank(ip) == order[i];
      sorted := sorted + [ip];
    }
    forall ip | ip in ips ensures ip in sorted {
      assert Rank(ip) in ranks;
      assert Rank(ip) in order;
      var k :| 0 <= k < |order| && order[k] == Rank(ip);
      RankInjective(ip, sorted[k]);
    }
  }

  // ---------- grouping ----------

  /** Every entry is in the list of its group, once, and nothing else is. */
  ghost predicate Grouped(entries: Entries, done: set<Key>, grouped: map<Group, seq<Record>>) {
    && (forall g :: g in grouped ==> NoDuplicates(grouped[g]))
    && (forall g, r :: g in grouped && r in grouped[g] ==>
          GroupOf(r) == g && IsItem(entries, r) && (r.domain, r.ip) in done)
    && (forall k :: k in done && k in entries ==>
          var r := RecordOf(k, entries[k]); GroupOf(r) in grouped && r in grouped[GroupOf(r)])
  }

  lemma GroupStep(entries: Entries, done: set<Key>, grouped: map<Group, seq<Record>>, k: Key)
    requires Grouped(entries, done, grouped) && k in entries && k !in done
    ensures var r := RecordOf(k, entries[k]);
      var g := GroupOf(r);
      Grouped(entries, done + {k}, grouped[g := (if g in grouped then grouped[g] else []) + [r]])
  {
    var r := RecordOf(k, entries[k]);
    var g := GroupOf(r);
    var list := if g in grouped then grouped[g] else [];
    assert r !in list;
    NoDuplicatesAppend(list, [r]);
  }

  method GroupStats(entries: Entries) returns (grouped: map<Group, seq<Record>>)
    ensures Grouped(entries, entries.Keys, grouped)
  {
    grouped := map[];
    var todo := entries.Keys;
    while todo != {}
      invariant todo <= entries.Keys
      invariant Grouped(entries, entries.Keys - todo, grouped)
      decreases todo
    {
      var k :| k in todo;
      GroupStep(entries, entries.Keys - todo, grouped, k);
      var r := RecordOf(k, entries[k]);
      var g := GroupOf(r);
      grouped := grouped[g := (if g in grouped then grouped[g] else []) + [r]];
      assert entries.Keys - (todo - {k}) == entries.Keys - todo + {k};
      todo := todo - {k};
    }
    assert entries.Keys - {} == entries.Keys;
  }

  // ---------- order ----------

  /** Known networks by id, unknown origins last. */
  predicate NetworkBefore(a: Option<nat>, b: Option<nat>) {
    a.Some? && (b.None? || a.value < b.value)
  }

  predicate NotAfter(a: Record, b: Record) {
    NetworkBefore(a.network, b.network) || (a.network == b.network && Rank(a.ip) <= Rank(b.ip))
  }

  predicate Ordered(records: seq<Record>) {
    forall i, j :: 0 <= i < j < |records| ==> NotAfter(records[i], records[j])
  }

  lemma OrderedAppend(a: seq<Record>, b: seq<Record>)
    requires Ordered(a) && Ordered(b) && forall x, y :: x in a && y in b ==> NotAfter(x, y)
    ensures Ordered(a + b)
  {
    forall i, j | 0 <= i < j < |a + b| ensures NotAfter((a + b)[i], (a + b)[j]) {
      if i < |a| <= j {
        assert a[i] in a && (a + b)[j] in b;
      }
    }
  }

  // ---------- the report ----------

  /** The records listed are those of the given networks, each exactly once. */
  ghost predicate Lists(records: seq<Record>, entries: Entries, networks: iset<Option<nat>>) {
    && NoDuplicates(records)
    && forall r :: r in records <==> IsItem(entries, r) && r.network in networks
  }

  /** A group comes after earlier networks and after smaller origins of its own. */
  lemma GroupOrdered(
    before: seq<Record>, list: seq<Record>, networks: iset<Option<nat>>, g: Group, earlier: seq<IpAddr>)
    requires Ordered(before) && forall x :: x in list ==> GroupOf(x) == g
    requires forall n :: n in networks ==> NetworkBefore(n, g.0)
    requires forall i :: 0 <= i < |earlier| ==> Rank(earlier[i]) <= Rank(g.1)
    requires forall x :: x in before ==> x.network in networks || (x.network == g.0 && x.ip in earlier)
    ensures Ordered(before + list)
  {
    forall i, j | 0 <= i < j < |list| ensures NotAfter(list[i], list[j]) {
      assert list[i] in list && list[j] in list;
    }
    OrderedAppend(before, list);
  }

  /** One network: its origins in order, each with its list. */
  method AppendNetwork(
    ghost entries: Entries, grouped: map<Group, seq<Record>>, network: Option<nat>,
    records: seq<Record>, ghost networks: iset<Option<nat>>) returns (r: seq<Record>)
    requires Grouped(entries, entries.Keys, grouped) && Lists(records, entries, networks) && Ordered(records)
    requires forall n :: n in networks ==> NetworkBefore(n, network)
    ensures Lists(r, entries, networks + iset{network}) && Ordered(r)
  {
    var origins := set g | g in grouped && g.0 == network :: g.1;
    var ips := SortIps(origins);
    r := records;
    for i := 0 to |ips|
      invariant NoDuplicates(r) && Ordered(r)
      invariant forall x :: x in r <==>
        IsItem(entries, x) && (x.network in networks || (x.network == network && x.ip in ips[..i]))
    {
      var g := (network, ips[i]);
      assert g in grouped by {
        assert ips[i] in origins;
        var h :| h in grouped && h.0 == network && h.1 == ips[i];
        assert h == g;
      }
      assert ips[i] !in ips[..i];
      NoDuplicatesAppend(r, grouped[g]);
      GroupOrdered(r, grouped[g], networks, g, ips[..i]);
      assert forall x :: IsItem(entries, x) && GroupOf(x) == g ==> x in grouped[g];
      assert ips[..i + 1] == ips[..i] + [ips[i]];
      r := r + grouped[g];
    }
    assert ips[..|ips|] == ips;
    assert forall x :: IsItem(entries, x) && x.network == network ==> GroupOf(x) in grouped && x.ip in ips;
  }

  /** In order, and each entry of a registered or unknown network once. */
  ghost predicate ReportOf(records: seq<Record>, entries: Entries, registry: map<nat, NetworkInfo>) {
    && Ordered(records) && NoDuplicates(records)
    && forall r :: r in records <==> IsItem(entries, r) && (r.network.None? || r.network.value in registry)
  }

  /** All known networks in the order of their ids, then the unknown one. An entry is listed exactly once if its network
      is registered or unknown, and not at all otherwise. */
  method GetStatsReport(entries: Entries, registry: map<nat, NetworkInfo>)
    returns (headers: seq<nat>, records: seq<Record>)
    ensures forall i, j :: 0 <= i < j < |headers| ==> headers[i] < headers[j]
    ensures forall id :: id in headers <==> id in registry
    ensures ReportOf(records, entries, registry)
  {
    var grouped := GroupStats(entries);
    headers := SortIds(registry.Keys);
    records := [];
    ghost var networks: iset<Option<nat>> := iset{};
    for i := 0 to |headers|
      invariant Lists(records, entries, networks) && Ordered(records)
      invariant forall n :: n in networks <==> n.Some? && n.value in headers[..i]
    {
      assert headers[i] !in headers[..i];
      records := AppendNetwork(entries, grouped, Some(headers[i]), records, networks);
      networks := networks + iset{Some(headers[i])};
      assert headers[..i + 1] == headers[..i] + [headers[i]];
    }
    assert headers[..|headers|] == headers;
    records := AppendNetwork(entries, grouped, None, records, networks);
  }

  // ---------- nothing is lost ----------

  /** Registrations and resolves, as they interleave. */
  datatype Action = Register(name: string, subnet: string) | Resolve(event: Event)

  datatype Daemon = Daemon(registry: Registry, entries: Entries)

  function After(actions: seq<Action>, ttl: nat): Daemon {
    if actions == [] then Daemon(EMPTY, map[])
    else
      var d := After(actions[..|actions| - 1], ttl);
      match actions[|actions| - 1]
      case Register(name, subnet) => d.(registry := Registered(d.registry, name, subnet))
      case Resolve(e) => d.(entries := Recorded(d.entries, e, ttl))
  }

  /** The network of an event was looked up in the registry of that moment. */
  ghost predicate LookedUp(registry: Registry, e: Event) {
    e.network.None? || exists s :: s in registry.subnetToId && registry.subnetToId[s] == e.network.value
  }

  ghost predicate Legal(actions: seq<Action>, ttl: nat) {
    forall i :: 0 <= i < |actions| && actions[i].Resolve? ==>
      LookedUp(After(actions[..i], ttl).registry, actions[i].event)
  }

  ghost predicate AllRefer(entries: Entries, networks: map<nat, NetworkInfo>) {
    forall k :: k in entries ==> entries[k].network.None? || entries[k].network.value in networks
  }

  lemma RegisteringKeepsNetworks(r: Registry, name: string, subnet: string)
    ensures forall id :: id in r.networks ==> id in Registered(r, name, subnet).networks
    ensures IdsKnown(r) ==> IdsKnown(Registered(r, name, subnet))
  {
  }

  /** Every id handed out is a key of the registry; keys are never taken away, even once ids repeat. */
  predicate IdsKnown(r: Registry) {
    forall s :: s in r.subnetToId ==> r.subnetToId[s] in r.networks
  }

  /** In every run every entry refers to no network or to a registered one. */
  lemma {:induction false} EntriesRefer(actions: seq<Action>, ttl: nat)
    requires Legal(actions, ttl)
    ensures var d := After(actions, ttl); IdsKnown(d.registry) && AllRefer(d.entries, d.registry.networks)
  {
    if actions != [] {
      var n := |actions| - 1;
      var earlier, d := actions[..n], After(actions[..n], ttl);
      assert forall i :: 0 <= i < n ==> earlier[..i] == actions[..i];
      EntriesRefer(earlier, ttl);
      match actions[n] {
        case Register(name, subnet) =>
          RegisteringKeepsNetworks(d.registry, name, subnet);
        case Resolve(e) =>
          assert LookedUp(After(actions[..n], ttl).registry, actions[n].event);
      }
    }
  }

  /** A line shows an entry: its domain and origin, its network, and its count, time and verdict. */
  predicate Shows(r: Record, key: Key, entry: Entry) {
    r.domain == key.0 && r.ip == key.1 && r.network == entry.network && r.entry == entry
  }

  ghost predicate ShowsSome(r: Record, entries: Entries) {
    exists k :: k in entries && Shows(r, k, entries[k])
  }

  predicate SameKey(r: Record, s: Record) {
    r.domain == s.domain && r.ip == s.ip
  }

  /** So in every run of registrations and resolves each entry is shown by exactly one line of the report, and each
      line shows an entry. */
  lemma EveryEntryIsListed(actions: seq<Action>, ttl: nat, records: seq<Record>)
    requires Legal(actions, ttl)
    requires ReportOf(records, After(actions, ttl).entries, After(actions, ttl).registry.networks)
    ensures var entries := After(actions, ttl).entries;
      && (forall k :: k in entries ==> exists i :: 0 <= i < |records| && Shows(records[i], k, entries[k]))
      && (forall i, j :: 0 <= i < |records| && 0 <= j < |records| && SameKey(records[i], records[j]) ==> i == j)
      && (forall r :: r in records ==> ShowsSome(r, entries))
  {
    EntriesRefer(actions, ttl);
    var entries := After(actions, ttl).entries;
    forall k | k in entries ensures exists i :: 0 <= i < |records| && Shows(records[i], k, entries[k]) {
      EntryIsListed(entries, After(actions, ttl).registry.networks, records, k);
    }
    forall r | r in records ensures ShowsSome(r, entries) {
      assert IsItem(entries, r);
      assert Shows(r, (r.domain, r.ip), entries[(r.domain, r.ip)]);
    }
    forall i, j | 0 <= i < |records| && 0 <= j < |records| && SameKey(records[i], records[j]) ensures i == j {
      assert IsItem(entries, records[i]) && IsItem(entries, records[j]);
      assert records[i] == records[j];
    }
  }

  lemma EntryIsListed(entries: Entries, networks: map<nat, NetworkInfo>, records: seq<Record>, k: Key)
    requires ReportOf(records, entries, networks) && AllRefer(entries, networks) && k in entries
    ensures exists i :: 0 <= i < |records| && Shows(records[i], k, entries[k])
  {
    var r := Record(entries[k].network, k.1, k.0, entries[k]);
    assert (r.domain, r.ip) == k;
    assert IsItem(entries, r);
    var i :| 0 <= i < |records| && records[i] == r;
  }
}
