/** Networks by subnet and by id (src/stats.rs), and which network an origin belongs to. */
module Registry {
  import opened Text
  import opened Bits
  import opened Addresses
  import Docker
  import Fnv

  datatype NetworkInfo = NetworkInfo(name: string, subnet: string)

  datatype Registry = Registry(subnetToId: map<string, nat>, networks: map<nat, NetworkInfo>, nextId: nat)

  /** `fetch_add` on a 32-bit counter wraps. */
  function Registered(r: Registry, name: string, subnet: string): Registry {
    if subnet in r.subnetToId then
      r.(networks := r.networks[r.subnetToId[subnet] := NetworkInfo(name, subnet)])
    else
      Registry(r.subnetToId[subnet := r.nextId], r.networks[r.nextId := NetworkInfo(name, subnet)],
               (r.nextId + 1) % TWO32)
  }

  const EMPTY := Registry(map[], map[], 1)

  class NetworkRegistry {
    var subnetToId: map<string, nat>
    var networks: map<nat, NetworkInfo>
    var nextId: nat

    function State(): Registry
      reads this
    {
      Registry(subnetToId, networks, nextId)
    }

    constructor ()
      ensures State() == EMPTY
    {
      subnetToId, networks, nextId := map[], map[], 1;
    }

    method RegisterNetwork(name: string, subnet: string)
      modifies this
      ensures State() == Registered(old(State()), name, subnet)
    {
      if subnet in subnetToId {
        networks := networks[subnetToId[subnet] := NetworkInfo(name, subnet)];
        return;
      }
      var id := nextId;
      nextId := (nextId + 1) % TWO32;
      subnetToId := subnetToId[subnet := id];
      networks := networks[id := NetworkInfo(name, subnet)];
    }
  }

  // ---------- the two maps stay in step ----------

  /** The ids handed out by the first `n` registrations. */
  predicate Issued(id: nat, n: nat) {
    (1 <= id <= n && id < TWO32) || (id == 0 && n >= TWO32)
  }

  /** Each map is the inverse of the other. */
  ghost predicate Inverse(r: Registry) {
    && (forall s :: s in r.subnetToId ==> r.subnetToId[s] in r.networks && r.networks[r.subnetToId[s]].subnet == s)
    && (forall id :: id in r.networks ==>
          r.networks[id].subnet in r.subnetToId && r.subnetToId[r.networks[id].subnet] == id)
  }

  /** And the counter is past every id in use. */
  ghost predicate InStep(r: Registry) {
    var n := |r.subnetToId|;
    && n <= TWO32 && r.nextId == (n + 1) % TWO32 && Inverse(r)
    && (forall id :: id in r.networks <==> Issued(id, n))
  }

  /** Inverse means: ids are unique, and they are exactly the registered networks. */
  lemma InverseMeaning(r: Registry)
    requires Inverse(r)
    ensures forall s, t :: s in r.subnetToId && t in r.subnetToId && s != t ==> r.subnetToId[s] != r.subnetToId[t]
    ensures r.subnetToId.Values == r.networks.Keys
  {
    forall id | id in r.networks.Keys ensures id in r.subnetToId.Values {
      assert r.subnetToId[r.networks[id].subnet] == id;
    }
  }

  lemma RenamingKeepsStep(r: Registry, name: string, subnet: string)
    requires InStep(r) && subnet in r.subnetToId
    ensures InStep(Registered(r, name, subnet))
  {
  }

  lemma NextIdIsNew(n: nat)
    requires n < TWO32
    ensures !Issued((n + 1) % TWO32, n)
    ensures forall id :: Issued(id, n + 1) <==> Issued(id, n) || id == (n + 1) % TWO32
  {
  }

  lemma NewSubnetKeepsStep(r: Registry, name: string, subnet: string)
    requires InStep(r) && subnet !in r.subnetToId && |r.subnetToId| < TWO32
    ensures InStep(Registered(r, name, subnet))
  {
    NextIdIsNew(|r.subnetToId|);
    var r' := Registered(r, name, subnet);
    assert |r'.subnetToId| == |r.subnetToId| + 1;
    assert r.nextId !in r.networks;
    forall s | s in r'.subnetToId ensures r'.subnetToId[s] in r'.networks && r'.networks[r'.subnetToId[s]].subnet == s {
      if s != subnet {
        assert r.subnetToId[s] in r.networks;
      }
    }
  }

  /** With every id in use the counter has come round, and a new subnet takes over an id in use. */
  lemma FullRegistryBreaks(r: Registry, name: string, subnet: string)
    requires InStep(r) && subnet !in r.subnetToId && |r.subnetToId| == TWO32
    ensures !Inverse(Registered(r, name, subnet))
  {
    assert r.nextId == 1 && Issued(1, |r.subnetToId|) && 1 in r.networks;
    var other := r.networks[1].subnet;
    assert other in r.subnetToId && r.subnetToId[other] == 1 && other != subnet;
    var r' := Registered(r, name, subnet);
    assert r'.subnetToId[other] == 1 && r'.networks[1].subnet == subnet;
  }

  /** A registration keeps the maps in step exactly when the subnet is known or fewer than 2^32 are. */
  lemma StepKeptIff(r: Registry, name: string, subnet: string)
    requires InStep(r)
    ensures InStep(Registered(r, name, subnet)) <==> subnet in r.subnetToId || |r.subnetToId| < TWO32
  {
    if subnet in r.subnetToId {
      RenamingKeepsStep(r, name, subnet);
    } else if |r.subnetToId| < TWO32 {
      NewSubnetKeepsStep(r, name, subnet);
    } else {
      FullRegistryBreaks(r, name, subnet);
    }
  }

  // ---------- whole runs ----------

  function Enrolled(regs: seq<NetworkInfo>): Registry {
    if regs == [] then EMPTY
    else Registered(Enrolled(regs[..|regs| - 1]), regs[|regs| - 1].name, regs[|regs| - 1].subnet)
  }

  function SubnetsOf(regs: seq<NetworkInfo>): set<string> {
    set i | 0 <= i < |regs| :: regs[i].subnet
  }

  lemma SubnetsGrow(regs: seq<NetworkInfo>)
    requires regs != []
    ensures SubnetsOf(regs) == SubnetsOf(regs[..|regs| - 1]) + {regs[|regs| - 1].subnet}
  {
    var earlier := regs[..|regs| - 1];
    forall s | s in SubnetsOf(regs) ensures s in SubnetsOf(earlier) + {regs[|regs| - 1].subnet} {
      var i :| 0 <= i < |regs| && regs[i].subnet == s;
      if i < |earlier| {
        assert earlier[i] == regs[i];
      }
    }
    forall s | s in SubnetsOf(earlier) ensures s in SubnetsOf(regs) {
      var i :| 0 <= i < |earlier| && earlier[i].subnet == s;
      assert regs[i] == earlier[i];
    }
  }

  lemma {:induction false} EnrolledSubnets(regs: seq<NetworkInfo>)
    ensures Enrolled(regs).subnetToId.Keys == SubnetsOf(regs)
    ensures |Enrolled(regs).subnetToId| == |SubnetsOf(regs)|
    ensures Enrolled(regs).nextId < TWO32 && forall s :: s in SubnetsOf(regs) ==> Enrolled(regs).subnetToId[s] < TWO32
  {
    if regs != [] {
      EnrolledSubnets(regs[..|regs| - 1]);
      SubnetsGrow(regs);
    }
    assert |Enrolled(regs).subnetToId| == |Enrolled(regs).subnetToId.Keys|;
  }

  lemma {:induction false} EnrolledInStep(regs: seq<NetworkInfo>)
    requires |SubnetsOf(regs)| <= TWO32
    ensures InStep(Enrolled(regs))
  {
    if regs != [] {
      var earlier, last := regs[..|regs| - 1], regs[|regs| - 1];
      SubnetsCounted(regs);
      EnrolledSubnets(earlier);
      EnrolledInStep(earlier);
      StepKeptIff(Enrolled(earlier), last.name, last.subnet);
    }
  }

  lemma SubnetsCounted(regs: seq<NetworkInfo>)
    requires regs != []
    ensures var earlier, last := SubnetsOf(regs[..|regs| - 1]), regs[|regs| - 1].subnet;
      |SubnetsOf(regs)| == |earlier| + if last in earlier then 0 else 1
  {
    SubnetsGrow(regs);
    var earlier, last := SubnetsOf(regs[..|regs| - 1]), regs[|regs| - 1].subnet;
    if last in earlier {
      assert earlier + {last} == earlier;
    }
  }

  /** No more keys than there are values. */
  lemma {:induction false} InjectionBound(m: map<string, nat>, n: nat)
    requires forall s :: s in m ==> m[s] < n
    requires forall s, t :: s in m && t in m && s != t ==> m[s] != m[t]
    ensures |m| <= n
  {
    if n > 0 {
      if s :| s in m && m[s] == n - 1 {
        InjectionBound(m - {s}, n - 1);
        assert m.Keys == (m - {s}).Keys + {s};
        assert |m| == |m.Keys| && |m - {s}| == |(m - {s}).Keys|;
      } else {
        InjectionBound(m, n - 1);
      }
    } else {
      assert m == map[];
    }
  }

  /** Over every run of registrations the two maps are inverse to each other exactly when at most 2^32 different
      subnets were registered. */
  lemma RegistryRunIff(regs: seq<NetworkInfo>)
    ensures Inverse(Enrolled(regs)) <==> |SubnetsOf(regs)| <= TWO32
  {
    EnrolledSubnets(regs);
    if |SubnetsOf(regs)| <= TWO32 {
      EnrolledInStep(regs);
    }
    if Inverse(Enrolled(regs)) {
      InverseMeaning(Enrolled(regs));
      InjectionBound(Enrolled(regs).subnetToId, TWO32);
    }
  }

  lemma {:induction false} DistinctSubnets(regs: seq<NetworkInfo>)
    requires forall i, j :: 0 <= i < j < |regs| ==> regs[i].subnet != regs[j].subnet
    ensures |SubnetsOf(regs)| == |regs|
  {
    if regs != [] {
      DistinctSubnets(regs[..|regs| - 1]);
      SubnetsCounted(regs);
    }
  }

  /** The first 2^32 are single addresses, then comes a /31. */
  function ManySubnets(i: nat): string {
    if i < TWO32 then CidrText(i, 32) else CidrText(0, 31)
  }

  /** Such runs exist: 2^32 + 1 subnets of single addresses and one block put the maps out of step. */
  lemma TooManySubnets() returns (regs: seq<NetworkInfo>)
    ensures |regs| == TWO32 + 1 && !Inverse(Enrolled(regs))
  {
    regs := seq(TWO32 + 1, i requires 0 <= i < TWO32 + 1 => NetworkInfo("", ManySubnets(i)));
    forall i, j | 0 <= i < j < |regs| ensures regs[i].subnet != regs[j].subnet {
      if ManySubnets(i) == ManySubnets(j) {
        CidrTextInjective(i, 32, if j < TWO32 then j else 0, if j < TWO32 then 32 else 31);
      }
    }
    DistinctSubnets(regs);
    RegistryRunIff(regs);
  }

  // ---------- attribution ----------

  /** A registered subnet that holds the origin. */
  predicate Candidate(r: Registry, origin: IpAddr, subnet: string, v6: V6Parser) {
    subnet in r.subnetToId && IpInSubnet(origin, subnet, v6)
  }

  /** Search the subnets in an arbitrary order; the first hit gives the id. */
  method FindNetwork(r: Registry, origin: IpAddr, v6: V6Parser) returns (id: Option<nat>)
    ensures id.Some? ==> exists s :: Candidate(r, origin, s, v6) && r.subnetToId[s] == id.value
    ensures id.None? ==> forall s :: !Candidate(r, origin, s, v6)
  {
    var todo := r.subnetToId.Keys;
    while todo != {}
      invariant todo <= r.subnetToId.Keys
      invariant forall s :: s in r.subnetToId && s !in todo ==> !IpInSubnet(origin, s, v6)
      decreases todo
    {
      var subnet :| subnet in todo;
      if IpInSubnet(origin, subnet, v6) {
        assert Candidate(r, origin, subnet, v6);
        return Some(r.subnetToId[subnet]);
      }
      todo := todo - {subnet};
    }
    return None;
  }

  /** What the command line registers: the generated subnet of a Docker network, or the /32 of a rootless source. */
  datatype Registration = DockerNetwork(name: string, hash: nat) | RootlessSource(name: string, source: U32)

  function SubnetText(reg: Registration): string {
    match reg
    case DockerNetwork(name, hash) => Docker.SubnetCidr(Docker.PlanFor(name, hash, 0))
    case RootlessSource(_, source) => CidrText(source, 32)
  }

  predicate Allocatable(reg: Registration) {
    reg.RootlessSource? ==> Fnv.IsManaged(reg.source)
  }

  function Infos(regs: seq<Registration>): (infos: seq<NetworkInfo>)
    ensures |infos| == |regs|
    ensures forall i :: 0 <= i < |regs| ==> infos[i] == NetworkInfo(regs[i].name, SubnetText(regs[i]))
  {
    seq(|regs|, i requires 0 <= i < |regs| => NetworkInfo(regs[i].name, SubnetText(regs[i])))
  }

  function AfterAll(regs: seq<Registration>): Registry {
    Enrolled(Infos(regs))
  }

  lemma RegisteredSubnets(regs: seq<Registration>, s: string)
    requires s in AfterAll(regs).subnetToId
    ensures exists i :: 0 <= i < |regs| && SubnetText(regs[i]) == s
  {
    EnrolledSubnets(Infos(regs));
    var i :| 0 <= i < |Infos(regs)| && Infos(regs)[i].subnet == s;
    assert SubnetText(regs[i]) == s;
  }

  /** Subnets the program can generate, numbered: 256 Docker blocks, then the managed addresses. */
  function Generated(i: nat): string {
    if i < 256 then CidrText(Docker.SubnetBase(i), 28)
    else if i < 256 + Fnv.MANAGED then CidrText(Fnv.BASE + 2 + (i - 256), 32) else ""
  }

  lemma SubnetIsGenerated(reg: Registration) returns (i: nat)
    requires Allocatable(reg)
    ensures i < 256 + Fnv.MANAGED && SubnetText(reg) == Generated(i)
  {
    match reg
    case DockerNetwork(name, hash) =>
      i :| 0 <= i < 256 && Docker.PlanFor(name, hash, 0).subnet == Docker.SubnetBase(i);
    case RootlessSource(_, source) => i := 256 + (source - (Fnv.BASE + 2));
  }

  /** No more members than numbers below the bound. */
  lemma {:induction false} NumberedBound(s: set<string>, number: nat -> string, n: nat)
    requires forall x :: x in s ==> exists i: nat :: i < n && number(i) == x
    ensures |s| <= n
  {
    if n > 0 {
      var rest := s - {number(n - 1)};
      forall x | x in rest ensures exists i: nat :: i < n - 1 && number(i) == x {
        var i: nat :| i < n && number(i) == x;
      }
      NumberedBound(rest, number, n - 1);
      assert |s| <= |rest + {number(n - 1)}| by {
        SubsetBound(s, rest + {number(n - 1)});
      }
    } else {
      assert s == {};
    }
  }

  lemma {:induction false} SubsetBound(a: set<string>, b: set<string>)
    requires a <= b
    ensures |a| <= |b|
  {
    if a != {} {
      var x :| x in a;
      SubsetBound(a - {x}, b - {x});
    }
  }

  /** Runs of the command line never get there: it generates at most 256 + 131069 different subnets, so the maps stay
      in step through any number of its registrations. */
  lemma GeneratedSubnetsStayInStep(regs: seq<Registration>)
    requires forall i :: 0 <= i < |regs| ==> Allocatable(regs[i])
    ensures |AfterAll(regs).subnetToId| <= 256 + Fnv.MANAGED && InStep(AfterAll(regs))
  {
    var infos := Infos(regs);
    forall x | x in SubnetsOf(infos) ensures exists i: nat :: i < 256 + Fnv.MANAGED && Generated(i) == x {
      var k :| 0 <= k < |infos| && infos[k].subnet == x;
      var i := SubnetIsGenerated(regs[k]);
    }
    NumberedBound(SubnetsOf(infos), Generated, 256 + Fnv.MANAGED);
    EnrolledSubnets(infos);
    EnrolledInStep(infos);
  }

  /** The addresses of a registration. */
  predicate Holds(reg: Registration, ip: IpAddr) {
    match reg
    case DockerNetwork(name, hash) => InBlock(ip, Docker.PlanFor(name, hash, 0).subnet, 28)
    case RootlessSource(_, source) => InBlock(ip, source, 32)
  }

  lemma SubnetTextHolds(reg: Registration, origin: IpAddr, v6: V6Parser)
    ensures IpInSubnet(origin, SubnetText(reg), v6) == Holds(reg, Unmapped(origin))
  {
    match reg
    case DockerNetwork(name, hash) => CidrTextMeaning(Unmapped(origin), Docker.PlanFor(name, hash, 0).subnet, 28, v6);
    case RootlessSource(_, source) => CidrTextMeaning(Unmapped(origin), source, 32, v6);
  }

  /** Generated blocks and managed addresses overlap only when they are the same. */
  lemma BlocksDisjoint(a: Registration, b: Registration, ip: IpAddr)
    requires Allocatable(a) && Allocatable(b) && Holds(a, ip) && Holds(b, ip)
    ensures SubnetText(a) == SubnetText(b)
  {
    assert Pow2(32 - 28) == 16 by {
      assert Pow2(2) == 4;
    }
    if a.RootlessSource? {
      SingleAddress(ip, a.source);
    } else {
      DockerBlock(a, ip);
    }
    if b.RootlessSource? {
      SingleAddress(ip, b.source);
    } else {
      DockerBlock(b, ip);
    }
  }

  lemma DockerBlock(reg: Registration, ip: IpAddr)
    requires reg.DockerNetwork? && Holds(reg, ip)
    ensures ip.V4? && 0xAC1E_0000 <= ip.bits4 < 0xAC1F_0000
    ensures Docker.PlanFor(reg.name, reg.hash, 0).subnet == ip.bits4 / 256 * 256
  {
    assert Pow2(32 - 28) == 16 by {
      assert Pow2(2) == 4;
    }
    var subnet := Docker.PlanFor(reg.name, reg.hash, 0).subnet;
    assert subnet % 256 == 0 && ip.bits4 / 16 == subnet / 16;
    assert ip.bits4 / 256 == ip.bits4 / 16 / 16 && subnet / 256 == subnet / 16 / 16;
  }

  /** In every run of preparations at most one registered subnet holds any origin, an IPv4-mapped one included; so
      the network found does not depend on the order in which the map is searched. */
  lemma AttributionIsUnique(regs: seq<Registration>, origin: IpAddr, s: string, t: string, v6: V6Parser)
    requires forall i :: 0 <= i < |regs| ==> Allocatable(regs[i])
    requires Candidate(AfterAll(regs), origin, s, v6) && Candidate(AfterAll(regs), origin, t, v6)
    ensures s == t
  {
    RegisteredSubnets(regs, s);
    RegisteredSubnets(regs, t);
    var i :| 0 <= i < |regs| && SubnetText(regs[i]) == s;
    var j :| 0 <= j < |regs| && SubnetText(regs[j]) == t;
    SubnetTextHolds(regs[i], origin, v6);
    SubnetTextHolds(regs[j], origin, v6);
    BlocksDisjoint(regs[i], regs[j], Unmapped(origin));
  }
}
