/** Kernel address sets and the restore payload that fills a policy's pair of sets (src/ipset.rs). */
module Ipset {
  import opened Text
  import opened Addresses

  datatype Family = Inet | Inet6

  datatype KernelSet = KernelSet(family: Family, members: set<IpAddr>)

  type Kernel = map<string, KernelSet>

  datatype Command = Flush(name: string) | Add(name: string, ip: IpAddr)

  function FamilyOf(ip: IpAddr): Family {
    if ip.V4? then Inet else Inet6
  }

  function Ipv6Name(name: string): string {
    name + "-v6"
  }

  lemma Ipv6NameInjective(a: string, b: string)
    ensures Ipv6Name(a) == Ipv6Name(b) <==> a == b
    ensures Ipv6Name(a) != a
  {
    if Ipv6Name(a) == Ipv6Name(b) {
      assert a == Ipv6Name(a)[..|a|] && b == Ipv6Name(b)[..|b|];
    }
    assert |Ipv6Name(a)| != |a|;
  }

  /** The set of the pair an address belongs in. */
  function SetFor(name: string, ip: IpAddr): string {
    if ip.V4? then name else Ipv6Name(name)
  }

  /** One line of `ipset restore`; `None` when the kernel rejects it. */
  function Exec(k: Kernel, c: Command): Option<Kernel> {
    if c.name !in k then None
    else match c
      case Flush(n) => Some(k[n := k[n].(members := {})])
      case Add(n, ip) =>
        if FamilyOf(ip) == k[n].family then Some(k[n := k[n].(members := k[n].members + {ip})]) else None
  }

  function Adds(name: string, ips: seq<IpAddr>): seq<Command> {
    if ips == [] then [] else Adds(name, ips[..|ips| - 1]) + [Add(SetFor(name, ips[|ips| - 1]), ips[|ips| - 1])]
  }

  function Payload(name: string, ips: seq<IpAddr>): seq<Command> {
    [Flush(name), Flush(Ipv6Name(name))] + Adds(name, ips)
  }

  // ---------- the text of a payload ----------

  type V6Printer = U128 -> string

  /** IPv6 text, which stays open here: printed without blanks, unlike IPv4 text, and read back. */
  ghost predicate ReadsBack(show: V6Printer, read: V6Parser) {
    forall b: U128 ::
      && read(show(b)) == Some(b) && ParseV4(show(b)).None?
      && forall c :: c in show(b) ==> c != ' ' && c != '\n'
  }

  function IpText(ip: IpAddr, show: V6Printer): string {
    match ip case V4(a) => FormatV4(a) case V6(b) => show(b)
  }

  function LineFields(c: Command, show: V6Printer): seq<string> {
    match c
    case Flush(n) => ["flush", n]
    case Add(n, ip) => ["add", n, IpText(ip, show), "-exist"]
  }

  function LineText(c: Command, show: V6Printer): string {
    Join(LineFields(c, show), ' ')
  }

  function TextOf(lines: seq<Command>, show: V6Printer): string {
    if lines == [] then "" else LineText(lines[0], show) + "\n" + TextOf(lines[1..], show)
  }

  lemma {:induction false} TextAppend(lines: seq<Command>, c: Command, show: V6Printer)
    ensures TextOf(lines + [c], show) == TextOf(lines, show) + LineText(c, show) + "\n"
  {
    var all := lines + [c];
    if lines == [] {
      assert all[1..] == [];
    } else {
      TextAppend(lines[1..], c, show);
      assert all[0] == lines[0] && all[1..] == lines[1..] + [c];
      Regroup(LineText(lines[0], show) + "\n", TextOf(lines[1..], show), LineText(c, show), "\n");
    }
  }

  lemma Regroup(head: string, middle: string, line: string, end: string)
    ensures head + (middle + line + end) == head + middle + line + end
  {
  }

  lemma FlushTexts(name: string, show: V6Printer)
    ensures TextOf(Payload(name, []), show) == "flush " + name + "\n" + "flush " + Ipv6Name(name) + "\n"
  {
    var lines := Payload(name, []);
    assert lines == [Flush(name), Flush(Ipv6Name(name))] && lines[1..] == [Flush(Ipv6Name(name))];
    assert lines[1..][1..] == [];
    FlushText(name, show);
    FlushText(Ipv6Name(name), show);
    assert TextOf(lines[1..], show) == "flush " + Ipv6Name(name) + "\n";
  }

  lemma FlushText(name: string, show: V6Printer)
    ensures LineText(Flush(name), show) == "flush " + name
  {
    JoinTwo("flush", name);
  }

  lemma AddText(name: string, ip: IpAddr, show: V6Printer)
    ensures LineText(Add(name, ip), show) == "add " + name + " " + IpText(ip, show) + " -exist"
  {
    JoinFour("add", name, IpText(ip, show), "-exist");
  }

  lemma JoinTwo(a: string, b: string)
    ensures Join([a, b], ' ') == (a + " ") + b
  {
    assert [a, b][1..] == [b];
  }

  lemma JoinFour(a: string, b: string, c: string, d: string)
    ensures Join([a, b, c, d], ' ') == (a + " ") + b + " " + c + (" " + d)
  {
    assert [a, b, c, d][1..] == [b, c, d] && [b, c, d][1..] == [c, d];
    JoinTwo(c, d);
    assert Join([b, c, d], ' ') == b + " " + Join([c, d], ' ');
    assert Join([a, b, c, d], ' ') == a + " " + Join([b, c, d], ' ');
  }

  /** The payload string, grown in a loop. */
  method BuildPayload(name: string, ips: seq<IpAddr>, show: V6Printer) returns (payload: string)
    ensures payload == TextOf(Payload(name, ips), show)
  {
    var ipv6Name := Ipv6Name(name);
    payload := "flush " + name + "\n" + "flush " + ipv6Name + "\n";
    FlushTexts(name, show);
    for i := 0 to |ips|
      invariant payload == TextOf(Payload(name, ips[..i]), show)
    {
      var setName := match ips[i] case V4(_) => name case V6(_) => ipv6Name;
      payload := payload + ("add " + setName + " " + IpText(ips[i], show) + " -exist" + "\n");
      AddText(setName, ips[i], show);
      TextAppend(Payload(name, ips[..i]), Add(setName, ips[i]), show);
      assert ips[..i + 1][..i] == ips[..i];
      assert Payload(name, ips[..i + 1]) == Payload(name, ips[..i]) + [Add(setName, ips[i])];
    }
    assert ips[..|ips|] == ips;
  }

  /** How `ipset restore` reads a line. */
  function ReadCommand(line: string, read: V6Parser): Option<Command> {
    var fields := Split(line, ' ');
    if |fields| == 2 && fields[0] == "flush" then Some(Flush(fields[1]))
    else if |fields| == 4 && fields[0] == "add" && fields[3] == "-exist" then
      match ParseIp(fields[2], read) case Some(ip) => Some(Add(fields[1], ip)) case None => None
    else None
  }

  /** All lines up to the last newline. */
  function ReadCommands(lines: seq<string>, read: V6Parser): Option<seq<Command>> {
    if |lines| <= 1 then Some([])
    else
      match (ReadCommand(lines[0], read), ReadCommands(lines[1..], read))
      case (Some(c), Some(rest)) => Some([c] + rest)
      case _ => None
  }

  predicate CleanSetName(name: string) {
    ' ' !in name && '\n' !in name
  }

  lemma IpTextReads(ip: IpAddr, show: V6Printer, read: V6Parser)
    requires ReadsBack(show, read)
    ensures ParseIp(IpText(ip, show), read) == Some(ip)
    ensures ' ' !in IpText(ip, show) && '\n' !in IpText(ip, show)
  {
    match ip
    case V4(a) =>
      V4RoundTrip(a);
      V4TextChars(a);
    case V6(b) =>
      assert read(show(b)) == Some(b);
  }

  lemma CommandReads(c: Command, show: V6Printer, read: V6Parser)
    requires ReadsBack(show, read) && CleanSetName(c.name)
    ensures ReadCommand(LineText(c, show), read) == Some(c) && '\n' !in LineText(c, show)
  {
    match c
    case Flush(n) =>
      SplitJoin(["flush", n], ' ');
      JoinAvoids(["flush", n], ' ', '\n');
    case Add(n, ip) =>
      IpTextReads(ip, show, read);
      AddReads(n, IpText(ip, show), ip, read);
  }

  lemma AddReads(name: string, text: string, ip: IpAddr, read: V6Parser)
    requires CleanSetName(name) && CleanSetName(text) && ParseIp(text, read) == Some(ip)
    ensures ReadCommand(Join(["add", name, text, "-exist"], ' '), read) == Some(Add(name, ip))
    ensures '\n' !in Join(["add", name, text, "-exist"], ' ')
  {
    var fields := ["add", name, text, "-exist"];
    SplitJoin(fields, ' ');
    JoinAvoids(fields, ' ', '\n');
  }

  lemma {:induction false} CommandsRead(lines: seq<Command>, show: V6Printer, read: V6Parser)
    requires ReadsBack(show, read) && forall i :: 0 <= i < |lines| ==> CleanSetName(lines[i].name)
    ensures ReadCommands(Split(TextOf(lines, show), '\n'), read) == Some(lines)
  {
    if lines != [] {
      var line, rest := LineText(lines[0], show), TextOf(lines[1..], show);
      CommandReads(lines[0], show, read);
      CommandsRead(lines[1..], show, read);
      SplitAppend(line, rest, '\n');
      SplitPlain(line, '\n');
      assert line + "\n" + rest == line + ['\n'] + rest;
      assert ([line] + Split(rest, '\n'))[1..] == Split(rest, '\n');
      assert lines == [lines[0]] + lines[1..];
    }
  }

  /** The text of a payload is read as exactly the commands it stands for. */
  lemma PayloadReadsBack(name: string, ips: seq<IpAddr>, show: V6Printer, read: V6Parser)
    requires ReadsBack(show, read) && CleanSetName(name)
    ensures ReadCommands(Split(TextOf(Payload(name, ips), show), '\n'), read) == Some(Payload(name, ips))
  {
    var lines := Payload(name, ips);
    forall i | 0 <= i < |lines| ensures CleanSetName(lines[i].name) {
      LineNames(name, ips, i);
    }
    CommandsRead(lines, show, read);
  }

  lemma {:induction false} LineNames(name: string, ips: seq<IpAddr>, i: nat)
    requires i < |Payload(name, ips)|
    ensures Payload(name, ips)[i].name == name || Payload(name, ips)[i].name == Ipv6Name(name)
    decreases |ips|
  {
    if ips != [] {
      PayloadStep(name, ips);
      if i < |Payload(name, ips)| - 1 {
        LineNames(name, ips[..|ips| - 1], i);
        assert Payload(name, ips)[i] == Payload(name, ips[..|ips| - 1])[i];
      }
    }
  }

  // ---------- execution ----------

  /** Run lines in order, stopping at the first that is rejected. */
  function Restore(k: Kernel, lines: seq<Command>): (Kernel, bool) {
    if lines == [] then (k, true)
    else
      var (before, ok) := Restore(k, lines[..|lines| - 1]);
      if !ok then (before, false)
      else match Exec(before, lines[|lines| - 1])
        case Some(after) => (after, true)
        case None => (before, false)
  }

  // ---------- what a whole payload does ----------

  function OfFamily(ips: set<IpAddr>, family: Family): set<IpAddr> {
    set ip | ip in ips && FamilyOf(ip) == family
  }

  /** The IPv4 and IPv6 parts of a set of addresses. */
  function Pair(ips: set<IpAddr>): (KernelSet, KernelSet) {
    (KernelSet(Inet, OfFamily(ips, Inet)), KernelSet(Inet6, OfFamily(ips, Inet6)))
  }

  /** Both sets of the policy exist, each of its family. */
  predicate HasPair(k: Kernel, name: string) {
    && name in k && Ipv6Name(name) in k
    && k[name].family == Inet && k[Ipv6Name(name)].family == Inet6
  }

  function PairOf(k: Kernel, name: string): (KernelSet, KernelSet)
    requires HasPair(k, name)
  {
    (k[name], k[Ipv6Name(name)])
  }

  function WithPair(k: Kernel, name: string, pair: (KernelSet, KernelSet)): Kernel {
    k[name := pair.0][Ipv6Name(name) := pair.1]
  }

  lemma PairAdd(ips: set<IpAddr>, ip: IpAddr)
    ensures Pair(ips + {ip}) ==
      if ip.V4? then (KernelSet(Inet, Pair(ips).0.members + {ip}), Pair(ips).1)
      else (Pair(ips).0, KernelSet(Inet6, Pair(ips).1.members + {ip}))
  {
    assert OfFamily(ips + {ip}, FamilyOf(ip)) == OfFamily(ips, FamilyOf(ip)) + {ip};
    assert OfFamily(ips + {ip}, if ip.V4? then Inet6 else Inet) == OfFamily(ips, if ip.V4? then Inet6 else Inet);
  }

  lemma RestoreFlushes(k: Kernel, name: string)
    requires HasPair(k, name)
    ensures Restore(k, Payload(name, [])) == (WithPair(k, name, Pair({})), true)
  {
    Ipv6NameInjective(name, name);
    var lines := Payload(name, []);
    assert lines == [Flush(name), Flush(Ipv6Name(name))];
    assert lines[..1] == [Flush(name)] && lines[..1][..0] == [];
    assert Restore(k, lines[..1]) == (k[name := KernelSet(Inet, {})], true);
    assert OfFamily({}, Inet) == {} && OfFamily({}, Inet6) == {};
  }

  lemma AddExtendsPair(k: Kernel, name: string, ips: set<IpAddr>, ip: IpAddr)
    ensures Exec(WithPair(k, name, Pair(ips)), Add(SetFor(name, ip), ip)) == Some(WithPair(k, name, Pair(ips + {ip})))
  {
    Ipv6NameInjective(name, name);
    PairAdd(ips, ip);
    var before, after := WithPair(k, name, Pair(ips)), WithPair(k, name, Pair(ips + {ip}));
    var s := SetFor(name, ip);
    assert before[s := KernelSet(FamilyOf(ip), before[s].members + {ip})] == after;
  }

  lemma PayloadStep(name: string, ips: seq<IpAddr>)
    requires ips != []
    ensures var lines, n := Payload(name, ips), |ips| - 1;
      lines != [] && lines[..|lines| - 1] == Payload(name, ips[..n])
      && lines[|lines| - 1] == Add(SetFor(name, ips[n]), ips[n])
  {
  }

  lemma {:induction false} RestorePrefix(k: Kernel, name: string, ips: seq<IpAddr>)
    requires HasPair(k, name)
    ensures Restore(k, Payload(name, ips)) == (WithPair(k, name, Pair(ToSet(ips))), true)
    decreases |ips|
  {
    if ips == [] {
      RestoreFlushes(k, name);
      assert ToSet(ips) == {};
    } else {
      var earlier, ip := ips[..|ips| - 1], ips[|ips| - 1];
      RestorePrefix(k, name, earlier);
      PayloadStep(name, ips);
      AddExtendsPair(k, name, ToSet(earlier), ip);
      assert ToSet(ips) == ToSet(earlier) + {ip};
    }
  }

  /** A complete restore leaves the pair of sets holding exactly the two parts of the addresses, whatever
      order they were listed in and whatever the sets held, and touches no other set. */
  lemma RestoreFillsPair(k: Kernel, name: string, ips: seq<IpAddr>)
    requires HasPair(k, name)
    ensures var (after, ok) := Restore(k, Payload(name, ips));
      && ok
      && HasPair(after, name) && PairOf(after, name) == Pair(ToSet(ips))
      && after.Keys == k.Keys
      && forall s :: s in k && s != name && s != Ipv6Name(name) ==> after[s] == k[s]
  {
    RestorePrefix(k, name, ips);
    Ipv6NameInjective(name, name);
  }

  /** The two parts determine the set. */
  lemma PairInjective(a: set<IpAddr>, b: set<IpAddr>)
    requires Pair(a) == Pair(b)
    ensures a == b
  {
    forall ip ensures ip in a <==> ip in b {
      assert ip in a <==> ip in OfFamily(a, FamilyOf(ip));
      assert ip in b <==> ip in OfFamily(b, FamilyOf(ip));
    }
  }
}
