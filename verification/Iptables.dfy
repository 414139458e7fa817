/** The iptables command line as src/helper.rs writes it, what each command does to the host, and
    the delete-then-insert step `ensure_rule_present`. */
module Iptables {
  import opened Text
  import opened Addresses
  import opened Firewall

  // ---------- rules as arguments ----------

  function ProtocolName(p: Protocol): string {
    match p
    case Udp => "udp"
    case Tcp => "tcp"
    case Icmp6 => "ipv6-icmp"
    case OtherProtocol(n) => Decimal(n)
  }

  function ParseProtocol(s: string): Option<Protocol> {
    if s == "udp" then Some(Udp)
    else if s == "tcp" then Some(Tcp)
    else if s == "ipv6-icmp" then Some(Icmp6)
    else match ParseDigits(s) case Some(n) => Some(OtherProtocol(n)) case None => None
  }

  function MatchArgs(m: Match): seq<string> {
    match m
    case Source(cidr) => ["-s", cidr]
    case Dest(cidr) => ["-d", cidr]
    case Proto(p) => ["-p", ProtocolName(p)]
    case DestPort(port) => ["--dport", Decimal(port)]
    case OutInterface(name) => ["-o", name]
    case Established => ["-m", "conntrack", "--ctstate", "ESTABLISHED,RELATED"]
    case DestInSet(name) => ["-m", "set", "--match-set", name, "dst"]
    case IcmpType(kind) => ["-m", "icmp6", "--icmpv6-type", kind]
    case Comment(text) => ["-m", "comment", "--comment", text]
    case Foreign(text) => [text]
  }

  function TargetArgs(t: Target): seq<string> {
    match t
    case Accept => ["-j", "ACCEPT"]
    case Drop => ["-j", "DROP"]
    case Redirect(port) => ["-j", "REDIRECT", "--to-ports", Decimal(port)]
    case Dnat(to) => ["-j", "DNAT", "--to-destination", to]
    case Masquerade => ["-j", "MASQUERADE"]
    case Jump(chain) => ["-j", chain]
    case Goto(chain) => ["-g", chain]
    case Return => ["-j", "RETURN"]
    case Stop(text) => ["-j", text]
    case Pass(text) => ["-j", text]
  }

  function MatchesArgs(ms: seq<Match>): seq<string> {
    if ms == [] then [] else MatchArgs(ms[0]) + MatchesArgs(ms[1..])
  }

  function RuleArgs(r: Rule): seq<string> {
    MatchesArgs(r.matches) + TargetArgs(r.target)
  }

  function ParseTarget(args: seq<string>): Option<Target> {
    if |args| == 2 && args[0] == "-j" then
      if args[1] == "ACCEPT" then Some(Accept)
      else if args[1] == "DROP" then Some(Drop)
      else if args[1] == "MASQUERADE" then Some(Masquerade)
      else if args[1] == "RETURN" then Some(Return)
      else Some(Jump(args[1]))
    else if |args| == 4 && args[0] == "-j" && args[1] == "REDIRECT" && args[2] == "--to-ports" then
      match ParseDigits(args[3]) case Some(n) => Some(Redirect(n)) case None => None
    else if |args| == 4 && args[0] == "-j" && args[1] == "DNAT" && args[2] == "--to-destination" then
      Some(Dnat(args[3]))
    else None
  }

  /** One match at the front, and how many arguments it takes. */
  function ParseMatch(args: seq<string>): (r: Option<(Match, nat)>)
    ensures r.Some? ==> 1 <= r.value.1 <= |args| && |args[0]| >= 1 && args[0][0] == '-'
  {
    if |args| < 2 then None
    else if args[0] == "-s" then Some((Source(args[1]), 2))
    else if args[0] == "-d" then Some((Dest(args[1]), 2))
    else if args[0] == "-o" then Some((OutInterface(args[1]), 2))
    else if args[0] == "-p" then
      match ParseProtocol(args[1]) case Some(p) => Some((Proto(p), 2)) case None => None
    else if args[0] == "--dport" then
      match ParseDigits(args[1]) case Some(n) => Some((DestPort(n), 2)) case None => None
    else if args[0] == "-m" then ParseModule(args)
    else None
  }

  function ParseModule(args: seq<string>): (r: Option<(Match, nat)>)
    requires |args| >= 2 && args[0] == "-m"
    ensures r.Some? ==> 1 <= r.value.1 <= |args|
  {
    if |args| < 4 then None
    else if args[1] == "comment" && args[2] == "--comment" then Some((Comment(args[3]), 4))
    else if args[1] == "conntrack" && args[2] == "--ctstate" && args[3] == "ESTABLISHED,RELATED" then
      Some((Established, 4))
    else if args[1] == "icmp6" && args[2] == "--icmpv6-type" then Some((IcmpType(args[3]), 4))
    else if |args| >= 5 && args[1] == "set" && args[2] == "--match-set" && args[4] == "dst" then
      Some((DestInSet(args[3]), 5))
    else None
  }

  function ParseRule(args: seq<string>): (r: Option<Rule>)
    ensures r.Some? ==> |args| >= 2 && |args[0]| >= 1 && args[0][0] == '-'
  {
    if |args| >= 2 && args[0] == "-j" then
      match ParseTarget(args) case Some(t) => Some(Rule([], t)) case None => None
    else
      match ParseMatch(args)
      case None => None
      case Some((m, n)) =>
        match ParseRule(args[n..])
        case None => None
        case Some(r) => Some(Rule([m] + r.matches, r.target))
  }

  /** The rules this program writes. */
  predicate Printable(r: Rule) {
    && (forall i :: 0 <= i < |r.matches| ==> PrintableMatch(r.matches[i]))
    && PrintableTarget(r.target)
  }

  predicate PrintableMatch(m: Match) {
    !m.Foreign? && (m.Proto? ==> !m.protocol.OtherProtocol?)
  }

  predicate PrintableTarget(t: Target) {
    match t
    case Goto(_) | Stop(_) | Pass(_) => false
    case Jump(c) => c !in ["ACCEPT", "DROP", "MASQUERADE", "RETURN"]
    case _ => true
  }

  lemma ParseMatchArgs(m: Match, rest: seq<string>)
    requires PrintableMatch(m)
    ensures ParseMatch(MatchArgs(m) + rest) == Some((m, |MatchArgs(m)|))
    ensures (MatchArgs(m) + rest)[0] != "-j"
    ensures (MatchArgs(m) + rest)[|MatchArgs(m)|..] == rest
  {
    var args := MatchArgs(m) + rest;
    assert args[|MatchArgs(m)|..] == rest;
    match m
    case DestPort(port) => DecimalRoundTrip(port);
    case _ =>
  }

  lemma ParseJump(chain: string)
    requires PrintableTarget(Jump(chain))
    ensures ParseTarget(["-j", chain]) == Some(Jump(chain))
  {
    var reserved := ["ACCEPT", "DROP", "MASQUERADE", "RETURN"];
    assert reserved[0] != chain && reserved[1] != chain && reserved[2] != chain && reserved[3] != chain;
  }

  lemma ParseRedirect(port: nat)
    ensures ParseTarget(["-j", "REDIRECT", "--to-ports", Decimal(port)]) == Some(Redirect(port))
  {
    DecimalRoundTrip(port);
  }

  lemma ParseTargetArgs(t: Target)
    requires PrintableTarget(t)
    ensures ParseTarget(TargetArgs(t)) == Some(t) && TargetArgs(t)[0] == "-j"
  {
    match t
    case Redirect(port) => ParseRedirect(port);
    case Jump(c) => ParseJump(c);
    case _ =>
  }

  /** Writing a rule out and reading it back gives the rule. */
  lemma {:induction false} RuleRoundTrip(r: Rule)
    requires Printable(r)
    ensures ParseRule(RuleArgs(r)) == Some(r)
    decreases |r.matches|
  {
    if r.matches == [] {
      ParseTargetArgs(r.target);
      assert RuleArgs(r) == TargetArgs(r.target);
    } else {
      var tail := Rule(r.matches[1..], r.target);
      RuleRoundTrip(tail);
      ParseMatchArgs(r.matches[0], RuleArgs(tail));
      assert RuleArgs(r) == MatchArgs(r.matches[0]) + RuleArgs(tail);
      assert r.matches == [r.matches[0]] + tail.matches;
    }
  }

  // ---------- commands ----------

  datatype Command =
    | Insert(table: string, chain: string, position: nat, rule: Rule)
    | Delete(table: string, chain: string, rule: Rule)
    | NewChain(table: string, chain: string)

  predicate KnownTable(table: string) {
    table == "filter" || table == "nat" || table == "mangle" || table == "raw" || table == "security"
  }

  /** What iptables understands by an argument list. */
  function Denote(args: seq<string>): Option<Command> {
    if |args| >= 2 && args[0] == "-t" then
      if KnownTable(args[1]) then DenoteIn(args[1], args[2..]) else None
    else DenoteIn("filter", args)
  }

  function DenoteIn(table: string, args: seq<string>): Option<Command> {
    if |args| == 2 && args[0] == "-N" then Some(NewChain(table, args[1]))
    else if |args| >= 3 && args[0] == "-I" then
      var position := ParseU32(args[2]);
      (match ParseRule(if position.Some? then args[3..] else args[2..])
       case Some(r) => Some(Insert(table, args[1], if position.Some? then position.value else 1, r))
       case None => None)
    else if |args| >= 3 && args[0] == "-D" && ParseU32(args[2]).None? then
      match ParseRule(args[2..]) case Some(r) => Some(Delete(table, args[1], r)) case None => None
    else None
  }

  /** The argument list for an insertion, with or without a position. */
  function InsertArgs(table: string, chain: string, position: Option<U32>, rule: Rule): seq<string> {
    (if table == "filter" then [] else ["-t", table])
    + (["-I", chain] + (if position.Some? then [Decimal(position.value)] else []) + RuleArgs(rule))
  }

  /** Where the operation word stands, or the length when there is none. */
  function OperationIndex(args: seq<string>): (i: nat)
    ensures i <= |args|
    ensures i < |args| ==> args[i] == "-I" || args[i] == "-A"
    ensures forall j :: 0 <= j < i ==> args[j] != "-I" && args[j] != "-A"
  {
    if args == [] || args[0] == "-I" || args[0] == "-A" then 0 else OperationIndex(args[1..]) + 1
  }

  /** `delete_args`, as a value. */
  function DeleteForm(args: seq<string>): seq<string> {
    var at := OperationIndex(args);
    if at == |args| then args
    else
      var renamed := args[at := "-D"];
      if at + 2 < |args| && ParseU32(args[at + 2]).Some?
      then renamed[..at + 2] + renamed[at + 3..]
      else renamed
  }

  method DeleteArgs(insertArgs: seq<string>) returns (args: seq<string>)
    ensures args == DeleteForm(insertArgs)
  {
    args := insertArgs;
    var operationIndex := 0;
    while operationIndex < |args| && args[operationIndex] != "-I" && args[operationIndex] != "-A"
      invariant 0 <= operationIndex <= |args|
      invariant forall j :: 0 <= j < operationIndex ==> args[j] != "-I" && args[j] != "-A"
    {
      operationIndex := operationIndex + 1;
    }
    if operationIndex == |args| {
      return;
    }
    assert operationIndex == OperationIndex(insertArgs);
    args := args[operationIndex := "-D"];
    var positionIndex := operationIndex + 2;
    if positionIndex < |args| && ParseU32(args[positionIndex]).Some? {
      args := args[..positionIndex] + args[positionIndex + 1..];
    }
  }

  lemma {:induction false} NonDigitIsNoNumber(s: string, i: nat)
    requires i < |s| && !('0' <= s[i] <= '9')
    ensures ParseDigits(s).None?
    decreases |s|
  {
    if i < |s| - 1 {
      NonDigitIsNoNumber(s[..|s| - 1], i);
    }
  }

  lemma OptionIsNoNumber(s: string)
    requires |s| >= 1 && s[0] == '-'
    ensures ParseU32(s).None?
  {
    NonDigitIsNoNumber(s, 0);
  }

  lemma DeleteFormDenotesIn(table: string, args: seq<string>)
    requires DenoteIn(table, args).Some? && DenoteIn(table, args).value.Insert?
    ensures var insert := DenoteIn(table, args).value;
      DenoteIn(table, DeleteForm(args)) == Some(Delete(table, insert.chain, insert.rule))
  {
    var spec := if ParseU32(args[2]).Some? then args[3..] else args[2..];
    assert OperationIndex(args) == 0;
    assert DeleteForm(args) == ["-D", args[1]] + spec;
    assert (["-D", args[1]] + spec)[2..] == spec;
    OptionIsNoNumber(spec[0]);
  }

  /** For every insertion iptables understands, `delete_args` turns it into the deletion of the same
      rule from the same chain of the same table. */
  lemma DeleteFormDenotes(args: seq<string>)
    requires Denote(args).Some? && Denote(args).value.Insert?
    ensures var insert := Denote(args).value;
      Denote(DeleteForm(args)) == Some(Delete(insert.table, insert.chain, insert.rule))
  {
    if |args| >= 2 && args[0] == "-t" {
      DeleteFormDenotesIn(args[1], args[2..]);
      assert OperationIndex(args) == 2;
      assert DeleteForm(args) == args[..2] + DeleteForm(args[2..]);
      assert (args[..2] + DeleteForm(args[2..]))[2..] == DeleteForm(args[2..]);
    } else {
      DeleteFormDenotesIn("filter", args);
      assert OperationIndex(args) == 0;
    }
  }

  lemma PositionedInsertDenotes(table: string, chain: string, position: U32, spec: seq<string>)
    requires ParseRule(spec).Some?
    ensures DenoteIn(table, ["-I", chain] + [Decimal(position)] + spec)
         == Some(Insert(table, chain, position, ParseRule(spec).value))
  {
    DecimalIsU32(position);
    assert (["-I", chain] + [Decimal(position)] + spec)[3..] == spec;
  }

  lemma PlainInsertDenotes(table: string, chain: string, spec: seq<string>)
    requires ParseRule(spec).Some?
    ensures DenoteIn(table, ["-I", chain] + spec) == Some(Insert(table, chain, 1, ParseRule(spec).value))
  {
    OptionIsNoNumber(spec[0]);
    assert (["-I", chain] + spec)[2..] == spec;
  }

  lemma TablePrefix(table: string, tail: seq<string>)
    requires KnownTable(table) && tail != [] && tail[0] == "-I"
    ensures Denote((if table == "filter" then [] else ["-t", table]) + tail) == DenoteIn(table, tail)
  {
    if table == "filter" {
      assert [] + tail == tail;
    } else {
      assert (["-t", table] + tail)[2..] == tail;
    }
  }

  lemma TailDenotes(table: string, chain: string, position: Option<U32>, spec: seq<string>)
    requires ParseRule(spec).Some?
    ensures DenoteIn(table, ["-I", chain] + (if position.Some? then [Decimal(position.value)] else []) + spec)
         == Some(Insert(table, chain, if position.Some? then position.value else 1, ParseRule(spec).value))
  {
    if position.Some? {
      PositionedInsertDenotes(table, chain, position.value, spec);
    } else {
      PlainInsertDenotes(table, chain, spec);
      assert ["-I", chain] + [] == ["-I", chain];
    }
  }

  /** The argument lists built here mean what they say. */
  lemma InsertArgsDenote(table: string, chain: string, position: Option<U32>, rule: Rule)
    requires KnownTable(table) && Printable(rule)
    ensures Denote(InsertArgs(table, chain, position, rule))
         == Some(Insert(table, chain, if position.Some? then position.value else 1, rule))
  {
    RuleRoundTrip(rule);
    TailDenotes(table, chain, position, RuleArgs(rule));
    var tail := ["-I", chain] + (if position.Some? then [Decimal(position.value)] else []) + RuleArgs(rule);
    TablePrefix(table, tail);
  }
}
