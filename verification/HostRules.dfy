/** The host's rule tables, and the delete-then-insert step that keeps a rule present (src/helper.rs). */
module HostRules {
  import opened Text
  import opened Addresses
  import opened Firewall
  import opened Iptables

  type Tables = map<string, Chains>

  // ---------- rule lists ----------

  function InsertAt(rules: seq<Rule>, i: nat, r: Rule): seq<Rule>
    requires i <= |rules|
  {
    rules[..i] + [r] + rules[i..]
  }

  /** `-D` takes away the first copy. */
  function RemoveFirst(rules: seq<Rule>, r: Rule): (rest: seq<Rule>)
    requires r in rules
    ensures |rest| == |rules| - 1
  {
    if rules[0] == r then rules[1..] else [rules[0]] + RemoveFirst(rules[1..], r)
  }

  /** All copies gone, everything else in its old order. */
  function Without(rules: seq<Rule>, r: Rule): (rest: seq<Rule>)
    ensures r !in rest
    ensures forall x :: x in rest <==> x in rules && x != r
    ensures |rest| <= |rules|
  {
    if rules == [] then []
    else if rules[0] == r then Without(rules[1..], r)
    else [rules[0]] + Without(rules[1..], r)
  }

  function WithoutAll(rules: seq<Rule>, gone: seq<Rule>): seq<Rule> {
    if gone == [] then rules else Without(WithoutAll(rules, gone[..|gone| - 1]), gone[|gone| - 1])
  }

  lemma {:induction false} WithoutRemoveFirst(rules: seq<Rule>, r: Rule)
    requires r in rules
    ensures Without(RemoveFirst(rules, r), r) == Without(rules, r)
  {
    if rules[0] != r {
      WithoutRemoveFirst(rules[1..], r);
      var rest := RemoveFirst(rules[1..], r);
      assert ([rules[0]] + rest)[1..] == rest;
    }
  }

  lemma {:induction false} WithoutAbsent(rules: seq<Rule>, r: Rule)
    requires r !in rules
    ensures Without(rules, r) == rules
  {
    if rules != [] {
      WithoutAbsent(rules[1..], r);
      assert rules == [rules[0]] + rules[1..];
    }
  }

  lemma {:induction false} WithoutAppend(a: seq<Rule>, b: seq<Rule>, r: Rule)
    ensures Without(a + b, r) == Without(a, r) + Without(b, r)
  {
    if a == [] {
      assert a + b == b;
    } else {
      assert (a + b)[1..] == a[1..] + b;
      WithoutAppend(a[1..], b, r);
    }
  }

  lemma {:induction false} LiveWithout(env: Env, rules: seq<Rule>, r: Rule, p: Packet)
    requires !Matches(env, r, p)
    ensures Live(env, Without(rules, r), p) == Live(env, rules, p)
  {
    if rules != [] {
      LiveWithout(env, rules[1..], r, p);
      LiveAppend(env, [rules[0]], Without(rules[1..], r), p);
    }
  }

  /** Clearing a rule and inserting it leaves exactly one copy, where asked, and the others in order. */
  lemma ExactlyOneCopy(rules: seq<Rule>, i: nat, r: Rule)
    requires i <= |Without(rules, r)|
    ensures var result := InsertAt(Without(rules, r), i, r);
      && result[i] == r
      && multiset(result)[r] == 1
      && Without(result, r) == Without(rules, r)
  {
    var rest := Without(rules, r);
    assert rest == rest[..i] + rest[i..];
    OneCopyBetween(rest[..i], r, rest[i..]);
    WithoutBetween(rest[..i], r, rest[i..]);
  }

  lemma OneCopyBetween(front: seq<Rule>, r: Rule, back: seq<Rule>)
    requires r !in front && r !in back
    ensures multiset(front + [r] + back)[r] == 1
  {
    assert multiset(front)[r] == 0 && multiset(back)[r] == 0;
    assert multiset(front + [r] + back) == multiset(front) + multiset([r]) + multiset(back);
  }

  lemma WithoutBetween(front: seq<Rule>, r: Rule, back: seq<Rule>)
    requires r !in front && r !in back
    ensures Without(front + [r] + back, r) == front + back
  {
    WithoutAppend(front + [r], back, r);
    WithoutAppend(front, [r], r);
    assert Without([r], r) == [];
    WithoutAbsent(front, r);
    WithoutAbsent(back, r);
    assert Without(front + [r], r) == front;
  }

  // ---------- commands on tables ----------

  predicate TargetExists(chains: Chains, t: Target) {
    (t.Jump? || t.Goto?) ==> t.chain in chains
  }

  predicate HasChain(tables: Tables, table: string, chain: string) {
    table in tables && chain in tables[table]
  }

  function SetChain(tables: Tables, table: string, chain: string, rules: seq<Rule>): Tables
    requires table in tables
  {
    tables[table := tables[table][chain := rules]]
  }

  lemma SetChainTwice(tables: Tables, table: string, chain: string, a: seq<Rule>, b: seq<Rule>)
    requires table in tables
    ensures SetChain(SetChain(tables, table, chain, a), table, chain, b) == SetChain(tables, table, chain, b)
  {
    assert tables[table][chain := a][chain := b] == tables[table][chain := b];
  }

  lemma SetChainSame(tables: Tables, table: string, chain: string)
    requires HasChain(tables, table, chain)
    ensures SetChain(tables, table, chain, tables[table][chain]) == tables
  {
    assert tables[table][chain := tables[table][chain]] == tables[table];
  }

  /** The effect of a command, or `None` when iptables reports failure. */
  function Exec(tables: Tables, cmd: Command): Option<Tables> {
    match cmd
    case Insert(t, c, position, r) =>
      if HasChain(tables, t, c) && TargetExists(tables[t], r.target) && 1 <= position <= |tables[t][c]| + 1
      then Some(SetChain(tables, t, c, InsertAt(tables[t][c], position - 1, r))) else None
    case Delete(t, c, r) =>
      if HasChain(tables, t, c) && r in tables[t][c]
      then Some(SetChain(tables, t, c, RemoveFirst(tables[t][c], r))) else None
    case NewChain(t, c) =>
      if t in tables && c !in tables[t] then Some(SetChain(tables, t, c, [])) else None
  }

  function Run(tables: Tables, args: seq<string>): Option<Tables> {
    match Denote(args) case Some(cmd) => Exec(tables, cmd) case None => None
  }

  /** Every copy of the rule deleted from the chain. */
  function Cleared(tables: Tables, table: string, chain: string, r: Rule): Tables {
    if HasChain(tables, table, chain)
    then SetChain(tables, table, chain, Without(tables[table][chain], r)) else tables
  }

  class Host {
    var tables: Tables

    constructor (tables: Tables)
      ensures this.tables == tables
    {
      this.tables := tables;
    }

    /** Run one iptables command. */
    method RunCommand(args: seq<string>) returns (ok: bool)
      modifies this
      ensures ok == Run(old(tables), args).Some?
      ensures tables == if ok then Run(old(tables), args).value else old(tables)
    {
      var result := Run(tables, args);
      ok := result.Some?;
      if ok {
        tables := result.value;
      }
    }
  }

  /** Delete until the deletion fails: the number of copies left is what makes it end. */
  method RemoveRuleAll(host: Host, args: seq<string>)
    requires Denote(args).Some? ==> Denote(args).value.Delete?
    modifies host
    ensures host.tables ==
      match Denote(args)
      case Some(cmd) => Cleared(old(host.tables), cmd.table, cmd.chain, cmd.rule)
      case None => old(host.tables)
  {
    var ok := true;
    ghost var start := host.tables;
    while ok
      invariant Denote(args).None? ==> host.tables == start
      invariant Denote(args).Some? ==>
        var cmd := Denote(args).value;
        Cleared(host.tables, cmd.table, cmd.chain, cmd.rule) == Cleared(start, cmd.table, cmd.chain, cmd.rule)
      invariant !ok ==> Run(host.tables, args).None?
      decreases ok, Copies(host.tables, args)
    {
      ghost var before := host.tables;
      ok := host.RunCommand(args);
      if ok {
        DeleteStep(before, Denote(args).value);
      }
    }
    if Denote(args).Some? {
      NothingToDelete(host.tables, Denote(args).value);
    }
  }

  /** Length of the chain a deletion works on. */
  ghost function Copies(tables: Tables, args: seq<string>): nat {
    match Denote(args)
    case Some(cmd) => if HasChain(tables, cmd.table, cmd.chain) then |tables[cmd.table][cmd.chain]| else 0
    case None => 0
  }

  lemma DeleteStep(tables: Tables, cmd: Command)
    requires cmd.Delete? && Exec(tables, cmd).Some?
    ensures Cleared(Exec(tables, cmd).value, cmd.table, cmd.chain, cmd.rule)
         == Cleared(tables, cmd.table, cmd.chain, cmd.rule)
  {
    var rules := tables[cmd.table][cmd.chain];
    WithoutRemoveFirst(rules, cmd.rule);
    SetChainTwice(tables, cmd.table, cmd.chain, RemoveFirst(rules, cmd.rule), Without(rules, cmd.rule));
  }

  lemma NothingToDelete(tables: Tables, cmd: Command)
    requires cmd.Delete? && Exec(tables, cmd).None?
    ensures Cleared(tables, cmd.table, cmd.chain, cmd.rule) == tables
  {
    if HasChain(tables, cmd.table, cmd.chain) {
      WithoutAbsent(tables[cmd.table][cmd.chain], cmd.rule);
      SetChainSame(tables, cmd.table, cmd.chain);
    }
  }

  /** Delete every copy, then insert. On success exactly one copy is left, at the requested place, and
      all other rules keep their order. */
  method EnsureRulePresent(host: Host, args: seq<string>) returns (ok: bool)
    requires Denote(args).Some? && Denote(args).value.Insert?
    modifies host
    ensures var cmd := Denote(args).value;
      var cleared := Cleared(old(host.tables), cmd.table, cmd.chain, cmd.rule);
      && ok == Exec(cleared, cmd).Some?
      && host.tables == if ok then Exec(cleared, cmd).value else cleared
  {
    var deletion := DeleteArgs(args);
    DeleteFormDenotes(args);
    RemoveRuleAll(host, deletion);
    ok := host.RunCommand(args);
  }

  /** Can the rule be inserted there once its copies are gone? */
  predicate Placeable(tables: Tables, table: string, chain: string, position: Option<U32>, r: Rule) {
    && HasChain(tables, table, chain) && TargetExists(tables[table], r.target)
    && (position.Some? ==> 1 <= position.value <= |Without(tables[table][chain], r)| + 1)
  }

  /** The same for a rule given as a value: it fails exactly when the chain or the jump's target is missing or the
      position is further than one past the other rules. */
  method EnsureRule(host: Host, table: string, chain: string, position: Option<U32>, r: Rule) returns (ok: bool)
    requires KnownTable(table) && Printable(r)
    modifies host
    ensures ok == Placeable(old(host.tables), table, chain, position, r)
    ensures ok ==> host.tables == SetChain(old(host.tables), table, chain,
      InsertAt(Without(old(host.tables)[table][chain], r), if position.Some? then position.value - 1 else 0, r))
    ensures !ok ==> host.tables == Cleared(old(host.tables), table, chain, r)
  {
    var args := InsertArgs(table, chain, position, r);
    InsertArgsDenote(table, chain, position, r);
    ok := EnsureRulePresent(host, args);
    if HasChain(old(host.tables), table, chain) {
      ghost var rest := Without(old(host.tables)[table][chain], r);
      ghost var place := if position.Some? then position.value - 1 else 0;
      if 0 <= place <= |rest| {
        SetChainTwice(old(host.tables), table, chain, rest, InsertAt(rest, place, r));
      }
    }
  }

  /** A rule ensured at position 1. */
  function Put(rules: seq<Rule>, r: Rule): seq<Rule> {
    [r] + Without(rules, r)
  }

  /** A block ensured at positions 1, 2, and so on. */
  function OnTop(rules: seq<Rule>, block: seq<Rule>): seq<Rule> {
    block + WithoutAll(rules, block)
  }

  /** Ensure a rule at position 1. */
  method EnsureFirst(host: Host, table: string, chain: string, r: Rule) returns (ok: bool)
    requires KnownTable(table) && Printable(r)
    requires HasChain(host.tables, table, chain) && TargetExists(host.tables[table], r.target)
    modifies host
    ensures ok
    ensures host.tables == SetChain(old(host.tables), table, chain, Put(old(host.tables)[table][chain], r))
  {
    ok := EnsureRule(host, table, chain, Some(1), r);
    ghost var rest := Without(old(host.tables)[table][chain], r);
    assert InsertAt(rest, 0, r) == [r] + rest;
  }

  /** Create the chain unless it is there (`-N`, then `-S` to see whether it existed). */
  method EnsureChain(host: Host, name: string) returns (ok: bool)
    requires "filter" in host.tables
    modifies host
    ensures ok
    ensures host.tables == SetChain(old(host.tables), "filter", name, ChainOf(old(host.tables)["filter"], name))
  {
    ok := host.RunCommand(["-N", name]);
    assert Denote(["-N", name]) == Some(NewChain("filter", name));
    if !ok {
      ok := name in host.tables["filter"];
      SetChainSame(host.tables, "filter", name);
    }
  }

  // ---------- a block of rules kept on top of a chain ----------

  predicate Distinct(rules: seq<Rule>) {
    forall i, j :: 0 <= i < j < |rules| ==> rules[i] != rules[j]
  }

  /** A chain after the first `k` rules of the block were ensured at positions 1 to `k`. */
  function BlockOnTop(rules: seq<Rule>, block: seq<Rule>, k: nat): seq<Rule>
    requires k <= |block|
  {
    block[..k] + WithoutAll(rules, block[..k])
  }

  /** Ensuring the next rule of the block at the next position extends the block on top. */
  lemma BlockStep(rules: seq<Rule>, block: seq<Rule>, k: nat)
    requires Distinct(block) && k < |block|
    ensures var rest := Without(BlockOnTop(rules, block, k), block[k]);
      k <= |rest| && InsertAt(rest, k, block[k]) == BlockOnTop(rules, block, k + 1)
  {
    var top, r := block[..k], block[k];
    WithoutAbsent(top, r);
    WithoutAppend(top, WithoutAll(rules, top), r);
    assert block[..k + 1][..k] == top;
    assert block[..k + 1] == top + [r];
  }

  /** Two rules put in front one after the other. */
  lemma PairOnTop(rules: seq<Rule>, udp: Rule, tcp: Rule)
    requires udp != tcp
    ensures Put(Put(rules, udp), tcp) == [tcp, udp] + Without(Without(rules, udp), tcp)
  {
    WithoutAppend([udp], Without(rules, udp), tcp);
    WithoutAbsent([udp], tcp);
  }

  /** The rules of a block, each ensured at its place: positions 1, 2, and so on, all valid. Without the chain the
      first one fails and nothing has changed. */
  method EnsureBlock(host: Host, table: string, chain: string, block: seq<Rule>) returns (ok: bool)
    requires KnownTable(table)
    requires block != [] && Distinct(block) && |block| < 100
    requires forall i :: 0 <= i < |block| ==> Printable(block[i]) && Deciding(block[i].target)
    modifies host
    ensures ok == HasChain(old(host.tables), table, chain)
    ensures ok ==>
      host.tables == SetChain(old(host.tables), table, chain, OnTop(old(host.tables)[table][chain], block))
    ensures !ok ==> host.tables == old(host.tables)
  {
    ok := true;
    ghost var known := HasChain(host.tables, table, chain);
    ghost var rules := if known then host.tables[table][chain] else [];
    if known {
      assert BlockOnTop(rules, block, 0) == rules;
      SetChainSame(host.tables, table, chain);
    }
    for k := 0 to |block|
      invariant k > 0 ==> ok && known
      invariant known ==> host.tables == SetChain(old(host.tables), table, chain, BlockOnTop(rules, block, k))
      invariant !known ==> host.tables == old(host.tables)
    {
      if known {
        BlockStep(rules, block, k);
        SetChainTwice(old(host.tables), table, chain, BlockOnTop(rules, block, k), BlockOnTop(rules, block, k + 1));
      }
      ok := EnsureRule(host, table, chain, Some(k + 1), block[k]);
      if !ok {
        return;
      }
    }
    assert block[..|block|] == block;
  }

  lemma {:induction false} LiveWithoutAll(env: Env, rules: seq<Rule>, gone: seq<Rule>, p: Packet)
    requires forall i :: 0 <= i < |gone| ==> !Matches(env, gone[i], p)
    ensures Live(env, WithoutAll(rules, gone), p) == Live(env, rules, p)
  {
    if gone != [] {
      LiveWithoutAll(env, rules, gone[..|gone| - 1], p);
      LiveWithout(env, WithoutAll(rules, gone[..|gone| - 1]), gone[|gone| - 1], p);
    }
  }

  lemma {:induction false} LiveNone(env: Env, rules: seq<Rule>, p: Packet)
    requires forall i :: 0 <= i < |rules| ==> !Matches(env, rules[i], p)
    ensures Live(env, rules, p) == []
  {
    if rules != [] {
      LiveNone(env, rules[1..], p);
    }
  }

  /** A block none of whose rules match is invisible. */
  lemma BlockInvisible(env: Env, rules: seq<Rule>, block: seq<Rule>, p: Packet)
    requires forall i :: 0 <= i < |block| ==> !Matches(env, block[i], p)
    ensures Live(env, block + WithoutAll(rules, block), p) == Live(env, rules, p)
  {
    LiveAppend(env, block, WithoutAll(rules, block), p);
    LiveNone(env, block, p);
    LiveWithoutAll(env, rules, block, p);
  }
}
