/** Runs of rootless preparations: every policy keeps one source of its own. */
module SourceRun {
  import opened Text
  import opened Addresses
  import opened Firewall
  import opened HostRules
  import opened OutputPolicy
  import opened SourceAllocator
  import Fnv

  // ---------- the source written in a hook line is read back ----------

  predicate Plain(s: string) {
    s != "" && forall i :: 0 <= i < |s| ==> !IsAsciiWhitespace(s[i])
  }

  lemma {:induction false} NonEmptyKeeps(parts: seq<string>)
    requires forall i :: 0 <= i < |parts| ==> parts[i] != ""
    ensures NonEmpty(parts) == parts
  {
    if parts != [] {
      NonEmptyKeeps(parts[1..]);
    }
  }

  lemma FieldsOfJoin(parts: seq<string>)
    requires parts != [] && forall i :: 0 <= i < |parts| ==> Plain(parts[i])
    ensures Fields(Join(parts, ' ')) == parts
  {
    var s := Join(parts, ' ');
    JoinChars(parts, ' ');
    forall k | 0 <= k < |s| ensures IsAsciiWhitespace(s[k]) ==> s[k] == ' ' {
      assert s[k] in s;
      if s[k] != ' ' {
        var i :| 0 <= i < |parts| && s[k] in parts[i];
        assert Plain(parts[i]);
      }
    }
    assert seq(|s|, i requires 0 <= i < |s| => if IsAsciiWhitespace(s[i]) then ' ' else s[i]) == s;
    forall i | 0 <= i < |parts| ensures ' ' !in parts[i] {
      assert Plain(parts[i]);
    }
    SplitJoin(parts, ' ');
    NonEmptyKeeps(parts);
  }

  lemma CidrTextPlain(a: U32)
    ensures Plain(CidrText(a, 32)) && ':' !in CidrText(a, 32)
    ensures HasSuffix(CidrText(a, 32), "/32") && CidrText(a, 32)[..|CidrText(a, 32)| - 3] == FormatV4(a)
  {
    V4TextChars(a);
    assert Decimal(3) == "3";
    assert Decimal(32) == "32";
    var t := CidrText(a, 32);
    assert t == FormatV4(a) + "/32";
    assert forall i :: 0 <= i < |FormatV4(a)| ==> FormatV4(a)[i] in FormatV4(a);
  }

  lemma MarkerPlain(name: string)
    requires CleanName(name)
    ensures Plain(OwnMarker(name))
  {
    var m := OwnMarker(name);
    forall i | 0 <= i < |m| ensures !IsAsciiWhitespace(m[i]) {
      if 11 <= i < 11 + |name| {
        assert m[i] == name[i - 11];
        assert name[i - 11] in name;
      } else if i < 11 {
        assert m[i] == "dockerwall:"[i];
      } else {
        assert m[i] == ":output-hook"[i - 11 - |name|];
      }
    }
  }

  lemma HookTextRead(name: string, source: string)
    requires CleanName(name) && Plain(source) && HasSuffix(source, "/32")
    ensures RuleSourceIp(Line(Hook(name, source))) == ParseV4(source[..|source| - 3])
  {
    HookLineFields(name, source);
    HookFieldsSource(name, source);
  }

  lemma HookSourceRead(name: string, a: U32)
    requires CleanName(name)
    ensures RuleSourceIp(Line(HookOf(name, a))) == Some(a)
  {
    CidrTextPlain(a);
    HookTextRead(name, CidrText(a, 32));
    V4RoundTrip(a);
  }

  lemma HookLineFields(name: string, source: string)
    requires CleanName(name) && Plain(source)
    ensures Fields(Line(Hook(name, source))) == HookFields(name, source)
  {
    MarkerPlain(name);
    HookLine(name, source);
    PlainHookFields(source, OwnMarker(name));
  }

  lemma PlainHookFields(source: string, marker: string)
    requires Plain(source) && Plain(marker)
    ensures var fields := ["-A", OUTPUT, "-s", source, "-m", "comment", "--comment", marker, "-j", OUTPUT_CHAIN];
      Fields(Join(fields, ' ')) == fields
  {
    FieldsOfJoin(["-A", OUTPUT, "-s", source, "-m", "comment", "--comment", marker, "-j", OUTPUT_CHAIN]);
  }

  lemma HookFieldsSource(name: string, source: string)
    ensures AfterSourceFlag(HookFields(name, source)) == Some(source)
  {
    var f := HookFields(name, source);
    assert f[1..][1..] == f[2..] && f[2..][0] == "-s" && f[2..][1] == source;
    assert AfterSourceFlag(f[2..]) == Some(source);
    assert f[0] != "-s" && f[1..][0] != "-s";
    assert AfterSourceFlag(f[1..]) == AfterSourceFlag(f[1..][1..]);
  }

  // ---------- searching the listing ----------

  lemma {:induction false} SearchFinds(lines: seq<string>, name: string, a: U32)
    requires forall i :: 0 <= i < |lines| && Contains(lines[i], OwnMarker(name)) ==> RuleSourceIp(lines[i]) == Some(a)
    ensures OwnAddress(lines, name) ==
      if exists i :: 0 <= i < |lines| && Contains(lines[i], OwnMarker(name)) then Some(a) else None
  {
    if lines != [] {
      SearchFinds(lines[1..], name, a);
      if Contains(lines[0], OwnMarker(name)) {
        assert RuleSourceIp(lines[0]) == Some(a);
      } else if exists i :: 0 <= i < |lines| && Contains(lines[i], OwnMarker(name)) {
        var i :| 0 <= i < |lines| && Contains(lines[i], OwnMarker(name));
        assert Contains(lines[1..][i - 1], OwnMarker(name));
      }
    }
  }

  /** A rule no policy put there: its line does not mention this program. */
  predicate ForeignRule(r: Rule) {
    !Contains(Line(r), "dockerwall:")
  }

  lemma MarkerMentionsProgram(s: string, name: string)
    requires Contains(s, OwnMarker(name))
    ensures Contains(s, "dockerwall:")
  {
    var i :| 0 <= i <= |s| && OccursAt(s, OwnMarker(name), i);
    var m := OwnMarker(name);
    assert m[..11] == "dockerwall:";
    assert s[i..i + 11] == s[i..i + |m|][..11];
    assert OccursAt(s, "dockerwall:", i);
  }

  lemma PolicyLineUnmarked(name: string)
    ensures !Contains("-P OUTPUT ACCEPT", OwnMarker(name))
  {
    assert |OwnMarker(name)| > |"-P OUTPUT ACCEPT"|;
  }

  /** The marker of one policy is in the hook line of another only if they have the same name. */
  lemma HookLineNamesOnlyItself(name: string, other: string, a: U32)
    requires CleanName(name) && CleanName(other)
    requires Contains(Line(HookOf(other, a)), OwnMarker(name))
    ensures name == other
  {
    CidrTextPlain(a);
    var front, back := HookLineAroundMarker(other, CidrText(a, 32));
    MarkerIdentifiesName(name, other, front, back);
  }

  // ---------- runs ----------

  /** A preparation, with the addresses the host reports as assigned at that moment. */
  datatype Attempt = Attempt(name: string, held: set<U32>)

  /** The OUTPUT chain and the source given to each policy so far. */
  datatype State = State(output: seq<Rule>, given: map<string, U32>)

  function PrepareOnce(s: State, at: Attempt): State {
    match Allocated(Listing(s.output), at.held, at.name)
    case Some(a) => State(Put(s.output, HookOf(at.name, a)), s.given[at.name := a])
    case None => s
  }

  function RunFrom(s: State, attempts: seq<Attempt>): State {
    if attempts == [] then s
    else PrepareOnce(RunFrom(s, attempts[..|attempts| - 1]), attempts[|attempts| - 1])
  }

  predicate KnownRule(given: map<string, U32>, r: Rule) {
    ForeignRule(r) || exists n :: n in given && r == HookOf(n, given[n])
  }

  /** Every rule is foreign or the hook of a policy with its source; every policy has its hook; sources are
      managed addresses and no two policies share one. */
  ghost predicate Consistent(s: State) {
    && (forall i :: 0 <= i < |s.output| ==> KnownRule(s.given, s.output[i]))
    && (forall n :: n in s.given ==> CleanName(n) && Fnv.IsManaged(s.given[n]) && HookOf(n, s.given[n]) in s.output)
    && (forall m, n :: m in s.given && n in s.given && m != n ==> s.given[m] != s.given[n])
  }

  lemma LinesThatNameAPolicy(s: State, name: string, i: nat)
    requires Consistent(s) && CleanName(name) && i < |Listing(s.output)|
    requires Contains(Listing(s.output)[i], OwnMarker(name))
    ensures name in s.given && RuleSourceIp(Listing(s.output)[i]) == Some(s.given[name])
  {
    if i == 0 {
      PolicyLineUnmarked(name);
      assert false;
    }
    var r := s.output[i - 1];
    assert Listing(s.output)[i] == Line(r) && KnownRule(s.given, r);
    MarkerMentionsProgram(Line(r), name);
    var n :| n in s.given && r == HookOf(n, s.given[n]);
    HookLineNamesOnlyItself(name, n, s.given[n]);
    HookSourceRead(name, s.given[name]);
  }

  /** A policy that was prepared before is found again with the same source; a new one is not found. */
  lemma SearchInRun(s: State, name: string)
    requires Consistent(s) && CleanName(name)
    ensures OwnAddress(Listing(s.output), name) == if name in s.given then Some(s.given[name]) else None
  {
    var lines := Listing(s.output);
    forall i | 0 <= i < |lines| && Contains(lines[i], OwnMarker(name))
      ensures name in s.given && RuleSourceIp(lines[i]) == Some(s.given[name])
    {
      LinesThatNameAPolicy(s, name, i);
    }
    SearchFinds(lines, name, if name in s.given then s.given[name] else 0);
    if name in s.given {
      OwnLineIsThere(s, name);
    }
  }

  lemma OwnLineIsThere(s: State, name: string)
    requires Consistent(s) && name in s.given
    ensures exists i :: 0 <= i < |Listing(s.output)| && Contains(Listing(s.output)[i], OwnMarker(name))
  {
    var k :| 0 <= k < |s.output| && s.output[k] == HookOf(name, s.given[name]);
    HookLineContains(name, CidrText(s.given[name], 32));
    assert Contains(Listing(s.output)[k + 1], OwnMarker(name));
  }

  /** An address already given is listed, so the probe never returns it. */
  lemma GivenIsListed(s: State, n: string)
    requires Consistent(s) && n in s.given
    ensures Listed(Listing(s.output), s.given[n])
  {
    var k :| 0 <= k < |s.output| && s.output[k] == HookOf(n, s.given[n]);
    HookLineContains(n, CidrText(s.given[n], 32));
    assert Contains(Listing(s.output)[k + 1], CidrText(s.given[n], 32));
  }

  lemma RePreparingIsStable(s: State, at: Attempt)
    requires Consistent(s) && CleanName(at.name) && at.name in s.given
    ensures Allocated(Listing(s.output), at.held, at.name) == Some(s.given[at.name])
    ensures PrepareOnce(s, at).given == s.given
  {
    SearchInRun(s, at.name);
    AllocatedOwn(Listing(s.output), at.held, at.name, s.given[at.name]);
    GivenAgain(s.given, at.name);
  }

  lemma AllocatedOwn(lines: seq<string>, held: set<U32>, name: string, a: U32)
    requires OwnAddress(lines, name) == Some(a)
    ensures Allocated(lines, held, name) == Some(a)
  {
  }

  lemma GivenAgain(given: map<string, U32>, name: string)
    requires name in given
    ensures given[name := given[name]] == given
  {
  }

  lemma NewSourceIsFresh(s: State, at: Attempt, a: U32)
    requires Consistent(s) && CleanName(at.name) && at.name !in s.given
    requires Allocated(Listing(s.output), at.held, at.name) == Some(a)
    ensures Fnv.IsManaged(a) && forall n :: n in s.given ==> s.given[n] != a
  {
    SearchInRun(s, at.name);
    var attempt := FirstFreeIsFree(Listing(s.output), at.held, at.name, 0);
    forall n | n in s.given ensures s.given[n] != a {
      GivenIsListed(s, n);
    }
  }

  lemma PutHookConsistent(s: State, name: string, a: U32)
    requires Consistent(s) && CleanName(name) && Fnv.IsManaged(a)
    requires name in s.given ==> s.given[name] == a
    requires forall n :: n in s.given && n != name ==> s.given[n] != a
    ensures Consistent(State(Put(s.output, HookOf(name, a)), s.given[name := a]))
  {
    var hook, given := HookOf(name, a), s.given[name := a];
    var output := Put(s.output, hook);
    forall i | 0 <= i < |output| ensures KnownRule(given, output[i]) {
      if i > 0 {
        assert output[i] in s.output;
        KnownRuleGrows(s.given, name, a, output[i]);
      } else {
        HookKnown(given, name, a, hook);
      }
    }
    forall n | n in given ensures HookOf(n, given[n]) in output {
      if n != name {
        InPut(s.output, hook, HookOf(n, given[n]));
      }
    }
  }

  lemma InPut(rules: seq<Rule>, r: Rule, x: Rule)
    requires x in rules
    ensures x in Put(rules, r)
  {
    if x != r {
      assert x in Without(rules, r);
    }
  }

  lemma HookKnown(given: map<string, U32>, n: string, a: U32, r: Rule)
    requires n in given && given[n] == a && r == HookOf(n, a)
    ensures KnownRule(given, r)
  {
  }

  lemma KnownRuleGrows(given: map<string, U32>, name: string, a: U32, r: Rule)
    requires KnownRule(given, r) && (name in given ==> given[name] == a)
    ensures KnownRule(given[name := a], r)
  {
    if !ForeignRule(r) {
      var n :| n in given && r == HookOf(n, given[n]);
      HookKnown(given[name := a], n, given[n], r);
    }
  }

  lemma StepConsistent(s: State, at: Attempt)
    requires Consistent(s) && CleanName(at.name)
    ensures Consistent(PrepareOnce(s, at))
  {
    var r := Allocated(Listing(s.output), at.held, at.name);
    if r.Some? {
      if at.name in s.given {
        RePreparingIsStable(s, at);
      } else {
        NewSourceIsFresh(s, at, r.value);
      }
      PutHookConsistent(s, at.name, r.value);
    }
  }

  /** Over every run of preparations from a chain of foreign rules, whatever addresses the host reports as
      assigned in between: sources are injective in the name, lie in the managed range and are never
      198.18.0.1. */
  lemma {:induction false} SourcesStayDistinct(output: seq<Rule>, attempts: seq<Attempt>)
    requires forall i :: 0 <= i < |output| ==> ForeignRule(output[i])
    requires forall i :: 0 <= i < |attempts| ==> CleanName(attempts[i].name)
    ensures var s := RunFrom(State(output, map[]), attempts);
      && Consistent(s)
      && (forall m, n :: m in s.given && n in s.given && m != n ==> s.given[m] != s.given[n])
      && (forall n :: n in s.given ==> 0xC612_0001 < s.given[n] < 0xC613_FFFF)
  {
    if attempts != [] {
      var earlier := attempts[..|attempts| - 1];
      SourcesStayDistinct(output, earlier);
      StepConsistent(RunFrom(State(output, map[]), earlier), attempts[|attempts| - 1]);
    }
  }

  predicate Extends(given: map<string, U32>, later: map<string, U32>) {
    forall n :: n in given ==> n in later && later[n] == given[n]
  }

  lemma StepKeepsGiven(s: State, at: Attempt)
    requires Consistent(s) && CleanName(at.name)
    ensures Consistent(PrepareOnce(s, at)) && Extends(s.given, PrepareOnce(s, at).given)
  {
    StepConsistent(s, at);
    if at.name in s.given {
      RePreparingIsStable(s, at);
    }
  }

  /** A source once given stays with its policy through any later preparations. */
  lemma {:induction false} GivenSourceIsKept(s: State, attempts: seq<Attempt>)
    requires Consistent(s) && forall i :: 0 <= i < |attempts| ==> CleanName(attempts[i].name)
    ensures Consistent(RunFrom(s, attempts))
    ensures Extends(s.given, RunFrom(s, attempts).given)
  {
    if attempts != [] {
      var before, at := RunFrom(s, attempts[..|attempts| - 1]), attempts[|attempts| - 1];
      GivenSourceIsKept(s, attempts[..|attempts| - 1]);
      StepKeepsGiven(before, at);
    }
  }
}
