/** Which IPv4 source a rootless policy gets: its own one if a hook rule already names it, otherwise the
    first free managed address of its probe sequence (src/helper.rs). */
module SourceAllocator {
  import opened Text
  import opened Addresses
  import opened Firewall
  import opened Iptables
  import opened OutputPolicy
  import Fnv

  // ---------- reading the rule listing ----------

  /** `iptables -S OUTPUT` prints a rule as the arguments that appended it. */
  function Line(r: Rule): string {
    Join(["-A", OUTPUT] + RuleArgs(r), ' ')
  }

  function Listing(rules: seq<Rule>): (lines: seq<string>)
    ensures |lines| == |rules| + 1
    ensures lines[0] == "-P OUTPUT ACCEPT"
    ensures forall i :: 0 <= i < |rules| ==> lines[i + 1] == Line(rules[i])
  {
    ["-P OUTPUT ACCEPT"] + seq(|rules|, i requires 0 <= i < |rules| => Line(rules[i]))
  }

  predicate IsAsciiWhitespace(c: char) {
    c == ' ' || c == '\t' || c == '\n' || c == '\r' || c == '\U{0C}'
  }

  function NonEmpty(parts: seq<string>): seq<string> {
    if parts == [] then []
    else if parts[0] == "" then NonEmpty(parts[1..])
    else [parts[0]] + NonEmpty(parts[1..])
  }

  /** `split_ascii_whitespace` */
  function Fields(s: string): seq<string> {
    NonEmpty(Split(seq(|s|, i requires 0 <= i < |s| => if IsAsciiWhitespace(s[i]) then ' ' else s[i]), ' '))
  }

  /** The field after the first `-s`. */
  function AfterSourceFlag(fields: seq<string>): Option<string> {
    if |fields| < 2 then None
    else if fields[0] == "-s" then Some(fields[1])
    else AfterSourceFlag(fields[1..])
  }

  function RuleSourceIp(line: string): Option<U32> {
    match AfterSourceFlag(Fields(line))
    case Some(cidr) => if HasSuffix(cidr, "/32") then ParseV4(cidr[..|cidr| - 3]) else None
    case None => None
  }

  // ---------- allocation ----------

  /** The UTF-8 bytes of a name. */
  function Utf8(name: string): seq<Fnv.Byte> {
    if name == "" then [] else Utf8Char(name[0] as nat) + Utf8(name[1..])
  }

  function Utf8Char(c: nat): seq<Fnv.Byte>
    requires c < 0x11_0000
  {
    if c < 0x80 then [c]
    else if c < 0x800 then [0xC0 + c / 0x40, 0x80 + c % 0x40]
    else if c < 0x1_0000 then [0xE0 + c / 0x1000, 0x80 + c / 0x40 % 0x40, 0x80 + c % 0x40]
    else [0xF0 + c / 0x4_0000, 0x80 + c / 0x1000 % 0x40, 0x80 + c / 0x40 % 0x40, 0x80 + c % 0x40]
  }

  // ---------- the bytes of a name ----------

  predicate IsContinuation(b: Fnv.Byte) {
    0x80 <= b < 0xC0
  }

  predicate IsScalar(c: nat) {
    c < 0xD800 || 0xE000 <= c < 0x11_0000
  }

  /** Reading UTF-8 (section 3 of RFC 3629): one character at the front and how many bytes it takes. */
  function ReadChar(bytes: seq<Fnv.Byte>): (r: Option<(char, nat)>)
    ensures r.Some? ==> 1 <= r.value.1 <= |bytes|
  {
    if bytes == [] then None
    else
      var b: int := bytes[0];
      if b < 0x80 then Scalar(b, 1)
      else if 0xC0 <= b < 0xE0 && |bytes| >= 2 && IsContinuation(bytes[1]) then
        Scalar(64 * (b - 0xC0) + Low(bytes[1]), 2)
      else if 0xE0 <= b < 0xF0 && |bytes| >= 3 && IsContinuation(bytes[1]) && IsContinuation(bytes[2]) then
        Scalar(4096 * (b - 0xE0) + 64 * Low(bytes[1]) + Low(bytes[2]), 3)
      else if 0xF0 <= b < 0xF8 && |bytes| >= 4
        && IsContinuation(bytes[1]) && IsContinuation(bytes[2]) && IsContinuation(bytes[3]) then
        Scalar(0x4_0000 * (b - 0xF0) + 4096 * Low(bytes[1]) + 64 * Low(bytes[2]) + Low(bytes[3]), 4)
      else None
  }

  function Low(b: Fnv.Byte): nat
    requires IsContinuation(b)
  {
    b - 0x80
  }

  function Scalar(c: nat, length: nat): (r: Option<(char, nat)>)
    ensures r.Some? ==> r.value.1 == length
  {
    if IsScalar(c) then Some((c as char, length)) else None
  }

  function FromUtf8(bytes: seq<Fnv.Byte>): Option<string> {
    if bytes == [] then Some("")
    else match ReadChar(bytes)
      case None => None
      case Some((c, n)) =>
        match FromUtf8(bytes[n..]) case None => None case Some(rest) => Some([c] + rest)
  }

  lemma CharRoundTrip(c: char, rest: seq<Fnv.Byte>)
    ensures var bytes := Utf8Char(c as nat);
      ReadChar(bytes + rest) == Some((c, |bytes|)) && (bytes + rest)[|bytes|..] == rest && bytes != []
  {
    var n, bytes := c as nat, Utf8Char(c as nat);
    assert (bytes + rest)[|bytes|..] == rest;
    if n < 0x80 {
    } else if n < 0x800 {
      assert Low(bytes[1]) == n % 64;
    } else if n < 0x1_0000 {
      ThreeDigits(n);
    } else {
      FourDigits(n);
    }
  }

  lemma ThreeDigits(n: nat)
    ensures 4096 * (n / 0x1000) + 64 * (n / 0x40 % 0x40) + n % 0x40 == n
  {
    assert n / 0x1000 == n / 64 / 64;
  }

  lemma FourDigits(n: nat)
    ensures 0x4_0000 * (n / 0x4_0000) + 4096 * (n / 0x1000 % 0x40) + 64 * (n / 0x40 % 0x40) + n % 0x40 == n
  {
    assert n / 0x1000 == n / 64 / 64 && n / 0x4_0000 == n / 64 / 64 / 64;
  }

  /** The bytes of a name are its UTF-8 form: reading them gives back the name. */
  lemma {:induction false} Utf8RoundTrip(name: string)
    ensures FromUtf8(Utf8(name)) == Some(name)
  {
    if name != "" {
      CharRoundTrip(name[0], Utf8(name[1..]));
      Utf8RoundTrip(name[1..]);
      assert name == [name[0]] + name[1..];
    }
  }

  lemma {:induction false} Utf8Append(a: string, b: string)
    ensures Utf8(a + b) == Utf8(a) + Utf8(b)
  {
    if a == "" {
      assert a + b == b;
    } else {
      assert (a + b)[1..] == a[1..] + b;
      Utf8Append(a[1..], b);
    }
  }

  lemma Utf8Ascii(c: char)
    requires c as nat < 0x80
    ensures Utf8([c]) == [c as nat]
  {
    assert [c][1..] == "";
  }

  /** Names that differ in one ASCII character have different hashes, and so different IPv6 candidates for the same
      attempt. */
  lemma CloseNamesStayApart(front: string, c: char, d: char, back: string, prefix: U128, attempt: nat)
    requires c != d && c as nat < 0x80 && d as nat < 0x80
    ensures var s, t := Utf8(front + [c] + back), Utf8(front + [d] + back);
      Fnv.Hash(s) != Fnv.Hash(t) && Fnv.SourceIpv6(prefix, s, attempt) != Fnv.SourceIpv6(prefix, t, attempt)
  {
    CloseNameBytes(front, c, back);
    CloseNameBytes(front, d, back);
    var s, t, k := Utf8(front + [c] + back), Utf8(front + [d] + back), |Utf8(front)|;
    Fnv.OneByteApart(s, t, k);
    Fnv.CandidatesOfCloseNamesDiffer(prefix, s, t, k, attempt);
  }

  lemma CloseNameBytes(front: string, c: char, back: string)
    requires c as nat < 0x80
    ensures Utf8(front + [c] + back) == Utf8(front) + [c as nat] + Utf8(back)
  {
    Utf8Append(front + [c], back);
    Utf8Append(front, [c]);
    Utf8Ascii(c);
  }

  // ---------- the two searches ----------

  function OwnMarker(name: string): string {
    Marker(name, "output-hook")
  }

  function OwnAddress(lines: seq<string>, name: string): Option<U32> {
    if lines == [] then None
    else if Contains(lines[0], OwnMarker(name)) && RuleSourceIp(lines[0]).Some? then RuleSourceIp(lines[0])
    else OwnAddress(lines[1..], name)
  }

  predicate Listed(lines: seq<string>, a: U32) {
    exists i :: 0 <= i < |lines| && Contains(lines[i], CidrText(a, 32))
  }

  predicate InUse(lines: seq<string>, held: set<U32>, a: U32) {
    Listed(lines, a) || a in held
  }

  function FirstFree(lines: seq<string>, held: set<U32>, name: string, attempt: nat): Option<U32>
    requires attempt <= Fnv.MANAGED
    decreases Fnv.MANAGED - attempt
  {
    if attempt == Fnv.MANAGED then None
    else
      var a := Fnv.SourceIp(Utf8(name), attempt);
      if InUse(lines, held, a) then FirstFree(lines, held, name, attempt + 1) else Some(a)
  }

  function Allocated(lines: seq<string>, held: set<U32>, name: string): Option<U32> {
    match OwnAddress(lines, name)
    case Some(a) => Some(a)
    case None => FirstFree(lines, held, name, 0)
  }

  method AllocateSourceIp(lines: seq<string>, held: set<U32>, name: string) returns (r: Option<U32>)
    ensures r == Allocated(lines, held, name)
  {
    for i := 0 to |lines|
      invariant OwnAddress(lines[i..], name) == OwnAddress(lines, name)
    {
      assert lines[i..][1..] == lines[i + 1..];
      if Contains(lines[i], OwnMarker(name)) {
        var source := RuleSourceIp(lines[i]);
        if source.Some? {
          return source;
        }
      }
    }
    assert OwnAddress(lines, name).None?;
    var attempt := 0;
    while attempt < Fnv.MANAGED
      invariant 0 <= attempt <= Fnv.MANAGED
      invariant FirstFree(lines, held, name, attempt) == FirstFree(lines, held, name, 0)
    {
      var a := Fnv.SourceIp(Utf8(name), attempt);
      if !InUse(lines, held, a) {
        return Some(a);
      }
      attempt := attempt + 1;
    }
    return None;
  }

  /** No rule's line contains the address as a /32, and the host does not report it as assigned. */
  predicate IsFree(lines: seq<string>, held: set<U32>, a: U32) {
    a !in held && forall i :: 0 <= i < |lines| ==> !Contains(lines[i], CidrText(a, 32))
  }

  predicate AllTaken(lines: seq<string>, held: set<U32>, name: string, from: nat, to: nat) {
    forall m :: from <= m < to ==> !IsFree(lines, held, Fnv.SourceIp(Utf8(name), m))
  }

  lemma InUseIff(lines: seq<string>, held: set<U32>, a: U32)
    ensures InUse(lines, held, a) <==> !IsFree(lines, held, a)
  {
  }

  /** The probe returns the address of the first attempt that is free. */
  lemma {:induction false} FirstFreeIsFree(lines: seq<string>, held: set<U32>, name: string, attempt: nat)
    returns (n: nat)
    requires attempt <= Fnv.MANAGED && FirstFree(lines, held, name, attempt).Some?
    ensures attempt <= n < 131069
    ensures var a := FirstFree(lines, held, name, attempt).value;
      a == Fnv.SourceIp(Utf8(name), n) && Fnv.IsManaged(a) && IsFree(lines, held, a)
    ensures AllTaken(lines, held, name, attempt, n)
    decreases Fnv.MANAGED - attempt
  {
    n := attempt;
    var a := Fnv.SourceIp(Utf8(name), attempt);
    InUseIff(lines, held, a);
    if InUse(lines, held, a) {
      assert FirstFree(lines, held, name, attempt) == FirstFree(lines, held, name, attempt + 1);
      n := FirstFreeIsFree(lines, held, name, attempt + 1);
      TakenBefore(lines, held, name, attempt, n);
    }
  }

  lemma TakenBefore(lines: seq<string>, held: set<U32>, name: string, from: nat, to: nat)
    requires !IsFree(lines, held, Fnv.SourceIp(Utf8(name), from)) && AllTaken(lines, held, name, from + 1, to)
    ensures AllTaken(lines, held, name, from, to)
  {
  }

  /** What the predicate `used` stands for: not being free. */
  ghost predicate Reports(used: U32 -> bool, lines: seq<string>, held: set<U32>) {
    forall a: U32 :: used(a) == !IsFree(lines, held, a)
  }

  /** The first line that names the policy. */
  predicate FirstNaming(lines: seq<string>, i: nat, name: string) {
    i < |lines| && Names(lines[i], name) && forall j :: 0 <= j < i ==> !Names(lines[j], name)
  }

  /** A policy's own address is the one in the first line that carries its marker and a readable source. */
  lemma {:induction false} OwnAddressIff(lines: seq<string>, name: string)
    ensures OwnAddress(lines, name).None? <==> forall i :: 0 <= i < |lines| ==> !Names(lines[i], name)
    ensures forall i: nat :: FirstNaming(lines, i, name) ==> OwnAddress(lines, name) == RuleSourceIp(lines[i])
  {
    OwnMarkerText(name);
    if lines != [] {
      var rest := lines[1..];
      OwnAddressIff(rest, name);
      assert forall i :: 0 <= i < |rest| ==> rest[i] == lines[i + 1];
      assert Names(lines[0], name) <==> Contains(lines[0], OwnMarker(name)) && RuleSourceIp(lines[0]).Some?;
      assert forall i :: 0 < i < |lines| ==> lines[i] == rest[i - 1];
      if !Names(lines[0], name) {
        forall i: nat | FirstNaming(lines, i, name) ensures OwnAddress(lines, name) == RuleSourceIp(lines[i]) {
          assert FirstNaming(rest, i - 1, name);
        }
      }
    }
  }

  /** The line carries the policy's marker and a source that can be read. */
  predicate Names(line: string, name: string) {
    Contains(line, "dockerwall:" + name + ":output-hook") && RuleSourceIp(line).Some?
  }

  lemma OwnMarkerText(name: string)
    ensures OwnMarker(name) == "dockerwall:" + name + ":output-hook"
  {
  }

  lemma AllProbesStep(bytes: seq<Fnv.Byte>, first: nat, used: U32 -> bool)
    requires first < Fnv.MANAGED
    ensures Fnv.AllProbesUsed(bytes, first, used) <==>
      used(Fnv.SourceIp(bytes, first)) && Fnv.AllProbesUsed(bytes, first + 1, used)
  {
  }

  lemma {:induction false} ProbeGivesUp(
    lines: seq<string>, held: set<U32>, name: string, attempt: nat, used: U32 -> bool)
    requires attempt <= Fnv.MANAGED && Reports(used, lines, held)
    ensures FirstFree(lines, held, name, attempt).None? <==> Fnv.AllProbesUsed(Utf8(name), attempt, used)
    decreases Fnv.MANAGED - attempt
  {
    if attempt < Fnv.MANAGED {
      ProbeGivesUp(lines, held, name, attempt + 1, used);
      AllProbesStep(Utf8(name), attempt, used);
      var a := Fnv.SourceIp(Utf8(name), attempt);
      assert used(a) == !IsFree(lines, held, a);
      InUseIff(lines, held, a);
    }
  }

  /** Allocation fails exactly when no rule names the policy and none of the addresses from 198.18.0.2 to
      198.19.255.254 is free. */
  lemma FailsOnlyWhenFull(lines: seq<string>, held: set<U32>, name: string)
    ensures Allocated(lines, held, name).None? <==>
      && (forall i :: 0 <= i < |lines| ==> !Names(lines[i], name))
      && (forall a: U32 :: 0xC612_0002 <= a <= 0xC613_FFFE ==> !IsFree(lines, held, a))
  {
    var used := (a: U32) => !IsFree(lines, held, a);
    OwnAddressIff(lines, name);
    ProbeGivesUp(lines, held, name, 0, used);
    Fnv.ProbeCoversRange(Utf8(name), used);
    assert forall a: U32 :: Fnv.IsManaged(a) <==> 0xC612_0002 <= a <= 0xC613_FFFE;
  }

  // ---------- hook lines ----------

  /** Names the listing can be searched for reliably. */
  predicate CleanName(name: string) {
    ':' !in name && forall c :: c in name ==> !IsAsciiWhitespace(c)
  }

  function HookOf(name: string, a: U32): Rule {
    Hook(name, CidrText(a, 32))
  }

  lemma HookArgs(name: string, source: string)
    ensures RuleArgs(Hook(name, source)) ==
      ["-s", source, "-m", "comment", "--comment", OwnMarker(name), "-j", OUTPUT_CHAIN]
  {
    var r := Hook(name, source);
    assert r.matches[1..] == [r.matches[1]] && r.matches[1..][1..] == [];
    assert MatchesArgs(r.matches[1..]) == MatchArgs(r.matches[1]) + [];
    assert MatchesArgs(r.matches) == MatchArgs(r.matches[0]) + MatchArgs(r.matches[1]);
  }

  function HookFields(name: string, source: string): seq<string> {
    ["-A", OUTPUT, "-s", source, "-m", "comment", "--comment", OwnMarker(name), "-j", OUTPUT_CHAIN]
  }

  lemma HookLine(name: string, source: string)
    ensures Line(Hook(name, source)) == Join(HookFields(name, source), ' ')
  {
    HookArgs(name, source);
    assert ["-A", OUTPUT] + RuleArgs(Hook(name, source)) == HookFields(name, source);
  }

  /** Every piece of a joined text occurs in it. */
  lemma {:induction false} JoinContains(parts: seq<string>, sep: char, i: nat)
    requires i < |parts|
    ensures Contains(Join(parts, sep), parts[i])
  {
    var whole := Join(parts, sep);
    if |parts| == 1 {
      assert OccursAt(whole, parts[0], 0);
    } else if i == 0 {
      assert whole[..|parts[0]|] == parts[0];
      assert OccursAt(whole, parts[0], 0);
    } else {
      JoinContains(parts[1..], sep, i - 1);
      var inner := Join(parts[1..], sep);
      var k :| 0 <= k <= |inner| && OccursAt(inner, parts[i], k);
      var shift := |parts[0]| + 1;
      assert whole[shift..] == inner;
      assert whole[shift + k..shift + k + |parts[i]|] == inner[k..k + |parts[i]|];
      assert OccursAt(whole, parts[i], shift + k);
    }
  }

  /** A policy's hook line carries its marker and its source. */
  lemma HookLineContains(name: string, source: string)
    ensures Contains(Line(Hook(name, source)), OwnMarker(name))
    ensures Contains(Line(Hook(name, source)), source)
  {
    HookLine(name, source);
    JoinContains(HookFields(name, source), ' ', 7);
    JoinContains(HookFields(name, source), ' ', 3);
  }

  // ---------- one marker is not found in another policy's line ----------

  lemma MarkerPieces(name: string, front: string, back: string)
    requires ':' !in name
    ensures Split(front + OwnMarker(name) + back, ':')
         == Split(front + "dockerwall", ':') + [name] + Split("output-hook" + back, ':')
  {
    var whole := front + OwnMarker(name) + back;
    var left, right := front + "dockerwall", "output-hook" + back;
    assert OwnMarker(name) == "dockerwall" + [':'] + name + [':'] + "output-hook";
    assert whole == left + [':'] + (name + [':'] + right);
    SplitAppend(left, name + [':'] + right, ':');
    SplitAppend(name, right, ':');
    SplitPlain(name, ':');
  }

  lemma ThreePieces(name: string, front: string, back: string)
    requires ':' !in name && ':' !in front && ':' !in back
    ensures Split(front + OwnMarker(name) + back, ':') == [front + "dockerwall", name, "output-hook" + back]
  {
    MarkerPieces(name, front, back);
    SplitPlain(front + "dockerwall", ':');
    SplitPlain("output-hook" + back, ':');
  }

  lemma OccurrenceSplits(whole: string, needle: string) returns (x: string, y: string)
    requires Contains(whole, needle)
    ensures whole == x + needle + y
  {
    var k :| 0 <= k <= |whole| && OccursAt(whole, needle, k);
    x, y := whole[..k], whole[k + |needle|..];
  }

  /** Two colon-free names: the marker of one occurs in a text with two colons around the other only if
      the names are equal. */
  lemma MarkerIdentifiesName(name: string, other: string, front: string, back: string)
    requires ':' !in name && ':' !in other && ':' !in front && ':' !in back
    requires Contains(front + OwnMarker(other) + back, OwnMarker(name))
    ensures name == other
  {
    var x, y := OccurrenceSplits(front + OwnMarker(other) + back, OwnMarker(name));
    var pieces := Split(x + OwnMarker(name) + y, ':');
    assert pieces == [front + "dockerwall", other, "output-hook" + back] by {
      ThreePieces(other, front, back);
    }
    var left, right := Split(x + "dockerwall", ':'), Split("output-hook" + y, ':');
    assert pieces == left + [name] + right by {
      MarkerPieces(name, x, y);
    }
    assert |left| == 1 && (left + [name] + right)[1] == name;
  }

  /** A hook line is its marker between two texts without colons. */
  lemma HookLineAroundMarker(name: string, source: string) returns (front: string, back: string)
    requires ':' !in source
    ensures ':' !in front && ':' !in back
    ensures Line(Hook(name, source)) == front + OwnMarker(name) + back
  {
    var f := HookFields(name, source);
    var before, after := f[..7], f[8..];
    HookLine(name, source);
    JoinAround(before, OwnMarker(name), after);
    assert f == before + ([OwnMarker(name)] + after);
    assert ':' !in Join(before, ' ') by {
      assert before == ["-A", OUTPUT, "-s", source, "-m", "comment", "--comment"];
      JoinAvoids(before, ' ', ':');
    }
    assert ':' !in Join(after, ' ') by {
      assert after == ["-j", OUTPUT_CHAIN];
      JoinAvoids(after, ' ', ':');
    }
    front := Join(before, ' ') + " ";
    back := " " + Join(after, ' ');
  }

  lemma JoinAround(before: seq<string>, middle: string, after: seq<string>)
    requires before != [] && after != []
    ensures Join(before + ([middle] + after), ' ') == Join(before, ' ') + " " + middle + (" " + Join(after, ' '))
  {
    JoinAppend(before, [middle] + after, ' ');
    JoinAppend([middle], after, ' ');
  }
}
