/** The control protocol: the printer of src/manage.rs and the parser of src/control.rs. */
module Control {
  import opened Text

  datatype Request =
    | Stats
    | Info
    | Create(name: string, subnet: string, patterns: seq<string>)
    | Remove(name: string)
    | MissingName             // answered with an ERR line
    | Malformed(what: string) // the connection handler fails
    | Unknown

  // ---------- printer ----------

  function PrintCreate(name: string, subnet: string, patterns: seq<string>): string {
    "CREATE\t" + name + "\t" + subnet + "\t" + Join(patterns, ',') + "\n"
  }

  function PrintRemove(name: string): string {
    "REMOVE\t" + name + "\n"
  }

  // ---------- parser ----------

  /** `read_line`: everything up to and including the first newline. */
  function ReadLine(stream: string): string {
    var at := FirstIndex(stream, '\n');
    if at == |stream| then stream else stream[..at + 1]
  }

  /** The comma-separated pieces, trimmed, without the empty ones. */
  function CleanPieces(pieces: seq<string>): seq<string> {
    if pieces == [] then []
    else if Trim(pieces[0]) == "" then CleanPieces(pieces[1..])
    else [Trim(pieces[0])] + CleanPieces(pieces[1..])
  }

  function ParseCreate(rest: string): Request {
    var parts := SplitN(rest, '\t', 3);
    if |parts| < 1 then Malformed("missing ipset name")
    else if |parts| < 2 then Malformed("missing subnet")
    else if |parts| < 3 then Malformed("missing domains")
    else if Trim(parts[0]) == "" then MissingName
    else Create(Trim(parts[0]), Trim(parts[1]), CleanPieces(Split(parts[2], ',')))
  }

  function ParseRequest(line: string): Request {
    var command := TrimEndMatches(line, '\n');
    if command == "STATS" then Stats
    else if command == "INFO" then Info
    else if HasPrefix(command, "CREATE\t") then ParseCreate(command[7..])
    else if HasPrefix(command, "REMOVE\t") then
      var name := Trim(command[7..]);
      if name == "" then MissingName else Remove(name)
    else Unknown
  }

  // ---------- round trip ----------

  /** What the daemon should end up with: every pattern split at commas, trimmed, empties dropped. */
  function Flatten(patterns: seq<string>): seq<string> {
    if patterns == [] then [] else CleanPieces(Split(patterns[0], ',')) + Flatten(patterns[1..])
  }

  predicate CleanField(s: string) {
    '\t' !in s && '\n' !in s && Trim(s) == s
  }

  lemma {:induction false} CleanPiecesAppend(a: seq<string>, b: seq<string>)
    ensures CleanPieces(a + b) == CleanPieces(a) + CleanPieces(b)
  {
    if a == [] {
      assert a + b == b;
    } else {
      assert (a + b)[1..] == a[1..] + b;
      CleanPiecesAppend(a[1..], b);
    }
  }

  lemma {:induction false} JoinedPatternsFlatten(patterns: seq<string>)
    ensures CleanPieces(Split(Join(patterns, ','), ',')) == Flatten(patterns)
  {
    if |patterns| == 1 {
      assert Flatten(patterns) == CleanPieces(Split(patterns[0], ',')) + Flatten([]);
    } else if |patterns| > 1 {
      var rest := Join(patterns[1..], ',');
      SplitAppend(patterns[0], rest, ',');
      CleanPiecesAppend(Split(patterns[0], ','), Split(rest, ','));
      JoinedPatternsFlatten(patterns[1..]);
    }
  }

  lemma SplitNThree(a: string, b: string, c: string)
    requires '\t' !in a && '\t' !in b
    ensures SplitN(a + "\t" + b + "\t" + c, '\t', 3) == [a, b, c]
  {
    var tail := b + ['\t'] + c;
    assert a + ['\t'] + tail == a + "\t" + b + "\t" + c;
    SplitNFirst(a, tail, 3);
    SplitNFirst(b, c, 2);
    assert SplitN(c, '\t', 1) == [c];
  }

  lemma SplitNFirst(a: string, rest: string, n: nat)
    requires '\t' !in a && n >= 2
    ensures SplitN(a + ['\t'] + rest, '\t', n) == [a] + SplitN(rest, '\t', n - 1)
  {
    var whole := a + ['\t'] + rest;
    FirstIndexAppend(a, '\t', rest);
    assert whole[..|a|] == a && whole[|a| + 1..] == rest;
  }

  /** A payload whose only newline is the last character is read whole and loses just that newline. */
  lemma ReadsWholePayload(body: string)
    requires '\n' !in body
    ensures ReadLine(body + "\n") == body + "\n"
    ensures TrimEndMatches(body + "\n", '\n') == body
  {
    FirstIndexAppend(body, '\n', "");
    assert body + ['\n'] + "" == body + "\n";
    var s := body + "\n";
    assert s[..|s| - 1] == body && s[|s| - 1] == '\n';
    assert body == "" || body[|body| - 1] in body;
  }

  lemma CreateLineDispatch(rest: string)
    requires '\n' !in rest
    ensures ParseRequest(ReadLine("CREATE\t" + rest + "\n")) == ParseCreate(rest)
  {
    var body := "CREATE\t" + rest;
    assert '\n' !in "CREATE\t";
    ReadsWholePayload(body);
    assert body[..7] == "CREATE\t" && body[7..] == rest;
    assert body[0] == 'C';
  }

  lemma PrintCreateShape(name: string, subnet: string, patterns: seq<string>)
    ensures PrintCreate(name, subnet, patterns)
         == "CREATE\t" + (name + "\t" + subnet + "\t" + Join(patterns, ',')) + "\n"
  {
  }

  lemma ParseCreateFields(name: string, subnet: string, patterns: seq<string>)
    requires CleanField(name) && name != "" && CleanField(subnet)
    ensures ParseCreate(name + "\t" + subnet + "\t" + Join(patterns, ','))
         == Create(name, subnet, Flatten(patterns))
  {
    SplitNThree(name, subnet, Join(patterns, ','));
    JoinedPatternsFlatten(patterns);
  }

  lemma NewlineFreeFields(name: string, subnet: string, domains: string)
    requires '\n' !in name && '\n' !in subnet && '\n' !in domains
    ensures '\n' !in name + "\t" + subnet + "\t" + domains
  {
  }

  /** Parsing the printed CREATE line gives back the name, the subnet and the flattened patterns. */
  lemma CreateRoundTrip(name: string, subnet: string, patterns: seq<string>)
    requires CleanField(name) && name != "" && CleanField(subnet)
    requires forall i :: 0 <= i < |patterns| ==> '\n' !in patterns[i]
    ensures ParseRequest(ReadLine(PrintCreate(name, subnet, patterns)))
         == Create(name, subnet, Flatten(patterns))
  {
    JoinAvoids(patterns, ',', '\n');
    NewlineFreeFields(name, subnet, Join(patterns, ','));
    PrintCreateShape(name, subnet, patterns);
    CreateLineDispatch(name + "\t" + subnet + "\t" + Join(patterns, ','));
    ParseCreateFields(name, subnet, patterns);
  }

  /** The flattening is the identity on lists of clean patterns. */
  lemma {:induction false} FlattenIdentity(patterns: seq<string>)
    requires forall i :: 0 <= i < |patterns| ==>
      patterns[i] != "" && ',' !in patterns[i] && Trim(patterns[i]) == patterns[i]
    ensures Flatten(patterns) == patterns
  {
    if patterns != [] {
      SplitPlain(patterns[0], ',');
      FlattenIdentity(patterns[1..]);
      assert CleanPieces([patterns[0]]) == [patterns[0]] + CleanPieces([]);
      assert patterns == [patterns[0]] + patterns[1..];
    }
  }

  lemma RemoveRoundTrip(name: string)
    requires Trim(name) == name && name != "" && '\n' !in name
    ensures ParseRequest(ReadLine(PrintRemove(name))) == Remove(name)
  {
    var body := "REMOVE\t" + name;
    ReadsWholePayload(body);
    assert body[..7] == "REMOVE\t" && body[7..] == name;
    assert body[0] == 'R';
  }

  // ---------- every other line ----------

  /** A piece is kept exactly when something is left of it after trimming. */
  lemma {:induction false} CleanPiecesMembers(pieces: seq<string>, p: string)
    ensures p in CleanPieces(pieces) <==> p != "" && exists i :: 0 <= i < |pieces| && Trim(pieces[i]) == p
  {
    if pieces != [] {
      CleanPiecesMembers(pieces[1..], p);
      if i :| 0 <= i < |pieces| && Trim(pieces[i]) == p {
        if i > 0 {
          assert pieces[1..][i - 1] == pieces[i];
        }
      }
    }
  }

  /** A CREATE line with at least two tabs after the word: the first two fields are trimmed, the third holds the
      patterns, and a blank name is an error of its own. */
  lemma CreateReads(a: string, b: string, c: string)
    requires '\t' !in a && '\t' !in b && '\n' !in a && '\n' !in b && '\n' !in c
    ensures ParseRequest(ReadLine("CREATE\t" + (a + "\t" + b + "\t" + c) + "\n")) ==
      if Trim(a) == "" then MissingName else Create(Trim(a), Trim(b), CleanPieces(Split(c, ',')))
  {
    NewlineFreeFields(a, b, c);
    CreateLineDispatch(a + "\t" + b + "\t" + c);
    SplitNThree(a, b, c);
  }

  /** With fewer tabs the connection fails. */
  lemma ShortCreateFails(a: string, b: string)
    requires '\t' !in a && '\t' !in b && '\n' !in a && '\n' !in b
    ensures ParseRequest(ReadLine("CREATE\t" + a + "\n")).Malformed?
    ensures ParseRequest(ReadLine("CREATE\t" + (a + "\t" + b) + "\n")).Malformed?
  {
    CreateLineDispatch(a);
    CreateLineDispatch(a + "\t" + b);
    FirstIndexAppend(a, '\t', b);
    assert a + ['\t'] + b == a + "\t" + b;
    assert (a + "\t" + b)[|a| + 1..] == b;
  }

  /** A REMOVE line names the trimmed rest, unless that is blank. */
  lemma RemoveReads(name: string)
    requires '\n' !in name
    ensures ParseRequest(ReadLine(PrintRemove(name))) == if Trim(name) == "" then MissingName else Remove(Trim(name))
  {
    var body := "REMOVE\t" + name;
    ReadsWholePayload(body);
    assert body[..7] == "REMOVE\t" && body[7..] == name;
    assert body[0] == 'R';
  }

  /** The two queries, and every line that begins in no known way. */
  lemma OtherLinesRead(body: string)
    requires '\n' !in body
    ensures ParseRequest(ReadLine("STATS\n")) == Stats && ParseRequest(ReadLine("INFO\n")) == Info
    ensures body != "STATS" && body != "INFO" && !HasPrefix(body, "CREATE\t") && !HasPrefix(body, "REMOVE\t") ==>
      ParseRequest(ReadLine(body + "\n")) == Unknown
  {
    ReadsWholePayload("STATS");
    ReadsWholePayload("INFO");
    ReadsWholePayload(body);
    assert "STATS" + "\n" == "STATS\n" && "INFO" + "\n" == "INFO\n";
  }
}
