/** The domain matcher (src/state.rs) and its meaning on DNS labels. */
module DomainMatcher {
  import opened Text

  /** `str::to_ascii_lowercase` */
  function ToAsciiLowercase(s: string): (r: string)
    ensures |r| == |s|
    ensures forall i :: 0 <= i < |s| ==> r[i] == LowerChar(s[i])
  {
    seq(|s|, i requires 0 <= i < |s| => LowerChar(s[i]))
  }

  function LowerChar(c: char): char {
    if 'A' <= c <= 'Z' then c - 'A' + 'a' else c
  }

  function NormalizeDomain(name: string): string {
    ToAsciiLowercase(TrimEndMatches(name, '.'))
  }

  // ---------- normalization ----------

  predicate SameLetter(a: char, b: char) {
    || a == b
    || ('A' <= a <= 'Z' && b as int == a as int + 32)
    || ('A' <= b <= 'Z' && a as int == b as int + 32)
  }

  /** Equal up to ASCII case, character by character. */
  predicate CaseVariant(a: string, b: string) {
    |a| == |b| && forall i :: 0 <= i < |a| ==> SameLetter(a[i], b[i])
  }

  lemma LowerCharMeaning(c: char)
    ensures SameLetter(LowerChar(c), c) && !('A' <= LowerChar(c) <= 'Z')
  {
  }

  /** Lower-casing changes letters to their lower-case variants and nothing else. */
  lemma LowercaseMeaning(s: string)
    ensures CaseVariant(ToAsciiLowercase(s), s)
    ensures forall i :: 0 <= i < |s| ==> !('A' <= ToAsciiLowercase(s)[i] <= 'Z')
  {
    forall i | 0 <= i < |s|
      ensures SameLetter(ToAsciiLowercase(s)[i], s[i]) && !('A' <= ToAsciiLowercase(s)[i] <= 'Z')
    {
      LowerCharMeaning(s[i]);
    }
  }

  /** Two texts have the same lower-case form exactly when they differ in ASCII case alone. */
  lemma LowercaseEqualIff(a: string, b: string)
    ensures ToAsciiLowercase(a) == ToAsciiLowercase(b) <==> CaseVariant(a, b)
  {
    if ToAsciiLowercase(a) == ToAsciiLowercase(b) {
      forall i | 0 <= i < |a| ensures SameLetter(a[i], b[i]) {
        assert LowerChar(a[i]) == ToAsciiLowercase(a)[i] == ToAsciiLowercase(b)[i] == LowerChar(b[i]);
      }
    }
  }

  /** A normalized name is the name without its trailing dots, in lower case. */
  lemma NormalizeMeaning(name: string)
    ensures CaseVariant(NormalizeDomain(name), TrimEndMatches(name, '.'))
    ensures forall i :: 0 <= i < |NormalizeDomain(name)| ==> !('A' <= NormalizeDomain(name)[i] <= 'Z')
  {
    LowercaseMeaning(TrimEndMatches(name, '.'));
  }

  /** Two names are the same to the matcher exactly when, without trailing dots, they differ in ASCII case alone. */
  lemma NormalizeEqualIff(a: string, b: string)
    ensures NormalizeDomain(a) == NormalizeDomain(b) <==> CaseVariant(TrimEndMatches(a, '.'), TrimEndMatches(b, '.'))
  {
    LowercaseEqualIff(TrimEndMatches(a, '.'), TrimEndMatches(b, '.'));
  }

  lemma NormalizeIdempotent(name: string)
    ensures NormalizeDomain(NormalizeDomain(name)) == NormalizeDomain(name)
  {
    var trimmed := TrimEndMatches(name, '.');
    var lower := ToAsciiLowercase(trimmed);
    assert lower == "" || lower[|lower| - 1] != '.';
    assert TrimEndMatches(lower, '.') == lower;
    assert ToAsciiLowercase(lower) == lower;
  }

  predicate DomainMatchesPattern(domain: string, pattern: string) {
    var d, p := NormalizeDomain(domain), NormalizeDomain(pattern);
    if HasPrefix(p, "*.") then d == p[2..] || HasSuffix(d, "." + p[2..]) else d == p
  }

  predicate AnyPatternMatches(domain: string, patterns: seq<string>) {
    exists i :: 0 <= i < |patterns| && DomainMatchesPattern(domain, patterns[i])
  }

  // ---------- the label-level reading ----------

  /** The labels of a name as written, trailing dots aside. */
  function Labels(name: string): seq<string> {
    Split(TrimEndMatches(name, '.'), '.')
  }

  /** Labels are compared up to ASCII case. */
  predicate SameLabels(a: seq<string>, b: seq<string>) {
    |a| == |b| && forall i :: 0 <= i < |a| ==> CaseVariant(a[i], b[i])
  }

  /** A leading `*` label stands for any number of labels, also none; otherwise all labels must be the same. */
  predicate LabelsMatch(domain: seq<string>, pattern: seq<string>) {
    if |pattern| >= 2 && pattern[0] == "*" then
      |pattern| - 1 <= |domain| && SameLabels(domain[|domain| - (|pattern| - 1)..], pattern[1..])
    else SameLabels(domain, pattern)
  }

  /** Some name is allowed by some pattern, label by label. */
  ghost predicate SomeLabelsMatch(names: seq<string>, patterns: seq<string>) {
    exists i, k :: 0 <= i < |names| && 0 <= k < |patterns| && LabelsMatch(Labels(names[i]), Labels(patterns[k]))
  }

  // ---------- labels of normalized names ----------

  function LowerLabels(name: string): seq<string> {
    Split(NormalizeDomain(name), '.')
  }

  predicate IsSuffixOf(tail: seq<string>, whole: seq<string>) {
    |tail| <= |whole| && whole[|whole| - |tail|..] == tail
  }

  predicate LowerLabelsMatch(domain: seq<string>, pattern: seq<string>) {
    if |pattern| >= 2 && pattern[0] == "*" then IsSuffixOf(pattern[1..], domain)
    else domain == pattern
  }

  /** Equal labels mean equal names. */
  lemma LabelsDetermineName(a: string, b: string)
    requires Split(a, '.') == Split(b, '.')
    ensures a == b
  {
    JoinSplit(a, '.');
    JoinSplit(b, '.');
  }

  lemma DottedSuffixGivesLabelSuffix(d: string, s: string)
    requires HasSuffix(d, "." + s)
    ensures IsSuffixOf(Split(s, '.'), Split(d, '.'))
  {
    var front := d[..|d| - |s| - 1];
    assert d == front + ['.'] + s;
    SplitAppend(front, s, '.');
  }

  lemma LabelSuffixGivesDottedSuffix(d: string, s: string)
    requires IsSuffixOf(Split(s, '.'), Split(d, '.')) && Split(s, '.') != Split(d, '.')
    ensures HasSuffix(d, "." + s)
  {
    var ds, ss := Split(d, '.'), Split(s, '.');
    var front := ds[..|ds| - |ss|];
    calc {
      d;
      { JoinSplit(d, '.'); }
      Join(ds, '.');
      { assert ds == front + ss; }
      Join(front + ss, '.');
      { JoinAppend(front, ss, '.'); }
      Join(front, '.') + ['.'] + Join(ss, '.');
      { JoinSplit(s, '.'); }
      Join(front, '.') + ['.'] + s;
    }
    AppendedIsSuffix(Join(front, '.'), s);
  }

  lemma AppendedIsSuffix(front: string, s: string)
    ensures HasSuffix(front + ['.'] + s, "." + s)
  {
  }

  /** A textual dotted suffix is a suffix of labels, and conversely. */
  lemma DottedSuffixIsLabelSuffix(d: string, s: string)
    ensures d == s || HasSuffix(d, "." + s) <==> IsSuffixOf(Split(s, '.'), Split(d, '.'))
  {
    if HasSuffix(d, "." + s) {
      DottedSuffixGivesLabelSuffix(d, s);
    } else if Split(s, '.') == Split(d, '.') {
      LabelsDetermineName(s, d);
    } else if IsSuffixOf(Split(s, '.'), Split(d, '.')) {
      LabelSuffixGivesDottedSuffix(d, s);
    }
  }

  /** The wildcard prefix `*.` is the label `*` in front of at least one more label. */
  lemma WildcardPrefixIsFirstLabel(p: string)
    ensures HasPrefix(p, "*.") <==> |Split(p, '.')| >= 2 && Split(p, '.')[0] == "*"
    ensures HasPrefix(p, "*.") ==> Split(p, '.')[1..] == Split(p[2..], '.')
  {
    if HasPrefix(p, "*.") {
      assert p == "*" + ['.'] + p[2..];
      SplitPlain("*", '.');
      SplitAppend("*", p[2..], '.');
    }
    var parts := Split(p, '.');
    if |parts| >= 2 && parts[0] == "*" {
      JoinSplit(p, '.');
      assert p == "*" + ['.'] + Join(parts[1..], '.');
      assert p[..2] == "*.";
    }
  }

  lemma {:induction false} SplitLowercase(s: string)
    ensures |Split(ToAsciiLowercase(s), '.')| == |Split(s, '.')|
    ensures AreLower(Split(ToAsciiLowercase(s), '.'), Split(s, '.'))
  {
    assert ToAsciiLowercase("") == "";
    if s != "" {
      var tail := s[1..];
      assert ToAsciiLowercase(s)[1..] == ToAsciiLowercase(tail);
      SplitLowercase(tail);
      if s[0] != '.' {
        GlueLowercase(s[0], Split(tail, '.'), Split(ToAsciiLowercase(tail), '.'));
      }
    }
  }

  lemma GlueLowercase(c: char, parts: seq<string>, lower: seq<string>)
    requires parts != [] && AreLower(lower, parts)
    ensures AreLower(Glue(LowerChar(c), lower), Glue(c, parts))
  {
    assert ToAsciiLowercase([c] + parts[0]) == [LowerChar(c)] + ToAsciiLowercase(parts[0]);
  }

  /** The labels of the normalized name are the labels in lower case. */
  lemma LowerLabelsMeaning(name: string)
    ensures |LowerLabels(name)| == |Labels(name)|
    ensures forall i :: 0 <= i < |Labels(name)| ==> LowerLabels(name)[i] == ToAsciiLowercase(Labels(name)[i])
  {
    SplitLowercase(TrimEndMatches(name, '.'));
  }

  predicate AreLower(lower: seq<string>, labels: seq<string>) {
    |lower| == |labels| && forall i :: 0 <= i < |labels| ==> lower[i] == ToAsciiLowercase(labels[i])
  }

  lemma LowerSameLabels(a: seq<string>, b: seq<string>, lowerA: seq<string>, lowerB: seq<string>)
    requires AreLower(lowerA, a) && AreLower(lowerB, b)
    ensures lowerA == lowerB <==> SameLabels(a, b)
  {
    forall i | 0 <= i < |a| && i < |b| ensures lowerA[i] == lowerB[i] <==> CaseVariant(a[i], b[i]) {
      LowercaseEqualIff(a[i], b[i]);
    }
  }

  lemma OnlyStarIsStar(s: string)
    ensures ToAsciiLowercase(s) == "*" <==> s == "*"
  {
    LowercaseMeaning(s);
    if ToAsciiLowercase(s) == "*" {
      assert SameLetter(ToAsciiLowercase(s)[0], s[0]);
    }
  }

  lemma LowerMatchIsMatch(d: seq<string>, p: seq<string>, lowerD: seq<string>, lowerP: seq<string>)
    requires AreLower(lowerD, d) && AreLower(lowerP, p)
    ensures LowerLabelsMatch(lowerD, lowerP) <==> LabelsMatch(d, p)
  {
    if |p| >= 2 {
      OnlyStarIsStar(p[0]);
    }
    if |p| >= 2 && p[0] == "*" && |p| - 1 <= |d| {
      var from := |d| - (|p| - 1);
      LowerSameLabels(d[from..], p[1..], lowerD[from..], lowerP[1..]);
    }
    LowerSameLabels(d, p, lowerD, lowerP);
  }

  /** The matcher on text is exactly the matcher on the labels as written. */
  lemma MatcherIsLabelLevel(domain: string, pattern: string)
    ensures DomainMatchesPattern(domain, pattern) <==> LabelsMatch(Labels(domain), Labels(pattern))
  {
    MatcherIsLowerLabelLevel(domain, pattern);
    LowerLabelsMeaning(domain);
    LowerLabelsMeaning(pattern);
    LowerMatchIsMatch(Labels(domain), Labels(pattern), LowerLabels(domain), LowerLabels(pattern));
  }

  /** So some pattern matches a name exactly when its labels match those of some pattern. */
  lemma AnyPatternIsLabelLevel(names: seq<string>, patterns: seq<string>)
    ensures (exists i :: 0 <= i < |names| && AnyPatternMatches(names[i], patterns)) <==>
      SomeLabelsMatch(names, patterns)
  {
    forall i, k | 0 <= i < |names| && 0 <= k < |patterns|
      ensures DomainMatchesPattern(names[i], patterns[k]) <==> LabelsMatch(Labels(names[i]), Labels(patterns[k]))
    {
      MatcherIsLabelLevel(names[i], patterns[k]);
    }
    if i, k :| 0 <= i < |names| && 0 <= k < |patterns| && LabelsMatch(Labels(names[i]), Labels(patterns[k])) {
      assert DomainMatchesPattern(names[i], patterns[k]);
      assert AnyPatternMatches(names[i], patterns);
    }
    if i :| 0 <= i < |names| && AnyPatternMatches(names[i], patterns) {
      var k :| 0 <= k < |patterns| && DomainMatchesPattern(names[i], patterns[k]);
      assert LabelsMatch(Labels(names[i]), Labels(patterns[k]));
    }
  }

  lemma MatcherIsLowerLabelLevel(domain: string, pattern: string)
    ensures DomainMatchesPattern(domain, pattern) <==> LowerLabelsMatch(LowerLabels(domain), LowerLabels(pattern))
  {
    var d, p := NormalizeDomain(domain), NormalizeDomain(pattern);
    WildcardPrefixIsFirstLabel(p);
    if HasPrefix(p, "*.") {
      DottedSuffixIsLabelSuffix(d, p[2..]);
    } else if Split(d, '.') == Split(p, '.') {
      LabelsDetermineName(d, p);
    }
  }

  /** Normalization ends no name in a dot, so a wildcard is never followed by an empty suffix:
      no pattern matches every domain. */
  lemma WildcardSuffixNeverEmpty(pattern: string)
    requires HasPrefix(NormalizeDomain(pattern), "*.")
    ensures NormalizeDomain(pattern)[2..] != ""
    ensures exists domain :: !DomainMatchesPattern(domain, pattern)
  {
    var p := NormalizeDomain(pattern);
    var trimmed := TrimEndMatches(pattern, '.');
    assert p[|p| - 1] == LowerChar(trimmed[|trimmed| - 1]);
    assert p[1] == '.';
    assert NormalizeDomain("") == "";
    assert !DomainMatchesPattern("", pattern);
  }

  // ---------- case and trailing dots do not matter ----------

  function Dots(n: nat): string {
    if n == 0 then "" else Dots(n - 1) + "."
  }

  lemma {:induction false} TrimCaseVariant(a: string, b: string)
    requires CaseVariant(a, b)
    ensures CaseVariant(TrimEndMatches(a, '.'), TrimEndMatches(b, '.'))
    decreases |a|
  {
    if a != "" && a[|a| - 1] == '.' {
      assert SameLetter(a[|a| - 1], b[|b| - 1]);
      TrimCaseVariant(a[..|a| - 1], b[..|b| - 1]);
    } else if a != "" {
      assert SameLetter(a[|a| - 1], b[|b| - 1]);
    }
  }

  lemma NormalizeCaseVariant(a: string, b: string)
    requires CaseVariant(a, b)
    ensures NormalizeDomain(a) == NormalizeDomain(b)
  {
    TrimCaseVariant(a, b);
  }

  lemma TrimOneDot(a: string)
    ensures TrimEndMatches(a + ".", '.') == TrimEndMatches(a, '.')
  {
    assert (a + ".")[..|a|] == a;
  }

  lemma AppendAssociates(a: string, b: string, c: string)
    ensures a + (b + c) == (a + b) + c
  {
  }

  lemma {:induction false} TrimDots(a: string, n: nat)
    ensures TrimEndMatches(a + Dots(n), '.') == TrimEndMatches(a, '.')
  {
    if n == 0 {
      assert a + Dots(n) == a;
    } else {
      TrimDots(a, n - 1);
      TrimOneDot(a + Dots(n - 1));
      AppendAssociates(a, Dots(n - 1), ".");
    }
  }

  /** ASCII case and trailing dots, on either argument, never change the answer. */
  lemma MatchIgnoresCaseAndTrailingDots(d: string, d': string, i: nat, p: string, p': string, j: nat)
    requires CaseVariant(d, d') && CaseVariant(p, p')
    ensures DomainMatchesPattern(d' + Dots(i), p' + Dots(j)) == DomainMatchesPattern(d, p)
  {
    NormalizeCaseVariant(d, d');
    NormalizeCaseVariant(p, p');
    TrimDots(d', i);
    TrimDots(p', j);
  }
}
