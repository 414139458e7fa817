/** Text primitives the program relies on: splitting, joining, trimming, searching and
    decimal notation, each with the laws the other modules need. */
module Text {

  datatype Option<+T> = None | Some(value: T)

  predicate NoDuplicates<T(==)>(s: seq<T>) {
    forall i, j :: 0 <= i < j < |s| ==> s[i] != s[j]
  }

  /** `s.split(sep)`: always at least one piece. */
  function Split(s: string, sep: char): (parts: seq<string>)
    ensures |parts| >= 1
  {
    if s == "" then [""]
    else if s[0] == sep then [""] + Split(s[1..], sep)
    else Glue(s[0], Split(s[1..], sep))
  }

  function Join(parts: seq<string>, sep: char): string {
    if parts == [] then ""
    else if |parts| == 1 then parts[0]
    else parts[0] + [sep] + Join(parts[1..], sep)
  }

  /** Splitting loses nothing. */
  lemma {:induction false} JoinSplit(s: string, sep: char)
    ensures Join(Split(s, sep), sep) == s
  {
    if s != "" {
      JoinSplit(s[1..], sep);
      var rest := Split(s[1..], sep);
      assert Split(s, sep)[1..] == if s[0] == sep then rest else rest[1..];
    }
  }

  /** Put `head` in front of the first piece. */
  function Glue(head: char, parts: seq<string>): seq<string>
    requires parts != []
  {
    [[head] + parts[0]] + parts[1..]
  }

  lemma GlueAppend(head: char, front: seq<string>, back: seq<string>)
    requires front != []
    ensures Glue(head, front + back) == Glue(head, front) + back
  {
    assert (front + back)[1..] == front[1..] + back;
  }

  lemma {:induction false} SplitAppend(a: string, b: string, sep: char)
    ensures Split(a + [sep] + b, sep) == Split(a, sep) + Split(b, sep)
  {
    if a == "" {
      assert (a + [sep] + b)[1..] == b;
    } else {
      var tail := a[1..] + [sep] + b;
      assert (a + [sep] + b)[1..] == tail && (a + [sep] + b)[0] == a[0];
      SplitAppend(a[1..], b, sep);
      GlueAppend(a[0], Split(a[1..], sep), Split(b, sep));
    }
  }

  lemma {:induction false} JoinAppend(xs: seq<string>, ys: seq<string>, sep: char)
    requires xs != [] && ys != []
    ensures Join(xs + ys, sep) == Join(xs, sep) + [sep] + Join(ys, sep)
  {
    assert (xs + ys)[0] == xs[0];
    if |xs| == 1 {
      assert (xs + ys)[1..] == ys;
    } else {
      JoinAppend(xs[1..], ys, sep);
      assert (xs + ys)[1..] == xs[1..] + ys;
    }
  }

  lemma {:induction false} JoinAvoids(parts: seq<string>, sep: char, c: char)
    requires c != sep && forall i :: 0 <= i < |parts| ==> c !in parts[i]
    ensures c !in Join(parts, sep)
  {
    if |parts| > 1 {
      JoinAvoids(parts[1..], sep, c);
    }
  }

  lemma {:induction false} SplitPlain(s: string, sep: char)
    requires sep !in s
    ensures Split(s, sep) == [s]
  {
    if s != "" {
      SplitPlain(s[1..], sep);
      assert [s[0]] + s[1..] == s;
    }
  }

  /** Joining separator-free pieces is undone by splitting. */
  lemma {:induction false} SplitJoin(parts: seq<string>, sep: char)
    requires parts != []
    requires forall i :: 0 <= i < |parts| ==> sep !in parts[i]
    ensures Split(Join(parts, sep), sep) == parts
  {
    SplitPlain(parts[0], sep);
    if |parts| > 1 {
      SplitAppend(parts[0], Join(parts[1..], sep), sep);
      SplitJoin(parts[1..], sep);
    } else {
      assert parts == [parts[0]];
    }
  }

  /** `s.splitn(n, sep)` */
  function SplitN(s: string, sep: char, n: nat): seq<string>
    decreases n
  {
    if n == 0 then []
    else
      var at := FirstIndex(s, sep);
      if n == 1 || at == |s| then [s] else [s[..at]] + SplitN(s[at + 1..], sep, n - 1)
  }

  /** Index of the first `c` in `s`, or `|s|`. */
  function FirstIndex(s: string, c: char): (i: nat)
    ensures i <= |s| && c !in s[..i]
    ensures i < |s| ==> s[i] == c
  {
    if s == "" || s[0] == c then 0 else FirstIndex(s[1..], c) + 1
  }

  lemma {:induction false} FirstIndexAppend(a: string, c: char, b: string)
    requires c !in a
    ensures FirstIndex(a + [c] + b, c) == |a|
  {
    if a != "" {
      assert (a + [c] + b)[1..] == a[1..] + [c] + b;
      FirstIndexAppend(a[1..], c, b);
    }
  }

  /** `s.trim_end_matches(c)` */
  function TrimEndMatches(s: string, c: char): (r: string)
    ensures r <= s
    ensures r == "" || r[|r| - 1] != c
    ensures forall i :: |r| <= i < |s| ==> s[i] == c
  {
    if s == "" || s[|s| - 1] != c then s else TrimEndMatches(s[..|s| - 1], c)
  }

  /** The Unicode White_Space characters, which `str::trim` strips. */
  predicate IsWhitespace(c: char) {
    || '\t' <= c <= '\r' || c == ' ' || c == '\U{85}' || c == '\U{A0}' || c == '\U{1680}'
    || '\U{2000}' <= c <= '\U{200A}' || c == '\U{2028}' || c == '\U{2029}' || c == '\U{202F}'
    || c == '\U{205F}' || c == '\U{3000}'
  }

  function TrimStart(s: string): string {
    if s != "" && IsWhitespace(s[0]) then TrimStart(s[1..]) else s
  }

  function TrimEnd(s: string): string {
    if s != "" && IsWhitespace(s[|s| - 1]) then TrimEnd(s[..|s| - 1]) else s
  }

  function Trim(s: string): string {
    TrimEnd(TrimStart(s))
  }

  predicate HasPrefix(s: string, prefix: string) {
    |prefix| <= |s| && s[..|prefix|] == prefix
  }

  predicate HasSuffix(s: string, suffix: string) {
    |suffix| <= |s| && s[|s| - |suffix|..] == suffix
  }

  /** `s.contains(needle)` */
  predicate Contains(s: string, needle: string) {
    exists i :: 0 <= i <= |s| && OccursAt(s, needle, i)
  }

  predicate OccursAt(s: string, needle: string, i: nat) {
    i + |needle| <= |s| && s[i..i + |needle|] == needle
  }

  function Digit(d: nat): char
    requires d < 10
  {
    '0' + d as char
  }

  function DigitValue(c: char): (d: nat)
    requires '0' <= c <= '9'
    ensures d < 10
  {
    (c - '0') as nat
  }

  /** `n.to_string()` */
  function Decimal(n: nat): (s: string)
    ensures s != "" && forall i :: 0 <= i < |s| ==> '0' <= s[i] <= '9'
    ensures n < 10 ==> |s| == 1
    ensures s[0] == '0' ==> n == 0
  {
    if n < 10 then [Digit(n)] else Decimal(n / 10) + [Digit(n % 10)]
  }

  /** Value of a non-empty string of ASCII digits. */
  function ParseDigits(s: string): Option<nat> {
    if s == "" || !('0' <= s[|s| - 1] <= '9') then None
    else if |s| == 1 then Some(DigitValue(s[0]))
    else
      match ParseDigits(s[..|s| - 1])
      case None => None
      case Some(v) => Some(10 * v + DigitValue(s[|s| - 1]))
  }

  lemma {:induction false} DecimalRoundTrip(n: nat)
    ensures ParseDigits(Decimal(n)) == Some(n)
  {
    if n >= 10 {
      DecimalRoundTrip(n / 10);
      assert Decimal(n)[..|Decimal(n)| - 1] == Decimal(n / 10);
    }
  }

  // ---------- what the primitives mean ----------

  predicate AllWhitespace(s: string) {
    forall i :: 0 <= i < |s| ==> IsWhitespace(s[i])
  }

  /** The code points of Unicode's White_Space property. */
  lemma WhitespaceCodes(c: char)
    ensures IsWhitespace(c) <==>
      || 9 <= c as int <= 13 || c as int in {32, 133, 160, 5760, 8232, 8233, 8239, 8287, 12288}
      || 8192 <= c as int <= 8202
  {
  }

  lemma {:induction false} TrimStartStrips(s: string) returns (front: string)
    ensures s == front + TrimStart(s) && AllWhitespace(front)
    ensures TrimStart(s) != "" ==> !IsWhitespace(TrimStart(s)[0])
  {
    if s != "" && IsWhitespace(s[0]) {
      var rest := TrimStartStrips(s[1..]);
      front := [s[0]] + rest;
      assert s == [s[0]] + s[1..];
    } else {
      front := "";
    }
  }

  lemma {:induction false} TrimEndStrips(s: string) returns (back: string)
    ensures s == TrimEnd(s) + back && AllWhitespace(back)
    ensures TrimEnd(s) != "" ==> !IsWhitespace(TrimEnd(s)[|TrimEnd(s)| - 1])
  {
    if s != "" && IsWhitespace(s[|s| - 1]) {
      var rest := TrimEndStrips(s[..|s| - 1]);
      back := rest + [s[|s| - 1]];
      assert s == s[..|s| - 1] + [s[|s| - 1]];
    } else {
      back := "";
    }
  }

  /** Trimming takes away white space in front and behind, and leaves none at either end. */
  lemma TrimMeaning(s: string) returns (front: string, back: string)
    ensures s == front + Trim(s) + back && AllWhitespace(front) && AllWhitespace(back)
    ensures Trim(s) != "" ==> !IsWhitespace(Trim(s)[0]) && !IsWhitespace(Trim(s)[|Trim(s)| - 1])
  {
    front := TrimStartStrips(s);
    back := TrimEndStrips(TrimStart(s));
    assert Trim(s) != "" ==> Trim(s)[0] == TrimStart(s)[0];
  }

  /** Decimal notation: one digit for a number below ten, otherwise that of the tenth part and one more digit. */
  lemma DecimalDigits(n: nat, d: nat)
    requires d < 10
    ensures Decimal(d) == ["0123456789"[d]]
    ensures n > 0 ==> Decimal(10 * n + d) == Decimal(n) + ["0123456789"[d]]
  {
    assert Digit(d) == "0123456789"[d];
    if n > 0 {
      DecimalAppend(n, d);
    }
  }

  /** Digits without a superfluous leading zero are the notation of their value. */
  lemma {:induction false} DigitsAreDecimal(s: string)
    requires ParseDigits(s).Some? && (|s| > 1 ==> s[0] != '0')
    ensures Decimal(ParseDigits(s).value) == s
    ensures s[0] != '0' ==> ParseDigits(s).value > 0
  {
    if |s| > 1 {
      var front := s[..|s| - 1];
      DigitsAreDecimal(front);
      assert front[0] == s[0];
      LastDigit(s, front);
    }
  }

  lemma LastDigit(s: string, front: string)
    requires |s| > 1 && front == s[..|s| - 1] && ParseDigits(s).Some?
    requires Decimal(ParseDigits(front).value) == front && ParseDigits(front).value > 0
    ensures Decimal(ParseDigits(s).value) == s && ParseDigits(s).value > 0
  {
    ParseLast(s, front);
    assert s == front + [s[|s| - 1]];
    OneMoreDigit(s, front, ParseDigits(front).value, s[|s| - 1], ParseDigits(s).value);
  }

  lemma OneMoreDigit(s: string, front: string, u: nat, last: char, v: nat)
    requires s == front + [last] && Decimal(u) == front && u > 0
    requires '0' <= last <= '9' && v == 10 * u + DigitValue(last)
    ensures Decimal(v) == s && v > 0
  {
    DigitAppend(u, last);
  }

  lemma ParseLast(s: string, front: string)
    requires |s| > 1 && front == s[..|s| - 1] && ParseDigits(s).Some?
    ensures '0' <= s[|s| - 1] <= '9' && ParseDigits(front).Some?
    ensures ParseDigits(s).value == 10 * ParseDigits(front).value + DigitValue(s[|s| - 1])
  {
  }

  lemma DigitAppend(n: nat, c: char)
    requires n > 0 && '0' <= c <= '9'
    ensures Decimal(10 * n + DigitValue(c)) == Decimal(n) + [c]
  {
    DecimalAppend(n, DigitValue(c));
    assert Digit(DigitValue(c)) == c;
  }

  lemma DecimalAppend(n: nat, d: nat)
    requires d < 10 && n > 0
    ensures Decimal(10 * n + d) == Decimal(n) + [Digit(d)]
  {
    assert (10 * n + d) / 10 == n && (10 * n + d) % 10 == d;
  }
}
