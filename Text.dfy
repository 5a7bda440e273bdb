/**
 * The string operations the playlist parser and the channel filter use, with their
 * JavaScript meaning: `trim`, `split` on one character, `startsWith`, `includes`,
 * `toLowerCase` (ASCII letters only) and the ordering `Array.prototype.sort` applies.
 */
module Text {

  /** The characters `String.prototype.trim` removes: WhiteSpace, LineTerminator and category Zs. */
  predicate IsSpace(c: char) {
    c == '\t' || c == '\n' || c == '\U{B}' || c == '\U{C}' || c == '\r' || c == ' '
    || c == '\U{A0}' || c == '\U{1680}' || ('\U{2000}' <= c <= '\U{200A}')
    || c == '\U{2028}' || c == '\U{2029}' || c == '\U{202F}' || c == '\U{205F}'
    || c == '\U{3000}' || c == '\U{FEFF}'
  }

  predicate AllSpace(s: string) {
    forall i | 0 <= i < |s| :: IsSpace(s[i])
  }

  /** `s` without its leading white space. */
  function TrimStart(s: string): (r: string)
    ensures |r| <= |s|
    decreases |s|
  {
    if s != [] && IsSpace(s[0]) then TrimStart(s[1..]) else s
  }

  /** `s` without its trailing white space. */
  function TrimEnd(s: string): (r: string)
    ensures |r| <= |s|
    decreases |s|
  {
    if s != [] && IsSpace(s[|s| - 1]) then TrimEnd(s[..|s| - 1]) else s
  }

  /** `s.trim()`: the part of `s` left once white space is removed from both ends. */
  function Trim(s: string): (r: string)
    ensures |r| <= |s|
  {
    TrimEnd(TrimStart(s))
  }

  /** `TrimStart` drops the longest all-space prefix: a suffix remains that starts with no space. */
  lemma {:induction false} TrimStartSpec(s: string)
    ensures var r := TrimStart(s); r == s[|s| - |r|..] && AllSpace(s[..|s| - |r|]) && (r == [] || !IsSpace(r[0]))
    decreases |s|
  {
    if s != [] && IsSpace(s[0]) {
      TrimStartSpec(s[1..]);
      var r := TrimStart(s);
      assert s[..|s| - |r|] == [s[0]] + s[1..][..|s| - 1 - |r|];
    }
  }

  /** `TrimEnd` drops the longest all-space suffix: a prefix remains that ends with no space. */
  lemma {:induction false} TrimEndSpec(s: string)
    ensures var r := TrimEnd(s); r == s[..|r|] && AllSpace(s[|r|..]) && (r == [] || !IsSpace(r[|r| - 1]))
    decreases |s|
  {
    if s != [] && IsSpace(s[|s| - 1]) {
      TrimEndSpec(s[..|s| - 1]);
      var r := TrimEnd(s);
      assert s[|r|..] == s[..|s| - 1][|r|..] + [s[|s| - 1]];
    }
  }

  /**
   * What `Trim` keeps is a middle part of `s` with white space on both sides of it and none
   * at its own two ends.
   */
  lemma TrimSpec(s: string)
    ensures var r := Trim(s);
      (exists k :: 0 <= k <= |s| - |r| && s[k..k + |r|] == r && AllSpace(s[..k]) && AllSpace(s[k + |r|..]))
      && (r == [] || (!IsSpace(r[0]) && !IsSpace(r[|r| - 1])))
  {
    var t := TrimStart(s);
    var r := TrimEnd(t);
    TrimStartSpec(s);
    TrimEndSpec(t);
    var k := |s| - |t|;
    assert s[k..k + |r|] == r;
    assert s[k + |r|..] == t[|r|..];
    if r != [] {
      assert r[0] == t[0];
    }
  }

  /** A string with no white space at either end is its own trim. */
  lemma TrimUnchanged(s: string)
    requires s == [] || (!IsSpace(s[0]) && !IsSpace(s[|s| - 1]))
    ensures Trim(s) == s
  {
  }

  /** A string of white space trims to the empty string. */
  lemma {:induction false} TrimAllSpace(s: string)
    requires AllSpace(s)
    ensures Trim(s) == ""
    decreases |s|
  {
    if s != [] {
      TrimAllSpace(s[1..]);
      assert TrimStart(s) == TrimStart(s[1..]);
    }
  }

  /** Trimming is idempotent: a trimmed string has no white space left at either end. */
  lemma TrimIdempotent(s: string)
    ensures Trim(Trim(s)) == Trim(s)
  {
    TrimSpec(s);
    TrimUnchanged(Trim(s));
  }

  predicate StartsWith(s: string, prefix: string) {
    |prefix| <= |s| && s[..|prefix|] == prefix
  }

  /** `t` occurs in `s` at index `i`. */
  predicate OccursAt(s: string, i: int, t: string) {
    0 <= i && i + |t| <= |s| && s[i..i + |t|] == t
  }

  function IncludesFrom(s: string, t: string, i: nat): (b: bool)
    requires i <= |s|
    ensures b <==> exists k :: i <= k && OccursAt(s, k, t)
    decreases |s| - i
  {
    if i + |t| > |s| then false
    else if s[i..i + |t|] == t then assert OccursAt(s, i, t); true
    else IncludesFrom(s, t, i + 1)
  }

  /** `s.includes(t)`: some index of `s` starts an occurrence of `t`; the empty `t` is everywhere. */
  function Includes(s: string, t: string): (b: bool)
    ensures b <==> exists k :: OccursAt(s, k, t)
    ensures t == [] ==> b
  {
    assert t == [] ==> OccursAt(s, 0, t);
    IncludesFrom(s, t, 0)
  }

  predicate IsUpper(c: char) {
    'A' <= c <= 'Z'
  }

  /** `c` and `d` are the same character, or the same ASCII letter in the two cases. */
  predicate SameIgnoringCase(c: char, d: char) {
    c == d || (IsUpper(c) && d as int == c as int + 32) || (IsUpper(d) && c as int == d as int + 32)
  }

  function LowerChar(c: char): char {
    if IsUpper(c) then (c as int + 32) as char else c
  }

  /**
   * `s.toLowerCase()` for ASCII letters: the one string of the same length with no capital
   * letter left that agrees with `s` up to case.
   */
  function ToLower(s: string): (r: string)
    ensures |r| == |s|
    ensures forall i | 0 <= i < |r| :: !IsUpper(r[i]) && SameIgnoringCase(s[i], r[i])
  {
    seq(|s|, i requires 0 <= i < |s| => LowerChar(s[i]))
  }

  /** Two characters lower to the same one exactly when they agree up to case. */
  lemma LowerCharEqual(c: char, d: char)
    ensures LowerChar(c) == LowerChar(d) <==> SameIgnoringCase(c, d)
  {
  }

  /** Two strings lower to the same string exactly when they agree character by character up to case. */
  lemma ToLowerEqual(s: string, t: string)
    ensures ToLower(s) == ToLower(t) <==> |s| == |t| && forall i | 0 <= i < |s| :: SameIgnoringCase(s[i], t[i])
  {
    if |s| == |t| {
      forall i | 0 <= i < |s| ensures ToLower(s)[i] == ToLower(t)[i] <==> SameIgnoringCase(s[i], t[i]) {
        LowerCharEqual(s[i], t[i]);
      }
      if forall i | 0 <= i < |s| :: SameIgnoringCase(s[i], t[i]) {
        assert forall i | 0 <= i < |s| :: ToLower(s)[i] == ToLower(t)[i];
      }
    }
  }

  /** Lower-casing twice is lower-casing once. */
  lemma ToLowerIdempotent(s: string)
    ensures ToLower(ToLower(s)) == ToLower(s)
  {
    assert forall i | 0 <= i < |s| :: LowerChar(LowerChar(s[i])) == LowerChar(s[i]);
  }

  /** `s.split(sep)`: the pieces between the separators, one more than there are separators. */
  function Split(s: string, sep: char): (parts: seq<string>)
    ensures |parts| >= 1
    decreases |s|
  {
    if s == [] then [[]]
    else
      var rest := Split(s[1..], sep);
      if s[0] == sep then [[]] + rest else [[s[0]] + rest[0]] + rest[1..]
  }

  /** `parts.join(sep)` for a non-empty list of pieces. */
  function Join(parts: seq<string>, sep: char): string
    requires |parts| >= 1
    decreases |parts|
  {
    if |parts| == 1 then parts[0] else parts[0] + [sep] + Join(parts[1..], sep)
  }

  /** No piece holds the separator, and joining the pieces gives `s` back. */
  lemma {:induction false} SplitSpec(s: string, sep: char)
    ensures forall i | 0 <= i < |Split(s, sep)| :: sep !in Split(s, sep)[i]
    ensures Join(Split(s, sep), sep) == s
    decreases |s|
  {
    if s != [] {
      var rest := Split(s[1..], sep);
      SplitSpec(s[1..], sep);
      var parts := Split(s, sep);
      if s[0] == sep {
        assert parts == [[]] + rest;
        JoinCons([], rest, sep);
        assert s == [sep] + s[1..];
      } else {
        var head := [s[0]] + rest[0];
        assert parts == [head] + rest[1..];
        assert sep !in head;
        if |rest| == 1 {
          assert Join(parts, sep) == head;
        } else {
          JoinCons(head, rest[1..], sep);
          JoinCons(rest[0], rest[1..], sep);
          assert [rest[0]] + rest[1..] == rest;
        }
        assert s == [s[0]] + s[1..];
      }
    }
  }

  lemma JoinCons(p: string, parts: seq<string>, sep: char)
    requires |parts| >= 1
    ensures Join([p] + parts, sep) == p + [sep] + Join(parts, sep)
  {
    assert ([p] + parts)[1..] == parts;
  }

  lemma {:induction false} SplitNoSeparator(s: string, sep: char)
    requires sep !in s
    ensures Split(s, sep) == [s]
    decreases |s|
  {
    if s != [] {
      SplitNoSeparator(s[1..], sep);
      assert [s[0]] + s[1..] == s;
    }
  }

  /** Splitting `a + sep + t` with no separator in `a` gives `a`, then the pieces of `t`. */
  lemma {:induction false} SplitAtFirst(a: string, t: string, sep: char)
    requires sep !in a
    ensures Split(a + [sep] + t, sep) == [a] + Split(t, sep)
    decreases |a|
  {
    if a == [] {
      assert a + [sep] + t == [sep] + t;
      assert ([sep] + t)[1..] == t;
    } else {
      SplitAtFirst(a[1..], t, sep);
      assert (a + [sep] + t)[1..] == a[1..] + [sep] + t;
      assert [a[0]] + a[1..] == a;
    }
  }

  /** Splitting undoes joining, when no piece contains the separator. */
  lemma {:induction false} SplitJoin(parts: seq<string>, sep: char)
    requires |parts| >= 1
    requires forall i | 0 <= i < |parts| :: sep !in parts[i]
    ensures Split(Join(parts, sep), sep) == parts
    decreases |parts|
  {
    if |parts| == 1 {
      SplitNoSeparator(parts[0], sep);
    } else {
      SplitJoin(parts[1..], sep);
      SplitAtFirst(parts[0], Join(parts[1..], sep), sep);
      assert [parts[0]] + parts[1..] == parts;
    }
  }

  /** Strict lexicographic order on character codes, the order a default `sort` gives strings. */
  predicate Less(a: string, b: string)
    decreases |a|
  {
    if a == [] then b != []
    else if b == [] then false
    else a[0] < b[0] || (a[0] == b[0] && Less(a[1..], b[1..]))
  }

  lemma {:induction false} LessIrreflexive(a: string)
    ensures !Less(a, a)
    decreases |a|
  {
    if a != [] {
      LessIrreflexive(a[1..]);
    }
  }

  lemma {:induction false} LessTransitive(a: string, b: string, c: string)
    requires Less(a, b) && Less(b, c)
    ensures Less(a, c)
    decreases |a|
  {
    if a != [] && b != [] && c != [] && a[0] == b[0] == c[0] {
      LessTransitive(a[1..], b[1..], c[1..]);
    }
  }

  /** Any two different strings are ordered one way or the other. */
  lemma {:induction false} LessTotal(a: string, b: string)
    requires a != b
    ensures Less(a, b) || Less(b, a)
    decreases |a|
  {
    if a != [] && b != [] && a[0] == b[0] {
      assert a == [a[0]] + a[1..] && b == [b[0]] + b[1..];
      LessTotal(a[1..], b[1..]);
    }
  }

  lemma LessAsymmetric(a: string, b: string)
    requires Less(a, b)
    ensures !Less(b, a)
  {
    if Less(b, a) {
      LessTransitive(a, b, a);
      LessIrreflexive(a);
    }
  }
}
