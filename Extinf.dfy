/**
 * The attribute pattern an `#EXTINF:` line is matched against,
 *   tvg-id="([^"]*)".*tvg-name="([^"]*)".*tvg-logo="([^"]*)".*group-title="([^"]*)",(.+)
 * with JavaScript's search semantics (the leftmost start that matches; each greedy `.*`
 * tries the longest gap first; `.` is anything but a line terminator), and the three
 * first-match searches run over the group label.
 */
module Extinf {
  import opened Wrappers
  import opened Text

  const KeyId: string := "tvg-id=\""
  const KeyName: string := "tvg-name=\""
  const KeyLogo: string := "tvg-logo=\""
  const KeyGroup: string := "group-title=\""

  /** The key in front of capture group `stage`. */
  function Key(stage: nat): string
    requires stage < 4
  {
    if stage == 0 then KeyId else if stage == 1 then KeyName else if stage == 2 then KeyLogo else KeyGroup
  }

  /** The characters a regular-expression `.` does not match. */
  predicate IsLineTerminator(c: char) {
    c == '\n' || c == '\r' || c == '\U{2028}' || c == '\U{2029}'
  }

  /** The first double quote at or after `p`, or `|s|`. */
  function QuoteFrom(s: string, p: nat): (j: nat)
    requires p <= |s|
    ensures p <= j <= |s|
    decreases |s| - p
  {
    if p == |s| || s[p] == '"' then p else QuoteFrom(s, p + 1)
  }

  /** No quote stands between `p` and `QuoteFrom(s, p)`, and one stands there unless it is the end. */
  lemma {:induction false} QuoteFromSpec(s: string, p: nat)
    requires p <= |s|
    ensures var j := QuoteFrom(s, p); (forall k | p <= k < j :: s[k] != '"') && (j < |s| ==> s[j] == '"')
    decreases |s| - p
  {
    if p < |s| && s[p] != '"' {
      QuoteFromSpec(s, p + 1);
    }
  }

  /** `s[p..q]` is something `.*` can consume. */
  ghost predicate Gap(s: string, p: nat, q: nat) {
    p <= q <= |s| && forall k | p <= k < q :: !IsLineTerminator(s[k])
  }

  /** The first line terminator at or after `p`, or `|s|`: how far `.*` can reach. */
  function LineEnd(s: string, p: nat): (e: nat)
    requires p <= |s|
    ensures p <= e <= |s|
    decreases |s| - p
  {
    if p == |s| || IsLineTerminator(s[p]) then p else LineEnd(s, p + 1)
  }

  /** `.*` can consume everything up to `LineEnd(s, p)`, and no further. */
  lemma {:induction false} LineEndSpec(s: string, p: nat)
    requires p <= |s|
    ensures var e := LineEnd(s, p); Gap(s, p, e) && (e < |s| ==> IsLineTerminator(s[e]))
    decreases |s| - p
  {
    if p < |s| && !IsLineTerminator(s[p]) {
      LineEndSpec(s, p + 1);
    }
  }

  lemma GapWithinLineEnd(s: string, p: nat, q: nat)
    requires p <= |s| && Gap(s, p, q)
    ensures q <= LineEnd(s, p)
  {
    LineEndSpec(s, p);
  }

  /** `key([^"]*)"` matches at `q` and captures `v`. */
  ghost predicate AttrSpan(s: string, q: nat, key: string, v: string) {
    && OccursAt(s, q, key)
    && q + |key| + |v| < |s|
    && s[q + |key|..q + |key| + |v|] == v
    && '"' !in v
    && s[q + |key| + |v|] == '"'
  }

  /** `key([^"]*)"` tried at `q`. */
  function AttrAt(s: string, q: nat, key: string): Option<string> {
    if OccursAt(s, q, key) then
      var j := QuoteFrom(s, q + |key|);
      if j < |s| then Some(s[q + |key|..j]) else None
    else None
  }

  /** What `AttrAt` captures is a match of `key([^"]*)"` at `q`. */
  lemma AttrAtSound(s: string, q: nat, key: string)
    requires AttrAt(s, q, key).Some?
    ensures AttrSpan(s, q, key, AttrAt(s, q, key).value)
  {
    var p := q + |key|;
    QuoteFromSpec(s, p);
    var v := AttrAt(s, q, key).value;
    assert forall k | 0 <= k < |v| :: v[k] == s[p + k];
  }

  /** When `key([^"]*)"` matches at `q`, `AttrAt` returns its one capture. */
  lemma AttrAtComplete(s: string, q: nat, key: string, v: string)
    requires AttrSpan(s, q, key, v)
    ensures AttrAt(s, q, key) == Some(v)
  {
    var p, e := q + |key|, q + |key| + |v|;
    QuoteFromSpec(s, p);
    assert forall k | p <= k < e :: s[k] == v[k - p];
  }

  /** `,(.+)` matches at `p` and captures `t`, as much as `.+` can take. */
  ghost predicate TitleSpan(s: string, p: nat, t: string) {
    && p < |s| && s[p] == ','
    && |t| >= 1 && p + 1 + |t| <= |s|
    && s[p + 1..p + 1 + |t|] == t
    && Gap(s, p + 1, p + 1 + |t|)
    && (p + 1 + |t| == |s| || IsLineTerminator(s[p + 1 + |t|]))
  }

  /** `,(.+)` tried at `p`. */
  function TitleAt(s: string, p: nat): Option<string> {
    if p < |s| && s[p] == ',' then
      var e := LineEnd(s, p + 1);
      if e > p + 1 then Some(s[p + 1..e]) else None
    else None
  }

  /** What `TitleAt` captures is a match of `,(.+)` at `p`. */
  lemma TitleAtSound(s: string, p: nat)
    requires TitleAt(s, p).Some?
    ensures TitleSpan(s, p, TitleAt(s, p).value)
  {
    LineEndSpec(s, p + 1);
  }

  /** When `,(.+)` matches at `p`, `TitleAt` returns its one capture. */
  lemma TitleAtComplete(s: string, p: nat, t: string)
    requires TitleSpan(s, p, t)
    ensures TitleAt(s, p) == Some(t)
  {
    GapWithinLineEnd(s, p + 1, p + 1 + |t|);
    LineEndSpec(s, p + 1);
  }

  /** A captured value and the position where its key (or, for the title, its comma) stands. */
  datatype Capture = Capture(at: nat, value: string)

  /** The position just after the closing quote of attribute capture `c` of group `stage`. */
  function End(stage: nat, c: Capture): nat
    requires stage < 4
  {
    c.at + |Key(stage)| + |c.value| + 1
  }

  /**
   * The pattern from capture group `stage` on (1 to 3: `.*` and an attribute; 4: the title)
   * matches from `p` with captures `cs`.
   */
  ghost predicate TailSpec(s: string, stage: nat, p: nat, cs: seq<Capture>)
    requires 1 <= stage <= 4
    decreases 4 - stage
  {
    if stage == 4 then |cs| == 1 && cs[0].at == p && TitleSpan(s, p, cs[0].value)
    else
      && |cs| >= 1
      && Gap(s, p, cs[0].at)
      && AttrSpan(s, cs[0].at, Key(stage), cs[0].value)
      && TailSpec(s, stage + 1, End(stage, cs[0]), cs[1..])
  }

  /** The whole pattern matches `s` with captures `cs` (id, name, logo, group, title). */
  ghost predicate MatchSpec(s: string, cs: seq<Capture>) {
    && |cs| == 5
    && AttrSpan(s, cs[0].at, KeyId, cs[0].value)
    && TailSpec(s, 1, End(0, cs[0]), cs[1..])
  }

  /** The pattern from group `stage` on, run from `p` with backtracking. */
  function Rest(s: string, stage: nat, p: nat): (r: Option<seq<Capture>>)
    requires 1 <= stage <= 4 && p <= |s|
    ensures r.Some? ==> |r.value| == 5 - stage
    decreases 4 - stage, |s| + 1
  {
    if stage == 4 then
      match TitleAt(s, p)
      case Some(t) => Some([Capture(p, t)])
      case None => None
    else ScanDown(s, stage, p, LineEnd(s, p))
  }

  /** The `.*` in front of group `stage`: the key is tried at `q`, then `q - 1`, down to `p`. */
  function ScanDown(s: string, stage: nat, p: nat, q: nat): (r: Option<seq<Capture>>)
    requires 1 <= stage < 4 && p <= q <= |s|
    ensures r.Some? ==> |r.value| == 5 - stage
    decreases 4 - stage, q
  {
    var here :=
      match AttrAt(s, q, Key(stage))
      case Some(v) =>
        (match Rest(s, stage + 1, End(stage, Capture(q, v)))
         case Some(tail) => Some([Capture(q, v)] + tail)
         case None => None)
      case None => None;
    if here.Some? || q == p then here else ScanDown(s, stage, p, q - 1)
  }

  /** The whole pattern, tried at start positions `st`, `st + 1`, ... */
  function FirstFrom(s: string, st: nat): (r: Option<seq<Capture>>)
    requires st <= |s|
    ensures r.Some? ==> |r.value| == 5 && st <= r.value[0].at
    decreases |s| - st
  {
    var here :=
      match AttrAt(s, st, KeyId)
      case Some(id) =>
        (match Rest(s, 1, End(0, Capture(st, id)))
         case Some(tail) => Some([Capture(st, id)] + tail)
         case None => None)
      case None => None;
    if here.Some? || st == |s| then here else FirstFrom(s, st + 1)
  }

  /** `line.match(...)` with the positions of its captures. */
  function Locate(line: string): Option<seq<Capture>> {
    FirstFrom(line, 0)
  }

  /** The five capture groups of a successful match. */
  datatype Attributes = Attributes(id: string, name: string, logo: string, group: string, title: string)

  function Fields(cs: seq<Capture>): Attributes
    requires |cs| == 5
  {
    Attributes(cs[0].value, cs[1].value, cs[2].value, cs[3].value, cs[4].value)
  }

  /** `line.match(...)`: the captured groups, or `None` when the pattern does not match. */
  function MatchExtinf(line: string): Option<Attributes> {
    match Locate(line)
    case Some(cs) => Some(Fields(cs))
    case None => None
  }

  // Soundness: what the search returns is a match.

  lemma {:induction false} RestSound(s: string, stage: nat, p: nat)
    requires 1 <= stage <= 4 && p <= |s|
    requires Rest(s, stage, p).Some?
    ensures TailSpec(s, stage, p, Rest(s, stage, p).value)
    decreases 4 - stage, |s| + 1, 0
  {
    if stage < 4 {
      ScanSound(s, stage, p, LineEnd(s, p), Rest(s, stage, p).value);
    } else {
      TitleAtSound(s, p);
    }
  }

  lemma {:induction false} ScanSound(s: string, stage: nat, p: nat, q: nat, cs: seq<Capture>)
    requires 1 <= stage < 4 && p <= |s| && p <= q <= LineEnd(s, p)
    requires ScanDown(s, stage, p, q) == Some(cs)
    ensures TailSpec(s, stage, p, cs)
    decreases 4 - stage, q, 1
  {
    var a := AttrAt(s, q, Key(stage));
    if a.Some? && Rest(s, stage + 1, End(stage, Capture(q, a.value))).Some? {
      var c := Capture(q, a.value);
      var tail := Rest(s, stage + 1, End(stage, c)).value;
      ScanHit(s, stage, p, q, c, tail);
      HitSound(s, stage, p, q, c, tail);
    } else {
      ScanMiss(s, stage, p, q);
      ScanSound(s, stage, p, q - 1, cs);
    }
  }

  /** A hit of the scan at `q` is a match of the pattern's tail from `p`. */
  lemma {:induction false} HitSound(s: string, stage: nat, p: nat, q: nat, c: Capture, tail: seq<Capture>)
    requires 1 <= stage < 4 && p <= |s| && p <= q <= LineEnd(s, p) && c.at == q
    requires AttrAt(s, q, Key(stage)) == Some(c.value)
    requires Rest(s, stage + 1, End(stage, c)) == Some(tail)
    ensures TailSpec(s, stage, p, [c] + tail)
    decreases 4 - stage, q, 0
  {
    AttrAtSound(s, q, Key(stage));
    GapUpTo(s, p, q);
    RestSound(s, stage + 1, End(stage, c));
    TailSpecCons(s, stage, p, c, tail);
  }

  /** When the key and the rest of the pattern match at `q`, the scan stops there. */
  lemma ScanHit(s: string, stage: nat, p: nat, q: nat, c: Capture, tail: seq<Capture>)
    requires 1 <= stage < 4 && p <= q <= |s| && c.at == q
    requires AttrAt(s, q, Key(stage)) == Some(c.value)
    requires Rest(s, stage + 1, End(stage, c)) == Some(tail)
    ensures ScanDown(s, stage, p, q) == Some([c] + tail)
  {
  }

  /** When nothing matches at `q`, the scan fails at its lower bound and moves down otherwise. */
  lemma ScanMiss(s: string, stage: nat, p: nat, q: nat)
    requires 1 <= stage < 4 && p <= q <= |s|
    requires var a := AttrAt(s, q, Key(stage)); a.None? || Rest(s, stage + 1, End(stage, Capture(q, a.value))).None?
    ensures ScanDown(s, stage, p, q) == if q == p then None else ScanDown(s, stage, p, q - 1)
  {
  }

  lemma GapUpTo(s: string, p: nat, q: nat)
    requires p <= |s| && p <= q <= LineEnd(s, p)
    ensures Gap(s, p, q)
  {
    LineEndSpec(s, p);
  }

  /** A gap, an attribute match after it and a match of the rest make a match from group `stage`. */
  lemma TailSpecCons(s: string, stage: nat, p: nat, c: Capture, tail: seq<Capture>)
    requires 1 <= stage < 4
    requires Gap(s, p, c.at) && AttrSpan(s, c.at, Key(stage), c.value)
    requires TailSpec(s, stage + 1, End(stage, c), tail)
    ensures TailSpec(s, stage, p, [c] + tail)
  {
    assert ([c] + tail)[1..] == tail;
  }

  lemma {:induction false} FirstSound(s: string, st: nat)
    requires st <= |s| && FirstFrom(s, st).Some?
    ensures MatchSpec(s, FirstFrom(s, st).value)
    decreases |s| - st
  {
    var a := AttrAt(s, st, KeyId);
    if a.Some? && Rest(s, 1, End(0, Capture(st, a.value))).Some? {
      var c := Capture(st, a.value);
      AttrAtSound(s, st, KeyId);
      RestSound(s, 1, End(0, c));
      assert FirstFrom(s, st).value[1..] == Rest(s, 1, End(0, c)).value;
    } else {
      FirstSound(s, st + 1);
    }
  }

  /** Whatever `Locate` returns is a match of the pattern. */
  lemma LocateSound(line: string)
    requires Locate(line).Some?
    ensures MatchSpec(line, Locate(line).value)
  {
    FirstSound(line, 0);
  }

  // Completeness: when the pattern matches somewhere, the search finds a match.

  lemma {:induction false} RestComplete(s: string, stage: nat, p: nat, cs: seq<Capture>)
    requires 1 <= stage <= 4 && p <= |s|
    requires TailSpec(s, stage, p, cs)
    ensures Rest(s, stage, p).Some?
    decreases 4 - stage
  {
    if stage == 4 {
      TitleAtComplete(s, p, cs[0].value);
    } else {
      var c := cs[0];
      RestComplete(s, stage + 1, End(stage, c), cs[1..]);
      GapWithinLineEnd(s, p, c.at);
      ScanFinds(s, stage, p, LineEnd(s, p), c);
    }
  }

  /** A scan that passes over a working candidate `c.at` succeeds. */
  lemma {:induction false} ScanFinds(s: string, stage: nat, p: nat, q: nat, c: Capture)
    requires 1 <= stage < 4 && p <= c.at <= q <= |s|
    requires AttrSpan(s, c.at, Key(stage), c.value)
    requires Rest(s, stage + 1, End(stage, c)).Some?
    ensures ScanDown(s, stage, p, q).Some?
    decreases q
  {
    var a := AttrAt(s, q, Key(stage));
    if a.Some? && Rest(s, stage + 1, End(stage, Capture(q, a.value))).Some? {
      ScanHit(s, stage, p, q, Capture(q, a.value), Rest(s, stage + 1, End(stage, Capture(q, a.value))).value);
    } else if q > c.at {
      ScanMiss(s, stage, p, q);
      ScanFinds(s, stage, p, q - 1, c);
    } else {
      AttrAtComplete(s, q, Key(stage), c.value);
    }
  }

  /** The search from `st` finds a match that starts no later than any match `cs` from `st` on. */
  lemma {:induction false} FirstFinds(s: string, st: nat, cs: seq<Capture>)
    requires MatchSpec(s, cs) && st <= cs[0].at <= |s|
    ensures FirstFrom(s, st).Some? && FirstFrom(s, st).value[0].at <= cs[0].at
    decreases cs[0].at - st
  {
    if st == cs[0].at {
      AttrAtComplete(s, st, KeyId, cs[0].value);
      RestComplete(s, 1, End(0, cs[0]), cs[1..]);
    } else {
      FirstFinds(s, st + 1, cs);
    }
  }

  /** When the pattern matches `line` at all, `Locate` finds the match with the leftmost start. */
  lemma LocateCompleteAndLeftmost(line: string, cs: seq<Capture>)
    requires MatchSpec(line, cs)
    ensures Locate(line).Some?
    ensures Locate(line).value[0].at <= cs[0].at
  {
    FirstFinds(line, 0, cs);
  }

  // Exactness when every key occurs at most once.

  ghost predicate AtMostOnce(s: string, key: string) {
    forall i, j :: OccursAt(s, i, key) && OccursAt(s, j, key) ==> i == j
  }

  ghost predicate KeysOnce(s: string) {
    AtMostOnce(s, KeyId) && AtMostOnce(s, KeyName) && AtMostOnce(s, KeyLogo) && AtMostOnce(s, KeyGroup)
  }

  lemma KeyOnce(s: string, stage: nat)
    requires stage < 4 && KeysOnce(s)
    ensures AtMostOnce(s, Key(stage))
  {
  }

  /** Under `KeysOnce`, the attribute of group `stage` that a match uses is the only one. */
  lemma AttrUnique(s: string, stage: nat, c: Capture, d: Capture)
    requires 1 <= stage < 4 && KeysOnce(s)
    requires AttrSpan(s, c.at, Key(stage), c.value) && AttrSpan(s, d.at, Key(stage), d.value)
    ensures c == d
  {
    KeyOnce(s, stage);
    assert OccursAt(s, c.at, Key(stage)) && OccursAt(s, d.at, Key(stage));
    AttrAtComplete(s, c.at, Key(stage), c.value);
    AttrAtComplete(s, c.at, Key(stage), d.value);
  }

  /** `,(.+)` has one capture at a given position. */
  lemma TitleUnique(s: string, p: nat, cs: seq<Capture>, ds: seq<Capture>)
    requires TailSpec(s, 4, p, cs) && TailSpec(s, 4, p, ds)
    ensures cs == ds
  {
    TitleAtComplete(s, p, cs[0].value);
    TitleAtComplete(s, p, ds[0].value);
    assert cs[0] == ds[0];
  }

  lemma {:induction false} TailUnique(s: string, stage: nat, p: nat, cs: seq<Capture>, ds: seq<Capture>)
    requires 1 <= stage <= 4 && KeysOnce(s)
    requires TailSpec(s, stage, p, cs) && TailSpec(s, stage, p, ds)
    ensures cs == ds
    decreases 4 - stage
  {
    if stage == 4 {
      TitleUnique(s, p, cs, ds);
    } else {
      AttrUnique(s, stage, cs[0], ds[0]);
      TailUnique(s, stage + 1, End(stage, cs[0]), cs[1..], ds[1..]);
      assert cs == [cs[0]] + cs[1..] && ds == [ds[0]] + ds[1..];
    }
  }

  /**
   * When each of the four keys occurs at most once in the line, the match is the only one
   * there is: `line.match` returns exactly its captures.
   */
  lemma MatchExact(line: string, cs: seq<Capture>)
    requires MatchSpec(line, cs) && KeysOnce(line)
    ensures Locate(line) == Some(cs)
    ensures MatchExtinf(line) == Some(Fields(cs))
  {
    LocateCompleteAndLeftmost(line, cs);
    LocateSound(line);
    MatchUnique(line, cs, Locate(line).value);
  }

  /** Under `KeysOnce` two matches of the pattern have the same captures. */
  lemma MatchUnique(line: string, cs: seq<Capture>, ds: seq<Capture>)
    requires MatchSpec(line, cs) && MatchSpec(line, ds) && KeysOnce(line)
    ensures cs == ds
  {
    assert OccursAt(line, cs[0].at, KeyId) && OccursAt(line, ds[0].at, KeyId);
    AttrAtComplete(line, cs[0].at, KeyId, cs[0].value);
    AttrAtComplete(line, cs[0].at, KeyId, ds[0].value);
    TailUnique(line, 1, End(0, cs[0]), cs[1..], ds[1..]);
    assert cs == [cs[0]] + cs[1..] && ds == [ds[0]] + ds[1..];
  }

  /** A line without a double quote never matches, since every key ends in one. */
  lemma {:induction false} NoQuoteNoMatch(line: string)
    requires '"' !in line
    ensures MatchExtinf(line) == None
  {
    if Locate(line).Some? {
      LocateSound(line);
    }
  }

  /** A match of the pattern's tail from group `stage` on holds the key of every later group. */
  lemma {:induction false} TailHasKey(s: string, stage: nat, p: nat, cs: seq<Capture>, k: nat)
    requires 1 <= stage <= k < 4 && TailSpec(s, stage, p, cs)
    ensures exists q :: OccursAt(s, q, Key(k))
    decreases k - stage
  {
    if stage == k {
      assert OccursAt(s, cs[0].at, Key(k));
    } else {
      TailHasKey(s, stage + 1, End(stage, cs[0]), cs[1..], k);
    }
  }

  /**
   * A line missing one of the four keys never matches, so `#EXTINF:` lines with only some of the
   * attributes take the fallback form.
   */
  lemma MissingKeyNoMatch(line: string, k: nat)
    requires k < 4 && forall q :: !OccursAt(line, q, Key(k))
    ensures MatchExtinf(line) == None
  {
    if Locate(line).Some? {
      LocateSound(line);
      if k == 0 {
        assert false;
      } else {
        var cs := Locate(line).value;
        TailHasKey(line, 1, End(0, cs[0]), cs[1..], k);
      }
    }
  }

  // The searches over the group label.

  predicate IsLower(c: char) { 'a' <= c <= 'z' }
  predicate IsDigit(c: char) { '0' <= c <= '9' }

  /** `[A-Z]{2}` matches at `i`. */
  predicate CountryAt(g: string, i: int) {
    0 <= i && i + 2 <= |g| && IsUpper(g[i]) && IsUpper(g[i + 1])
  }

  /** `[a-z]{3}` matches at `i`. */
  predicate LanguageAt(g: string, i: int) {
    0 <= i && i + 3 <= |g| && IsLower(g[i]) && IsLower(g[i + 1]) && IsLower(g[i + 2])
  }

  /** The end of the run of digits that starts at `i`. */
  function DigitsEnd(g: string, i: nat): (j: nat)
    requires i <= |g|
    ensures i <= j <= |g|
    decreases |g| - i
  {
    if i == |g| || !IsDigit(g[i]) then i else DigitsEnd(g, i + 1)
  }

  /** `DigitsEnd` stops at the first character after `i` that is not a digit. */
  lemma {:induction false} DigitsEndSpec(g: string, i: nat)
    requires i <= |g|
    ensures var j := DigitsEnd(g, i); (forall k | i <= k < j :: IsDigit(g[k])) && (j < |g| ==> !IsDigit(g[j]))
    decreases |g| - i
  {
    if i < |g| && IsDigit(g[i]) {
      DigitsEndSpec(g, i + 1);
    }
  }

  /** `\d+p` matches at `i` (greedy `\d+` can only succeed with the whole digit run). */
  predicate QualityAt(g: string, i: int) {
    0 <= i < |g| && IsDigit(g[i]) && DigitsEnd(g, i) < |g| && g[DigitsEnd(g, i)] == 'p'
  }

  function FindCountry(g: string, from: nat): (r: Option<nat>)
    ensures r.Some? ==> from <= r.value && CountryAt(g, r.value)
    decreases |g| - from
  {
    if from + 2 > |g| then None
    else if CountryAt(g, from) then Some(from)
    else FindCountry(g, from + 1)
  }

  /** `FindCountry` passes over no match: there is none from `from` up to what it returns. */
  lemma {:induction false} FindCountryFirst(g: string, from: nat)
    ensures var r := FindCountry(g, from); forall i | from <= i && (r.None? || i < r.value) :: !CountryAt(g, i)
    decreases |g| - from
  {
    if !(from + 2 > |g|) && !CountryAt(g, from) {
      FindCountryFirst(g, from + 1);
    }
  }

  function FindLanguage(g: string, from: nat): (r: Option<nat>)
    ensures r.Some? ==> from <= r.value && LanguageAt(g, r.value)
    decreases |g| - from
  {
    if from + 3 > |g| then None
    else if LanguageAt(g, from) then Some(from)
    else FindLanguage(g, from + 1)
  }

  /** `FindLanguage` passes over no match: there is none from `from` up to what it returns. */
  lemma {:induction false} FindLanguageFirst(g: string, from: nat)
    ensures var r := FindLanguage(g, from); forall i | from <= i && (r.None? || i < r.value) :: !LanguageAt(g, i)
    decreases |g| - from
  {
    if !(from + 3 > |g|) && !LanguageAt(g, from) {
      FindLanguageFirst(g, from + 1);
    }
  }

  function FindQuality(g: string, from: nat): (r: Option<nat>)
    ensures r.Some? ==> from <= r.value && QualityAt(g, r.value)
    decreases |g| - from
  {
    if from >= |g| then None
    else if QualityAt(g, from) then Some(from)
    else FindQuality(g, from + 1)
  }

  /** `FindQuality` passes over no match: there is none from `from` up to what it returns. */
  lemma {:induction false} FindQualityFirst(g: string, from: nat)
    ensures var r := FindQuality(g, from); forall i | from <= i && (r.None? || i < r.value) :: !QualityAt(g, i)
    decreases |g| - from
  {
    if !(from >= |g|) && !QualityAt(g, from) {
      FindQualityFirst(g, from + 1);
    }
  }

  /** `group.match(/[A-Z]{2}/)?.[0]`: the leftmost two capital letters. */
  function GroupCountry(g: string): Option<string> {
    match FindCountry(g, 0)
    case Some(i) => Some(g[i..i + 2])
    case None => None
  }

  /** `group.match(/[a-z]{3}/)?.[0]`: the leftmost three lower-case letters. */
  function GroupLanguage(g: string): Option<string> {
    match FindLanguage(g, 0)
    case Some(i) => Some(g[i..i + 3])
    case None => None
  }

  /** `group.match(/\d+p/)?.[0]`: the leftmost run of digits followed by `p`. */
  function GroupQuality(g: string): Option<string> {
    match FindQuality(g, 0)
    case Some(i) => Some(g[i..DigitsEnd(g, i) + 1])
    case None => None
  }

  /** No country without two capitals in a row; otherwise the leftmost such pair. */
  lemma GroupCountrySpec(g: string)
    ensures GroupCountry(g).None? <==> forall i :: !CountryAt(g, i)
    ensures GroupCountry(g).Some? ==>
      exists i :: CountryAt(g, i) && GroupCountry(g).value == g[i..i + 2] && forall j | 0 <= j < i :: !CountryAt(g, j)
  {
    FindCountryFirst(g, 0);
  }

  /** No language without three lower-case letters in a row; otherwise the leftmost such run. */
  lemma GroupLanguageSpec(g: string)
    ensures GroupLanguage(g).None? <==> forall i :: !LanguageAt(g, i)
    ensures GroupLanguage(g).Some? ==>
      exists i :: LanguageAt(g, i) && GroupLanguage(g).value == g[i..i + 3] && forall j | 0 <= j < i :: !LanguageAt(g, j)
  {
    FindLanguageFirst(g, 0);
  }

  /**
   * No quality without digits followed by `p`; otherwise the whole digit run at the leftmost
   * such place, and its `p`.
   */
  lemma GroupQualitySpec(g: string)
    ensures GroupQuality(g).None? <==> forall i :: !QualityAt(g, i)
    ensures GroupQuality(g).Some? ==>
      exists i :: QualityAt(g, i) && GroupQuality(g).value == g[i..DigitsEnd(g, i) + 1] && forall j | 0 <= j < i :: !QualityAt(g, j)
  {
    FindQualityFirst(g, 0);
  }

  /** The group label `AR;spa;720p` yields country `AR`, language `spa` and quality `720p`. */
  lemma GroupExample()
    ensures GroupCountry("AR;spa;720p") == Some("AR")
    ensures GroupLanguage("AR;spa;720p") == Some("spa")
    ensures GroupQuality("AR;spa;720p") == Some("720p")
  {
    var g := "AR;spa;720p";
    assert CountryAt(g, 0) && FindCountry(g, 0) == Some(0) && g[0..2] == "AR";
    assert g[3..6] == "spa" && g[7..11] == "720p";
    assert LanguageAt(g, 3) && FindLanguage(g, 3) == Some(3);
    assert !LanguageAt(g, 2) && FindLanguage(g, 2) == Some(3);
    assert !LanguageAt(g, 1) && FindLanguage(g, 1) == Some(3);
    assert !LanguageAt(g, 0) && FindLanguage(g, 0) == Some(3);
    assert DigitsEnd(g, 10) == 10 && DigitsEnd(g, 9) == 10 && DigitsEnd(g, 8) == 10 && DigitsEnd(g, 7) == 10;
    assert QualityAt(g, 7) && FindQuality(g, 7) == Some(7);
    assert !QualityAt(g, 6) && FindQuality(g, 6) == Some(7);
    assert !QualityAt(g, 5) && FindQuality(g, 5) == Some(7);
    assert !QualityAt(g, 4) && FindQuality(g, 4) == Some(7);
    assert !QualityAt(g, 3) && FindQuality(g, 3) == Some(7);
    assert !QualityAt(g, 2) && FindQuality(g, 2) == Some(7);
    assert !QualityAt(g, 1) && FindQuality(g, 1) == Some(7);
    assert !QualityAt(g, 0) && FindQuality(g, 0) == Some(7);
  }
}
