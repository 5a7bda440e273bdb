/**
 * `parseM3U`: the extended-M3U playlist as a sequence of channels. Lines are taken one by
 * one, trimmed, and either open a pending record (`#EXTINF:`), complete it (a line
 * starting with `http`), or are ignored.
 */
module M3U {
  import opened Wrappers
  import opened Text
  import opened Types
  import opened Extinf

  const ExtinfTag: string := "#EXTINF:"
  const UrlPrefix: string := "http"
  /** The name given when the fallback form has no second comma-separated field. */
  const Placeholder: string := "Canal sin nombre"

  /** The partially built channel (`Partial<Channel>`); `Empty` is `{}`. */
  datatype Pending = Pending(
    name: Option<string>,
    url: Option<string>,
    tvg: Option<Tvg>,
    category: Option<string>,
    country: Option<string>,
    language: Option<string>,
    quality: Option<string>)

  const Empty: Pending := Pending(None, None, None, None, None, None, None)

  /** The record an `#EXTINF:` line matching the attribute pattern gives. */
  function ExtendedRecord(a: Attributes): Pending {
    Pending(
      Some(Trim(a.title)), None,
      Some(Tvg(Some(a.id), Some(a.name), Some(a.logo), None)),
      Some(a.group), GroupCountry(a.group), GroupLanguage(a.group), GroupQuality(a.group))
  }

  /** The record of any other `#EXTINF:` line: only a name, from the second comma field. */
  function FallbackRecord(line: string): Pending {
    var fields := Split(line, ',');
    var name := if |fields| > 1 && fields[1] != "" then Trim(fields[1]) else Placeholder;
    Pending(Some(name), None, None, None, None, None, None)
  }

  /** The record that replaces the pending one on an `#EXTINF:` line: it always has a name and no url. */
  function ExtinfRecord(line: string): (p: Pending)
    ensures p.name.Some? && p.url.None?
  {
    match MatchExtinf(line)
    case Some(a) => ExtendedRecord(a)
    case None => FallbackRecord(line)
  }

  predicate IsExtinfLine(line: string) {
    StartsWith(line, ExtinfTag)
  }

  /** A trimmed line the parser takes for a stream address (tested after `#EXTINF:`). */
  predicate IsUrlLine(line: string) {
    !IsExtinfLine(line) && StartsWith(line, UrlPrefix)
  }

  /** `currentChannel.name && currentChannel.url`: both present and non-empty. */
  predicate Complete(p: Pending) {
    p.name.Some? && p.name.value != "" && p.url.Some? && p.url.value != ""
  }

  /** `currentChannel as Channel`. */
  function ToChannel(p: Pending): Channel
    requires p.name.Some? && p.url.Some?
  {
    Channel(p.name.value, p.url.value, p.country, p.language, p.category, p.quality, None, p.tvg)
  }

  /**
   * What a URL line `url` appends when `p` is the pending record: one channel, carrying that
   * url and the pending name, exactly when that name is present and not empty (a URL line is
   * never empty).
   */
  function Emitted(p: Pending, url: string): (r: seq<Channel>)
    ensures |r| <= 1
    ensures r != [] <==> p.name.Some? && p.name.value != "" && url != ""
    ensures r != [] ==> r[0].name == p.name.value && r[0].url == url
  {
    var q := p.(url := Some(url));
    if Complete(q) then [ToChannel(q)] else []
  }

  datatype ParseState = ParseState(out: seq<Channel>, pending: Pending)

  const Start: ParseState := ParseState([], Empty)

  /** The lines the parser ignores: neither `#EXTINF:` lines nor lines starting with `http`. */
  predicate Ignored(line: string) {
    !IsExtinfLine(line) && !StartsWith(line, UrlPrefix)
  }

  /**
   * One iteration of the `forEach` over the lines. It only appends to the output, at most one
   * channel and only on a URL line; an ignored line changes nothing; a URL line empties the
   * pending record.
   */
  function Step(st: ParseState, raw: string): (r: ParseState)
    ensures st.out <= r.out
    ensures |r.out| <= |st.out| + (if IsUrlLine(Trim(raw)) then 1 else 0)
    ensures Ignored(Trim(raw)) ==> r == st
    ensures IsUrlLine(Trim(raw)) ==> r.pending == Empty
  {
    var line := Trim(raw);
    if IsExtinfLine(line) then ParseState(st.out, ExtinfRecord(line))
    else if StartsWith(line, UrlPrefix) then ParseState(st.out + Emitted(st.pending, line), Empty)
    else st
  }

  /** The state after the given lines, in order. */
  function Run(lines: seq<string>): ParseState
    decreases |lines|
  {
    if lines == [] then Start else Step(Run(lines[..|lines| - 1]), lines[|lines| - 1])
  }

  lemma RunSnoc(lines: seq<string>, raw: string)
    ensures Run(lines + [raw]) == Step(Run(lines), raw)
  {
    assert (lines + [raw])[..|lines|] == lines;
  }

  /**
   * The channels `parseM3U(content)` returns: each has a non-empty name and a url starting
   * with `http`, and there are no more of them than URL lines.
   */
  function Parse(content: string): (r: seq<Channel>)
    ensures forall c | c in r :: c.name != "" && StartsWith(c.url, UrlPrefix)
    ensures |r| <= UrlLines(Split(content, '\n'))
  {
    var lines := Split(content, '\n');
    EmittedWellFormed(lines);
    AtMostOnePerUrlLine(lines);
    Run(lines).out
  }

  method ParseM3U(content: string) returns (channels: seq<Channel>)
    ensures channels == Parse(content)
  {
    var lines := Split(content, '\n');
    channels := [];
    var current := Empty;
    var i := 0;
    while i < |lines|
      invariant 0 <= i <= |lines|
      invariant Run(lines[..i]) == ParseState(channels, current)
    {
      ghost var before := ParseState(channels, current);
      var line := Trim(lines[i]);
      if StartsWith(line, ExtinfTag) {
        current := ExtinfRecord(line);
      } else if StartsWith(line, UrlPrefix) {
        current := current.(url := Some(line));
        if current.name.Some? && current.name.value != "" && current.url.Some? && current.url.value != "" {
          channels := channels + [ToChannel(current)];
        }
        current := Empty;
      }
      assert Step(before, lines[i]) == ParseState(channels, current);
      assert lines[..i + 1] == lines[..i] + [lines[i]];
      RunSnoc(lines[..i], lines[i]);
      i := i + 1;
    }
    assert lines[..|lines|] == lines;
  }

  // Properties of the parse.

  /** Channel `c` was emitted for line `k`: its url is that whole trimmed line, a URL line. */
  ghost predicate FromUrlLine(c: Channel, lines: seq<string>) {
    exists k :: 0 <= k < |lines| && c.url == Trim(lines[k]) && IsUrlLine(Trim(lines[k]))
  }

  /**
   * Every emitted channel has a non-empty name, and its url is an entire trimmed line that
   * starts with `http`; the pending record never holds a url between lines.
   */
  lemma {:induction false} EmittedWellFormed(lines: seq<string>)
    ensures Run(lines).pending.url == None
    ensures forall c | c in Run(lines).out ::
      c.name != "" && StartsWith(c.url, UrlPrefix) && FromUrlLine(c, lines)
    decreases |lines|
  {
    if lines != [] {
      var init := lines[..|lines| - 1];
      var last := lines[|lines| - 1];
      EmittedWellFormed(init);
      forall c | c in Run(init).out ensures FromUrlLine(c, lines) {
        var k :| 0 <= k < |init| && c.url == Trim(init[k]) && IsUrlLine(Trim(init[k]));
        assert lines[k] == init[k];
      }
      var line := Trim(last);
      if !IsExtinfLine(line) && StartsWith(line, UrlPrefix) {
        forall c | c in Emitted(Run(init).pending, line) ensures FromUrlLine(c, lines) {
          assert Trim(lines[|lines| - 1]) == line;
        }
      }
    }
  }

  /** The number of URL lines among `lines`. */
  function UrlLines(lines: seq<string>): nat
    decreases |lines|
  {
    if lines == [] then 0
    else UrlLines(lines[..|lines| - 1]) + (if IsUrlLine(Trim(lines[|lines| - 1])) then 1 else 0)
  }

  /** At most one channel per URL line. */
  lemma {:induction false} AtMostOnePerUrlLine(lines: seq<string>)
    ensures |Run(lines).out| <= UrlLines(lines)
    decreases |lines|
  {
    if lines != [] {
      AtMostOnePerUrlLine(lines[..|lines| - 1]);
    }
  }

  /** Output only grows: channels appear in the order of the URL lines that emitted them. */
  lemma {:induction false} OutputGrows(lines: seq<string>, i: nat)
    requires i <= |lines|
    ensures Run(lines[..i]).out <= Run(lines).out
    decreases |lines| - i
  {
    if i < |lines| {
      OutputGrows(lines, i + 1);
      assert lines[..i + 1] == lines[..i] + [lines[i]];
      RunSnoc(lines[..i], lines[i]);
    } else {
      assert lines[..i] == lines;
    }
  }

  /**
   * A URL line with no `#EXTINF:` line since the previous URL line (or since the start)
   * emits nothing: every URL line resets the pending record, emitted or not.
   */
  lemma {:induction false} OrphanUrlDropped(lines: seq<string>, from: nat, i: nat)
    requires from <= i < |lines|
    requires from == 0 || IsUrlLine(Trim(lines[from - 1]))
    requires forall k | from <= k < i :: !IsExtinfLine(Trim(lines[k]))
    requires IsUrlLine(Trim(lines[i]))
    ensures Run(lines[..i + 1]).out == Run(lines[..i]).out
  {
    PendingStaysEmpty(lines, from, i);
    assert lines[..i + 1] == lines[..i] + [lines[i]];
    RunSnoc(lines[..i], lines[i]);
  }

  lemma {:induction false} PendingStaysEmpty(lines: seq<string>, from: nat, i: nat)
    requires from <= i <= |lines|
    requires from == 0 || IsUrlLine(Trim(lines[from - 1]))
    requires forall k | from <= k < i :: !IsExtinfLine(Trim(lines[k]))
    ensures Run(lines[..i]).pending == Empty
    decreases i
  {
    if i == from {
      if from > 0 {
        assert lines[..from] == lines[..from - 1] + [lines[from - 1]];
        RunSnoc(lines[..from - 1], lines[from - 1]);
      }
    } else {
      PendingStaysEmpty(lines, from, i - 1);
      assert lines[..i] == lines[..i - 1] + [lines[i - 1]];
      RunSnoc(lines[..i - 1], lines[i - 1]);
    }
  }

  /**
   * Lines `j` and `i` pair up: an `#EXTINF:` line, then a URL line, with only ignored lines
   * (other directives, comments, blank lines) between them.
   */
  predicate Paired(lines: seq<string>, j: nat, i: nat) {
    && j < i < |lines|
    && IsExtinfLine(Trim(lines[j]))
    && IsUrlLine(Trim(lines[i]))
    && forall k | j < k < i :: Ignored(Trim(lines[k]))
  }

  /** After an `#EXTINF:` line and any ignored lines, its record is pending and nothing was added. */
  lemma {:induction false} PendingAfterExtinf(lines: seq<string>, j: nat, m: nat)
    requires j < m <= |lines| && IsExtinfLine(Trim(lines[j]))
    requires forall k | j < k < m :: Ignored(Trim(lines[k]))
    ensures Run(lines[..m]) == ParseState(Run(lines[..j]).out, ExtinfRecord(Trim(lines[j])))
    decreases m
  {
    assert lines[..m] == lines[..m - 1] + [lines[m - 1]];
    RunSnoc(lines[..m - 1], lines[m - 1]);
    if m - 1 > j {
      PendingAfterExtinf(lines, j, m - 1);
    }
  }

  /**
   * A channel is built from one `#EXTINF:` line and the next URL line, whatever ignored lines
   * stand between them: the URL line appends exactly what that record and url give.
   */
  lemma PairedEmits(lines: seq<string>, j: nat, i: nat)
    requires Paired(lines, j, i)
    ensures Run(lines[..i + 1]).out == Run(lines[..j]).out + Emitted(ExtinfRecord(Trim(lines[j])), Trim(lines[i]))
  {
    PendingAfterExtinf(lines, j, i);
    var before, line := lines[..i], lines[i];
    assert lines[..i + 1] == before + [line];
    RunSnoc(before, line);
    var st := Run(before);
    assert st.pending == ExtinfRecord(Trim(lines[j]));
    assert IsUrlLine(Trim(line));
    assert Step(st, line).out == st.out + Emitted(st.pending, Trim(line));
  }

  /** An `#EXTINF:` line directly followed by a URL line. */
  lemma PairEmits(lines: seq<string>, e: string, u: string)
    requires IsExtinfLine(Trim(e)) && IsUrlLine(Trim(u))
    ensures Run(lines + [e, u]).out == Run(lines).out + Emitted(ExtinfRecord(Trim(e)), Trim(u))
  {
    var all := lines + [e, u];
    assert Paired(all, |lines|, |lines| + 1);
    PairedEmits(all, |lines|, |lines| + 1);
    assert all[..|lines|] == lines && all[..|lines| + 2] == all;
  }

  /**
   * An `#EXTINF:` line replaces the pending record entirely: when an earlier `#EXTINF:` line
   * `h` is followed only by ignored lines up to the `#EXTINF:` line `j` that pairs with URL
   * line `i`, what is appended by line `i` depends on line `j` alone, and line `h` adds nothing.
   */
  lemma LaterExtinfWins(lines: seq<string>, h: nat, j: nat, i: nat)
    requires Paired(lines, j, i) && h < j && IsExtinfLine(Trim(lines[h]))
    requires forall k | h < k < j :: Ignored(Trim(lines[k]))
    ensures Run(lines[..i + 1]).out == Run(lines[..h]).out + Emitted(ExtinfRecord(Trim(lines[j])), Trim(lines[i]))
  {
    PairedEmits(lines, j, i);
    PendingAfterExtinf(lines, h, j);
  }

  /**
   * The fallback form. With `line == a + "," + b + rest`, where neither `a` nor `b` holds a
   * comma and `rest` is empty or starts with one, the name is `b` trimmed, or the
   * placeholder when `b` is empty; a line with no comma gets the placeholder. Nothing but the
   * name is set.
   */
  lemma FallbackName(line: string, a: string, b: string, rest: string)
    requires line == a + [','] + b + rest
    requires ',' !in a && ',' !in b && (rest == [] || rest[0] == ',')
    ensures FallbackRecord(line) == Pending(Some(if b == "" then Placeholder else Trim(b)), None, None, None, None, None, None)
  {
    assert line == a + [','] + (b + rest);
    SplitAtFirst(a, b + rest, ',');
    if rest == [] {
      assert b + rest == b;
      SplitNoSeparator(b, ',');
    } else {
      assert b + rest == b + [','] + rest[1..];
      SplitAtFirst(b, rest[1..], ',');
    }
  }

  lemma FallbackNoComma(line: string)
    requires ',' !in line
    ensures FallbackRecord(line) == Pending(Some(Placeholder), None, None, None, None, None, None)
  {
    SplitNoSeparator(line, ',');
  }

  /**
   * A whitespace-only second field is truthy, so it is trimmed to the empty name, and the
   * following URL line emits nothing.
   */
  lemma BlankFallbackNameDropped(line: string, a: string, b: string, rest: string, url: string)
    requires MatchExtinf(line) == None
    requires line == a + [','] + b + rest
    requires ',' !in a && ',' !in b && (rest == [] || rest[0] == ',')
    requires b != "" && AllSpace(b)
    ensures ExtinfRecord(line).name == Some("")
    ensures Emitted(ExtinfRecord(line), url) == []
  {
    FallbackName(line, a, b, rest);
    TrimAllSpace(b);
  }

  /**
   * The extended form. When each key occurs at most once on an `#EXTINF:` line and the
   * pattern matches with captures `cs`, the record is built from them: the trimmed title
   * (not `tvg-name`) as name, the `tvg` block, the raw group as category and the three
   * first-match searches over the group.
   */
  lemma ExtendedLine(line: string, cs: seq<Capture>)
    requires MatchSpec(line, cs) && KeysOnce(line)
    ensures ExtinfRecord(line) == ExtendedRecord(Fields(cs))
    ensures ExtinfRecord(line).name == Some(Trim(cs[4].value))
    ensures ExtinfRecord(line).tvg == Some(Tvg(Some(cs[0].value), Some(cs[1].value), Some(cs[2].value), None))
    ensures ExtinfRecord(line).category == Some(cs[3].value)
    ensures ExtinfRecord(line).country == GroupCountry(cs[3].value)
  {
    MatchExact(line, cs);
  }

  /**
   * A matching `#EXTINF:` line whose keys occur once, paired with a later URL line: the channel
   * appended is named by the trimmed title, carries the url, the `tvg` block, the raw group as
   * category and the three values found in the group, and has no top-level logo.
   */
  lemma ExtendedChannel(lines: seq<string>, j: nat, i: nat, cs: seq<Capture>)
    requires Paired(lines, j, i)
    requires MatchSpec(Trim(lines[j]), cs) && KeysOnce(Trim(lines[j]))
    ensures var name := Trim(cs[4].value);
      var group := cs[3].value;
      Run(lines[..i + 1]).out == Run(lines[..j]).out +
        (if name == "" then []
         else [Channel(name, Trim(lines[i]), GroupCountry(group), GroupLanguage(group), Some(group), GroupQuality(group), None,
                       Some(Tvg(Some(cs[0].value), Some(cs[1].value), Some(cs[2].value), None)))])
  {
    PairedEmits(lines, j, i);
    ExtendedLine(Trim(lines[j]), cs);
  }

  /**
   * An `#EXTINF:` line the attribute pattern does not match (a line with only some of the
   * attributes, or with none, as `NoQuoteNoMatch` shows for quote-free lines), paired with a
   * later URL line: the channel appended has only the fallback name and the url; a blank
   * second field gives nothing.
   */
  lemma FallbackChannel(lines: seq<string>, j: nat, i: nat, a: string, b: string, rest: string)
    requires Paired(lines, j, i) && MatchExtinf(Trim(lines[j])) == None
    requires Trim(lines[j]) == a + [','] + b + rest
    requires ',' !in a && ',' !in b && (rest == [] || rest[0] == ',')
    ensures var name := if b == "" then Placeholder else Trim(b);
      Run(lines[..i + 1]).out == Run(lines[..j]).out +
        (if name == "" then [] else [Channel(name, Trim(lines[i]), None, None, None, None, None, None)])
  {
    PairedEmits(lines, j, i);
    FallbackName(Trim(lines[j]), a, b, rest);
  }
}
