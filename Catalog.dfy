/**
 * The two views computed from the loaded channel list: the channels the search box and the
 * three dropdowns let through (`filteredChannels`), and the options offered in each dropdown
 * (`uniqueValues`), together with the update a dropdown makes to the filter.
 */
module Catalog {
  import opened Wrappers
  import opened Text
  import opened Types
  import Seqs

  // filteredChannels

  /** `!filter[key]`: no value, or the empty string, puts no constraint on the field. */
  predicate Unset(want: Option<string>) {
    want.None? || want.value == ""
  }

  /** `!want || have === want` */
  predicate FieldAccepts(want: Option<string>, have: Option<string>) {
    Unset(want) || have == want
  }

  /** `channel.name.toLowerCase().includes(searchTerm.toLowerCase())` */
  predicate MatchesSearch(c: Channel, term: string) {
    Includes(ToLower(c.name), ToLower(term))
  }

  /** The four conjuncts the channel list is filtered by. */
  predicate Visible(c: Channel, term: string, f: Filter) {
    && MatchesSearch(c, term)
    && FieldAccepts(f.category, c.category)
    && FieldAccepts(f.country, c.country)
    && FieldAccepts(f.language, c.language)
  }

  function VisiblePred(term: string, f: Filter): Channel -> bool {
    c => Visible(c, term, f)
  }

  /** `channels.filter(...)`: every channel kept is visible, and every visible channel is kept. */
  function FilteredChannels(cs: seq<Channel>, term: string, f: Filter): (r: seq<Channel>)
    ensures |r| <= |cs|
    ensures forall k | 0 <= k < |r| :: r[k] in cs && Visible(r[k], term, f)
    ensures forall i | 0 <= i < |cs| :: Visible(cs[i], term, f) ==> cs[i] in r
  {
    Seqs.Filter(VisiblePred(term, f), cs)
  }

  /**
   * The filtered list is the subsequence of `cs`, in its order and with the channels
   * unchanged, at exactly the indices of the visible channels.
   */
  lemma FilteredIsSubsequence(cs: seq<Channel>, term: string, f: Filter)
    ensures Seqs.Selects(Seqs.FilterIndices(VisiblePred(term, f), cs), FilteredChannels(cs, term, f), cs, VisiblePred(term, f))
  {
    Seqs.FilterSelects(VisiblePred(term, f), cs);
  }

  /** The lower-casing of the empty term is empty, and every name includes it. */
  lemma EmptyTermMatches(c: Channel)
    ensures MatchesSearch(c, "")
  {
    assert ToLower("") == "";
  }

  /** With an empty search term and no dropdown value chosen, every channel is shown. */
  lemma NoFilterShowsAll(cs: seq<Channel>, f: Filter)
    requires Unset(f.country) && Unset(f.language) && Unset(f.category)
    ensures FilteredChannels(cs, "", f) == cs
  {
    forall i | 0 <= i < |cs|
      ensures VisiblePred("", f)(cs[i])
    {
      EmptyTermMatches(cs[i]);
    }
    Seqs.FilterAll(VisiblePred("", f), cs);
  }

  /** The search ignores the case of ASCII letters in the term. */
  lemma SearchIgnoresCase(cs: seq<Channel>, term: string, f: Filter)
    ensures FilteredChannels(cs, ToLower(term), f) == FilteredChannels(cs, term, f)
  {
    ToLowerIdempotent(term);
    Seqs.FilterAgrees(VisiblePred(ToLower(term), f), VisiblePred(term, f), cs);
  }

  // uniqueValues

  /** Strictly increasing, hence sorted and free of duplicates. */
  ghost predicate StrictlySorted(s: seq<string>) {
    forall i, j | 0 <= i < j < |s| :: Less(s[i], s[j])
  }

  lemma StrictlySortedDistinct(s: seq<string>, i: nat, j: nat)
    requires StrictlySorted(s) && i < j < |s|
    ensures s[i] != s[j]
  {
    LessIrreflexive(s[i]);
  }

  /** `x` added to a strictly sorted sequence, in its place; nothing when it is already there. */
  function InsertSorted(x: string, s: seq<string>): (r: seq<string>)
    requires StrictlySorted(s)
    ensures StrictlySorted(r)
    ensures forall y :: y in r <==> y == x || y in s
    decreases |s|
  {
    if s == [] then [x]
    else if x == s[0] then s
    else if Less(x, s[0]) then
      forall j | 0 < j < |s| ensures Less(x, s[j]) {
        LessTransitive(x, s[0], s[j]);
      }
      [x] + s
    else
      LessTotal(x, s[0]);
      var rest := InsertSorted(x, s[1..]);
      assert forall y | y in rest :: Less(s[0], y);
      [s[0]] + rest
  }

  /** The value of field `key`, when it is present and not empty (`filter(Boolean)`). */
  function Offered(c: Channel, key: FilterKey): Option<string> {
    match ChannelField(c, key)
    case Some(v) => if v != "" then Some(v) else None
    case None => None
  }

  /** `v` is the present, non-empty `key` value of some channel of `cs`. */
  ghost predicate OfferedBy(cs: seq<Channel>, key: FilterKey, v: string) {
    exists i | 0 <= i < |cs| :: Offered(cs[i], key) == Some(v)
  }

  /**
   * `Array.from(new Set(channels.map(c => c[key]).filter(Boolean))).sort()`: strictly sorted,
   * and holding exactly the values some channel offers.
   */
  function UniqueValues(cs: seq<Channel>, key: FilterKey): (r: seq<string>)
    ensures StrictlySorted(r)
    ensures forall v :: v in r <==> OfferedBy(cs, key, v)
    decreases |cs|
  {
    if cs == [] then []
    else
      var init := cs[..|cs| - 1];
      var before := UniqueValues(init, key);
      assert forall i | 0 <= i < |init| :: init[i] == cs[i];
      match Offered(cs[|cs| - 1], key)
      case Some(v) => InsertSorted(v, before)
      case None => before
  }

  /** The first element of a strictly sorted sequence is below every other one. */
  lemma HeadLeast(s: seq<string>, x: string)
    requires StrictlySorted(s) && x in s
    ensures s != [] && (x == s[0] || Less(s[0], x))
  {
  }

  lemma NonEmptyIn(s: seq<string>, t: seq<string>)
    requires s != [] && forall x :: x in s ==> x in t
    ensures t != []
  {
    assert s[0] in t;
  }

  /** Two strictly sorted sequences with the same elements are equal. */
  lemma {:induction false} SortedUnique(s: seq<string>, t: seq<string>)
    requires StrictlySorted(s) && StrictlySorted(t)
    requires forall x :: x in s <==> x in t
    ensures s == t
    decreases |s|
  {
    if s != [] {
      NonEmptyIn(s, t);
    }
    if t != [] {
      NonEmptyIn(t, s);
    }
    if s != [] && t != [] {
      HeadLeast(t, s[0]);
      HeadLeast(s, t[0]);
      if s[0] != t[0] {
        LessAsymmetric(s[0], t[0]);
      }
      forall x ensures x in s[1..] <==> x in t[1..] {
        if x in s[1..] {
          var j :| 1 <= j < |s| && s[j] == x;
          StrictlySortedDistinct(s, 0, j);
          assert x in t;
          var k :| 0 <= k < |t| && t[k] == x;
          assert t[1..][k - 1] == x;
        }
        if x in t[1..] {
          var j :| 1 <= j < |t| && t[j] == x;
          StrictlySortedDistinct(t, 0, j);
          assert x in s;
          var k :| 0 <= k < |s| && s[k] == x;
          assert s[1..][k - 1] == x;
        }
      }
      SortedUnique(s[1..], t[1..]);
      assert s == [s[0]] + s[1..] && t == [t[0]] + t[1..];
    }
  }

  /**
   * The options depend only on which values the channels offer, not on how many channels
   * offer each or in which order they come.
   */
  lemma OptionsDependOnValuesOnly(cs: seq<Channel>, ds: seq<Channel>, key: FilterKey)
    requires forall v :: OfferedBy(cs, key, v) <==> OfferedBy(ds, key, v)
    ensures UniqueValues(cs, key) == UniqueValues(ds, key)
  {
    SortedUnique(UniqueValues(cs, key), UniqueValues(ds, key));
  }

  // The dropdown update

  /** No field of the filter holds the empty string. */
  ghost predicate NoEmptyValue(f: Filter) {
    forall k :: FilterField(f, k) != Some("")
  }

  /**
   * `setFilter(prev => ({ ...prev, [key]: value || undefined }))`: the chosen field takes the
   * value, the empty option unsets it, and the other two fields are kept.
   */
  function WithOption(f: Filter, key: FilterKey, value: string): (r: Filter)
    ensures FilterField(r, key) == (if value == "" then None else Some(value))
    ensures forall k | k != key :: FilterField(r, k) == FilterField(f, k)
  {
    var v := if value == "" then None else Some(value);
    match key
    case Country => f.(country := v)
    case Language => f.(language := v)
    case Category => f.(category := v)
  }

  /** Choosing the empty option on every dropdown brings back the whole list (for an empty term). */
  lemma ClearedFilterShowsAll(cs: seq<Channel>, f: Filter)
    ensures FilteredChannels(cs, "", WithOption(WithOption(WithOption(f, Country, ""), Language, ""), Category, "")) == cs
  {
    var g := WithOption(WithOption(WithOption(f, Country, ""), Language, ""), Category, "");
    assert FilterField(g, Country) == None && FilterField(g, Language) == None;
    NoFilterShowsAll(cs, g);
  }
}
