/**
 * `updateRecentChannels`: the most-recent-first list of the last channels played, at most
 * five, one entry per url.
 */
module Recent {
  import opened Types
  import Seqs

  const MaxRecent: nat := 5

  /** No two entries share a url. */
  ghost predicate DistinctUrls(rs: seq<Channel>) {
    forall i, j | 0 <= i < j < |rs| :: rs[i].url != rs[j].url
  }

  function OtherUrl(url: string): Channel -> bool {
    (ch: Channel) => ch.url != url
  }

  /** `prev.filter(ch => ch.url !== url)` */
  function WithoutUrl(prev: seq<Channel>, url: string): seq<Channel> {
    Seqs.Filter(OtherUrl(url), prev)
  }

  /** `s.slice(0, n)`: the longest prefix of `s` with at most `n` elements. */
  function Take<T>(s: seq<T>, n: nat): (r: seq<T>)
    ensures r <= s && |r| <= n
    ensures |r| < n ==> r == s
  {
    if |s| <= n then s else s[..n]
  }

  /**
   * `[channel, ...filtered].slice(0, 5)`: the channel first, then the previous entries with
   * other urls in their previous order, cut so that there are at most five in all.
   */
  function UpdateRecent(prev: seq<Channel>, c: Channel): (r: seq<Channel>)
    ensures 1 <= |r| <= MaxRecent && r[0] == c
    ensures |r| == if |WithoutUrl(prev, c.url)| < MaxRecent then |WithoutUrl(prev, c.url)| + 1 else MaxRecent
    ensures r[1..] == WithoutUrl(prev, c.url)[..|r| - 1]
    ensures forall k | 1 <= k < |r| :: r[k].url != c.url && r[k] in prev
  {
    var w := WithoutUrl(prev, c.url);
    var r := Take([c] + w, MaxRecent);
    assert forall k | 1 <= k < |r| :: r[k] == w[k - 1];
    r
  }

  /**
   * The tail of the new list is the previous list's entries with other urls, at increasing
   * positions of the previous list, cut to four.
   */
  lemma TailKeepsOrder(prev: seq<Channel>, c: Channel)
    ensures var r := UpdateRecent(prev, c); var idx := Seqs.FilterIndices(OtherUrl(c.url), prev);
      |r| - 1 <= |idx| && Seqs.Picks(idx[..|r| - 1], r[1..], prev) && Seqs.Increasing(idx[..|r| - 1])
  {
    Seqs.FilterSelects(OtherUrl(c.url), prev);
  }

  /** A list without repeated urls keeps that property. */
  lemma UpdateKeepsDistinct(prev: seq<Channel>, c: Channel)
    requires DistinctUrls(prev)
    ensures DistinctUrls(UpdateRecent(prev, c))
  {
    var r := UpdateRecent(prev, c);
    var idx := Seqs.FilterIndices(OtherUrl(c.url), prev);
    var w := WithoutUrl(prev, c.url);
    Seqs.FilterSelects(OtherUrl(c.url), prev);
    forall i, j | 1 <= i < j < |r| ensures r[i].url != r[j].url {
      assert r[i] == w[i - 1] == prev[idx[i - 1]];
      assert r[j] == w[j - 1] == prev[idx[j - 1]];
    }
  }

  /** Choosing the channel that heads the list, when no later entry has its url, changes nothing. */
  lemma ReselectHead(prev: seq<Channel>, c: Channel)
    requires |prev| <= MaxRecent && prev != [] && prev[0] == c
    requires forall k | 1 <= k < |prev| :: prev[k].url != c.url
    ensures UpdateRecent(prev, c) == prev
  {
    assert prev == [c] + prev[1..];
    forall i | 0 <= i < |prev[1..]| ensures OtherUrl(c.url)(prev[1..][i]) {
      assert prev[1..][i] == prev[i + 1];
    }
    Seqs.FilterAll(OtherUrl(c.url), prev[1..]);
    assert WithoutUrl(prev, c.url) == Seqs.Filter(OtherUrl(c.url), prev[1..]);
  }

  /** Choosing the same channel twice in a row is the same as choosing it once. */
  lemma UpdateIdempotent(prev: seq<Channel>, c: Channel)
    ensures UpdateRecent(UpdateRecent(prev, c), c) == UpdateRecent(prev, c)
  {
    ReselectHead(UpdateRecent(prev, c), c);
  }

  /** The list after choosing the channels of `cs` one after the other, starting from none. */
  function SelectAll(cs: seq<Channel>): seq<Channel>
    decreases |cs|
  {
    if cs == [] then [] else UpdateRecent(SelectAll(cs[..|cs| - 1]), cs[|cs| - 1])
  }

  function Reverse<T>(s: seq<T>): (r: seq<T>)
    ensures |r| == |s| && forall k | 0 <= k < |s| :: r[k] == s[|s| - 1 - k]
    decreases |s|
  {
    if s == [] then [] else [s[|s| - 1]] + Reverse(s[..|s| - 1])
  }

  /** A channel whose url is not in the list is put in front of it, then the list is cut. */
  lemma UpdateFresh(prev: seq<Channel>, c: Channel)
    requires forall i | 0 <= i < |prev| :: prev[i].url != c.url
    ensures UpdateRecent(prev, c) == Take([c] + prev, MaxRecent)
  {
    Seqs.FilterAll(OtherUrl(c.url), prev);
    var r := UpdateRecent(prev, c);
    assert r == [r[0]] + r[1..];
  }

  lemma TakeCons<T>(x: T, s: seq<T>, n: nat)
    requires n >= 1
    ensures Take([x] + Take(s, n), n) == Take([x] + s, n)
  {
    if |s| > n {
      assert ([x] + s)[..n] == [x] + s[..n - 1];
      assert ([x] + s[..n])[..n] == [x] + s[..n - 1];
    }
  }

  /**
   * Choosing channels with pairwise different urls leaves the last five chosen, the newest
   * first; six different channels thus push out the first one.
   */
  lemma {:induction false} SelectDistinct(cs: seq<Channel>)
    requires DistinctUrls(cs)
    ensures SelectAll(cs) == Take(Reverse(cs), MaxRecent)
    decreases |cs|
  {
    if cs != [] {
      var init, c := cs[..|cs| - 1], cs[|cs| - 1];
      DistinctUrlsInit(cs);
      SelectDistinct(init);
      FreshAfterInit(cs, SelectAll(init));
      UpdateFresh(SelectAll(init), c);
      TakeCons(c, Reverse(init), MaxRecent);
      assert Reverse(cs) == [c] + Reverse(init);
    }
  }

  lemma DistinctUrlsInit(cs: seq<Channel>)
    requires cs != [] && DistinctUrls(cs)
    ensures DistinctUrls(cs[..|cs| - 1])
  {
    var init := cs[..|cs| - 1];
    forall i, j | 0 <= i < j < |init| ensures init[i].url != init[j].url {
      assert init[i] == cs[i] && init[j] == cs[j];
    }
  }

  /** With distinct urls, the last channel's url is not among the newest of the others. */
  lemma FreshAfterInit(cs: seq<Channel>, r: seq<Channel>)
    requires cs != [] && DistinctUrls(cs)
    requires r == Take(Reverse(cs[..|cs| - 1]), MaxRecent)
    ensures forall i | 0 <= i < |r| :: r[i].url != cs[|cs| - 1].url
  {
    var init := cs[..|cs| - 1];
    forall i | 0 <= i < |r| ensures r[i].url != cs[|cs| - 1].url {
      assert r[i] == Reverse(init)[i] == cs[|init| - 1 - i];
    }
  }
}
