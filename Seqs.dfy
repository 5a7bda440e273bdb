/** `Array.prototype.filter` on sequences, characterised as an order-preserving selection. */
module Seqs {

  /** The elements of `s` that satisfy `p`, in their order in `s`. */
  function Filter<T>(p: T -> bool, s: seq<T>): (r: seq<T>)
    ensures |r| <= |s|
    ensures forall k | 0 <= k < |r| :: r[k] in s && p(r[k])
    ensures forall i | 0 <= i < |s| :: p(s[i]) ==> s[i] in r
    decreases |s|
  {
    if s == [] then []
    else (if p(s[0]) then [s[0]] else []) + Filter(p, s[1..])
  }

  /**
   * Every index moved one place to the right: the same number of indices, never 0, and
   * `n + 1` among them exactly when `n` was.
   */
  function Shift(idx: seq<nat>): (r: seq<nat>)
    ensures |r| == |idx| && 0 !in r
    ensures forall n: nat :: n + 1 in r <==> n in idx
  {
    var r := seq(|idx|, k requires 0 <= k < |idx| => idx[k] + 1);
    forall n: nat ensures n + 1 in r <==> n in idx {
      if n in idx {
        var k :| 0 <= k < |idx| && idx[k] == n;
        assert r[k] == n + 1;
      }
    }
    r
  }

  /** The indices of `s` whose elements satisfy `p`, in increasing order. */
  function FilterIndices<T>(p: T -> bool, s: seq<T>): seq<nat>
    decreases |s|
  {
    if s == [] then []
    else (if p(s[0]) then [0] else []) + Shift(FilterIndices(p, s[1..]))
  }

  /** `r` is the sequence of elements of `s` at the indices `idx`. */
  ghost predicate Picks<T>(idx: seq<nat>, r: seq<T>, s: seq<T>) {
    |idx| == |r| && forall k | 0 <= k < |idx| :: idx[k] < |s| && r[k] == s[idx[k]]
  }

  ghost predicate Increasing(idx: seq<nat>) {
    forall k, l | 0 <= k < l < |idx| :: idx[k] < idx[l]
  }

  /** `idx` holds exactly the indices of `s` whose elements satisfy `p`. */
  ghost predicate IndicesOf<T>(idx: seq<nat>, s: seq<T>, p: T -> bool) {
    forall i | 0 <= i < |s| :: p(s[i]) <==> i in idx
  }

  /**
   * `r` is the subsequence of `s` at the strictly increasing indices `idx`, and `idx` holds
   * exactly the indices whose elements satisfy `p`.
   */
  ghost predicate Selects<T>(idx: seq<nat>, r: seq<T>, s: seq<T>, p: T -> bool) {
    Picks(idx, r, s) && Increasing(idx) && IndicesOf(idx, s, p)
  }

  lemma ConsPicks<T>(b: bool, x: T, s: seq<T>, idx: seq<nat>, r: seq<T>)
    requires Picks(idx, r, s)
    ensures Picks((if b then [0] else []) + Shift(idx), (if b then [x] else []) + r, [x] + s)
  {
    var idx' := (if b then [0] else []) + Shift(idx);
    var r' := (if b then [x] else []) + r;
    var d := if b then 1 else 0;
    forall k | d <= k < |idx'|
      ensures idx'[k] < |s| + 1 && r'[k] == ([x] + s)[idx'[k]]
    {
      assert idx'[k] == idx[k - d] + 1 && r'[k] == r[k - d];
    }
  }

  lemma ConsIncreasing(b: bool, idx: seq<nat>)
    requires Increasing(idx)
    ensures Increasing((if b then [0] else []) + Shift(idx))
  {
    var idx' := (if b then [0] else []) + Shift(idx);
    var d := if b then 1 else 0;
    forall k, l | d <= k < l < |idx'|
      ensures idx'[k] < idx'[l]
    {
      assert idx'[k] == idx[k - d] + 1 && idx'[l] == idx[l - d] + 1;
    }
  }

  lemma ConsIndicesOf<T>(p: T -> bool, x: T, s: seq<T>, idx: seq<nat>)
    requires IndicesOf(idx, s, p)
    ensures IndicesOf((if p(x) then [0] else []) + Shift(idx), [x] + s, p)
  {
    var idx' := (if p(x) then [0] else []) + Shift(idx);
    forall i | 0 <= i < |s| + 1
      ensures p(([x] + s)[i]) <==> i in idx'
    {
      if i == 0 {
        assert 0 !in Shift(idx);
      } else {
        assert ([x] + s)[i] == s[i - 1];
        assert (i - 1 in idx) <==> (i in Shift(idx));
      }
    }
  }

  /** `Filter` keeps exactly the satisfying elements, unchanged and in their original order. */
  lemma {:induction false} FilterSelects<T>(p: T -> bool, s: seq<T>)
    ensures Selects(FilterIndices(p, s), Filter(p, s), s, p)
    decreases |s|
  {
    if s != [] {
      FilterSelects(p, s[1..]);
      var idx, r := FilterIndices(p, s[1..]), Filter(p, s[1..]);
      ConsPicks(p(s[0]), s[0], s[1..], idx, r);
      ConsIncreasing(p(s[0]), idx);
      ConsIndicesOf(p, s[0], s[1..], idx);
      assert [s[0]] + s[1..] == s;
    }
  }

  /** A filter that keeps everything is the identity. */
  lemma {:induction false} FilterAll<T>(p: T -> bool, s: seq<T>)
    requires forall i | 0 <= i < |s| :: p(s[i])
    ensures Filter(p, s) == s
    decreases |s|
  {
    if s != [] {
      FilterAll(p, s[1..]);
      assert [s[0]] + s[1..] == s;
    }
  }

  /** Two predicates that agree on every element of `s` keep the same elements. */
  lemma {:induction false} FilterAgrees<T>(p: T -> bool, q: T -> bool, s: seq<T>)
    requires forall i | 0 <= i < |s| :: p(s[i]) == q(s[i])
    ensures Filter(p, s) == Filter(q, s)
    decreases |s|
  {
    if s != [] {
      FilterAgrees(p, q, s[1..]);
    }
  }

}
