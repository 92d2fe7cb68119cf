/**
 * `Array.prototype.filter` on an array whose elements the callback does not
 * change: a new array of the elements the callback accepts, in their order.
 */
module Filtering {

  /** `s.filter(p)`. */
  function Filter<T>(s: seq<T>, p: T -> bool): (r: seq<T>)
    ensures |r| <= |s|
    ensures forall i :: 0 <= i < |r| ==> r[i] in s && p(r[i])
  {
    if s == [] then [] else (if p(s[0]) then [s[0]] else []) + Filter(s[1..], p)
  }

  /** Each position of t moved one place to the right. */
  function Shift(t: seq<nat>): (r: seq<nat>)
  {
    seq(|t|, k requires 0 <= k < |t| => t[k] + 1)
  }

  /** The positions of s whose element p accepts, in increasing order. */
  function KeptIndices<T>(s: seq<T>, p: T -> bool): seq<nat>
  {
    if s == [] then [] else (if p(s[0]) then [0] else []) + Shift(KeptIndices(s[1..], p))
  }

  predicate StrictlyIncreasing(idx: seq<nat>)
  {
    forall i, j :: 0 <= i < j < |idx| ==> idx[i] < idx[j]
  }

  lemma ShiftMembership(t: seq<nat>, i: nat)
    ensures i in Shift(t) <==> i >= 1 && i - 1 in t
  {
    if i in Shift(t) {
      var k :| 0 <= k < |t| && Shift(t)[k] == i;
      assert t[k] == i - 1;
    }
    if i >= 1 && i - 1 in t {
      var k :| 0 <= k < |t| && t[k] == i - 1;
      assert Shift(t)[k] == i;
    }
  }

  /** Shifting keeps the order and moves every position past 0. */
  lemma ShiftIncreasing(t: seq<nat>, bound: nat)
    requires StrictlyIncreasing(t)
    requires forall k :: 0 <= k < |t| ==> t[k] < bound
    ensures StrictlyIncreasing(Shift(t))
    ensures forall k :: 0 <= k < |t| ==> 1 <= Shift(t)[k] < bound + 1
  {
  }

  /** The kept positions are strictly increasing positions of s. */
  lemma {:induction false} KeptIndicesIncreasing<T>(s: seq<T>, p: T -> bool)
    ensures StrictlyIncreasing(KeptIndices(s, p))
    ensures forall k :: 0 <= k < |KeptIndices(s, p)| ==> KeptIndices(s, p)[k] < |s|
  {
    if s != [] {
      var tidx := KeptIndices(s[1..], p);
      KeptIndicesIncreasing(s[1..], p);
      ShiftIncreasing(tidx, |s| - 1);
      var tail := Shift(tidx);
      var idx := KeptIndices(s, p);
      if p(s[0]) {
        assert idx == [0] + tail;
        forall i, j | 0 <= i < j < |idx|
          ensures idx[i] < idx[j]
        {
          assert idx[j] == tail[j - 1];
          if i > 0 {
            assert idx[i] == tail[i - 1];
          }
        }
      } else {
        assert idx == tail;
      }
    }
  }

  /** The k-th element of the result is the element of s at the k-th kept position. */
  lemma {:induction false} KeptIndicesPick<T>(s: seq<T>, p: T -> bool)
    ensures |Filter(s, p)| == |KeptIndices(s, p)|
    ensures forall k :: 0 <= k < |Filter(s, p)| ==>
      KeptIndices(s, p)[k] < |s| && Filter(s, p)[k] == s[KeptIndices(s, p)[k]]
  {
    KeptIndicesIncreasing(s, p);
    if s != [] {
      KeptIndicesPick(s[1..], p);
      var idx, r := KeptIndices(s, p), Filter(s, p);
      var tidx, tr := KeptIndices(s[1..], p), Filter(s[1..], p);
      var h := if p(s[0]) then 1 else 0;
      assert idx == (if p(s[0]) then [0] else []) + Shift(tidx);
      assert r == (if p(s[0]) then [s[0]] else []) + tr;
      forall k | h <= k < |r|
        ensures r[k] == s[idx[k]]
      {
        assert r[k] == tr[k - h] && idx[k] == tidx[k - h] + 1;
        assert s[1..][tidx[k - h]] == s[tidx[k - h] + 1];
      }
    }
  }

  /** The kept positions are exactly those whose element p accepts. */
  lemma {:induction false} KeptIndicesExact<T>(s: seq<T>, p: T -> bool)
    ensures forall i :: 0 <= i < |s| ==> (i in KeptIndices(s, p) <==> p(s[i]))
  {
    if s != [] {
      KeptIndicesExact(s[1..], p);
      var tidx := KeptIndices(s[1..], p);
      var idx := KeptIndices(s, p);
      assert idx == (if p(s[0]) then [0] else []) + Shift(tidx);
      forall i | 0 <= i < |s|
        ensures i in idx <==> p(s[i])
      {
        ShiftMembership(tidx, i);
        if i > 0 {
          assert s[1..][i - 1] == s[i];
        }
      }
    }
  }

  /**
   * filter is a selection: its result lists the elements of s at strictly
   * increasing positions, and those positions are exactly the ones whose element
   * p accepts. So nothing is added, reordered or duplicated, and every accepted
   * occurrence, duplicates included, is kept.
   */
  lemma FilterSelects<T>(s: seq<T>, p: T -> bool)
    ensures var idx := KeptIndices(s, p);
      && |Filter(s, p)| == |idx|
      && StrictlyIncreasing(idx)
      && (forall k :: 0 <= k < |idx| ==> idx[k] < |s| && Filter(s, p)[k] == s[idx[k]])
      && (forall i :: 0 <= i < |s| ==> (i in idx <==> p(s[i])))
  {
    KeptIndicesIncreasing(s, p);
    KeptIndicesPick(s, p);
    KeptIndicesExact(s, p);
  }

  /** An element is in the result iff it is in s and p accepts it. */
  lemma {:induction false} FilterMembership<T>(s: seq<T>, p: T -> bool, x: T)
    ensures x in Filter(s, p) <==> x in s && p(x)
  {
    if s != [] {
      FilterMembership(s[1..], p, x);
      assert s == [s[0]] + s[1..];
    }
  }

  /** The membership fact above, for every element at once. */
  lemma FilterMembershipAll<T>(s: seq<T>, p: T -> bool)
    ensures forall x :: x in Filter(s, p) <==> x in s && p(x)
  {
    forall x {
      FilterMembership(s, p, x);
    }
  }

  /** filter returns s itself iff p accepts every element of s. */
  lemma {:induction false} FilterKeepsAll<T>(s: seq<T>, p: T -> bool)
    ensures Filter(s, p) == s <==> forall i :: 0 <= i < |s| ==> p(s[i])
  {
    if s != [] {
      FilterKeepsAll(s[1..], p);
      if !p(s[0]) {
        assert |Filter(s, p)| < |s| by {
          assert Filter(s, p) == Filter(s[1..], p);
        }
      }
      assert forall i :: 1 <= i < |s| ==> s[1..][i - 1] == s[i];
    }
  }

  /** Callbacks that agree on every element give the same result. */
  lemma {:induction false} FilterAgreeing<T>(s: seq<T>, p: T -> bool, q: T -> bool)
    requires forall x :: p(x) == q(x)
    ensures Filter(s, p) == Filter(s, q)
  {
    if s != [] {
      FilterAgreeing(s[1..], p, q);
      assert p(s[0]) == q(s[0]);
    }
  }

  /** Two filters in a row are the filter by the conjunction of their callbacks. */
  lemma {:induction false} FilterFilter<T>(s: seq<T>, p: T -> bool, q: T -> bool, pq: T -> bool)
    requires forall x :: pq(x) == (p(x) && q(x))
    ensures Filter(Filter(s, p), q) == Filter(s, pq)
  {
    if s != [] {
      FilterFilter(s[1..], p, q, pq);
      assert pq(s[0]) == (p(s[0]) && q(s[0]));
      if p(s[0]) {
        var fp := Filter(s, p);
        assert fp == [s[0]] + Filter(s[1..], p);
        assert fp[0] == s[0] && fp[1..] == Filter(s[1..], p);
        assert Filter(fp, q) == (if q(s[0]) then [s[0]] else []) + Filter(fp[1..], q);
      } else {
        assert Filter(s, p) == Filter(s[1..], p);
      }
      assert Filter(s, pq) == (if pq(s[0]) then [s[0]] else []) + Filter(s[1..], pq);
    }
  }

  /** The order of two filters does not matter. */
  lemma FilterCommutes<T>(s: seq<T>, p: T -> bool, q: T -> bool)
    ensures Filter(Filter(s, p), q) == Filter(Filter(s, q), p)
  {
    var pq := x => p(x) && q(x);
    FilterFilter(s, p, q, pq);
    FilterFilter(s, q, p, pq);
  }

  /** Filtering again by the same callback changes nothing. */
  lemma FilterIdempotent<T>(s: seq<T>, p: T -> bool)
    ensures Filter(Filter(s, p), p) == Filter(s, p)
  {
    FilterKeepsAll(Filter(s, p), p);
  }
}
