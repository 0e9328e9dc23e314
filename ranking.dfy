/**
 * Step 3 of `FaceMask` (core/facemask.go): the detections are sorted in place by descending
 * confidence `Q`, and a detection's index after the sort is its rank.
 */
module Ranking {

  /**
   * A pigo detection: centre row and column, the side of the detected square and its
   * confidence. Pigo's scales are at least the cascade's minimum size, so never negative.
   */
  datatype Detection = Detection(row: int, col: int, scale: nat, q: real)

  /** Non-increasing in `Q`. */
  predicate SortedByQ(s: seq<Detection>)
  {
    forall i, j :: 0 <= i < j < |s| ==> s[i].q >= s[j].q
  }

  /** `ranked` is the detections `dets` in an order of non-increasing `Q`. */
  predicate IsRanking(ranked: seq<Detection>, dets: seq<Detection>)
  {
    SortedByQ(ranked) && multiset(ranked) == multiset(dets)
  }

  /** Exchanges two entries of the array. */
  method Swap(a: array<Detection>, i: nat, j: nat)
    requires i < a.Length && j < a.Length
    modifies a
    ensures a[..] == old(a[..])[i := old(a[j])][j := old(a[i])]
    ensures multiset(a[..]) == old(multiset(a[..]))
  {
    a[i], a[j] := a[j], a[i];
  }

  /** The index of a most confident entry of `a[from..]`. */
  method MostConfident(a: array<Detection>, from: nat) returns (m: nat)
    requires from < a.Length
    ensures from <= m < a.Length
    ensures forall k :: from <= k < a.Length ==> a[k].q <= a[m].q
  {
    m := from;
    var k := from + 1;
    while k < a.Length
      invariant from <= m < k <= a.Length
      invariant forall t :: from <= t < k ==> a[t].q <= a[m].q
    {
      if a[k].q > a[m].q {
        m := k;
      }
      k := k + 1;
    }
  }

  /** The first `i` entries are in order, and none of them is less confident than a later entry. */
  predicate PrefixRanked(s: seq<Detection>, i: nat)
  {
    i <= |s| &&
    (forall p, k :: 0 <= p < k < i ==> s[p].q >= s[k].q) &&
    (forall p, k :: 0 <= p < i <= k < |s| ==> s[p].q >= s[k].q)
  }

  /** Moving a most confident entry of `s[i..]` to position i extends the ranked prefix by one. */
  lemma SelectionStep(s: seq<Detection>, i: nat, m: nat)
    requires PrefixRanked(s, i) && i <= m < |s|
    requires forall k :: i <= k < |s| ==> s[k].q <= s[m].q
    ensures PrefixRanked(s[i := s[m]][m := s[i]], i + 1)
    ensures multiset(s[i := s[m]][m := s[i]]) == multiset(s)
  {
    var t := s[i := s[m]][m := s[i]];
    assert t[i] == s[m];
    forall k | i < k < |t| ensures t[k].q <= t[i].q {
      assert t[k] == s[k] || t[k] == s[i];
    }
  }

  /** The in-place sort of the detections by descending Q; it is not stable, so ties may end in any order. */
  method RankDetections(a: array<Detection>)
    modifies a
    ensures IsRanking(a[..], old(a[..]))
  {
    var i := 0;
    while i < a.Length
      invariant 0 <= i <= a.Length
      invariant PrefixRanked(a[..], i)
      invariant multiset(a[..]) == old(multiset(a[..]))
    {
      var m := MostConfident(a, i);
      SelectionStep(a[..], i, m);
      Swap(a, i, m);
      i := i + 1;
    }
  }

  /** Rank 0 has the largest confidence of all detections. */
  lemma RankZeroIsMostConfident(ranked: seq<Detection>, dets: seq<Detection>, k: nat)
    requires IsRanking(ranked, dets)
    requires k < |dets|
    ensures |ranked| == |dets| && ranked[0].q >= dets[k].q
  {
    assert dets[k] in multiset(dets);
    assert dets[k] in multiset(ranked);
    var j :| 0 <= j < |ranked| && ranked[j] == dets[k];
    assert |ranked| == |multiset(ranked)| == |multiset(dets)| == |dets|;
    assert j == 0 || ranked[0].q >= ranked[j].q;
  }

  /** Confidences 0.3, 0.9, 0.6 are ranked 0.9, 0.6, 0.3. */
  lemma ThreeFacesRanked(ranked: seq<Detection>, a: Detection, b: Detection, c: Detection)
    requires a.q == 0.3 && b.q == 0.9 && c.q == 0.6
    requires IsRanking(ranked, [a, b, c])
    ensures ranked == [b, c, a]
  {
    var ms := multiset([a, b, c]);
    assert |ranked| == |multiset(ranked)| == 3;
    forall t | 0 <= t < 3 ensures ranked[t] == a || ranked[t] == b || ranked[t] == c {
      assert ranked[t] in multiset(ranked);
    }
    assert b in multiset(ranked);
    assert c in multiset(ranked);
    assert a in multiset(ranked);
  }
}
