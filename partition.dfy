/**
 * `slice::partition_point`: a binary search for the first element that fails a predicate. On a
 * partitioned slice (every element that satisfies the predicate comes before every element that
 * does not) it is the number of leading elements that satisfy it.
 */
module Partition {

  /** Every element satisfying `p` comes before every element that does not. */
  ghost predicate Partitioned<T>(s: seq<T>, p: T -> bool)
  {
    forall i, j :: 0 <= i < j < |s| && p(s[j]) ==> p(s[i])
  }

  /** `k` splits `s`: the elements before `k` satisfy `p`, the ones from `k` on do not. */
  ghost predicate SplitsAt<T>(s: seq<T>, p: T -> bool, k: nat)
  {
    k <= |s| && (forall i :: 0 <= i < k ==> p(s[i])) && (forall i :: k <= i < |s| ==> !p(s[i]))
  }

  /** The binary search over the half-open window `[lo, hi)` of `s`. */
  function Search<T>(s: seq<T>, p: T -> bool, lo: nat, hi: nat): (k: nat)
    requires lo <= hi <= |s|
    ensures lo <= k <= hi
    decreases hi - lo
  {
    if lo == hi then lo
    else
      var mid := lo + (hi - lo) / 2;
      if p(s[mid]) then Search(s, p, mid + 1, hi) else Search(s, p, lo, mid)
  }

  function PartitionPoint<T>(s: seq<T>, p: T -> bool): (k: nat)
    ensures k <= |s|
  {
    Search(s, p, 0, |s|)
  }

  /** Inside a window whose outside is already known, the search finds the split. */
  lemma {:induction false} SearchSplits<T>(s: seq<T>, p: T -> bool, lo: nat, hi: nat)
    requires lo <= hi <= |s| && Partitioned(s, p)
    requires forall i :: 0 <= i < lo ==> p(s[i])
    requires forall i :: hi <= i < |s| ==> !p(s[i])
    ensures SplitsAt(s, p, Search(s, p, lo, hi))
    decreases hi - lo
  {
    if lo < hi {
      var mid := lo + (hi - lo) / 2;
      if p(s[mid]) {
        SearchSplits(s, p, mid + 1, hi);
      } else {
        SearchSplits(s, p, lo, mid);
      }
    }
  }

  /** On a partitioned sequence, `partition_point` is where it splits. */
  lemma PartitionPointSplits<T>(s: seq<T>, p: T -> bool)
    requires Partitioned(s, p)
    ensures SplitsAt(s, p, PartitionPoint(s, p))
  {
    SearchSplits(s, p, 0, |s|);
  }

  /** A sequence splits at one place at most. */
  lemma SplitUnique<T>(s: seq<T>, p: T -> bool, k: nat, k': nat)
    requires SplitsAt(s, p, k) && SplitsAt(s, p, k')
    ensures k == k'
  {
    if k < |s| {
      assert !p(s[k]);
    }
    if k' < |s| {
      assert !p(s[k']);
    }
  }

  /** A sequence that splits somewhere is partitioned, so `partition_point` finds that split. */
  lemma PartitionPointIsSplit<T>(s: seq<T>, p: T -> bool, k: nat)
    requires SplitsAt(s, p, k)
    ensures PartitionPoint(s, p) == k
  {
    assert Partitioned(s, p) by {
      forall i, j | 0 <= i < j < |s| && p(s[j]) ensures p(s[i]) {
        assert j < k;
      }
    }
    PartitionPointSplits(s, p);
    SplitUnique(s, p, PartitionPoint(s, p), k);
  }
}
