/** The shortest interval whose sorting sorts the whole array
    (PartSortController.swift). */
module PartSort {
  import opened Sorting

  /** The array after only the elements at lo..hi (both included) were sorted. */
  ghost function SortInterval(s: seq<int>, lo: int, hi: int): seq<int>
    requires 0 <= lo <= hi < |s|
  {
    s[..lo] + SortedCopy(s[lo..hi + 1]) + s[hi + 1..]
  }

  /** Sorting the interval sorts the whole array. */
  ghost predicate SortsWhole(s: seq<int>, lo: int, hi: int) {
    0 <= lo <= hi < |s| && Sorted(SortInterval(s, lo, hi))
  }

  /** Some later element is smaller. */
  ghost predicate ExceedsLater(s: seq<int>, i: int) {
    0 <= i < |s| && exists j :: i < j < |s| && s[j] < s[i]
  }

  /** Some earlier element is larger. */
  ghost predicate BelowEarlier(s: seq<int>, i: int) {
    0 <= i < |s| && exists j :: 0 <= j < i && s[j] > s[i]
  }

  /** The first element out of place to the right, and the last one out of place
      to the left, span an interval that is enough. */
  lemma IntervalSuffices(s: seq<int>, left: int, right: int)
    requires 0 <= left <= right < |s|
    requires forall i :: 0 <= i < left ==> !ExceedsLater(s, i)
    requires forall i :: right < i < |s| ==> !BelowEarlier(s, i)
    ensures SortsWhole(s, left, right)
  {
    var mid := SortedCopy(s[left..right + 1]);
    var t := SortInterval(s, left, right);
    SameElements(mid, s[left..right + 1]);
    forall i, j | 0 <= i <= j < |t| ensures t[i] <= t[j] {
      var p := Origin(s, left, right, i);
      var q := Origin(s, left, right, j);
      if i < left {
        assert !ExceedsLater(s, i);
      } else if right < j {
        assert !BelowEarlier(s, j);
      }
    }
  }

  /** Where in the original array the element now at position i came from: the same
      part of the array, and the same position outside the interval. */
  lemma Origin(s: seq<int>, lo: int, hi: int, i: int) returns (p: int)
    requires 0 <= lo <= hi < |s| && 0 <= i < |s|
    ensures |SortInterval(s, lo, hi)| == |s|
    ensures 0 <= p < |s| && s[p] == SortInterval(s, lo, hi)[i]
    ensures i < lo || hi < i ==> p == i
    ensures lo <= i <= hi ==> lo <= p <= hi
  {
    hide SortedCopy, Sorted;
    var mid := SortedCopy(s[lo..hi + 1]);
    if lo <= i <= hi {
      var part := s[lo..hi + 1];
      SameElements(mid, part);
      var x := mid[i - lo];
      assert x in mid;
      assert x in part;
      var k :| 0 <= k < |part| && part[k] == x;
      p := lo + k;
    } else {
      p := i;
    }
  }

  /** The other direction: where the element at original position p went. */
  lemma Target(s: seq<int>, lo: int, hi: int, p: int) returns (i: int)
    requires 0 <= lo <= hi < |s| && 0 <= p < |s|
    ensures |SortInterval(s, lo, hi)| == |s|
    ensures 0 <= i < |s| && s[p] == SortInterval(s, lo, hi)[i]
    ensures p < lo || hi < p ==> p == i
    ensures lo <= p <= hi ==> lo <= i <= hi
  {
    hide SortedCopy, Sorted;
    var mid := SortedCopy(s[lo..hi + 1]);
    if lo <= p <= hi {
      var part := s[lo..hi + 1];
      SameElements(mid, part);
      assert part[p - lo] == s[p] && s[p] in part;
      assert s[p] in mid;
      var k :| 0 <= k < |mid| && mid[k] == s[p];
      i := lo + k;
    } else {
      i := p;
    }
  }

  /** Every interval that is enough contains both ends of any inversion. */
  lemma InversionIsCovered(s: seq<int>, lo: int, hi: int, i: int, j: int)
    requires SortsWhole(s, lo, hi)
    requires 0 <= i < j < |s| && s[j] < s[i]
    ensures lo <= i && j <= hi
  {
    var p := Target(s, lo, hi, i);
    var q := Target(s, lo, hi, j);
  }

  /** What the two scans found decides the question. */
  lemma Conclude(a: seq<int>, left: int, right: int)
    requires right == -1 || BelowEarlier(a, right)
    requires forall k :: right < k < |a| ==> !BelowEarlier(a, k)
    requires left == -1 || ExceedsLater(a, left)
    requires forall k :: 0 <= k < (if left == -1 then |a| else left) ==> !ExceedsLater(a, k)
    requires -1 <= left && -1 <= right
    ensures left == -1 && right == -1 <==> Sorted(a)
    ensures !Sorted(a) ==> SortsWhole(a, left, right)
    ensures !Sorted(a) ==> forall lo, hi :: SortsWhole(a, lo, hi) ==> lo <= left < right <= hi
  {
    hide SortsWhole, Sorted;
    if right == -1 {
      NothingBelowIsSorted(a, left);
    } else {
      var j :| 0 <= j < right && a[j] > a[right];
      assert ExceedsLater(a, j);
      assert left != -1;
      var k :| left < k < |a| && a[k] < a[left];
      assert BelowEarlier(a, k);
      IntervalSuffices(a, left, right);
      NotSorted(a, j, right);
      forall lo, hi | SortsWhole(a, lo, hi) ensures lo <= left < right <= hi {
        InversionIsCovered(a, lo, hi, left, k);
        InversionIsCovered(a, lo, hi, j, right);
      }
    }
  }

  lemma NotSorted(a: seq<int>, i: int, j: int)
    requires 0 <= i < j < |a| && a[i] > a[j]
    ensures !Sorted(a)
  {
  }

  lemma NothingBelowIsSorted(a: seq<int>, left: int)
    requires forall k :: 0 <= k < |a| ==> !BelowEarlier(a, k)
    requires left == -1 || ExceedsLater(a, left)
    ensures Sorted(a) && left == -1
  {
    forall i, j | 0 <= i <= j < |a| ensures a[i] <= a[j] {
      assert !BelowEarlier(a, j);
    }
    assert !ExceedsLater(a, left) by {
      assert forall k :: 0 <= k < |a| ==> !BelowEarlier(a, k);
    }
  }

  /** The result is (-1, -1) exactly for a sorted array; otherwise it is the least
      interval whose sorting sorts the whole array. */
  method SubSort(a: seq<int>) returns (left: int, right: int)
    ensures left == -1 && right == -1 <==> Sorted(a)
    ensures !Sorted(a) ==> SortsWhole(a, left, right)
    ensures !Sorted(a) ==>
      forall lo, hi :: SortsWhole(a, lo, hi) ==> lo <= left < right <= hi
  {
    if |a| <= 1 {
      return -1, -1;
    }
    hide Sorted, SortsWhole;
    var n := |a|;
    var max := a[0];
    var min := a[n - 1];
    right, left := -1, -1;
    ghost var p, q := 0, n - 1;
    for i := 1 to n
      invariant 0 <= p < i && a[p] == max
      invariant forall k :: 0 <= k < i ==> a[k] <= max
      invariant -1 <= right < i && (right == -1 || BelowEarlier(a, right))
      invariant forall k :: right < k < i ==> !BelowEarlier(a, k)
      invariant n - i <= q < n && a[q] == min
      invariant forall k :: n - i <= k < n ==> a[k] >= min
      invariant left == -1 || (n - i <= left < n && ExceedsLater(a, left))
      invariant forall k :: n - i <= k < (if left == -1 then n else left) ==> !ExceedsLater(a, k)
    {
      var maxCur := a[i];
      if maxCur >= max {
        max, p := maxCur, i;
      } else {
        right := i;
      }
      var minCur := a[n - i - 1];
      if minCur <= min {
        min, q := minCur, n - i - 1;
      } else {
        left := n - i - 1;
      }
    }
    Conclude(a, left, right);
  }
}
