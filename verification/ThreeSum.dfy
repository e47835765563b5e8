/** Zero-sum triples by brute force and by two pointers (ThreeSumController.swift). */
module ThreeSum {
  import opened Sorting

  /** What both searches are asked for: sorted triples with sum zero whose members
      are taken from different places of the array. */
  ghost predicate IsAnswer(nums: seq<int>, t: seq<int>) {
    |t| == 3 && Sorted(t) && t[0] + t[1] + t[2] == 0 && multiset(t) <= multiset(nums)
  }

  ghost predicate NoneTwice(r: seq<seq<int>>) {
    forall i, j :: 0 <= i < j < |r| ==> r[i] != r[j]
  }

  function At(s: seq<int>, x: int, y: int, z: int): (t: seq<int>)
    requires 0 <= x < y < z < |s|
  {
    [s[x], s[y], s[z]]
  }

  /** Three different places always give a sub-multiset ... */
  lemma PlacesGiveSubset(s: seq<int>, x: int, y: int, z: int)
    requires 0 <= x < y < z < |s|
    ensures multiset(At(s, x, y, z)) <= multiset(s)
  {
    var before, after := s[..y], s[y + 1..];
    assert before[x] == s[x] && s[x] in before;
    assert after[z - y - 1] == s[z] && s[z] in after;
    assert multiset(s) == multiset(before) + multiset{s[y]} + multiset(after) by {
      assert s == before + [s[y]] + after;
    }
    assert multiset{s[x]} <= multiset(before) && multiset{s[z]} <= multiset(after);
  }

  /** The place in s of place k of s without its element i. */
  function Lifted(k: nat, i: nat): nat {
    if k < i then k else k + 1
  }

  lemma LiftedPlaces(s: seq<int>, t: seq<int>, i: int, inner: seq<nat>, at: seq<nat>)
    requires t != [] && 0 <= i < |s| && s[i] == t[0]
    requires |inner| == |t| - 1 && |at| == |t|
    requires forall k :: 0 <= k < |inner| ==> inner[k] < |s| - 1 && Without(s, i)[inner[k]] == t[k + 1]
    requires forall j, k :: 0 <= j < k < |inner| ==> inner[j] != inner[k]
    requires at[0] == i && forall k :: 1 <= k < |at| ==> at[k] == Lifted(inner[k - 1], i)
    ensures forall k :: 0 <= k < |t| ==> at[k] < |s| && s[at[k]] == t[k]
    ensures forall j, k :: 0 <= j < k < |t| ==> at[j] != at[k]
  {
    forall k | 1 <= k < |t| ensures at[k] < |s| && s[at[k]] == t[k] && at[k] != i {
      assert Without(s, i)[inner[k - 1]] == t[k];
    }
    forall j, k | 1 <= j < k < |t| ensures at[j] != at[k] {
      assert inner[j - 1] != inner[k - 1];
    }
  }

  function LiftedAll(inner: seq<nat>, i: nat): (r: seq<nat>)
    ensures |r| == |inner|
    ensures forall k :: 0 <= k < |inner| ==> r[k] == Lifted(inner[k], i)
  {
    seq(|inner|, k requires 0 <= k < |inner| => Lifted(inner[k], i))
  }

  /** The first element of t has a place in s; the other elements of t are a
      sub-multiset of what is left of s. */
  lemma FirstPlace(s: seq<int>, t: seq<int>) returns (i: nat)
    requires multiset(t) <= multiset(s) && t != []
    ensures i < |s| && s[i] == t[0]
    ensures multiset(t[1..]) <= multiset(Without(s, i))
  {
    WithoutMultiset(t, 0);
    assert Without(t, 0) == t[1..];
    assert t[0] in multiset(t);
    assert t[0] in s;
    i :| 0 <= i < |s| && s[i] == t[0];
    WithoutMultiset(s, i);
    CancelOne(multiset(t[1..]), multiset(Without(s, i)), t[0]);
  }

  /** ... and every sub-multiset comes from different places. */
  lemma {:induction false} SubsetHasPlaces(s: seq<int>, t: seq<int>) returns (at: seq<nat>)
    requires multiset(t) <= multiset(s)
    ensures |at| == |t|
    ensures forall k :: 0 <= k < |t| ==> at[k] < |s| && s[at[k]] == t[k]
    ensures forall j, k :: 0 <= j < k < |t| ==> at[j] != at[k]
    decreases |t|
  {
    if t == [] {
      return [];
    }
    var i := FirstPlace(s, t);
    var inner := SubsetHasPlaces(Without(s, i), t[1..]);
    at := [i] + LiftedAll(inner, i);
    LiftedPlaces(s, t, i, inner, at);
  }

  lemma OrderedPlaces(s: seq<int>, t: seq<int>) returns (x: nat, y: nat, z: nat)
    requires |t| == 3 && multiset(t) <= multiset(s)
    ensures x < y < z < |s| && multiset(At(s, x, y, z)) == multiset(t)
  {
    var at := SubsetHasPlaces(s, t);
    var i, j, k := at[0], at[1], at[2];
    assert t == [s[i], s[j], s[k]];
    AnyOrder(s[i], s[j], s[k]);
    if i < j {
      if j < k {
        x, y, z := i, j, k;
      } else if i < k {
        x, y, z := i, k, j;
      } else {
        x, y, z := k, i, j;
      }
    } else {
      if i < k {
        x, y, z := j, i, k;
      } else if j < k {
        x, y, z := j, k, i;
      } else {
        x, y, z := k, j, i;
      }
    }
  }

  lemma SwapFirst(a: int, b: int, c: int)
    ensures multiset([a, b, c]) == multiset([b, a, c])
  {
    assert multiset([a, b, c]) == multiset{a, b, c};
    assert multiset([b, a, c]) == multiset{b, a, c};
  }

  lemma SwapLast(a: int, b: int, c: int)
    ensures multiset([a, b, c]) == multiset([a, c, b])
  {
    assert multiset([a, b, c]) == multiset{a, b, c};
    assert multiset([a, c, b]) == multiset{a, c, b};
  }

  lemma AnyOrder(a: int, b: int, c: int)
    ensures multiset([a, b, c]) == multiset([a, c, b]) == multiset([c, a, b])
    ensures multiset([a, b, c]) == multiset([b, a, c]) == multiset([b, c, a]) == multiset([c, b, a])
  {
    SwapLast(a, b, c);
    SwapFirst(a, c, b);
    SwapFirst(a, b, c);
    SwapLast(b, a, c);
    SwapFirst(b, c, a);
  }

  /** In a sorted array an answer is read off three places in order. */
  lemma AnswerInOrder(nums: seq<int>, sorted: seq<int>, t: seq<int>) returns (x: nat, y: nat, z: nat)
    requires Sorted(sorted) && multiset(sorted) == multiset(nums) && IsAnswer(nums, t)
    ensures x < y < z < |sorted| && At(sorted, x, y, z) == t
  {
    x, y, z := OrderedPlaces(sorted, t);
    SortedUnique(At(sorted, x, y, z), t);
  }

  lemma TripleSum(t: seq<int>)
    requires |t| == 3
    ensures Sum(t) == t[0] + t[1] + t[2]
  {
    assert t[1..][1..][1..] == [];
    assert Sum(t[1..][1..]) == t[2];
  }

  lemma JoinNoneTwice(a: seq<seq<int>>, b: seq<seq<int>>)
    requires NoneTwice(a) && NoneTwice(b)
    requires forall s, t :: s in a && t in b ==> s != t
    ensures NoneTwice(a + b)
  {
    forall i, j | 0 <= i < j < |a + b| ensures (a + b)[i] != (a + b)[j] {
      if i < |a| <= j {
        assert a[i] in a && b[j - |a|] in b;
      }
    }
  }

  lemma SortedTripleIsAnswer(nums: seq<int>, x: int, y: int, z: int)
    requires 0 <= x < y < z < |nums| && nums[x] + nums[y] + nums[z] == 0
    ensures IsAnswer(nums, SortedCopy(At(nums, x, y, z)))
  {
    var t := At(nums, x, y, z);
    PlacesGiveSubset(nums, x, y, z);
    SortedCopySum(t);
    TripleSum(t);
    TripleSum(SortedCopy(t));
  }

  /** Every answer is what brute force makes of some three places. */
  lemma AnswerHasPlaces(nums: seq<int>, t: seq<int>) returns (x: nat, y: nat, z: nat)
    requires IsAnswer(nums, t)
    ensures x < y < z < |nums| && nums[x] + nums[y] + nums[z] == 0
    ensures SortedCopy(At(nums, x, y, z)) == t
  {
    x, y, z := OrderedPlaces(nums, t);
    var u := At(nums, x, y, z);
    SortedUnique(SortedCopy(u), t);
    SortedCopySum(u);
    TripleSum(u);
    TripleSum(t);
  }

  /** The places before (i, j, k) in the order in which the three loops visit them. */
  ghost predicate Visited(i: int, j: int, k: int, x: int, y: int, z: int) {
    x < i || (x == i && (y < j || (y == j && z < k)))
  }

  /** The triples of all places visited before (i, j, k) are in the set. */
  ghost predicate Collected(nums: seq<int>, sumSet: set<seq<int>>, i: int, j: int, k: int) {
    forall x, y, z :: Visited(i, j, k, x, y, z) ==> Covered(nums, sumSet, x, y, z)
  }

  /** A zero sum at these three places is in the set. */
  ghost predicate Covered(nums: seq<int>, sumSet: set<seq<int>>, x: int, y: int, z: int) {
    0 <= x < y < z < |nums| && nums[x] + nums[y] + nums[z] == 0 ==> SortedCopy(At(nums, x, y, z)) in sumSet
  }

  ghost predicate AllAnswers(nums: seq<int>, sumSet: set<seq<int>>) {
    forall t :: t in sumSet ==> IsAnswer(nums, t)
  }

  /** The set after the innermost loop body ran for (i, j, k). */
  function Considered(nums: seq<int>, sumSet: set<seq<int>>, i: int, j: int, k: int): set<seq<int>>
    requires 0 <= i < j < k < |nums|
  {
    if nums[i] + nums[j] + nums[k] == 0 then sumSet + {SortedCopy(At(nums, i, j, k))} else sumSet
  }

  lemma ConsideredKeeps(nums: seq<int>, sumSet: set<seq<int>>, i: int, j: int, k: int)
    requires 0 <= i < j < k < |nums|
    requires AllAnswers(nums, sumSet) && Collected(nums, sumSet, i, j, k)
    ensures AllAnswers(nums, Considered(nums, sumSet, i, j, k))
    ensures Collected(nums, Considered(nums, sumSet, i, j, k), i, j, k + 1)
  {
    hide IsAnswer, SortedCopy;
    if nums[i] + nums[j] + nums[k] == 0 {
      SortedTripleIsAnswer(nums, i, j, k);
    }
    var more := Considered(nums, sumSet, i, j, k);
    forall x, y, z | Visited(i, j, k + 1, x, y, z) ensures Covered(nums, more, x, y, z) {
      if !(x == i && y == j && z == k) && 0 <= x < y < z < |nums| {
        assert Visited(i, j, k, x, y, z);
        assert Covered(nums, sumSet, x, y, z);
      }
    }
  }

  lemma NextRow(nums: seq<int>, sumSet: set<seq<int>>, i: int, j: int)
    requires Collected(nums, sumSet, i, j, |nums|)
    ensures Collected(nums, sumSet, i, j + 1, 0)
  {
    forall x, y, z | Visited(i, j + 1, 0, x, y, z) ensures Covered(nums, sumSet, x, y, z) {
      assert 0 <= x < y < z < |nums| ==> Visited(i, j, |nums|, x, y, z);
    }
  }

  lemma NextBlock(nums: seq<int>, sumSet: set<seq<int>>, i: int)
    requires Collected(nums, sumSet, i, |nums|, 0)
    ensures Collected(nums, sumSet, i + 1, 0, 0)
  {
    forall x, y, z | Visited(i + 1, 0, 0, x, y, z) ensures Covered(nums, sumSet, x, y, z) {
      assert 0 <= x < y < z < |nums| ==> Visited(i, |nums|, 0, x, y, z);
    }
  }

  lemma StartOfRow(nums: seq<int>, sumSet: set<seq<int>>, i: int, j: int)
    requires Collected(nums, sumSet, i, j, 0)
    ensures Collected(nums, sumSet, i, j, j + 1)
  {
    forall x, y, z | Visited(i, j, j + 1, x, y, z) ensures Covered(nums, sumSet, x, y, z) {
      assert 0 <= x < y < z < |nums| ==> Visited(i, j, 0, x, y, z);
    }
  }

  lemma StartOfBlock(nums: seq<int>, sumSet: set<seq<int>>, i: int)
    requires Collected(nums, sumSet, i, 0, 0)
    ensures Collected(nums, sumSet, i, i + 1, 0)
  {
    forall x, y, z | Visited(i, i + 1, 0, x, y, z) ensures Covered(nums, sumSet, x, y, z) {
      assert 0 <= x < y < z < |nums| ==> Visited(i, 0, 0, x, y, z);
    }
  }

  lemma CollectedAll(nums: seq<int>, sumSet: set<seq<int>>)
    requires AllAnswers(nums, sumSet) && Collected(nums, sumSet, |nums|, 0, 0)
    ensures forall t :: t in sumSet <==> IsAnswer(nums, t)
  {
    forall t | IsAnswer(nums, t) ensures t in sumSet {
      var x, y, z := AnswerHasPlaces(nums, t);
      assert Visited(|nums|, 0, 0, x, y, z);
      assert Covered(nums, sumSet, x, y, z);
    }
  }

  lemma TooShort(nums: seq<int>, t: seq<int>)
    requires IsAnswer(nums, t)
    ensures |nums| > 2
  {
    var x, y, z := OrderedPlaces(nums, t);
  }

  /** Brute force: all triples of places, into a set. */
  method ThreeSum(nums: seq<int>) returns (r: seq<seq<int>>)
    ensures forall t :: t in r <==> IsAnswer(nums, t)
    ensures NoneTwice(r)
  {
    if |nums| <= 2 {
      forall t | IsAnswer(nums, t) ensures false {
        TooShort(nums, t);
      }
      return [];
    }
    var n := |nums|;
    var sumSet: set<seq<int>> := {};
    for i := 0 to n
      invariant AllAnswers(nums, sumSet) && Collected(nums, sumSet, i, 0, 0)
    {
      StartOfBlock(nums, sumSet, i);
      for j := i + 1 to n
        invariant AllAnswers(nums, sumSet) && Collected(nums, sumSet, i, j, 0)
      {
        StartOfRow(nums, sumSet, i, j);
        for k := j + 1 to n
          invariant AllAnswers(nums, sumSet) && Collected(nums, sumSet, i, j, k)
        {
          ConsideredKeeps(nums, sumSet, i, j, k);
          if nums[i] + nums[j] + nums[k] == 0 {
            var temp := SortedCopy(At(nums, i, j, k));
            sumSet := sumSet + {temp};
          }
        }
        NextRow(nums, sumSet, i, j);
      }
      NextBlock(nums, sumSet, i);
    }
    CollectedAll(nums, sumSet);
    r := ListOf(sumSet);
  }

  /** The elements of a set in some order. */
  method ListOf(s: set<seq<int>>) returns (r: seq<seq<int>>)
    ensures forall t :: t in r <==> t in s
    ensures NoneTwice(r)
  {
    r := [];
    var left := s;
    while left != {}
      invariant left <= s
      invariant forall t :: t in s <==> t in left || t in r
      invariant forall t :: t in r ==> t !in left
      invariant NoneTwice(r)
      decreases left
    {
      var t :| t in left;
      left := left - {t};
      r := r + [t];
    }
  }

  /** All zero sums that start before place i are in the list. */
  ghost predicate StartsCovered(a: seq<int>, found: seq<seq<int>>, i: int) {
    forall x, y, z :: 0 <= x < y < z < |a| && x < i && a[x] + a[y] + a[z] == 0 ==> At(a, x, y, z) in found
  }

  ghost predicate OnlyAnswers(nums: seq<int>, found: seq<seq<int>>) {
    forall t :: t in found ==> IsAnswer(nums, t)
  }

  /** The first members of the triples found so far stand before place i. */
  ghost predicate FirstsBefore(a: seq<int>, found: seq<seq<int>>, i: int)
    requires 0 <= i <= |a|
  {
    forall t :: t in found ==> |t| == 3 && exists k :: 0 <= k < i && a[k] == t[0]
  }

  lemma SkipDuplicate(a: seq<int>, found: seq<seq<int>>, i: int)
    requires 0 < i < |a| && a[i] == a[i - 1] && StartsCovered(a, found, i)
    ensures StartsCovered(a, found, i + 1)
  {
    forall y, z | i < y < z < |a| && a[i] + a[y] + a[z] == 0 ensures At(a, i, y, z) in found {
      assert At(a, i, y, z) == At(a, i - 1, y, z);
    }
  }

  lemma AddStart(nums: seq<int>, a: seq<int>, before: seq<seq<int>>, found: seq<seq<int>>, i: int)
    requires Sorted(a) && 0 <= i < |a| && (i > 0 ==> a[i] != a[i - 1])
    requires OnlyAnswers(nums, before) && FirstsBefore(a, before, i) && StartsCovered(a, before, i) && NoneTwice(before)
    requires OnlyAnswers(nums, found) && NoneTwice(found)
    requires forall t :: t in found ==> |t| == 3 && t[0] == a[i]
    requires forall y, z :: i < y < z < |a| && a[i] + a[y] + a[z] == 0 ==> At(a, i, y, z) in found
    ensures OnlyAnswers(nums, before + found) && FirstsBefore(a, before + found, i + 1)
    ensures StartsCovered(a, before + found, i + 1) && NoneTwice(before + found)
  {
    hide IsAnswer, NoneTwice;
    forall s, t | s in before && t in found ensures s != t {
      var k :| 0 <= k < i && a[k] == s[0];
      assert a[k] <= a[i - 1] <= a[i];
    }
    JoinNoneTwice(before, found);
  }

  lemma CoveredAll(nums: seq<int>, a: seq<int>, found: seq<seq<int>>)
    requires Sorted(a) && multiset(a) == multiset(nums)
    requires OnlyAnswers(nums, found) && StartsCovered(a, found, |a|)
    ensures forall t :: t in found <==> IsAnswer(nums, t)
  {
    hide IsAnswer;
    forall t | IsAnswer(nums, t) ensures t in found {
      var x, y, z := AnswerInOrder(nums, a, t);
      AtIsZeroSum(nums, a, x, y, z);
    }
  }

  lemma AtIsZeroSum(nums: seq<int>, a: seq<int>, x: int, y: int, z: int)
    requires 0 <= x < y < z < |a| && IsAnswer(nums, At(a, x, y, z))
    ensures a[x] + a[y] + a[z] == 0
  {
  }

  /** Two pointers with duplicate skipping: the same triples as brute force, each
      of them once, for every input. */
  method ThreeSum2(nums: seq<int>) returns (r: seq<seq<int>>)
    ensures forall t :: t in r <==> IsAnswer(nums, t)
    ensures NoneTwice(r)
  {
    var a := SortedCopy(nums);
    hide IsAnswer, Sorted, SortedCopy, StartsCovered;
    assert StartsCovered(a, [], 0) by { NothingStarted(a); }
    var sumSet: seq<seq<int>> := [];
    for i := 0 to |a|
      invariant OnlyAnswers(nums, sumSet) && FirstsBefore(a, sumSet, i)
      invariant StartsCovered(a, sumSet, i) && NoneTwice(sumSet)
    {
      if i > 0 && a[i] == a[i - 1] {
        SkipDuplicate(a, sumSet, i);
        continue;
      }
      var found := TwoPointers(nums, a, i);
      AddStart(nums, a, sumSet, found, i);
      sumSet := sumSet + found;
    }
    CoveredAll(nums, a, sumSet);
    r := sumSet;
  }

  lemma NothingStarted(a: seq<int>)
    ensures StartsCovered(a, [], 0)
  {
  }

  /** Every zero sum that starts at place i is found already or lies between the
      two pointers. */
  ghost predicate Between(a: seq<int>, found: seq<seq<int>>, i: int, left: int, right: int)
    requires 0 <= i < |a|
  {
    forall y, z :: i < y < z < |a| && a[i] + a[y] + a[z] == 0 ==> At(a, i, y, z) in found || (left <= y && z <= right)
  }

  /** The triples found start with a[i], and their middle members are below a[left]. */
  ghost predicate MiddlesBelow(a: seq<int>, found: seq<seq<int>>, i: int, left: int)
    requires 0 <= i < |a|
  {
    forall t :: t in found ==> |t| == 3 && t[0] == a[i] && (left < |a| && 0 <= left ==> t[1] < a[left])
  }

  ghost predicate StartWith(found: seq<seq<int>>, first: int) {
    forall t :: t in found ==> |t| == 3 && t[0] == first
  }

  /** Moving one pointer past a place whose sums are all too small, or too large. */
  lemma MovePointer(a: seq<int>, found: seq<seq<int>>, i: int, left: int, right: int)
    requires Sorted(a) && 0 <= i < left < right < |a| && Between(a, found, i, left, right)
    ensures a[i] + a[left] + a[right] < 0 ==> Between(a, found, i, left + 1, right)
    ensures a[i] + a[left] + a[right] > 0 ==> Between(a, found, i, left, right - 1)
  {
    forall y, z | i < y < z < |a| && a[i] + a[y] + a[z] == 0 && At(a, i, y, z) !in found
      ensures a[i] + a[left] + a[right] < 0 ==> left < y
      ensures a[i] + a[left] + a[right] > 0 ==> z < right
    {
      assert a[left] <= a[y] && a[z] <= a[right];
    }
  }

  /** After a hit, both pointers may pass every place with an equal member. */
  lemma MovePastHit(a: seq<int>, found: seq<seq<int>>, i: int, l0: int, r0: int, left: int, right: int)
    requires Sorted(a) && 0 <= i < l0 < r0 < |a| && l0 <= left <= right <= r0
    requires a[i] + a[l0] + a[r0] == 0 && At(a, i, l0, r0) in found
    requires forall k :: l0 <= k <= left ==> a[k] == a[l0]
    requires forall k :: right <= k <= r0 ==> a[k] == a[r0]
    requires Between(a, found, i, l0, r0)
    ensures Between(a, found, i, left + 1, right - 1)
  {
    forall y, z | i < y < z < |a| && a[i] + a[y] + a[z] == 0 && (y <= left || right <= z)
      ensures At(a, i, y, z) in found
    {
      if l0 <= y && z <= r0 {
        assert a[y] == a[l0] && a[z] == a[r0];
        assert At(a, i, y, z) == At(a, i, l0, r0);
      }
    }
  }

  lemma AppendFresh(found: seq<seq<int>>, t: seq<int>)
    requires NoneTwice(found) && t !in found
    ensures NoneTwice(found + [t])
  {
    JoinNoneTwice(found, [t]);
  }

  /** The invariant of the two-pointer loop. */
  ghost predicate Searching(nums: seq<int>, a: seq<int>, found: seq<seq<int>>, i: int, left: int, right: int)
    requires 0 <= i < |a|
  {
    && OnlyAnswers(nums, found) && StartWith(found, a[i]) && NoneTwice(found)
    && Between(a, found, i, left, right)
    && (left < right ==> MiddlesBelow(a, found, i, left))
  }

  lemma StartSearch(nums: seq<int>, a: seq<int>, i: int)
    requires 0 <= i < |a|
    ensures Searching(nums, a, [], i, i + 1, |a| - 1)
  {
  }

  lemma EndSearch(nums: seq<int>, a: seq<int>, found: seq<seq<int>>, i: int, left: int, right: int)
    requires 0 <= i < |a| && left >= right && Searching(nums, a, found, i, left, right)
    ensures OnlyAnswers(nums, found) && StartWith(found, a[i]) && NoneTwice(found)
    ensures forall y, z :: i < y < z < |a| && a[i] + a[y] + a[z] == 0 ==> At(a, i, y, z) in found
  {
    hide IsAnswer, NoneTwice;
  }

  /** A miss moves one pointer. */
  lemma Miss(nums: seq<int>, a: seq<int>, found: seq<seq<int>>, i: int, left: int, right: int)
    requires Sorted(a) && 0 <= i < left < right < |a| && Searching(nums, a, found, i, left, right)
    ensures a[i] + a[left] + a[right] < 0 ==> Searching(nums, a, found, i, left + 1, right)
    ensures a[i] + a[left] + a[right] > 0 ==> Searching(nums, a, found, i, left, right - 1)
  {
    hide IsAnswer, NoneTwice, Between;
    MovePointer(a, found, i, left, right);
    assert a[left] <= a[left + 1];
  }

  /** A hit at (l0, r0) is recorded, and both pointers pass the equal places. */
  lemma Hit(nums: seq<int>, a: seq<int>, found: seq<seq<int>>, i: int, l0: int, r0: int, left: int, right: int)
    requires Sorted(a) && multiset(a) == multiset(nums)
    requires 0 <= i < l0 < r0 < |a| && l0 <= left <= right <= r0
    requires Searching(nums, a, found, i, l0, r0)
    requires a[i] + a[l0] + a[r0] == 0
    requires forall k :: l0 <= k <= left ==> a[k] == a[l0]
    requires forall k :: right <= k <= r0 ==> a[k] == a[r0]
    requires left < right ==> a[left] != a[left + 1]
    ensures Searching(nums, a, found + [At(a, i, l0, r0)], i, left + 1, right - 1)
  {
    hide IsAnswer, Between, NoneTwice;
    var t := At(a, i, l0, r0);
    HitIsAnswer(nums, a, i, l0, r0);
    AppendFresh(found, t);
    HitKeepsBetween(a, found, i, l0, r0);
    MovePastHit(a, found + [t], i, l0, r0, left, right);
    if left < right {
      HitKeepsMiddles(a, found, i, l0, r0, left + 1);
    }
  }

  /** The body of the outer loop of threeSum2: all answers that start at place i. */
  method TwoPointers(ghost nums: seq<int>, a: seq<int>, i: int) returns (found: seq<seq<int>>)
    requires Sorted(a) && multiset(a) == multiset(nums) && 0 <= i < |a|
    ensures OnlyAnswers(nums, found) && StartWith(found, a[i])
    ensures forall y, z :: i < y < z < |a| && a[i] + a[y] + a[z] == 0 ==> At(a, i, y, z) in found
    ensures NoneTwice(found)
  {
    hide Sorted, Searching, OnlyAnswers, StartWith, NoneTwice;
    found := [];
    var left := i + 1;
    var right := |a| - 1;
    var target := -a[i];
    StartSearch(nums, a, i);
    while left < right
      invariant i < left && right < |a|
      invariant Searching(nums, a, found, i, left, right)
      decreases right - left
    {
      var temp := a[left] + a[right];
      if temp == target {
        ghost var l0, r0, before := left, right, found;
        found := found + [[-target, a[left], a[right]]];
        while left < right && a[left] == a[left + 1]
          invariant l0 <= left <= right
          invariant forall k :: l0 <= k <= left ==> a[k] == a[l0]
        {
          left := left + 1;
        }
        while left < right && a[right] == a[right - 1]
          invariant left <= right <= r0
          invariant forall k :: right <= k <= r0 ==> a[k] == a[r0]
        {
          right := right - 1;
        }
        Hit(nums, a, before, i, l0, r0, left, right);
        left := left + 1;
        right := right - 1;
      } else if temp < target {
        Miss(nums, a, found, i, left, right);
        left := left + 1;
      } else {
        Miss(nums, a, found, i, left, right);
        right := right - 1;
      }
    }
    EndSearch(nums, a, found, i, left, right);
  }

  lemma HitIsAnswer(nums: seq<int>, a: seq<int>, i: int, left: int, right: int)
    requires Sorted(a) && multiset(a) == multiset(nums)
    requires 0 <= i < left < right < |a| && a[i] + a[left] + a[right] == 0
    ensures IsAnswer(nums, At(a, i, left, right))
  {
    PlacesGiveSubset(a, i, left, right);
  }

  lemma HitKeepsBetween(a: seq<int>, before: seq<seq<int>>, i: int, left: int, right: int)
    requires 0 <= i < left < right < |a| && Between(a, before, i, left, right)
    ensures At(a, i, left, right) in before + [At(a, i, left, right)]
    ensures Between(a, before + [At(a, i, left, right)], i, left, right)
  {
  }

  lemma HitKeepsMiddles(a: seq<int>, before: seq<seq<int>>, i: int, l0: int, r0: int, left: int)
    requires Sorted(a) && 0 <= i < l0 < r0 < |a| && l0 < left <= r0 && a[l0] != a[left]
    requires MiddlesBelow(a, before, i, l0)
    ensures MiddlesBelow(a, before + [At(a, i, l0, r0)], i, left)
  {
  }

  // ----- the width of Int

  const INT_MAX: int := 0x7FFF_FFFF_FFFF_FFFF

  predicate InInt(x: int) {
    -INT_MAX - 1 <= x <= INT_MAX
  }

  ghost predicate Within(nums: seq<int>, bound: nat) {
    forall i :: 0 <= i < |nums| ==> 0 - bound <= nums[i] <= bound
  }

  /** The sum of brute force at three places, a sum of two plus a third. */
  ghost predicate TripleFits(nums: seq<int>, x: int, y: int, z: int)
    requires 0 <= x < y < z < |nums|
  {
    InInt(nums[x] + nums[y]) && InInt(nums[x] + nums[y] + nums[z])
  }

  ghost predicate BruteForceFits(nums: seq<int>) {
    forall x, y, z :: 0 <= x < y < z < |nums| ==> TripleFits(nums, x, y, z)
  }

  /** The negations and sums of the two pointers. */
  ghost predicate TwoPointersFit(nums: seq<int>) {
    && (forall x :: 0 <= x < |nums| ==> InInt(-nums[x]))
    && (forall y, z :: 1 <= y < z < |nums| ==> InInt(nums[y] + nums[z]))
  }

  /** Brute force never leaves Int on arrays of values up to a bound if and only if three
      times the bound is in Int. */
  lemma BruteForceFitsIff(bound: nat)
    ensures 3 * bound <= INT_MAX <==> forall nums: seq<int> :: Within(nums, bound) ==> BruteForceFits(nums)
  {
    if 3 * bound <= INT_MAX {
      forall nums: seq<int> | Within(nums, bound) ensures BruteForceFits(nums) {
        ThirdsFit(nums, bound);
      }
    } else {
      var nums := [bound, bound, bound];
      assert nums[0] + nums[1] + nums[2] == 3 * bound && !TripleFits(nums, 0, 1, 2);
      assert Within(nums, bound) && !BruteForceFits(nums);
    }
  }

  lemma ThirdsFit(nums: seq<int>, bound: nat)
    requires Within(nums, bound) && 3 * bound <= INT_MAX
    ensures BruteForceFits(nums)
  {
    forall x, y, z | 0 <= x < y < z < |nums| ensures TripleFits(nums, x, y, z) {
      assert 0 - bound <= nums[x] <= bound && 0 - bound <= nums[y] <= bound && 0 - bound <= nums[z] <= bound;
    }
  }

  /** The two pointers do not if and only if twice the bound is in Int. */
  lemma TwoPointersFitIff(bound: nat)
    ensures 2 * bound <= INT_MAX <==> forall nums: seq<int> :: Within(nums, bound) ==> TwoPointersFit(nums)
  {
    if 2 * bound <= INT_MAX {
      forall nums: seq<int> | Within(nums, bound) ensures TwoPointersFit(nums) {
        HalvesFit(nums, bound);
      }
    } else {
      var nums := [bound, bound, bound];
      assert nums[1] + nums[2] == 2 * bound;
      assert Within(nums, bound) && !TwoPointersFit(nums);
    }
  }

  lemma HalvesFit(nums: seq<int>, bound: nat)
    requires Within(nums, bound) && 2 * bound <= INT_MAX
    ensures TwoPointersFit(nums)
  {
    forall y, z | 1 <= y < z < |nums| ensures InInt(nums[y] + nums[z]) {
      assert 0 - bound <= nums[y] <= bound && 0 - bound <= nums[z] <= bound;
    }
  }

  /** The least Int alone has no negation: the two pointers trap where brute force returns
      an empty list. */
  lemma LeastIntHasNoNegation()
    ensures !TwoPointersFit([-INT_MAX - 1]) && BruteForceFits([-INT_MAX - 1])
  {
    var nums := [-INT_MAX - 1];
    assert nums[0] == -INT_MAX - 1 && !InInt(-nums[0]);
  }
}
