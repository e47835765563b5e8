/** Cyclic placement: the search for a repeated number in an array of n numbers
    drawn from 0..n-1 (FindRepeatNumberController.swift). */
module FindRepeat {

  /** What the source asks of its input: every value is an index. */
  ghost predicate InRange(s: seq<int>) {
    forall i :: 0 <= i < |s| ==> 0 <= s[i] < |s|
  }

  /** Every number 0..n-1 occurs exactly once. */
  ghost predicate IsPermutation(s: seq<int>) {
    forall v :: 0 <= v < |s| ==> multiset(s)[v] == 1
  }

  /** The positions that already hold their own index. */
  ghost function FixedPoints(s: seq<int>): set<int> {
    set i | 0 <= i < |s| && s[i] == i
  }

  ghost function Swapped(s: seq<int>, i: nat, j: nat): seq<int>
    requires i < |s| && j < |s|
  {
    s[i := s[j]][j := s[i]]
  }

  /** The indices 0..n-1. */
  ghost function Indices(n: nat): (r: set<int>)
    ensures |r| == n
    ensures forall i :: i in r <==> 0 <= i < n
  {
    if n == 0 then {} else Indices(n - 1) + {n - 1}
  }

  lemma FixedPointsBounded(s: seq<int>)
    ensures |FixedPoints(s)| <= |s|
  {
    SubsetSize(FixedPoints(s), Indices(|s|));
  }

  lemma {:induction false} SubsetSize<T>(a: set<T>, b: set<T>)
    requires a <= b
    ensures |a| <= |b|
    decreases a
  {
    if a != {} {
      var x :| x in a;
      SubsetSize(a - {x}, b - {x});
    }
  }

  /** The termination argument: a swap that the loop performs destroys no fixed
      point and creates at least one, the position of the value moved away. */
  lemma SwapAddsFixedPoint(s: seq<int>, i: nat)
    requires InRange(s) && i < |s| && s[i] != i && s[i] != s[s[i]]
    ensures FixedPoints(s) < FixedPoints(Swapped(s, i, s[i]))
    ensures |FixedPoints(s)| < |FixedPoints(Swapped(s, i, s[i]))| <= |s|
    ensures multiset(Swapped(s, i, s[i])) == multiset(s)
  {
    var m := s[i];
    var t := Swapped(s, i, m);
    forall k | k in FixedPoints(s) ensures k in FixedPoints(t) {
      assert k != i && k != m;
    }
    assert m in FixedPoints(t) && m !in FixedPoints(s);
    SubsetSize(FixedPoints(s) + {m}, FixedPoints(t));
    FixedPointsBounded(t);
  }

  /** Two different positions with one value give that value multiplicity two. */
  lemma RepeatedMeansTwice(s: seq<int>, i: nat, j: nat)
    requires i < j < |s| && s[i] == s[j]
    ensures multiset(s)[s[i]] >= 2
  {
    assert s == s[..j] + s[j..];
    assert s[j] in s[j..];
    assert s[i] == s[..j][i];
    assert s[i] in s[..j];
    assert multiset(s) == multiset(s[..j]) + multiset(s[j..]);
  }

  /** The identity arrangement holds every index exactly once. */
  lemma {:induction false} IdentityIsPermutation(s: seq<int>, n: nat)
    requires n <= |s|
    requires forall i :: 0 <= i < n ==> s[i] == i
    ensures forall v :: multiset(s[..n])[v] == if 0 <= v < n then 1 else 0
  {
    if n > 0 {
      IdentityIsPermutation(s, n - 1);
      assert s[..n] == s[..n - 1] + [s[n - 1]];
    }
  }

  /** The state in which the loop gives up: the place that a value belongs to is
      already taken by an equal one. */
  lemma CollisionIsRepeat(s: seq<int>, nums: seq<int>, i: nat)
    requires InRange(s) && multiset(s) == multiset(nums) && |s| == |nums|
    requires i < |s| && s[i] != i && s[i] == s[s[i]]
    ensures multiset(nums)[s[i]] >= 2 && !IsPermutation(nums)
  {
    var m := s[i];
    RepeatedMeansTwice(s, if i < m then i else m, if i < m then m else i);
  }

  /** The loop invariant: s is a rearrangement of the input whose first i places hold
      their own index. */
  ghost predicate Placed(s: seq<int>, nums: seq<int>, i: int) {
    && InRange(s) && |s| == |nums| && multiset(s) == multiset(nums)
    && (forall k :: 0 <= k < i <= |s| ==> s[k] == k)
  }

  lemma PlacedSwap(s: seq<int>, nums: seq<int>, i: nat)
    requires Placed(s, nums, i) && i < |s| && s[i] != i
    ensures 0 <= s[i] < |s|
    ensures s[i] != s[s[i]] ==> Placed(Swapped(s, i, s[i]), nums, i)
    ensures s[i] != s[s[i]] ==> |FixedPoints(s)| < |FixedPoints(Swapped(s, i, s[i]))| <= |nums|
    ensures s[i] == s[s[i]] ==> multiset(nums)[s[i]] >= 2 && !IsPermutation(nums)
  {
    if s[i] == s[s[i]] {
      CollisionIsRepeat(s, nums, i);
    } else {
      SwapAddsFixedPoint(s, i);
    }
  }

  lemma PlacedIsPermutation(s: seq<int>, nums: seq<int>)
    requires Placed(s, nums, |nums|)
    ensures IsPermutation(nums)
  {
    IdentityIsPermutation(s, |s|);
    assert s[..|s|] == s;
  }

  /** -1 means that the input is a permutation; any other result occurs at least
      twice in the input. Termination is by SwapAddsFixedPoint. */
  method FindRepeatNumber(nums: seq<int>) returns (r: int)
    requires InRange(nums)
    ensures r == -1 <==> IsPermutation(nums)
    ensures r != -1 ==> 0 <= r < |nums| && multiset(nums)[r] >= 2
  {
    var a := new int[|nums|](i requires 0 <= i < |nums| => nums[i]);
    assert a[..] == nums;
    hide FixedPoints, IsPermutation;
    for i := 0 to |nums|
      invariant Placed(a[..], nums, i)
    {
      while i != a[i]
        invariant Placed(a[..], nums, i)
        decreases |nums| - |FixedPoints(a[..])|
      {
        hide Placed, InRange;
        ghost var before := a[..];
        PlacedSwap(before, nums, i);
        if a[i] == a[a[i]] {
          return a[i];
        }
        a[i], a[a[i]] := a[a[i]], a[i];
        assert a[..] == Swapped(before, i, before[i]);
      }
    }
    PlacedIsPermutation(a[..], nums);
    return -1;
  }

  /** An input with a repeated value is not a permutation, so by the contract of
      FindRepeatNumber a repeated value is found whenever there is one. */
  lemma RepeatIffNotPermutation(nums: seq<int>)
    requires InRange(nums)
    ensures IsPermutation(nums) <==> forall i, j :: 0 <= i < j < |nums| ==> nums[i] != nums[j]
  {
    if i, j :| 0 <= i < j < |nums| && nums[i] == nums[j] {
      RepeatedMeansTwice(nums, i, j);
      assert !IsPermutation(nums);
    } else {
      forall v | 0 <= v < |nums| ensures multiset(nums)[v] == 1 {
        DistinctAtMostOnce(nums, v);
        if v !in nums {
          MissingValueForcesRepeat(nums, v);
        }
      }
    }
  }

  lemma {:induction false} DistinctAtMostOnce(s: seq<int>, v: int)
    requires forall i, j :: 0 <= i < j < |s| ==> s[i] != s[j]
    ensures multiset(s)[v] <= 1
    ensures v in s <==> multiset(s)[v] == 1
  {
    if |s| > 0 {
      var n := |s| - 1;
      DistinctAtMostOnce(s[..n], v);
      assert s == s[..n] + [s[n]];
      if v == s[n] {
        assert v !in s[..n];
      }
    }
  }

  ghost function Elements(s: seq<int>): set<int> {
    set x | x in s
  }

  lemma ElementsSnoc(s: seq<int>, n: nat)
    requires 0 < n <= |s|
    ensures Elements(s[..n]) == Elements(s[..n - 1]) + {s[n - 1]}
  {
    assert s[..n] == s[..n - 1] + [s[n - 1]];
  }

  lemma {:induction false} DistinctSize(s: seq<int>, n: nat)
    requires n <= |s|
    requires forall i, j :: 0 <= i < j < |s| ==> s[i] != s[j]
    ensures |Elements(s[..n])| == n
  {
    if n > 0 {
      DistinctSize(s, n - 1);
      ElementsSnoc(s, n);
      assert s[n - 1] !in s[..n - 1];
      assert s[n - 1] !in Elements(s[..n - 1]);
      hide Elements;
    }
  }

  /** Pigeonhole: n distinct indices leave no index out. */
  lemma MissingValueForcesRepeat(s: seq<int>, v: int)
    requires InRange(s) && 0 <= v < |s| && v !in s
    ensures exists i, j :: 0 <= i < j < |s| && s[i] == s[j]
  {
    if forall i, j :: 0 <= i < j < |s| ==> s[i] != s[j] {
      DistinctSize(s, |s|);
      assert s[..|s|] == s;
      var values := Elements(s);
      SubsetSize(values + {v}, Indices(|s|));
    }
  }
}
