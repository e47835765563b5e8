/** The standard library's `sorted()`, as a function with its contract. */
module Sorting {

  ghost predicate Sorted(s: seq<int>) {
    forall i, j :: 0 <= i <= j < |s| ==> s[i] <= s[j]
  }

  /** Putting a smaller or equal element in front keeps the order. */
  lemma PrependSorted(x: int, s: seq<int>)
    requires Sorted(s)
    requires forall y :: y in multiset(s) ==> x <= y
    ensures Sorted([x] + s)
  {
    forall i | 0 <= i < |s| ensures x <= s[i] {
      assert s[i] in multiset(s);
    }
  }

  lemma HeadIsLeast(s: seq<int>)
    requires Sorted(s) && s != []
    ensures forall y :: y in multiset(s) ==> s[0] <= y
  {
    forall y | y in multiset(s) ensures s[0] <= y {
      assert y in s;
    }
  }

  function Insert(x: int, s: seq<int>): (r: seq<int>)
    requires Sorted(s)
    ensures Sorted(r)
    ensures multiset(r) == multiset(s) + multiset{x}
  {
    if s == [] then [x]
    else
      assert s == [s[0]] + s[1..];
      HeadIsLeast(s);
      if x <= s[0] then
        PrependSorted(x, s);
        [x] + s
      else
        var t := Insert(x, s[1..]);
        PrependSorted(s[0], t);
        [s[0]] + t
  }

  function SortedCopy(s: seq<int>): (r: seq<int>)
    ensures Sorted(r)
    ensures multiset(r) == multiset(s) && |r| == |s|
  {
    if s == [] then []
    else
      assert s == [s[0]] + s[1..];
      var r := Insert(s[0], SortedCopy(s[1..]));
      assert |multiset(r)| == |multiset(s)|;
      r
  }

  lemma SameElements(a: seq<int>, b: seq<int>)
    requires multiset(a) == multiset(b)
    ensures forall x :: x in a <==> x in b
  {
    forall x ensures x in a <==> x in b {
      assert x in a <==> x in multiset(a);
      assert x in b <==> x in multiset(b);
    }
  }

  /** The sequence without the element at position i. */
  function Without<T>(s: seq<T>, i: int): seq<T>
    requires 0 <= i < |s|
  {
    s[..i] + s[i + 1..]
  }

  lemma WithoutMultiset<T>(s: seq<T>, i: int)
    requires 0 <= i < |s|
    ensures multiset(s) == multiset(Without(s, i)) + multiset{s[i]}
  {
    assert s == s[..i] + [s[i]] + s[i + 1..];
  }

  lemma CancelOne<T>(a: multiset<T>, b: multiset<T>, x: T)
    ensures a + multiset{x} <= b + multiset{x} ==> a <= b
    ensures a + multiset{x} == b + multiset{x} ==> a == b
  {
    if a + multiset{x} <= b + multiset{x} {
      forall y ensures a[y] <= b[y] {
        assert (a + multiset{x})[y] <= (b + multiset{x})[y];
      }
    }
    if a + multiset{x} == b + multiset{x} {
      forall y ensures a[y] == b[y] {
        assert (a + multiset{x})[y] == (b + multiset{x})[y];
      }
    }
  }

  ghost function Sum(s: seq<int>): int {
    if s == [] then 0 else s[0] + Sum(s[1..])
  }

  lemma {:induction false} InsertSum(x: int, s: seq<int>)
    requires Sorted(s)
    ensures Sum(Insert(x, s)) == x + Sum(s)
  {
    if s != [] {
      if x <= s[0] {
        assert ([x] + s)[1..] == s;
      } else {
        InsertSum(x, s[1..]);
        assert ([s[0]] + Insert(x, s[1..]))[1..] == Insert(x, s[1..]);
      }
    }
  }

  /** Sorting does not change the sum. */
  lemma {:induction false} SortedCopySum(s: seq<int>)
    ensures Sum(SortedCopy(s)) == Sum(s)
  {
    if s != [] {
      SortedCopySum(s[1..]);
      InsertSum(s[0], SortedCopy(s[1..]));
    }
  }

  lemma SameHead(a: seq<int>, b: seq<int>)
    requires Sorted(a) && Sorted(b) && a != [] && b != [] && multiset(a) == multiset(b)
    ensures a[0] == b[0]
  {
    HeadIsLeast(a);
    HeadIsLeast(b);
    assert a[0] in multiset(a) && b[0] in multiset(b);
  }

  /** A multiset has one sorted arrangement. */
  lemma {:induction false} SortedUnique(a: seq<int>, b: seq<int>)
    requires Sorted(a) && Sorted(b) && multiset(a) == multiset(b)
    ensures a == b
    decreases |a|
  {
    if a == [] || b == [] {
      assert |multiset(a)| == |multiset(b)|;
    } else {
      SameHead(a, b);
      SortedTail(a);
      SortedTail(b);
      hide Sorted;
      CancelOne(multiset(a[1..]), multiset(b[1..]), a[0]);
      SortedUnique(a[1..], b[1..]);
    }
  }

  lemma SortedTail(a: seq<int>)
    requires Sorted(a) && a != []
    ensures Sorted(a[1..]) && a == [a[0]] + a[1..]
    ensures multiset(a) == multiset(a[1..]) + multiset{a[0]}
  {
    assert a == [a[0]] + a[1..];
  }
}
