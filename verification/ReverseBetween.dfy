/** In-place reversal of the nodes at positions left..right of a linked list, by two
    recursions that share one successor field (ReverseBetweenController.swift). */
module ReverseBetween {
  import opened Basics

  class ListNode {
    const val: int
    var next: ListNode?

    constructor (val: int)
      ensures this.val == val && next == null
    {
      this.val := val;
      next := null;
    }
  }

  /** The nodes form an acyclic list that starts at head and ends with a null link. */
  ghost predicate Chain(nodes: seq<ListNode>, head: ListNode?)
    reads nodes
  {
    && head == At(nodes, 0)
    && (forall i :: 0 <= i < |nodes| ==> nodes[i].next == At(nodes, i + 1))
    && Distinct(nodes)
  }

  /** The node at position i, or null past the end. */
  ghost function At(nodes: seq<ListNode>, i: nat): ListNode? {
    if i < |nodes| then nodes[i] else null
  }

  ghost function Reversed<T>(s: seq<T>): (r: seq<T>)
    ensures |r| == |s|
    ensures forall k :: 0 <= k < |s| ==> r[k] == s[|s| - 1 - k]
  {
    if s == [] then [] else Reversed(s[1..]) + [s[0]]
  }

  /** The list with its first `right` nodes reversed, or all of them if there are
      fewer. */
  ghost function Prefixed<T>(s: seq<T>, right: int): (r: seq<T>)
    requires 1 <= right
    ensures |r| == |s|
  {
    if right <= |s| then Reversed(s[..right]) + s[right..] else Reversed(s)
  }

  /** The list after positions left..right (counted from 1) were reversed. When right
      is past the end, the source loses everything from position left on. */
  ghost function ReversedBetween<T>(s: seq<T>, left: int, right: int): seq<T>
    requires 1 <= left <= right
  {
    if right <= |s| then
      s[..left - 1] + Reversed(s[left - 1..right]) + s[right..]
    else if left <= |s| then
      s[..left - 1]
    else
      s
  }

  class ReverseBetweenController {
    var topRightSuccessor: ListNode?

    constructor ()
    {
      topRightSuccessor := null;
    }

    /** Reverses the first `right` nodes; the shared field holds the node behind them.
        When the list is shorter, the whole list is reversed and the head is lost. */
    method ReverseTopRight(head: ListNode?, right: int, ghost nodes: seq<ListNode>)
      returns (newHead: ListNode?)
      requires 1 <= right && Chain(nodes, head)
      modifies this`topRightSuccessor, nodes
      ensures topRightSuccessor == At(nodes, right)
      ensures Chain(Prefixed(nodes, right), At(Prefixed(nodes, right), 0))
      ensures newHead == if right <= |nodes| then Prefixed(nodes, right)[0] else null
      decreases right
    {
      hide Prefixed, Reversed, Inserted, Distinct;
      if right == 1 {
        PrefixedOne(nodes);
        topRightSuccessor := if head == null then null else head.next;
        return head;
      }
      if head == null {
        PrefixedNone(right);
        newHead := ReverseTopRight(null, right - 1, []);
        return newHead;
      }
      ghost var tail := nodes[1..];
      ChainTail(nodes, head);
      newHead := ReverseTopRight(head.next, right - 1, tail);
      ghost var n := if right <= |nodes| then right - 1 else |tail|;
      ghost var before, after := Prefixed(tail, right - 1), Prefixed(nodes, right);
      PrefixedStep(nodes, right);
      PrefixedBehind(nodes, right, n);
      if head.next == null {
        PrefixedNone(right - 1);
        assert tail == [] && before == [];
        head.next := topRightSuccessor;
        OnlyNode(head, after);
      } else {
        PutBehind(head, before, n, after);
      }
    }

    /** The two assignments after the recursive call: head goes behind the last of
        the n reversed nodes, and the shared successor behind head. */
    method PutBehind(head: ListNode, ghost before: seq<ListNode>, ghost n: nat, ghost after: seq<ListNode>)
      requires 0 < n && Inserted(before, n, head, after)
      requires Chain(before, At(before, 0)) && head !in before
      requires head.next == before[n - 1] && topRightSuccessor == At(before, n)
      modifies head, before[n - 1]
      ensures Chain(after, At(before, 0))
    {
      InsertedDistinct(before, n, head, after);
      assert before[n - 1] in before;
      head.next.next := head;
      head.next := topRightSuccessor;
      forall i | 0 <= i < |after| ensures after[i].next == At(after, i + 1) {
        if i < n - 1 {
          assert before[i] != before[n - 1];
        } else if i > n {
          assert before[i - 1] != before[n - 1] && before[i - 1] in before;
        }
      }
    }

    /** The nodes of the result are exactly those of the argument, with positions
        left..right reversed; values are constants and no other node is touched. */
    method ReverseBetween(head: ListNode?, left: int, right: int, ghost nodes: seq<ListNode>)
      returns (result: ListNode?)
      requires 1 <= left <= right && Chain(nodes, head)
      modifies this`topRightSuccessor, nodes
      ensures Chain(ReversedBetween(nodes, left, right), result)
      decreases left
    {
      hide ReversedBetween, Prefixed, Reversed, Distinct, Inserted;
      if left == 1 {
        FromTheFirst(nodes, right);
        result := ReverseTopRight(head, right, nodes);
        assert right > |nodes| ==> ReversedBetween(nodes, left, right) == [];
        NoNodes();
        return;
      }
      if head == null {
        FromNothing(left, right);
        result := ReverseBetween(null, left - 1, right - 1, []);
        return head;
      }
      ghost var tail := nodes[1..];
      ChainTail(nodes, head);
      var between := ReverseBetween(head.next, left - 1, right - 1, tail);
      ghost var rest, all := ReversedBetween(tail, left - 1, right - 1), ReversedBetween(nodes, left, right);
      PrependReversedBetween(nodes, left, right);
      NoNewNodes(tail, left - 1, right - 1);
      assert head !in rest;
      head.next := between;
      ChainCons(head, rest, all);
      return head;
    }
  }

  lemma ChainCons(head: ListNode, rest: seq<ListNode>, all: seq<ListNode>)
    requires all == [head] + rest && Chain(rest, head.next) && head !in rest
    ensures Chain(all, head)
  {
    InsertedDistinct(rest, 0, head, all);
    forall i | 0 <= i < |all| ensures all[i].next == At(all, i + 1) {
      if i > 0 {
        assert all[i] == rest[i - 1];
      }
    }
  }

  /** after is before with x put in at position n. */
  ghost predicate Inserted<T>(before: seq<T>, n: nat, x: T, after: seq<T>) {
    && n <= |before|
    && |after| == |before| + 1
    && (forall i :: 0 <= i < n ==> after[i] == before[i])
    && after[n] == x
    && (forall i :: n < i < |after| ==> after[i] == before[i - 1])
  }

  lemma InsertedDistinct<T>(before: seq<T>, n: nat, x: T, after: seq<T>)
    requires Inserted(before, n, x, after) && Distinct(before) && x !in before
    ensures Distinct(after)
  {
    forall i, j | 0 <= i < j < |after| ensures after[i] != after[j] {
      if i != n && j != n {
        assert after[i] == before[if i < n then i else i - 1];
        assert after[j] == before[if j < n then j else j - 1];
      }
    }
  }

  lemma ChainTail(nodes: seq<ListNode>, head: ListNode)
    requires Chain(nodes, head)
    ensures nodes != [] && nodes[0] == head && nodes == [head] + nodes[1..]
    ensures Chain(nodes[1..], head.next) && head !in nodes[1..]
  {
    forall i | 0 <= i < |nodes[1..]| ensures nodes[1..][i].next == At(nodes[1..], i + 1) {
      assert nodes[1..][i] == nodes[i + 1];
    }
  }

  /** One level of the recursion: the first node goes behind the reversed rest. */
  lemma PrefixedStep<T>(s: seq<T>, right: int)
    requires 2 <= right && s != []
    ensures var n := if right <= |s| then right - 1 else |s| - 1;
            Inserted(Prefixed(s[1..], right - 1), n, s[0], Prefixed(s, right))
    ensures var n := if right <= |s| then right - 1 else |s| - 1;
            n > 0 ==> Prefixed(s[1..], right - 1)[n - 1] == s[1]
    ensures forall x :: x in Prefixed(s[1..], right - 1) ==> x in s[1..]
  {
    if right <= |s| {
      assert s[..right][1..] == s[1..][..right - 1];
      assert s[1..][right - 1..] == s[right..];
    }
    forall x | x in Prefixed(s[1..], right - 1) ensures x in s[1..] {
      ReversedMembers(if right <= |s| then s[1..][..right - 1] else s[1..], x);
    }
  }

  lemma PrefixedBehind(nodes: seq<ListNode>, right: int, n: nat)
    requires 2 <= right && nodes != [] && n == if right <= |nodes| then right - 1 else |nodes| - 1
    ensures At(Prefixed(nodes[1..], right - 1), n) == At(nodes, right)
  {
  }

  lemma PrefixedOne<T>(s: seq<T>)
    ensures Prefixed(s, 1) == s
  {
  }

  lemma PrefixedNone(right: int)
    requires 1 <= right
    ensures Prefixed<ListNode>([], right) == []
  {
  }

  lemma OnlyNode(head: ListNode, all: seq<ListNode>)
    requires head.next == null && Inserted([], 0, head, all)
    ensures all == [head] && Chain(all, head)
  {
  }

  lemma ReversedMembers<T>(s: seq<T>, x: T)
    ensures x in Reversed(s) <==> x in s
  {
    if x in s {
      var k :| 0 <= k < |s| && s[k] == x;
      assert Reversed(s)[|s| - 1 - k] == x;
    }
  }

  lemma NoNewNodes<T>(s: seq<T>, left: int, right: int)
    requires 1 <= left <= right
    ensures forall x :: x in ReversedBetween(s, left, right) ==> x in s
  {
    forall x | x in ReversedBetween(s, left, right) ensures x in s {
      if right <= |s| {
        ReversedMembers(s[left - 1..right], x);
      }
    }
  }

  lemma FromTheFirst<T>(s: seq<T>, right: int)
    requires 1 <= right
    ensures ReversedBetween(s, 1, right) == if right <= |s| then Prefixed(s, right) else []
  {
    if right <= |s| {
      assert s[0..right] == s[..right];
    }
  }

  lemma FromNothing(left: int, right: int)
    requires 1 <= left <= right
    ensures ReversedBetween<ListNode>([], left, right) == []
  {
  }

  lemma NoNodes()
    ensures Chain([], null)
  {
  }

  lemma PrependReversedBetween<T>(s: seq<T>, left: int, right: int)
    requires 2 <= left <= right && s != []
    ensures ReversedBetween(s, left, right) == [s[0]] + ReversedBetween(s[1..], left - 1, right - 1)
  {
    hide Reversed;
    var t := s[1..];
    if right <= |s| {
      assert t[left - 2..right - 1] == s[left - 1..right];
      assert t[right - 1..] == s[right..];
      assert [s[0]] + t[..left - 2] == s[..left - 1];
    }
  }

  /** Nothing is lost exactly when the interval lies inside the list or wholly
      behind it; in the first case the same nodes are there. */
  lemma NothingLostIff<T>(s: seq<T>, left: int, right: int)
    requires 1 <= left <= right
    ensures multiset(ReversedBetween(s, left, right)) == multiset(s) <==> right <= |s| || left > |s|
  {
    hide Reversed;
    if right <= |s| {
      ReversedMultiset(s[left - 1..right]);
      assert s == s[..left - 1] + s[left - 1..right] + s[right..];
    } else if left <= |s| {
      assert |multiset(s[..left - 1])| == left - 1 && |multiset(s)| == |s|;
    }
  }

  /** With right past the end, the list 1, 2, 3 loses its last two nodes. */
  lemma SomethingCanBeLost()
    ensures ReversedBetween([1, 2, 3], 2, 5) == [1]
    ensures multiset(ReversedBetween([1, 2, 3], 2, 5)) != multiset([1, 2, 3])
  {
    var s := [1, 2, 3];
    assert s[..1] == [1];
    NothingLostIff(s, 2, 5);
  }

  lemma {:induction false} ReversedMultiset<T>(s: seq<T>)
    ensures multiset(Reversed(s)) == multiset(s)
  {
    if s != [] {
      ReversedMultiset(s[1..]);
      assert s == [s[0]] + s[1..];
    }
  }

  /** Position by position: inside the interval the order is mirrored, outside it
      nothing moves. */
  lemma PlacesAfterReversal<T>(s: seq<T>, left: int, right: int, k: int)
    requires 1 <= left <= right <= |s| && 0 <= k < |s|
    ensures |ReversedBetween(s, left, right)| == |s|
    ensures ReversedBetween(s, left, right)[k] == if left - 1 <= k < right then s[left + right - 2 - k] else s[k]
  {
    hide Reversed;
    var before, part, after := s[..left - 1], s[left - 1..right], s[right..];
    var r := ReversedBetween(s, left, right);
    assert r == before + Reversed(part) + after;
    if k < left - 1 {
      assert r[k] == before[k];
    } else if k < right {
      var m := k - (left - 1);
      assert r[k] == Reversed(part)[m];
      assert |part| - 1 - m == right - 1 - k;
      assert Reversed(part)[m] == part[right - 1 - k] == s[left - 1 + (right - 1 - k)];
    } else {
      assert r[k] == after[k - right];
    }
  }

  /** Reversing the same interval again restores the list. */
  lemma ReversalUndoes<T>(s: seq<T>, left: int, right: int)
    requires 1 <= left <= right <= |s|
    ensures |ReversedBetween(s, left, right)| == |s|
    ensures ReversedBetween(ReversedBetween(s, left, right), left, right) == s
  {
    hide ReversedBetween;
    var r := ReversedBetween(s, left, right);
    PlacesAfterReversal(s, left, right, 0);
    var rr := ReversedBetween(r, left, right);
    PlacesAfterReversal(r, left, right, 0);
    forall k | 0 <= k < |s| ensures rr[k] == s[k] {
      PlacesAfterReversal(r, left, right, k);
      PlacesAfterReversal(s, left, right, if left - 1 <= k < right then left + right - 2 - k else k);
    }
  }
}
