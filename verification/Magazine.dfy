/** One magazine used by one thread at a time: the searches and updates of allocator.c on
    the arrays themselves. */
module Magazines {
  import opened Basics
  import opened Powers
  import opened SlotProtocol

  datatype FreeResult = Crash | Freed(advised: bool)

  /** Bitmap n belongs to supermap n / bits at position n % bits. Words are sets of the
      positions of their ones. */
  class Magazine {
    const bits: nat
    const perPage: nat
    const maps: array<set<nat>>
    const supermaps: array<set<nat>>
    var lastFound: Option<nat>   // last_found_page: the first bitmap of a page
    var advised: seq<nat>        // the pages given to madvise, by their first bitmaps

    constructor (bits: nat, perPage: nat, supers: nat)
      requires bits > 0 && perPage > 0 && Multiple(Count(supers, bits), perPage)
      ensures Valid() && fresh(maps) && fresh(supermaps)
      ensures this.bits == bits && this.perPage == perPage && supermaps.Length == supers && advised == []
      ensures forall n :: 0 <= n < maps.Length ==> maps[n] == {}
    {
      hide Exact, Ones;
      var total := Count(supers, bits);
      this.bits, this.perPage, lastFound, advised := bits, perPage, None, [];
      maps := new set<nat>[total](_ => {});
      supermaps := new set<nat>[supers](_ => {});
      new;
      assert forall n :: 0 <= n < maps.Length ==> Exact(n) by {
        EmptyIsExact();
      }
    }

    lemma EmptyIsExact()
      requires Sized()
      requires forall n :: 0 <= n < maps.Length ==> maps[n] == {}
      requires forall s :: 0 <= s < supermaps.Length ==> supermaps[s] == {}
      ensures forall n :: 0 <= n < maps.Length ==> Exact(n)
    {
      assert 0 in Ones(bits);
      forall n | 0 <= n < maps.Length ensures Exact(n) {
        InSupermaps(n, bits, supermaps.Length);
      }
    }

    predicate Sized()
    {
      && bits > 0 && perPage > 0 && maps != supermaps
      && maps.Length == Count(supermaps.Length, bits) && Multiple(maps.Length, perPage)
    }

    /** The supermap bit of bitmap n is set. */
    predicate Marked(n: nat)
      requires Sized() && n < maps.Length
      reads supermaps
    {
      InSupermaps(n, bits, supermaps.Length);
      Position(n, bits) in supermaps[WordOf(n, bits)]
    }

    /** In sequential runs a supermap bit is set exactly when its bitmap is full. */
    predicate Exact(n: nat)
      requires Sized() && n < maps.Length
      reads maps, supermaps
    {
      maps[n] <= Ones(bits) && (Marked(n) <==> maps[n] == Ones(bits))
    }

    ghost predicate Valid()
      reads this, maps, supermaps
    {
      && Sized()
      && (forall n :: 0 <= n < maps.Length ==> Exact(n))
      && (forall s :: 0 <= s < supermaps.Length ==> supermaps[s] <= Ones(bits))
      && (lastFound.Some? ==> Multiple(lastFound.value, perPage) && lastFound.value + perPage <= maps.Length)
    }

    /** Valid but for the supermap bit of bitmap n. */
    ghost predicate ValidExcept(n: nat)
      reads this, maps, supermaps
    {
      && Sized() && n < maps.Length && maps[n] <= Ones(bits)
      && (forall d :: 0 <= d < maps.Length && d != n ==> Exact(d))
      && (forall s :: 0 <= s < supermaps.Length ==> supermaps[s] <= Ones(bits))
      && (lastFound.Some? ==> Multiple(lastFound.value, perPage) && lastFound.value + perPage <= maps.Length)
    }

    /** Every bit of every bitmap is set. */
    ghost predicate AllFull()
      requires Sized()
      reads maps
    {
      forall n :: 0 <= n < maps.Length ==> maps[n] == Ones(bits)
    }

    /** The first n bitmaps are full. */
    ghost predicate FullUpTo(n: int)
      requires Sized()
      reads maps
    {
      forall d :: 0 <= d < maps.Length && d < n ==> maps[d] == Ones(bits)
    }

    /** Bit i of bitmap n, the lowest clear one, was set, and no other bitmap changed. */
    twostate predicate Took(n: nat, i: nat)
      reads maps
    {
      && n < maps.Length && i < bits && i !in old(maps[n]) && (forall j :: 0 <= j < i ==> j in old(maps[n]))
      && maps[n] == old(maps[n]) + {i}
      && (forall d :: 0 <= d < maps.Length && d != n ==> maps[d] == old(maps[d]))
    }

    /** Slot (n, i) was taken and was the first free slot of the magazine. */
    twostate predicate FirstTaken(n: nat, i: nat)
      reads maps
    {
      Took(n, i) && forall d :: 0 <= d < n && d < maps.Length ==> old(maps[d]) == Ones(bits)
    }

    /** bitmap_set_first_unset_bit: the bit it set, or None when there was none. */
    method SetFirstUnsetBit(n: nat) returns (index: Option<nat>)
      requires Valid() && n < maps.Length
      modifies maps
      ensures index == None ==> old(maps[n]) == Ones(bits) && maps[..] == old(maps[..]) && Valid()
      ensures index.Some? ==> Took(n, index.value) && ValidExcept(n) && !Marked(n)
    {
      hide Marked, Count, Multiple;
      assert Exact(n);
      var i := FirstClear(maps[n], 0, bits);
      if i == bits {
        assert maps[n] == Ones(bits);
        return None;
      }
      assert i in Ones(bits);
      maps[n] := maps[n] + {i};
      forall d | 0 <= d < maps.Length && d != n ensures Exact(d) {
        assert old(Exact(d));
      }
      return Some(i);
    }

    /** mark_bitmap_as_full_if_still_full. */
    method MarkIfFull(n: nat)
      requires ValidExcept(n) && !Marked(n)
      modifies supermaps
      ensures Valid()
    {
      hide WordOf, Position, Count, Multiple, Ones;
      InSupermaps(n, bits, supermaps.Length);
      assert Position(n, bits) in Ones(bits) by {
        OnesIs(bits);
      }
      if maps[n] == Ones(bits) {
        supermaps[WordOf(n, bits)] := supermaps[WordOf(n, bits)] + {Position(n, bits)};
        forall d | 0 <= d < maps.Length ensures Exact(d) {
          if d != n {
            assert old(Exact(d));
            OtherBit(d, n, bits, supermaps.Length);
          }
        }
      } else {
        assert Exact(n);
      }
    }

    /** set_last_found_page(first_bitmap_in_same_page(n)). */
    method SetLastFoundPage(n: nat)
      requires Sized() && n < maps.Length
      modifies this`lastFound
      ensures lastFound.Some? && Multiple(lastFound.value, perPage) && lastFound.value + perPage <= maps.Length
      ensures lastFound == Some(Down(n, perPage))
    {
      PageInside(n, perPage, maps.Length);
      lastFound := Some(Down(n, perPage));
    }

    /** A full supermap word means that all its bitmaps are full. */
    lemma MarkedAreFull(s: nat)
      requires Valid() && s < supermaps.Length && supermaps[s] == Ones(bits) && FullUpTo(s * bits)
      ensures FullUpTo((s + 1) * bits)
    {
      forall d | 0 <= d < maps.Length && d < (s + 1) * bits ensures maps[d] == Ones(bits) {
        if d >= s * bits {
          InWord(d, s, bits);
          assert Exact(d);
        }
      }
    }

    /** The inner loop of alloc_continuation_from_magazine. */
    method AllocFromSupermap(s: nat) returns (r: Option<(nat, nat)>)
      requires Valid() && s < supermaps.Length && FullUpTo(s * bits)
      modifies this`lastFound, maps, supermaps
      ensures Valid()
      ensures r == None ==> FullUpTo((s + 1) * bits) && maps[..] == old(maps[..]) && lastFound == old(lastFound)
      ensures r.Some? ==> FirstTaken(r.value.0, r.value.1) && lastFound == Some(Down(r.value.0, perPage))
    {
      hide Marked, Count, Multiple, Ones, WordOf, Position, Exact;
      var b := 0;
      while b < bits
        invariant b <= bits && Valid() && maps[..] == old(maps[..]) && lastFound == old(lastFound)
        invariant FullUpTo(s * bits + b)
      {
        WordInMaps(s, b, bits, supermaps.Length);
        var n := s * bits + b;
        var index := SetFirstUnsetBit(n);
        if index.Some? {
          SetLastFoundPage(n);
          MarkIfFull(n);
          return Some((n, index.value));
        }
        b := b + 1;
      }
      assert s * bits + bits == (s + 1) * bits by {
        Distribute(s, 1, bits);
      }
      return None;
    }

    /** alloc_continuation_from_magazine. Skipping the supermaps that are full does not
        change the result: it is the first free slot of all, and there is none only when
        every bitmap is full. */
    method AllocFromMagazine() returns (r: Option<(nat, nat)>)
      requires Valid()
      modifies this`lastFound, maps, supermaps
      ensures Valid()
      ensures r == None ==> old(AllFull()) && maps[..] == old(maps[..]) && lastFound == old(lastFound)
      ensures r.Some? ==> FirstTaken(r.value.0, r.value.1) && lastFound == Some(Down(r.value.0, perPage))
    {
      hide Marked, Count, Multiple, Ones, WordOf, Position, Exact;
      var s := 0;
      while s < supermaps.Length
        invariant s <= supermaps.Length && Valid() && maps[..] == old(maps[..]) && lastFound == old(lastFound)
        invariant FullUpTo(s * bits)
      {
        if supermaps[s] == Ones(bits) {
          MarkedAreFull(s);
        } else {
          r := AllocFromSupermap(s);
          if r.Some? {
            return;
          }
        }
        s := s + 1;
      }
      CountIs(supermaps.Length, bits);
      return None;
    }

    /** All bitmaps of the page that starts with bitmap `first` have the value `m`. */
    ghost predicate PageIs(first: nat, m: set<nat>)
      reads maps
    {
      first + perPage <= maps.Length && forall n :: first <= n < first + perPage ==> maps[n] == m
    }

    /** The search of _dispatch_alloc_continuation_alloc in the page where the last slot
        was found. */
    method AllocFromPage(first: nat) returns (r: Option<(nat, nat)>)
      requires Valid() && first + perPage <= maps.Length
      modifies maps, supermaps
      ensures Valid()
      ensures r == None ==> old(PageIs(first, Ones(bits))) && maps[..] == old(maps[..])
      ensures r.Some? ==> Took(r.value.0, r.value.1) && first <= r.value.0 < first + perPage
    {
      hide Marked, Count, Multiple, Ones, WordOf, Position, Exact;
      var k := 0;
      while k < perPage
        invariant k <= perPage && Valid() && maps[..] == old(maps[..])
        invariant forall n :: first <= n < first + k ==> maps[n] == Ones(bits)
      {
        var index := SetFirstUnsetBit(first + k);
        if index.Some? {
          MarkIfFull(first + k);
          return Some((first + k, index.value));
        }
        k := k + 1;
      }
      return None;
    }

    /** _dispatch_alloc_continuation_alloc within one magazine: a free slot if there is
        one, from the page of the last success if that page has one. */
    method Alloc() returns (r: Option<(nat, nat)>)
      requires Valid()
      modifies this`lastFound, maps, supermaps
      ensures Valid()
      ensures r == None <==> old(AllFull())
      ensures r == None ==> maps[..] == old(maps[..]) && lastFound == old(lastFound)
      ensures r.Some? ==> Took(r.value.0, r.value.1) && lastFound == Some(Down(r.value.0, perPage))
      ensures old(lastFound).Some? && !old(PageIs(lastFound.value, Ones(bits))) ==>
        r.Some? && old(lastFound).value <= r.value.0 < old(lastFound).value + perPage
    {
      hide Marked, Count, Multiple, Down, WordOf, Position, Exact;
      if lastFound.Some? {
        r := AllocFromPage(lastFound.value);
        if r.Some? {
          DownUnique(r.value.0, perPage, lastFound.value);
          return;
        }
      }
      r := AllocFromMagazine();
    }

    /** The system call; it is made only while every bitmap of the page is locked. */
    method Madvise(first: nat)
      requires PageIs(first, Ones(bits))
      modifies this`advised
      ensures advised == old(advised) + [first]
    {
      advised := advised + [first];
    }

    /** _dispatch_alloc_maybe_madvise_page: advises the page exactly when all its bitmaps
        are empty, and leaves every bitmap as it was. */
    method MaybeMadvisePage(n: nat)
      requires Sized() && n < maps.Length
      modifies this`advised, maps
      ensures maps[..] == old(maps[..])
      ensures advised == old(advised) + if old(PageIs(Down(n, perPage), {})) then [Down(n, perPage)] else []
    {
      hide Multiple, Down, Count, Ones;
      PageInside(n, perPage, maps.Length);
      var first := Down(n, perPage);
      var k := 0;
      while k < perPage
        invariant k <= perPage && forall d :: first <= d < first + k ==> maps[d] == {}
      {
        if maps[first + k] != {} {
          return;
        }
        k := k + 1;
      }
      LockPage(first);
      Madvise(first);
      UnlockPage(first, perPage);
    }

    /** In a sequential run every compare-and-swap on an empty page succeeds. */
    method LockPage(first: nat)
      requires PageIs(first, {})
      modifies maps
      ensures PageIs(first, Ones(bits))
      ensures forall d :: 0 <= d < maps.Length && !(first <= d < first + perPage) ==> maps[d] == old(maps[d])
    {
      hide Ones;
      var locked := 0;
      while locked < perPage
        invariant locked <= perPage
        invariant forall d :: first <= d < first + locked ==> maps[d] == Ones(bits)
        invariant forall d :: first + locked <= d < first + perPage ==> maps[d] == {}
        invariant forall d :: 0 <= d < maps.Length && !(first <= d < first + perPage) ==> maps[d] == old(maps[d])
      {
        maps[first + locked] := Ones(bits);
        locked := locked + 1;
      }
    }

    /** The label `unlock`: from the last locked bitmap down to the first. */
    method UnlockPage(first: nat, locked: nat)
      requires first + locked <= maps.Length
      modifies maps
      ensures forall d :: first <= d < first + locked ==> maps[d] == {}
      ensures forall d :: 0 <= d < maps.Length && !(first <= d < first + locked) ==> maps[d] == old(maps[d])
    {
      var last := locked;
      while last > 0
        invariant 0 <= last <= locked
        invariant forall d :: first + last <= d < first + locked ==> maps[d] == {}
        invariant forall d :: 0 <= d < maps.Length && !(first + last <= d < first + locked) ==> maps[d] == old(maps[d])
      {
        last := last - 1;
        maps[first + last] := {};
      }
    }

    /** bitmap_clear_bit on a supermap, without the test for corruption. */
    method ClearMark(n: nat)
      requires ValidExcept(n) && maps[n] != Ones(bits)
      modifies supermaps
      ensures Valid()
    {
      hide WordOf, Position, Count, Multiple, Ones;
      InSupermaps(n, bits, supermaps.Length);
      supermaps[WordOf(n, bits)] := supermaps[WordOf(n, bits)] - {Position(n, bits)};
      forall d | 0 <= d < maps.Length ensures Exact(d) {
        if d != n {
          assert old(Exact(d));
          OtherBit(d, n, bits, supermaps.Length);
        }
      }
    }

    /** _dispatch_alloc_continuation_free: crashes exactly when the slot is not allocated;
        otherwise clears its bit alone and advises the page when that left it empty. */
    method Free(n: nat, i: nat) returns (r: FreeResult)
      requires Valid() && n < maps.Length && i < bits
      modifies this`advised, maps, supermaps
      ensures Valid()
      ensures r == Crash <==> i !in old(maps[n])
      ensures r == Crash ==> maps[..] == old(maps[..]) && advised == old(advised)
      ensures r != Crash ==> maps[..] == old(maps[..])[n := old(maps[n]) - {i}]
      ensures r != Crash ==> r.advised == PageIs(Down(n, perPage), {})
      ensures r != Crash ==> advised == old(advised) + if r.advised then [Down(n, perPage)] else []
    {
      hide Marked, Count, Multiple, WordOf, Position, Down;
      assert Exact(n);
      if i !in maps[n] {
        return Crash;
      }
      maps[n] := maps[n] - {i};
      forall d | 0 <= d < maps.Length && d != n ensures Exact(d) {
        assert old(Exact(d));
      }
      assert i in Ones(bits);
      ClearMark(n);
      PageInside(n, perPage, maps.Length);
      label cleared:
      if maps[n] == {} {
        var before := advised;
        MaybeMadvisePage(n);
        assert forall d :: 0 <= d < maps.Length ==> maps[d] == old@cleared(maps[..])[d];
        forall d | 0 <= d < maps.Length ensures Exact(d) {
          assert old@cleared(Exact(d));
        }
        return Freed(|advised| > |before|);
      }
      return Freed(false);
    }
  }

  /** Bitmaps in so many supermaps. */
  function Count(supers: nat, bits: nat): nat {
    supers * bits
  }

  /** The supermap of bitmap n, and its bit there. */
  function WordOf(n: nat, bits: nat): nat
    requires bits > 0
  {
    n / bits
  }

  function Position(n: nat, bits: nat): nat
    requires bits > 0
  {
    n % bits
  }

  lemma InSupermaps(n: nat, bits: nat, supers: nat)
    requires bits > 0 && n < Count(supers, bits)
    ensures WordOf(n, bits) < supers && Position(n, bits) < bits
  {
    var q, r := Divide(n, bits);
    if q >= supers {
      TimesMonotone(supers, q, bits);
    }
  }

  lemma OnesIs(n: nat)
    ensures forall i: nat :: i in Ones(n) <==> i < n
  {
  }

  lemma OtherBit(d: nat, n: nat, bits: nat, supers: nat)
    requires bits > 0 && d != n && d < Count(supers, bits) && n < Count(supers, bits)
    ensures WordOf(d, bits) < supers && WordOf(n, bits) < supers
    ensures WordOf(d, bits) != WordOf(n, bits) || Position(d, bits) != Position(n, bits)
  {
    InSupermaps(d, bits, supers);
    InSupermaps(n, bits, supers);
    var q, r := Divide(d, bits);
    var p, t := Divide(n, bits);
  }

  lemma CountIs(supers: nat, bits: nat)
    ensures Count(supers, bits) == supers * bits
  {
  }

  lemma InWord(d: nat, s: nat, bits: nat)
    requires bits > 0 && s * bits <= d < (s + 1) * bits
    ensures WordOf(d, bits) == s && Position(d, bits) in Ones(bits)
  {
    Distribute(s, 1, bits);
    DivideUnique(d, bits, s, d - s * bits);
  }

  lemma WordInMaps(s: nat, b: nat, bits: nat, supers: nat)
    requires b < bits && s < supers
    ensures 0 <= s * bits && s * bits + b < Count(supers, bits)
  {
    TimesMonotone(s + 1, supers, bits);
    Distribute(s, 1, bits);
  }

  /** The bitmaps determine the supermaps: whatever sequence of allocations and frees leads
      back to the same bitmaps leads back to the same supermaps. */
  lemma MapsDetermineSupermaps(a: Magazine, b: Magazine, s: nat)
    requires a.Valid() && b.Valid() && a.bits == b.bits && a.maps[..] == b.maps[..] && s < a.supermaps.Length
    ensures s < b.supermaps.Length && a.supermaps[s] == b.supermaps[s]
  {
    SameCount(a.supermaps.Length, b.supermaps.Length, a.bits);
    forall p | p in Ones(a.bits) ensures p in a.supermaps[s] <==> p in b.supermaps[s] {
      WordInMaps(s, p, a.bits, a.supermaps.Length);
      var n := s * a.bits + p;
      PlaceOf(s, p, a.bits);
      assert a.maps[n] == a.maps[..][n] == b.maps[..][n] == b.maps[n];
      assert a.Exact(n) && b.Exact(n);
    }
    assert a.supermaps[s] <= Ones(a.bits) && b.supermaps[s] <= Ones(a.bits);
  }

  lemma PlaceOf(s: nat, p: nat, bits: nat)
    requires p < bits
    ensures 0 <= s * bits && WordOf(s * bits + p, bits) == s && Position(s * bits + p, bits) == p
  {
    TimesMonotone(0, s, bits);
    DivideUnique(s * bits + p, bits, s, p);
  }

  lemma SameCount(x: nat, y: nat, bits: nat)
    requires bits > 0 && Count(x, bits) == Count(y, bits)
    ensures x == y
  {
    MultipleOf(x, bits);
    MultipleOf(y, bits);
  }
}
