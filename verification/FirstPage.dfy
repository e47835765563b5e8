/** The slots packed into the first page of a magazine (allocator_internal.h), and the
    realignment of the memory of a heap (allocator.c). */
module FirstPage {
  import opened Powers
  import opened MagazineLayout

  /** BYTES_LEFT_IN_FIRST_PAGE. */
  function Left(l: Layout): nat
    requires l.Legal()
  {
    l.page - l.FirstMapsOffset()
  }

  /** FULL_BITMAPS_IN_FIRST_PAGE. */
  function FullMaps(l: Layout): nat
    requires l.Legal()
  {
    Quotient(Left(l), l.BitmapCost())
  }

  /** REMAINDERED_CONTINUATIONS_IN_FIRST_PAGE. */
  function Remaindered(l: Layout): int
    requires l.Legal()
  {
    (Left(l) - FullMaps(l) * l.BitmapCost() - (if FullMaps(l) > 0 then 0 else Up(l.word, l.slot))) / l.slot
  }

  /** BITMAPS_IN_FIRST_PAGE and CONTINUATIONS_IN_FIRST_PAGE. */
  function Maps(l: Layout): nat
    requires l.Legal()
  {
    FullMaps(l) + if Remaindered(l) == 0 then 0 else 1
  }

  function Slots(l: Layout): int
    requires l.Legal()
  {
    FullMaps(l) * l.bits + Remaindered(l)
  }

  /** Where `fp_conts` starts. */
  function SlotsOffset(l: Layout): nat
    requires l.Legal()
  {
    l.FirstMapsOffset() + Up(l.word * Maps(l), l.slot)
  }

  /** The static assertion that the slots end with the first page. */
  predicate Packs(l: Layout)
    requires l.Legal()
  {
    SlotsOffset(l) + Slots(l) * l.slot == l.page
  }

  /** The bytes left are whole slots. */
  lemma LeftIsSlots(l: Layout) returns (q: nat)
    requires l.Legal()
    ensures Left(l) == q * l.slot
  {
    hide Layout.Supermaps;
    TimesAssociative(l.perPage, l.bits, l.slot);
    MultipleOf(l.perPage * l.bits, l.slot);
    UpIsMultiple(Up(l.header + l.word * l.Supermaps(), l.perPage * l.word), l.slot);
    UpIsMultiple(l.word * l.Bitmaps(), l.slot);
    MultipleSum(l.MapsOffset(), Up(l.word * l.Bitmaps(), l.slot), l.slot);
    MultipleMinus(l.page, l.FirstMapsOffset(), l.slot);
    q := Left(l) / l.slot;
    QuotientOf(Left(l), l.slot);
  }

  lemma MultipleMinus(x: nat, y: nat, n: nat)
    requires n > 0 && Multiple(x, n) && Multiple(y, n) && y <= x
    ensures Multiple(x - y, n)
  {
    QuotientOf(x, n);
    QuotientOf(y, n);
    Distribute(x / n, y / n, n);
    TimesCancel(y / n, x / n, n);
    MultipleOf(x / n - y / n, n);
  }

  /** Rounding the words up and filling with slots: what the division rounds off is what
      the rounding up adds. */
  lemma FillsUp(left: nat, words: nat, slot: nat, taken: nat, q: nat)
    requires slot > 0 && left == q * slot && taken * slot + words <= left
    ensures (left - taken * slot - words) / slot >= 0
    ensures (taken + (left - taken * slot - words) / slot) * slot + Up(words, slot) == left
  {
    var c, r := Divide(left - taken * slot - words, slot);
    Distribute(taken, c, slot);
    Distribute(q, taken + c, slot);
    var up := words + r;
    assert up == left - (taken + c) * slot == (q - (taken + c)) * slot;
    if q < taken + c {
      TimesMonotone(q + 1, taken + c, slot);
      Distribute(q, 1, slot);
    }
    MultipleOf(q - (taken + c), slot);
    UpUnique(words, slot, up);
  }

  lemma UpUnique(x: nat, n: nat, up: nat)
    requires n > 0 && Multiple(up, n) && x <= up < x + n
    ensures Up(x, n) == up
  {
    DownUnique(x + (n - 1), n, up);
  }

  /** Adding one more word keeps the rounded size exactly when there was padding. */
  lemma OneMoreWord(words: nat, word: nat, slot: nat)
    requires word > 0 && slot > 0 && Multiple(slot, word) && Multiple(words, word)
    ensures Up(words + word, slot) == Up(words, slot) <==> !Multiple(words, slot)
  {
    hide Up, Multiple;
    UpIsMultiple(words, slot);
    if Multiple(words, slot) {
      UpUnique(words, slot, words);
      UpIsMultiple(words + word, slot);
    } else {
      var up := Up(words, slot);
      MultipleTrans(up, slot, word);
      MultipleMinus(up, words, word);
      QuotientOf(up - words, word);
      var k := (up - words) / word;
      TimesMonotone(1, k, word);
      UpUnique(words + word, slot, up);
    }
  }

  /** The first page packs exactly when either there is room for one full bitmap, and then
      no slots are left over or the full bitmaps need padding, or there is not, and then
      more than one slot's room is left. */
  lemma PacksIff(l: Layout)
    requires l.Legal() && Left(l) > 0
    ensures Packs(l) <==>
      if FullMaps(l) == 0 then Left(l) > l.slot
      else Remaindered(l) == 0 || !Multiple(l.word * FullMaps(l), l.slot)
  {
    hide Layout.Supermaps, Layout.MapsOffset, Layout.FirstMapsOffset, Multiple, Up, Layout.BitmapCost, Left;
    var q := LeftIsSlots(l);
    if FullMaps(l) == 0 {
      SmallFirstPage(l, q);
    } else {
      LargeFirstPage(l, q);
    }
  }

  lemma SmallFirstPage(l: Layout, q: nat)
    requires l.Legal() && Left(l) == q * l.slot > 0 && FullMaps(l) == 0
    ensures Packs(l) <==> Left(l) > l.slot
  {
    hide Layout.Supermaps, Layout.MapsOffset, Layout.FirstMapsOffset, Multiple, Up;
    WordFitsSlot(l);
    assert Up(l.word, l.slot) == l.slot;
    Distribute(q, 1, l.slot);
    MultipleOf(q - 1, l.slot);
    assert Remaindered(l) == q - 1 && Slots(l) == q - 1;
    if q == 1 {
      MultipleOf(0, l.slot);
      UpUnique(0, l.slot, 0);
    } else {
      TimesMonotone(2, q, l.slot);
      assert Maps(l) == 1;
    }
  }

  lemma WordFitsSlot(l: Layout)
    requires l.Legal()
    ensures Up(l.word, l.slot) == l.slot
  {
    hide Layout.Supermaps, Layout.MapsOffset, Layout.FirstMapsOffset, Multiple, Up;
    QuotientOf(l.slot, l.word);
    var k := l.slot / l.word;
    TimesMonotone(1, k, l.word);
    MultipleOf(1, l.slot);
    UpUnique(l.word, l.slot, l.slot);
  }

  lemma LargeFirstPage(l: Layout, q: nat)
    requires l.Legal() && Left(l) == q * l.slot && FullMaps(l) > 0
    ensures Packs(l) <==> Remaindered(l) == 0 || !Multiple(l.word * FullMaps(l), l.slot)
  {
    hide Layout.Supermaps, Layout.MapsOffset, Layout.FirstMapsOffset, Multiple, Up, Left, FullMaps;
    hide Layout.BitmapCost, Packs, Slots, Remaindered;
    var full := FullMaps(l);
    SlotsAndWords(l, q);
    PacksUp(l);
    WordMultiple(l, full);
    OneMoreWord(l.word * full, l.word, l.slot);
  }

  lemma WordMultiple(l: Layout, full: nat)
    requires l.Legal()
    ensures Multiple(l.word * full, l.word) && l.word * (full + 1) == l.word * full + l.word
  {
    hide Layout.Supermaps, Layout.MapsOffset, Layout.FirstMapsOffset, Multiple;
    MultipleOf(full, l.word);
  }

  /** The slots and the rounded words of the full bitmaps fill what is left. */
  lemma SlotsAndWords(l: Layout, q: nat)
    requires l.Legal() && Left(l) == q * l.slot && FullMaps(l) > 0
    ensures Slots(l) * l.slot + Up(l.word * FullMaps(l), l.slot) == Left(l)
  {
    hide Layout.Supermaps, Layout.MapsOffset, Layout.FirstMapsOffset, Multiple, Up, Left, FullMaps;
    hide Layout.BitmapCost, Remaindered;
    var full := FullMaps(l);
    FullFits(l);
    CostSplits(l, full);
    RemainderedSplits(l, full);
    FillsUp(Left(l), l.word * full, l.slot, full * l.bits, q);
  }

  lemma PacksUp(l: Layout)
    requires l.Legal() && Slots(l) * l.slot + Up(l.word * FullMaps(l), l.slot) == Left(l)
    ensures Packs(l) <==> Up(l.word * Maps(l), l.slot) == Up(l.word * FullMaps(l), l.slot)
  {
    hide Layout.Supermaps, Layout.MapsOffset, Layout.FirstMapsOffset, Multiple, Up, Left, FullMaps;
    hide Layout.BitmapCost, Remaindered, Maps, Slots;
    LeftEnds(l);
  }

  lemma FullFits(l: Layout)
    requires l.Legal()
    ensures FullMaps(l) * l.BitmapCost() <= Left(l)
  {
    hide Layout.Legal, Left, Layout.BitmapCost;
    assert l.BitmapCost() > 0 by { LegalIsPositive(l); }
    var q, r := Divide(Left(l), l.BitmapCost());
  }

  lemma RemainderedSplits(l: Layout, full: nat)
    requires l.Legal() && full == FullMaps(l) > 0
    ensures Remaindered(l) == (Left(l) - full * l.bits * l.slot - l.word * full) / l.slot
  {
    hide Layout.Supermaps, Layout.MapsOffset, Layout.FirstMapsOffset, Multiple, Up, Left, FullMaps, Layout.BitmapCost;
    CostSplits(l, full);
  }

  lemma CostSplits(l: Layout, full: nat)
    ensures full * l.BitmapCost() == full * l.bits * l.slot + l.word * full
  {
    TimesAssociative(full, l.bits, l.slot);
    Distribute(l.word, l.slot * l.bits, full);
    assert full * (l.bits * l.slot) == l.slot * l.bits * full;
  }

  lemma LeftEnds(l: Layout)
    requires l.Legal()
    ensures l.FirstMapsOffset() + Left(l) == l.page
  {
  }

  /** The magazine of 64 pages of 16384 bytes packs its first page: three full bitmaps and
      38 slots more. */
  lemma SmallMagazinePacks()
    ensures SMALL.Legal() && Packs(SMALL) && FullMaps(SMALL) == 3 && Remaindered(SMALL) == 38
  {
    hide Layout.Supermaps, Layout.MapsOffset, Layout.FirstMapsOffset;
    UsualLayoutsAreLegal();
    assert SMALL.BitmapCost() == 4104 && Left(SMALL) == 14784;
    DivideUnique(14784, 4104, 3, 2472);
    DivideUnique(2472, 64, 38, 40);
    assert Maps(SMALL) == 4 && Up(32, 64) == 64;
  }

  /** With slots of 128 bytes and 1024 pages of 16384 bytes, one slot's room is left, which
      the bitmap word that the macros reserve takes up: the assertion fails. */
  lemma FirstPageCanFailToPack()
    ensures var l := Layout(16384, 128, 8, 64, 2, 16777216, 16);
      l.Legal() && FullMaps(l) == 0 && Left(l) == l.slot && !Packs(l)
  {
    var l := Layout(16384, 128, 8, 64, 2, 16777216, 16);
    hide Layout.Supermaps, Layout.MapsOffset, Layout.FirstMapsOffset, Layout.Legal, Packs, Up;
    WideLayout(l);
    assert l.BitmapCost() == 8200;
    DivideUnique(128, 8200, 0, 128);
    PacksIff(l);
  }

  lemma WideLayout(l: Layout)
    requires l == Layout(16384, 128, 8, 64, 2, 16777216, 16)
    ensures l.Legal() && l.FirstMapsOffset() == 16256
  {
    hide Layout.Supermaps, Multiple, Up;
    WideSupermaps(l);
    Rounded(264, 16, 272);
    Rounded(272, 128, 384);
    Rounded(15872, 128, 15872);
    assert l.word * l.Bitmaps() == 15872;
    MultipleOf(1024, 16384);
    MultipleOf(16, 8);
    MultipleOf(24, 16);
  }

  lemma WideSupermaps(l: Layout)
    requires l == Layout(16384, 128, 8, 64, 2, 16777216, 16)
    ensures l.Positive() && l.Supermaps() == 31
  {
    assert l.BitmapCost() == 8200 && l.SupermapCost() == 524808;
    DivideUnique(16760832, 524808, 31, 491784);
  }

  /** &fp_conts[c], where `fp_conts` starts at offset `start` of the magazine. */
  function SlotAddress(l: Layout, m: nat, start: nat, c: nat): nat {
    m + start + c * l.slot
  }

  /** The first-page slots lie one behind the other in the order of their bitmaps and indices;
      when the page packs, they end with it. */
  lemma FirstSlotsInARow(l: Layout, m: nat, k: nat, i: nat)
    requires l.Legal() && i < l.bits
    ensures var start := SlotsOffset(l);
      && SlotAddress(l, m, start, 0) == m + start
      && (i + 1 < l.bits ==>
            SlotAddress(l, m, start, k * l.bits + (i + 1)) == SlotAddress(l, m, start, k * l.bits + i) + l.slot)
      && (i + 1 == l.bits ==>
            SlotAddress(l, m, start, (k + 1) * l.bits) == SlotAddress(l, m, start, k * l.bits + i) + l.slot)
      && (Packs(l) && Slots(l) >= 0 ==> SlotAddress(l, m, start, Slots(l)) == m + l.page)
  {
    hide Layout.Supermaps, Layout.MapsOffset, Layout.FirstMapsOffset, Multiple, Up, FullMaps, Remaindered, Maps;
    hide SlotsOffset, Slots;
    Distribute(k * l.bits + i, 1, l.slot);
    Distribute(k, 1, l.bits);
  }

  /** Bitmap k may hand out index i: all bits of a full bitmap, and of the bitmap after
      them the bits up to the limit that the allocation passes. */
  predicate MayAllocate(l: Layout, k: nat, i: nat)
    requires l.Legal()
  {
    (k < FullMaps(l) && i < l.bits) || (k == FullMaps(l) && i < l.bits && i < Remaindered(l))
  }

  /** Every index that the first-page bitmaps may hand out is a slot that lies inside the
      first page, and its address leads back to the same bitmap and index. */
  lemma LocateFirstPageSlot(l: Layout, m: nat, k: nat, i: nat)
    requires l.Legal() && Packs(l) && Multiple(m, l.magazine) && MayAllocate(l, k, i) && Left(l) > 0
    ensures k * l.bits + i < Slots(l)
    ensures SlotAddress(l, m, SlotsOffset(l), k * l.bits + i) + l.slot <= m + l.page
    ensures Locate(l, SlotsOffset(l), SlotAddress(l, m, SlotsOffset(l), k * l.bits + i)) == InFirstPage(k, i)
  {
    hide Locate, Layout.Supermaps, Layout.MapsOffset, Layout.FirstMapsOffset, Multiple, Up;
    hide FullMaps, Remaindered, Maps, SlotsOffset, Left;
    RemainderedFits(l);
    var c := k * l.bits + i;
    if k < FullMaps(l) {
      FlatBound(k, i, FullMaps(l), l.bits);
    }
    assert c < Slots(l);
    ScaledBelow(c, Slots(l), l.slot);
    LocateAt(l, m, SlotsOffset(l), c, k, i);
  }

  lemma LocateAt(l: Layout, m: nat, start: nat, c: nat, k: nat, i: nat)
    requires l.Legal() && Multiple(m, l.magazine) && c == k * l.bits + i && i < l.bits
    requires 0 <= c * l.slot && start + c * l.slot + l.slot <= l.page
    ensures Locate(l, start, m + start + c * l.slot) == InFirstPage(k, i)
  {
    hide Layout.Supermaps, Layout.MapsOffset, Layout.FirstMapsOffset, Multiple, Up, Down;
    var a := m + start + c * l.slot;
    DownUnique(a, l.magazine, m);
    MultipleTrans(m, l.magazine, l.page);
    DownUnique(a, l.page, m);
    MultipleOf(c, l.slot);
    DivideUnique(c, l.bits, k, i);
  }

  /** The slots beside the full bitmaps are no more than one bitmap has bits for. */
  lemma RemainderedFits(l: Layout)
    requires l.Legal() && Left(l) > 0
    ensures 0 <= Remaindered(l) <= l.bits
  {
    hide Layout.Supermaps, Layout.MapsOffset, Layout.FirstMapsOffset, Multiple, Up, Left, FullMaps;
    WordFitsSlot(l);
    WordAtMostSlot(l);
    var q := LeftIsSlots(l);
    var full := FullMaps(l);
    RoundedOff(l);
    var rest := Left(l) - full * l.BitmapCost() - (if full > 0 then 0 else l.slot);
    AtLeastOne(q, l.slot);
    Distribute(l.bits, 1, l.slot);
    QuotientAtMost(rest, l.slot, l.bits);
  }

  lemma RoundedOff(l: Layout)
    requires l.Legal()
    ensures 0 <= Left(l) - FullMaps(l) * l.BitmapCost() < l.BitmapCost()
    ensures FullMaps(l) == 0 ==> FullMaps(l) * l.BitmapCost() == 0
  {
    hide Layout.Legal, Left, Layout.BitmapCost;
    assert l.BitmapCost() > 0 by { LegalIsPositive(l); }
    var q, r := Divide(Left(l), l.BitmapCost());
  }

  lemma AtLeastOne(q: nat, n: nat)
    requires q * n > 0
    ensures q * n >= n
  {
    TimesMonotone(1, q, n);
  }

  lemma QuotientAtMost(x: int, n: nat, count: nat)
    requires n > 0 && 0 <= x < count * n + n
    ensures 0 <= x / n <= count
  {
    var q, r := Divide(x, n);
    Distribute(count, 1, n);
    QuotientBelow(q, n, count + 1);
  }

  lemma WordAtMostSlot(l: Layout)
    requires l.Legal()
    ensures l.word <= l.slot
  {
    hide Layout.Supermaps, Layout.MapsOffset, Layout.FirstMapsOffset, Multiple, Up;
    QuotientOf(l.slot, l.word);
    AtLeastOne(l.slot / l.word, l.word);
  }

  /** The other direction: the address of any slot behind the first-page bitmaps leads to a
      bitmap and an index that may be handed out, and these lead back to the address. */
  lemma FirstPageSlotOfPlace(l: Layout, m: nat, a: nat)
    requires l.Legal() && Left(l) > 0 && Packs(l) && Multiple(m, l.magazine)
    requires m + SlotsOffset(l) <= a < m + l.page && Multiple(a - (m + SlotsOffset(l)), l.slot)
    ensures var p := Locate(l, SlotsOffset(l), a);
      && p.InFirstPage? && p.k >= 0 && p.i >= 0 && MayAllocate(l, p.k, p.i)
      && SlotAddress(l, m, SlotsOffset(l), p.k * l.bits + p.i) == a
  {
    hide Locate, Layout.Supermaps, Layout.MapsOffset, Layout.FirstMapsOffset, Up;
    hide FullMaps, Remaindered, Maps, SlotsOffset, Left;
    RemainderedFits(l);
    var start := SlotsOffset(l);
    var c, r := Divide(a - (m + start), l.slot);
    assert r == 0;
    QuotientBelow(c, l.slot, Slots(l));
    var k, i := Divide(c, l.bits);
    PlaceMayAllocate(l, c, k, i);
    ScaledBelow(c, Slots(l), l.slot);
    LocateAt(l, m, start, c, k, i);
  }

  lemma PlaceMayAllocate(l: Layout, c: nat, k: nat, i: nat)
    requires l.Legal() && c == k * l.bits + i && i < l.bits && c < Slots(l) && 0 <= Remaindered(l) <= l.bits
    ensures MayAllocate(l, k, i)
  {
    hide Layout.Legal, FullMaps, Remaindered;
    var full := FullMaps(l);
    if k > full {
      TimesMonotone(full + 1, k, l.bits);
      Distribute(full, 1, l.bits);
    }
  }

  // ----- the memory of a heap

  /** The pieces of a fresh mapping: a start below the first magazine boundary, the
      magazines, and the rest. */
  datatype Realigned = Realigned(bottom: nat, aligned: nat, alignedEnd: nat, top: int)

  function Realign(region: nat, magazine: nat, magazines: nat): Realigned
    requires magazine > 0
  {
    var regionEnd := region + (1 + magazines) * magazine;
    if region % magazine == 0 then
      assert regionEnd >= magazine by { TimesMonotone(1, 1 + magazines, magazine); }
      Realigned(0, region, regionEnd - magazine, magazine)
    else
      var aligned := Down(region, magazine) + magazine;
      assert aligned >= region by { DownIsMultiple(region, magazine); }
      Realigned(aligned - region, aligned, aligned + magazines * magazine, magazine - (aligned - region))
  }

  /** Both ways the mapping is cut into three pieces without gap or overlap, the middle one
      being the wanted number of magazines, each at a multiple of its size. */
  lemma RealignCuts(region: nat, magazine: nat, magazines: nat)
    requires magazine > 0
    ensures var r := Realign(region, magazine, magazines);
      && Multiple(r.aligned, magazine)
      && region + r.bottom == r.aligned && r.alignedEnd == r.aligned + magazines * magazine
      && r.top > 0 && r.alignedEnd + r.top == region + (1 + magazines) * magazine
      && (forall k: nat :: k < magazines ==> Multiple(r.aligned + k * magazine, magazine))
  {
    hide Multiple, Down;
    var r := Realign(region, magazine, magazines);
    Distribute(1, magazines, magazine);
    if region % magazine == 0 {
      assert Multiple(region, magazine) by { Aligned(region, magazine); }
    } else {
      DownIsMultiple(region, magazine);
      MultipleOf(1, magazine);
      MultipleSum(Down(region, magazine), magazine, magazine);
      NotAligned(region, magazine);
    }
    forall k: nat | k < magazines ensures Multiple(r.aligned + k * magazine, magazine) {
      MultipleOf(k, magazine);
      MultipleSum(r.aligned, k * magazine, magazine);
    }
  }

  lemma Aligned(x: nat, n: nat)
    requires n > 0 && x % n == 0
    ensures Multiple(x, n)
  {
  }

  lemma NotAligned(x: nat, n: nat)
    requires n > 0 && x % n != 0
    ensures Down(x, n) < x
  {
  }
}
