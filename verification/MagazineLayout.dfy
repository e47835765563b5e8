/** The addresses inside a magazine of continuations (allocator_internal.h) and the index
    arithmetic of allocator.c over them. */
module MagazineLayout {
  import opened Powers

  /** Sizes in bytes: a page, a slot (DISPATCH_CONTINUATION_SIZE), a bitmap word, a
      magazine and its header. `bits` is CONTINUATIONS_PER_BITMAP and also
      BITMAPS_PER_SUPERMAP, `perPage` is BITMAPS_PER_PAGE. */
  datatype Layout = Layout(page: nat, slot: nat, word: nat, bits: nat, perPage: nat, magazine: nat, header: nat) {

    predicate Positive() {
      page > 0 && slot > 0 && word > 0 && bits > 0 && perPage > 0 && magazine >= page && perPage * word > 0
    }

    /** CONSUMED_BYTES_PER_BITMAP. */
    function BitmapCost(): (cost: nat)
      ensures cost >= word
    {
      word + slot * bits
    }

    /** CONSUMED_BYTES_PER_SUPERMAP. */
    function SupermapCost(): (cost: nat)
      ensures cost >= word
    {
      word + bits * BitmapCost()
    }

    /** SUPERMAPS_PER_MAGAZINE. */
    function Supermaps(): nat
      requires Positive()
    {
      (magazine - page) / SupermapCost()
    }

    /** BITMAPS_PER_MAGAZINE. */
    function Bitmaps(): nat
      requires Positive()
    {
      Supermaps() * bits
    }

    /** Where `maps` starts: header and supermaps, rounded up twice. */
    function MapsOffset(): nat
      requires Positive()
    {
      Up(Up(header + word * Supermaps(), perPage * word), slot)
    }

    /** Where `fp_maps` would start. */
    function FirstMapsOffset(): nat
      requires Positive()
    {
      MapsOffset() + Up(word * Bitmaps(), slot)
    }

    /** What the static assertions and the size macros guarantee: a page holds whole
        bitmaps, a magazine whole pages, `maps` is aligned to the bitmaps of a page, and
        everything before `conts` fits in the first page. */
    predicate Legal() {
      && Positive()
      && bits == 8 * word
      && page == perPage * (bits * slot)
      && Multiple(magazine, page)
      && Multiple(slot, word)
      && Multiple(MapsOffset(), perPage * word)
      && FirstMapsOffset() <= page
    }

    // addresses

    /** &maps[s][b], where n == s * bits + b. */
    function BitmapAddress(m: nat, n: nat): nat
      requires Positive()
    {
      m + MapsOffset() + n * word
    }

    /** &conts[s][b][i], where n == s * bits + b. */
    function SlotAddress(m: nat, n: nat, i: nat): nat {
      m + page + (n * bits + i) * slot
    }

    function MagazineOf(a: nat): nat
      requires Positive()
    {
      Down(a, magazine)
    }

    function PageOf(a: nat): nat
      requires Positive()
    {
      Down(a, page)
    }

    /** first_bitmap_in_same_page. */
    function FirstBitmapInPage(a: nat): nat
      requires Positive()
    {
      Down(a, perPage * word)
    }
  }

  /** What get_maps_and_indices_for_continuation computes: supermap, bitmap in the
      supermap and index in the bitmap, or bitmap and index in the first page. */
  datatype Place = InMain(s: int, b: int, i: int) | InFirstPage(k: int, i: int)

  function Locate(l: Layout, firstSlots: nat, a: nat): Place
    requires l.Positive()
  {
    var m := l.MagazineOf(a);
    if m == l.PageOf(a) then
      var c := (a - (m + firstSlots)) / l.slot;
      InFirstPage(c / l.bits, c % l.bits)
    else
      var c := (a - (m + l.page)) / l.slot;
      InMain(c / (l.bits * l.bits), c / l.bits % l.bits, c % l.bits)
  }

  /** Layouts that occur, with 64-byte slots and 64-bit words: 512 pages of 16384 or of
      4096 bytes, and 64 pages of 16384 bytes. */
  const LARGE: Layout := Layout(16384, 64, 8, 64, 4, 8388608, 16)
  const MEDIUM: Layout := Layout(4096, 64, 8, 64, 1, 2097152, 16)
  const SMALL: Layout := Layout(16384, 64, 8, 64, 4, 1048576, 16)

  lemma UsualLayoutsAreLegal()
    ensures LARGE.Legal() && LARGE.Supermaps() == 31 && LARGE.FirstMapsOffset() == 16192
    ensures MEDIUM.Legal() && MEDIUM.Supermaps() == 7 && MEDIUM.FirstMapsOffset() == 3712
    ensures SMALL.Legal() && SMALL.Supermaps() == 3 && SMALL.FirstMapsOffset() == 1600
  {
    hide Layout.Supermaps, Layout.MapsOffset, Layout.FirstMapsOffset, Layout.Legal, Layout.Positive, Multiple, Up;
    Rounded(264, 32, 288);
    Rounded(288, 64, 320);
    UsualLayout(LARGE, 31, 288, 320, 512, 10);
    Rounded(72, 8, 72);
    Rounded(72, 64, 128);
    UsualLayout(MEDIUM, 7, 72, 128, 512, 16);
    Rounded(40, 32, 64);
    Rounded(64, 64, 64);
    UsualLayout(SMALL, 3, 64, 64, 64, 2);
  }

  lemma Rounded(x: nat, n: nat, up: nat)
    requires n > 0 && x <= up < x + n && up % n == 0
    ensures Up(x, n) == up
  {
    DownUnique(x + (n - 1), n, up);
  }

  lemma UsualLayout(l: Layout, supers: nat, once: nat, offset: nat, pages: nat, groups: nat)
    requires l.slot == 64 && l.word == 8 && l.bits == 64 && l.header == 16 && l.perPage > 0
    requires l.page == l.perPage * 4096 && l.magazine == pages * l.page && pages > 0 && l.magazine >= l.page
    requires supers * 262664 <= l.magazine - l.page < supers * 262664 + 262664
    requires Up(16 + 8 * supers, l.perPage * 8) == once && Up(once, 64) == offset == groups * (l.perPage * 8)
    requires offset + 512 * supers <= l.page
    ensures l.Legal() && l.Supermaps() == supers && l.FirstMapsOffset() == offset + 512 * supers
  {
    hide Layout.Supermaps, Layout.MapsOffset, Layout.FirstMapsOffset, Layout.Legal, Multiple, Up;
    SupermapsAre(l, supers);
    Offsets(l, supers, once, offset);
    LegalFrom(l, pages, groups, offset);
  }

  lemma LegalFrom(l: Layout, pages: nat, groups: nat, offset: nat)
    requires l.Positive() && l.slot == 64 && l.word == 8 && l.bits == 64
    requires l.page == l.perPage * 4096 && l.magazine == pages * l.page
    requires l.MapsOffset() == offset == groups * (l.perPage * 8) && l.FirstMapsOffset() <= l.page
    ensures l.Legal()
  {
    hide Layout.Supermaps, Layout.MapsOffset, Layout.FirstMapsOffset, Multiple;
    MultipleOf(pages, l.page);
    MultipleOf(8, 8);
    MultipleOf(groups, l.perPage * 8);
  }

  lemma SupermapsAre(l: Layout, supers: nat)
    requires l.Positive() && l.slot == 64 && l.word == 8 && l.bits == 64
    requires supers * 262664 <= l.magazine - l.page < supers * 262664 + 262664
    ensures l.Supermaps() == supers
  {
    assert l.BitmapCost() == 4104 && l.SupermapCost() == 262664;
    DivideUnique(l.magazine - l.page, 262664, supers, l.magazine - l.page - supers * 262664);
  }

  lemma Offsets(l: Layout, supers: nat, once: nat, offset: nat)
    requires l.Positive() && l.slot == 64 && l.word == 8 && l.bits == 64 && l.header == 16 && l.Supermaps() == supers
    requires Up(16 + 8 * supers, l.perPage * 8) == once && Up(once, 64) == offset
    ensures l.MapsOffset() == offset && l.FirstMapsOffset() == offset + 512 * supers
  {
    hide Layout.Supermaps, Up;
    assert l.Bitmaps() == supers * 64;
    MultipleOf(8 * supers, 64);
    UpOfMultiple(8 * supers * 64, 64);
    assert l.word * l.Bitmaps() == 8 * supers * 64;
  }

  // ----- everything fits

  /** The main array of slots ends inside the magazine. */
  lemma SlotsFit(l: Layout, n: nat, i: nat)
    requires l.Legal() && n < l.Bitmaps() && i < l.bits
    ensures l.page + (n * l.bits + i) * l.slot + l.slot <= l.magazine
  {
    hide Layout.MapsOffset, Layout.FirstMapsOffset, Layout.Supermaps, Up, Multiple;
    var s := l.Supermaps();
    SupermapsFit(l);
    FlatBound(n, i, s * l.bits, l.bits);
    TimesMonotone(n * l.bits + i + 1, s * l.bits * l.bits, l.slot);
    Distribute(n * l.bits + i, 1, l.slot);
    assert (n * l.bits + i) * l.slot + l.slot <= s * l.bits * l.bits * l.slot;
  }

  lemma FlatBound(n: nat, i: nat, count: nat, bits: nat)
    requires n < count && i < bits
    ensures n * bits + i + 1 <= count * bits
  {
    TimesMonotone(n + 1, count, bits);
    Distribute(n, 1, bits);
  }

  /** The slots of all supermaps take no more than the pages after the first. */
  lemma SupermapsFit(l: Layout)
    requires l.Positive()
    ensures l.page + l.Supermaps() * l.bits * l.bits * l.slot <= l.magazine
  {
    var s, cost := l.Supermaps(), l.SupermapCost();
    assert s * cost <= l.magazine - l.page;
    SlotsCost(l);
    TimesMonotone(l.bits * l.bits * l.slot, cost, s);
    TimesAssociative(s, l.bits, l.bits);
    TimesAssociative(s, l.bits * l.bits, l.slot);
  }

  lemma SlotsCost(l: Layout)
    requires l.Positive()
    ensures l.bits * l.bits * l.slot <= l.SupermapCost()
  {
    TimesMonotone(l.slot * l.bits, l.BitmapCost(), l.bits);
    TimesAssociative(l.bits, l.bits, l.slot);
  }

  // ----- slots and places correspond

  lemma SplitIndex(s: nat, b: nat, i: nat, bits: nat)
    requires b < bits && i < bits && bits * bits > 0
    ensures var c := (s * bits + b) * bits + i;
      c / (bits * bits) == s && c / bits == s * bits + b && c / bits % bits == b && c % bits == i
  {
    var n := s * bits + b;
    DivideUnique(n, bits, s, b);
    DivideUnique(n * bits + i, bits, n, i);
    Distribute(s * bits, b, bits);
    TimesAssociative(s, bits, bits);
    FlatBound(b, i, bits, bits);
    DivideUnique(n * bits + i, bits * bits, s, b * bits + i);
  }

  lemma PartsOf(c: nat, bits: nat, count: nat) returns (s: nat, b: nat, i: nat)
    requires bits > 0 && c < count * bits * bits
    ensures s < count && b < bits && i < bits && (s * bits + b) * bits + i == c
  {
    var n;
    n, i := Divide(c, bits);
    s, b := Divide(n, bits);
    QuotientBelow(n, bits, count * bits);
    QuotientBelow(s, bits, count);
  }

  /** A slot address lies in its magazine and not in the first page. */
  lemma SlotInMagazine(l: Layout, m: nat, n: nat, i: nat)
    requires l.Legal() && Multiple(m, l.magazine) && n < l.Bitmaps() && i < l.bits
    ensures l.MagazineOf(l.SlotAddress(m, n, i)) == m && l.PageOf(l.SlotAddress(m, n, i)) > m
  {
    hide Layout.MapsOffset, Layout.FirstMapsOffset, Layout.Supermaps, Up, Multiple, Down;
    SlotsFit(l, n, i);
    var a := l.SlotAddress(m, n, i);
    TimesMonotone(0, n * l.bits + i, l.slot);
    DownUnique(a, l.magazine, m);
    DownIsMultiple(a, l.page);
  }

  /** Going from a place to its address and back gives the same place. */
  lemma LocateSlot(l: Layout, firstSlots: nat, m: nat, s: nat, b: nat, i: nat)
    requires l.Legal() && Multiple(m, l.magazine) && s < l.Supermaps() && b < l.bits && i < l.bits
    ensures Locate(l, firstSlots, l.SlotAddress(m, s * l.bits + b, i)) == InMain(s, b, i)
    ensures l.MagazineOf(l.SlotAddress(m, s * l.bits + b, i)) == m
  {
    hide Layout.MapsOffset, Layout.FirstMapsOffset, Layout.Supermaps, Up, Multiple, Down, Layout.MagazineOf;
    hide Layout.PageOf;
    var n := s * l.bits + b;
    FlatBound(s, b, l.Supermaps(), l.bits);
    SlotInMagazine(l, m, n, i);
    var c := n * l.bits + i;
    MultipleOf(c, l.slot);
    TimesMonotone(1, l.bits, l.bits);
    SplitIndex(s, b, i, l.bits);
  }

  /** Going from the address of any slot of the main array to its place and back gives the
      same address. */
  lemma SlotOfPlace(l: Layout, firstSlots: nat, m: nat, a: nat)
    requires l.Legal() && Multiple(m, l.magazine)
    requires m + l.page <= a < m + l.page + l.Bitmaps() * l.bits * l.slot && Multiple(a - (m + l.page), l.slot)
    ensures var p := Locate(l, firstSlots, a);
      && p.InMain? && 0 <= p.s < l.Supermaps() && 0 <= p.b < l.bits && 0 <= p.i < l.bits
      && l.SlotAddress(m, p.s * l.bits + p.b, p.i) == a
  {
    hide Locate, Layout.MapsOffset, Layout.FirstMapsOffset, Layout.Supermaps, Up, Down;
    var c, r := Divide(a - (m + l.page), l.slot);
    assert r == 0;
    QuotientBelow(c, l.slot, l.Bitmaps() * l.bits);
    var s, b, i := PartsOf(c, l.bits, l.Supermaps());
    LocateSlot(l, firstSlots, m, s, b, i);
  }

  lemma QuotientBelow(c: nat, n: nat, count: nat)
    requires c * n < count * n
    ensures c < count
  {
    if c >= count {
      TimesMonotone(count, c, n);
    }
  }

  /** Slots lie one behind the other in the order of their bitmaps and indices, from the
      second page on, without a gap or an overlap; so do the bitmaps. */
  lemma SlotsInARow(l: Layout, m: nat, n: nat, i: nat)
    requires l.Legal() && i < l.bits
    ensures l.SlotAddress(m, 0, 0) == m + l.page && l.BitmapAddress(m, 0) == m + l.MapsOffset()
    ensures i + 1 < l.bits ==> l.SlotAddress(m, n, i + 1) == l.SlotAddress(m, n, i) + l.slot
    ensures i + 1 == l.bits ==> l.SlotAddress(m, n + 1, 0) == l.SlotAddress(m, n, i) + l.slot
    ensures l.BitmapAddress(m, n + 1) == l.BitmapAddress(m, n) + l.word
  {
    hide Layout.MapsOffset, Layout.FirstMapsOffset, Layout.Supermaps, Up, Multiple;
    Distribute(n * l.bits + i, 1, l.slot);
    Distribute(n, 1, l.bits);
    Distribute(n, 1, l.word);
  }

  // ----- bitmaps and pages

  /** get_cont_and_indices_for_bitmap_and_index: from the address of a bitmap to its
      magazine, supermap and position, and so to the slots it controls. */
  lemma BitmapIndices(l: Layout, m: nat, s: nat, b: nat)
    requires l.Legal() && Multiple(m, l.magazine) && s < l.Supermaps() && b < l.bits
    ensures var a := l.BitmapAddress(m, s * l.bits + b);
      && l.MagazineOf(a) == m && a - (m + l.MapsOffset()) >= 0
      && (a - (m + l.MapsOffset())) / l.word / l.bits == s
      && (a - (m + l.MapsOffset())) / l.word % l.bits == b
  {
    hide Layout.MapsOffset, Layout.Supermaps, Up, Multiple, Down;
    var n := s * l.bits + b;
    FlatBound(s, b, l.Supermaps(), l.bits);
    BitmapsFit(l, n);
    DownUnique(l.BitmapAddress(m, n), l.magazine, m);
    MultipleOf(n, l.word);
    DivideUnique(n, l.bits, s, b);
  }

  lemma BitmapsFit(l: Layout, n: nat)
    requires l.Legal() && n < l.Bitmaps()
    ensures 0 <= n * l.word && l.MapsOffset() + n * l.word + l.word <= l.page <= l.magazine
  {
    hide Layout.MapsOffset, Layout.Bitmaps, Up, Multiple;
    var count := l.Bitmaps();
    ScaledBelow(n, count, l.word);
    UpIsMultiple(l.word * count, l.slot);
  }

  lemma ScaledBelow(n: nat, count: nat, word: nat)
    requires n < count
    ensures 0 <= n * word && n * word + word <= word * count
  {
    TimesMonotone(n + 1, count, word);
    Distribute(n, 1, word);
  }

  lemma PageOfBitmaps(l: Layout)
    requires l.Legal()
    ensures Multiple(l.page, l.perPage * l.word)
  {
    hide Layout.MapsOffset, Layout.FirstMapsOffset, Layout.Supermaps;
    var k := l.slot / l.word;
    QuotientOf(l.slot, l.word);
    TimesAssociative(l.bits, k, l.word);
    assert l.bits * l.slot == l.bits * k * l.word;
    Regroup(l.perPage, l.bits * k, l.word);
    MultipleOf(l.bits * k, l.perPage * l.word);
  }

  lemma Regroup(a: nat, b: nat, c: nat)
    ensures a * (b * c) == b * (a * c)
  {
    TimesAssociative(a, b, c);
    TimesAssociative(b, a, c);
  }

  /** The mask of first_bitmap_in_same_page goes back n % perPage bitmaps. */
  lemma FirstBitmap(l: Layout, m: nat, n: nat)
    requires l.Legal() && Multiple(m, l.magazine)
    ensures n % l.perPage <= n
    ensures l.FirstBitmapInPage(l.BitmapAddress(m, n)) == l.BitmapAddress(m, n - n % l.perPage)
  {
    hide Layout.MapsOffset, Layout.FirstMapsOffset, Layout.Supermaps, Multiple, Down;
    var q, r := Divide(n, l.perPage);
    var group := l.perPage * l.word;
    assert Multiple(m, group) by {
      QuotientOf(m, l.magazine);
      MultipleTrans(m, l.magazine, l.page);
      PageOfBitmaps(l);
      MultipleTrans(m, l.page, group);
    }
    TimesAssociative(q, l.perPage, l.word);
    MultipleOf(q, group);
    MultipleSum(m, l.MapsOffset(), group);
    MultipleSum(m + l.MapsOffset(), q * group, group);
    Distribute(q * l.perPage, r, l.word);
    TimesMonotone(r + 1, l.perPage, l.word);
    Distribute(r, 1, l.word);
    TimesMonotone(0, r, l.word);
    DownUnique(l.BitmapAddress(m, n), group, m + l.MapsOffset() + q * group);
  }

  lemma MultipleTrans(x: nat, n: nat, k: nat)
    requires n > 0 && k > 0 && Multiple(x, n) && Multiple(n, k)
    ensures Multiple(x, k)
  {
    QuotientOf(x, n);
    QuotientOf(n, k);
    TimesAssociative(x / n, n / k, k);
    MultipleOf(x / n * (n / k), k);
  }

  /** The page of a slot: perPage bitmaps in a row control one page. */
  lemma PageOfSlot(l: Layout, m: nat, n: nat, i: nat)
    requires l.Legal() && Multiple(m, l.magazine) && i < l.bits
    ensures n % l.perPage <= n
    ensures l.PageOf(l.SlotAddress(m, n, i)) == l.SlotAddress(m, n - n % l.perPage, 0)
    ensures l.SlotAddress(m, n - n % l.perPage, 0) == m + l.page + n / l.perPage * l.page
  {
    hide Layout.Legal, Layout.MapsOffset, Layout.FirstMapsOffset, Layout.Supermaps, Layout.Bitmaps;
    hide Layout.PageOf, Multiple, Down;
    LegalIsPositive(l);
    var q, r := Divide(n, l.perPage);
    FirstSlotOffset(l, n - n % l.perPage, q);
    InsidePage(l, n, q, r, i);
    PageAt(l, m, q, (r * l.bits + i) * l.slot);
  }

  lemma PageAt(l: Layout, m: nat, q: nat, x: nat)
    requires 0 <= q * l.page && x < l.page
    requires l.Legal() && Multiple(m, l.magazine)
    ensures l.PageOf(m + l.page + (q * l.page + x)) == m + l.page + q * l.page
  {
    hide Layout.MapsOffset, Layout.FirstMapsOffset, Layout.Supermaps, Layout.Bitmaps, Multiple, Down;
    MultipleTrans(m, l.magazine, l.page);
    MultipleOf(q, l.page);
    MultipleOf(1, l.page);
    MultipleSum(m, l.page, l.page);
    MultipleSum(m + l.page, q * l.page, l.page);
    DownUnique(m + l.page + (q * l.page + x), l.page, m + l.page + q * l.page);
  }

  lemma FirstSlotOffset(l: Layout, first: nat, q: nat)
    requires l.Legal() && first == q * l.perPage
    ensures (first * l.bits + 0) * l.slot == q * l.page
  {
    hide Layout.MapsOffset, Layout.FirstMapsOffset, Layout.Supermaps, Multiple;
    TimesAssociative(first, l.bits, l.slot);
    TimesAssociative(q, l.perPage, l.bits * l.slot);
  }

  lemma InsidePage(l: Layout, n: nat, q: nat, r: nat, i: nat)
    requires l.Legal() && r < l.perPage && i < l.bits && n == q * l.perPage + r
    ensures 0 <= (r * l.bits + i) * l.slot < l.page
    ensures (n * l.bits + i) * l.slot == q * l.page + (r * l.bits + i) * l.slot
  {
    hide Layout.MapsOffset, Layout.FirstMapsOffset, Layout.Supermaps, Multiple;
    FirstSlotOffset(l, n - r, q);
    SplitOffset(n - r, r, i, l.bits, l.slot);
    FlatBound(r, i, l.perPage, l.bits);
    ScaledBelow(r * l.bits + i, l.perPage * l.bits, l.slot);
    TimesAssociative(l.perPage, l.bits, l.slot);
  }

  lemma SplitOffset(f: nat, r: nat, i: nat, bits: nat, slot: nat)
    ensures ((f + r) * bits + i) * slot == (f * bits + 0) * slot + (r * bits + i) * slot
  {
    Distribute(f, r, bits);
    Distribute(f * bits, r * bits + i, slot);
  }

  /** Two bitmaps have the same first bitmap exactly when their slots share a page. */
  lemma SameFirstBitmapSamePage(l: Layout, m: nat, n: nat, i: nat, d: nat, j: nat)
    requires l.Legal() && Multiple(m, l.magazine) && i < l.bits && j < l.bits
    ensures l.FirstBitmapInPage(l.BitmapAddress(m, n)) == l.FirstBitmapInPage(l.BitmapAddress(m, d))
      <==> l.PageOf(l.SlotAddress(m, n, i)) == l.PageOf(l.SlotAddress(m, d, j))
  {
    hide Layout.Legal, Layout.MapsOffset, Layout.FirstMapsOffset, Layout.Supermaps, Multiple, Down;
    hide Layout.FirstBitmapInPage, Layout.PageOf, Layout.SlotAddress;
    assert l.Positive() by { LegalIsPositive(l); }
    FirstBitmap(l, m, n);
    FirstBitmap(l, m, d);
    PageOfSlot(l, m, n, i);
    PageOfSlot(l, m, d, j);
    var q, r := Divide(n, l.perPage);
    var p, t := Divide(d, l.perPage);
    if q < p {
      FirstDiffers(l, q, p);
    } else if p < q {
      FirstDiffers(l, p, q);
    }
  }

  lemma LegalIsPositive(l: Layout)
    requires l.Legal()
    ensures l.Positive()
  {
  }

  lemma FirstDiffers(l: Layout, q: nat, p: nat)
    requires l.Positive() && q < p
    ensures q * l.perPage * l.word < p * l.perPage * l.word && q * l.page < p * l.page
  {
    TimesMonotone(q + 1, p, l.perPage);
    Distribute(q, 1, l.perPage);
    TimesMonotone(q * l.perPage + 1, p * l.perPage, l.word);
    Distribute(q * l.perPage, 1, l.word);
    TimesMonotone(q + 1, p, l.page);
    Distribute(q, 1, l.page);
  }

  /** What the madvise path computes, the bitmap of the first slot of the page, is what
      the mask on bitmap addresses computes. */
  lemma MadviseFindsFirstBitmap(l: Layout, firstSlots: nat, m: nat, n: nat, i: nat)
    requires l.Legal() && Multiple(m, l.magazine) && n < l.Bitmaps() && i < l.bits
    ensures var p := Locate(l, firstSlots, l.PageOf(l.SlotAddress(m, n, i)));
      && p.InMain? && 0 <= p.s < l.Supermaps() && 0 <= p.b < l.bits && p.i == 0
      && l.BitmapAddress(m, p.s * l.bits + p.b) == l.FirstBitmapInPage(l.BitmapAddress(m, n))
  {
    hide Layout.Legal, Layout.MapsOffset, Layout.Supermaps, Layout.PageOf, Layout.FirstBitmapInPage;
    hide Layout.SlotAddress, Multiple, Down, Locate;
    LegalIsPositive(l);
    PageOfSlot(l, m, n, i);
    FirstBitmap(l, m, n);
    var s, b := Divide(n - n % l.perPage, l.bits);
    QuotientBelow(s, l.bits, l.Supermaps());
    LocateSlot(l, firstSlots, m, s, b, 0);
  }

  /** The bitmaps of every page lie inside the maps if and only if the maps hold a whole
      number of pages. */
  lemma PagesStayInMapsIff(l: Layout)
    requires l.Positive()
    ensures Multiple(l.Bitmaps(), l.perPage)
      <==> forall n: nat :: n < l.Bitmaps() ==> n - n % l.perPage + l.perPage <= l.Bitmaps()
  {
    hide Layout.Bitmaps, Multiple;
    var count, per := l.Bitmaps(), l.perPage;
    if Multiple(count, per) {
      forall n: nat | n < count ensures n - n % per + per <= count {
        QuotientOf(count, per);
        var q, r := Divide(n, per);
        QuotientBelow(q, per, count / per);
        TimesMonotone(q + 1, count / per, per);
        Distribute(q, 1, per);
      }
    } else if count == 0 {
      MultipleOf(0, per);
    } else {
      var q, r := Divide(count - 1, per);
      if r == per - 1 {
        Distribute(q, 1, per);
        MultipleOf(q + 1, per);
      }
      assert count - 1 < count && !((count - 1) - (count - 1) % per + per <= count);
    }
  }

  /** A legal layout whose maps end in the middle of a page: four pages of 524288 bytes with
      128 bitmaps each and five supermaps. The page of bitmap 256 leaves the maps. */
  lemma PagesCanLeaveMaps()
    ensures LARGE_PAGES.Legal() && LARGE_PAGES.Bitmaps() == 320 && !Multiple(LARGE_PAGES.Bitmaps(), LARGE_PAGES.perPage)
    ensures 256 < LARGE_PAGES.Bitmaps() < 256 - 256 % LARGE_PAGES.perPage + LARGE_PAGES.perPage
  {
    hide Layout.Supermaps, Layout.MapsOffset, Layout.FirstMapsOffset, Layout.Legal, Layout.Positive, Layout.Bitmaps, Up;
    Rounded(56, 1024, 1024);
    Rounded(1024, 64, 1024);
    UsualLayout(LARGE_PAGES, 5, 1024, 1024, 4, 1);
    assert LARGE_PAGES.Positive() by { LegalIsPositive(LARGE_PAGES); }
    BitmapsOf(LARGE_PAGES, 5);
  }

  const LARGE_PAGES: Layout := Layout(524288, 64, 8, 64, 128, 2097152, 16)

  lemma BitmapsOf(l: Layout, supers: nat)
    requires l.Positive() && l.Supermaps() == supers && l.bits == 64
    ensures l.Bitmaps() == supers * 64
  {
    hide Layout.Supermaps, Layout.Positive;
  }

  /** They do when the bitmaps of a page are at most the bitmaps of a supermap, both being
      powers of two. */
  lemma WholeSupermapsHoldPages(l: Layout)
    requires l.Positive() && Multiple(l.bits, l.perPage)
    ensures Multiple(l.Bitmaps(), l.perPage)
  {
    hide Layout.Supermaps, Multiple;
    MultipleOf(l.Supermaps(), l.bits);
    MultipleTrans(l.Bitmaps(), l.bits, l.perPage);
  }

  // ----- powers of two

  /** A layout whose sizes are powers of two. */
  function PowerLayout(pageExp: nat, slotExp: nat, wordExp: nat, pagesExp: nat, header: nat): Layout
    requires slotExp + wordExp + 3 <= pageExp
  {
    Layout(Pow2(pageExp), Pow2(slotExp), Pow2(wordExp), Pow2(wordExp + 3),
           Pow2(pageExp - slotExp - wordExp - 3), Pow2(pagesExp + pageExp), header)
  }

  /** For power-of-two sizes, with a page holding at least one bitmap's slots and a slot at
      least a word, the size macros and rounding macros give a legal layout as soon as the
      metadata fits in the first page; rounding twice aligns to both sizes. */
  lemma PowersAreLegal(pageExp: nat, slotExp: nat, wordExp: nat, pagesExp: nat, header: nat)
    requires slotExp + wordExp + 3 <= pageExp && wordExp <= slotExp
    ensures var l := PowerLayout(pageExp, slotExp, wordExp, pagesExp, header);
      l.Positive() && l.page / l.slot / l.bits == l.perPage && (l.Legal() <==> l.FirstMapsOffset() <= l.page)
  {
    hide Pow2, Layout.Supermaps, Layout.MapsOffset, Layout.FirstMapsOffset, Multiple, Up;
    var l := PowerLayout(pageExp, slotExp, wordExp, pagesExp, header);
    var perExp := pageExp - slotExp - wordExp - 3;
    Pow2Add(wordExp, 3);
    assert Pow2(3) == 8 by { EightIsPow2(); }
    Pow2Add(wordExp + 3, slotExp);
    Pow2Add(perExp, wordExp + 3 + slotExp);
    PerPageIsQuotient(l);
    Pow2Multiple(pageExp, pagesExp + pageExp);
    Pow2Multiple(wordExp, slotExp);
    Pow2Add(perExp, wordExp);
    TimesMonotone(1, l.perPage, l.word);
    Pow2Order(pageExp, pagesExp + pageExp);
    DoubleRounding(l, perExp + wordExp, slotExp);
  }

  lemma EightIsPow2()
    ensures Pow2(3) == 8
  {
    assert Pow2(1) == 2 * Pow2(0) && Pow2(2) == 2 * Pow2(1);
  }

  lemma PerPageIsQuotient(l: Layout)
    requires l.slot > 0 && l.bits > 0 && l.page == l.perPage * (l.bits * l.slot)
    ensures l.page / l.slot / l.bits == l.perPage
  {
    TimesAssociative(l.perPage, l.bits, l.slot);
    MultipleOf(l.perPage * l.bits, l.slot);
    MultipleOf(l.perPage, l.bits);
  }

  lemma Pow2Multiple(a: nat, b: nat)
    requires a <= b
    ensures Multiple(Pow2(b), Pow2(a))
  {
    hide Pow2;
    Pow2Add(b - a, a);
    MultipleOf(Pow2(b - a), Pow2(a));
  }

  lemma Pow2Order(a: nat, b: nat)
    requires a <= b
    ensures Pow2(a) <= Pow2(b)
  {
    hide Pow2;
    Pow2Add(b - a, a);
    TimesMonotone(1, Pow2(b - a), Pow2(a));
  }

  /** Rounding up to one power of two and then to another gives a multiple of both. */
  lemma DoubleRounding(l: Layout, a: nat, z: nat)
    requires l.Positive() && l.perPage * l.word == Pow2(a) && l.slot == Pow2(z)
    ensures Multiple(l.MapsOffset(), l.perPage * l.word)
  {
    hide Pow2, Layout.Supermaps, Multiple, Up;
    var x := l.header + l.word * l.Supermaps();
    var once := Up(x, l.perPage * l.word);
    UpIsMultiple(x, l.perPage * l.word);
    UpIsMultiple(once, l.slot);
    if a <= z {
      Pow2Multiple(a, z);
      MultipleTrans(l.MapsOffset(), l.slot, l.perPage * l.word);
    } else {
      Pow2Multiple(z, a);
      MultipleTrans(once, l.perPage * l.word, l.slot);
      UpOfMultiple(once, l.slot);
    }
  }

  lemma UpOfMultiple(x: nat, n: nat)
    requires n > 0 && Multiple(x, n)
    ensures Up(x, n) == x
  {
    DownUnique(x + (n - 1), n, x);
  }

  lemma GroupSize(pageExp: nat, slotExp: nat, wordExp: nat)
    requires slotExp + wordExp + 3 <= pageExp
    ensures Pow2(pageExp - slotExp - wordExp - 3) * Pow2(wordExp) == Pow2(pageExp - slotExp - 3)
  {
    hide Pow2;
    Pow2Add(pageExp - slotExp - wordExp - 3, wordExp);
  }

  /** The masks of the source, in a word of w bits, are the rounding of the model. */
  lemma MasksRoundDown(pageExp: nat, slotExp: nat, wordExp: nat, pagesExp: nat, header: nat, a: nat, w: nat)
    requires slotExp + wordExp + 3 <= pageExp && wordExp <= slotExp && pagesExp + pageExp <= w && a < Pow2(w)
    ensures var l := PowerLayout(pageExp, slotExp, wordExp, pagesExp, header);
      && l.Positive() && l.magazine <= Pow2(w) && l.page <= Pow2(w) && l.perPage * l.word <= Pow2(w)
      && l.MagazineOf(a) == BitAnd(a, Pow2(w) - l.magazine)
      && l.PageOf(a) == BitAnd(a, Pow2(w) - l.page)
      && l.FirstBitmapInPage(a) == BitAnd(a, Pow2(w) - l.perPage * l.word)
  {
    hide Pow2, BitAnd, Layout.Legal, Multiple, Down;
    PowersAreLegal(pageExp, slotExp, wordExp, pagesExp, header);
    MaskRoundsDown(a, pagesExp + pageExp, w);
    MaskRoundsDown(a, pageExp, w);
    MaskRoundsDown(a, pageExp - slotExp - 3, w);
    GroupSize(pageExp, slotExp, wordExp);
  }
}
