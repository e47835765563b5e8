/** Dispatch data objects: immutable ropes of depth one and their meaning as byte
    sequences (data.c, data_internal.h). */
module DataObjects {

  newtype byte = x: int | 0 <= x < 256

  const SIZE_MAX: nat := 0xFFFF_FFFF_FFFF_FFFF
  const SIZEOF_DATA: nat := 64
  const SIZEOF_RECORD: nat := 24

  /** A block of memory; its identity is its address. */
  class Buffer {
    const bytes: seq<byte>

    constructor (bytes: seq<byte>)
      ensures this.bytes == bytes
    {
      this.bytes := bytes;
    }
  }

  /** One record of a composite: `length` bytes of a leaf, starting at `from`. */
  datatype Record = Record(obj: DataObject, from: nat, length: nat)

  /** A leaf has no records and owns a buffer; a composite has records. None of these
      fields changes after creation; reference counts and cached flat buffers are
      kept by DataStore. */
  class DataObject {
    const size: nat
    const records: seq<Record>
    const buffer: Buffer?

    constructor (size: nat, records: seq<Record>, buffer: Buffer?)
      ensures this.size == size && this.records == records && this.buffer == buffer
    {
      this.size := size;
      this.records := records;
      this.buffer := buffer;
    }
  }

  predicate Leaf(d: DataObject) {
    |d.records| == 0
  }

  /** The number of records needed to refer to the object. */
  function NumRecords(d: DataObject): nat {
    if |d.records| == 0 then 1 else |d.records|
  }

  ghost predicate GoodLeaf(d: DataObject) {
    && Leaf(d) && d.size <= SIZE_MAX
    && (d.size > 0 ==> d.buffer != null && |d.buffer.bytes| == d.size)
  }

  /** Records point at leaves, are non-empty and lie inside their leaf. */
  ghost predicate GoodRecord(r: Record) {
    GoodLeaf(r.obj) && r.length > 0 && r.from + r.length <= r.obj.size
  }

  ghost predicate GoodRecords(rs: seq<Record>) {
    forall i :: 0 <= i < |rs| ==> GoodRecord(rs[i])
  }

  ghost function TotalLength(rs: seq<Record>): nat {
    if rs == [] then 0 else rs[0].length + TotalLength(rs[1..])
  }

  /** The records part of the invariants stated in the source's header comment: depth
      at most one, every record non-empty and inside its leaf, storage that fits. */
  ghost predicate GoodFields(size: nat, records: seq<Record>, buffer: Buffer?) {
    && size <= SIZE_MAX
    && if records == [] then
         size > 0 ==> buffer != null && |buffer.bytes| == size
       else
         GoodRecords(records) && SIZEOF_DATA + |records| * SIZEOF_RECORD <= SIZE_MAX
  }

  ghost predicate GoodShape(d: DataObject) {
    GoodFields(d.size, d.records, d.buffer)
  }

  /** All of them: the record lengths also add up to the size. */
  ghost predicate WellFormed(d: DataObject) {
    GoodShape(d) && (!Leaf(d) ==> TotalLength(d.records) == d.size)
  }

  /** The bytes a record stands for; records that point outside their leaf have none. */
  ghost function RecordBytes(r: Record): seq<byte> {
    if GoodRecord(r) then r.obj.buffer.bytes[r.from..r.from + r.length] else []
  }

  ghost function RecordsBytes(rs: seq<Record>): seq<byte> {
    if rs == [] then [] else RecordBytes(rs[0]) + RecordsBytes(rs[1..])
  }

  /** What the object denotes. */
  ghost function Bytes(d: DataObject): (b: seq<byte>)
    requires WellFormed(d)
    ensures |b| == d.size
  {
    RecordsBytesLengthIfGood(d.records);
    if Leaf(d) then (if d.size == 0 then [] else d.buffer.bytes) else RecordsBytes(d.records)
  }

  /** The object as a list of records. */
  function AsRecords(d: DataObject): seq<Record> {
    if Leaf(d) then [Record(d, 0, d.size)] else d.records
  }

  lemma {:induction false} TotalLengthAppend(a: seq<Record>, b: seq<Record>)
    ensures TotalLength(a + b) == TotalLength(a) + TotalLength(b)
  {
    if a == [] {
      assert a + b == b;
    } else {
      TotalLengthAppend(a[1..], b);
      assert (a + b)[1..] == a[1..] + b;
    }
  }

  lemma Assoc<T>(a: seq<T>, b: seq<T>, c: seq<T>)
    ensures a + (b + c) == (a + b) + c
  {
  }

  lemma GoodAppend(a: seq<Record>, b: seq<Record>)
    ensures GoodRecords(a + b) <==> GoodRecords(a) && GoodRecords(b)
  {
    if GoodRecords(a + b) {
      assert forall i :: 0 <= i < |a| ==> a[i] == (a + b)[i];
      assert forall i :: 0 <= i < |b| ==> b[i] == (a + b)[|a| + i];
    }
  }

  lemma RecordsBytesCons(r: Record, rs: seq<Record>)
    ensures RecordsBytes([r] + rs) == RecordBytes(r) + RecordsBytes(rs)
  {
    hide RecordBytes;
    assert ([r] + rs)[1..] == rs;
  }

  lemma ConsTail<T>(s: seq<T>, t: seq<T>)
    requires s != []
    ensures s == [s[0]] + s[1..]
    ensures s + t == [s[0]] + (s[1..] + t)
  {
  }

  lemma {:induction false} RecordsBytesAppend(a: seq<Record>, b: seq<Record>)
    ensures RecordsBytes(a + b) == RecordsBytes(a) + RecordsBytes(b)
  {
    if a == [] {
      assert a + b == b;
    } else {
      hide RecordBytes, RecordsBytes;
      RecordsBytesAppend(a[1..], b);
      ConsTail(a, b);
      RecordsBytesCons(a[0], a[1..]);
      RecordsBytesCons(a[0], a[1..] + b);
      Assoc(RecordBytes(a[0]), RecordsBytes(a[1..]), RecordsBytes(b));
    }
  }

  lemma {:induction false} RecordsBytesLength(rs: seq<Record>)
    requires GoodRecords(rs)
    ensures |RecordsBytes(rs)| == TotalLength(rs)
    ensures |rs| <= TotalLength(rs)
  {
    if rs != [] {
      RecordsBytesLength(rs[1..]);
    }
  }

  lemma RecordsBytesLengthIfGood(rs: seq<Record>)
    ensures GoodRecords(rs) ==> |RecordsBytes(rs)| == TotalLength(rs)
  {
    if GoodRecords(rs) {
      RecordsBytesLength(rs);
    }
  }

  lemma AsRecordsMeaning(d: DataObject)
    requires WellFormed(d) && d.size > 0
    ensures GoodRecords(AsRecords(d)) && |AsRecords(d)| == NumRecords(d)
    ensures RecordsBytes(AsRecords(d)) == Bytes(d)
    ensures TotalLength(AsRecords(d)) == d.size
  {
    if Leaf(d) {
      OneRecord(Record(d, 0, d.size));
    }
  }

  lemma OneRecord(r: Record)
    ensures TotalLength([r]) == r.length
    ensures RecordsBytes([r]) == RecordBytes(r)
  {
    assert [r][1..] == [];
  }

  lemma Parts<T>(s: seq<T>, i: nat)
    requires i <= |s|
    ensures s == s[..i] + s[i..]
    ensures i < |s| ==> s[i..] == [s[i]] + s[i + 1..] && s[i..][1..] == s[i + 1..] && s[i..][0] == s[i]
    ensures i < |s| ==> s[..i + 1] == s[..i] + [s[i]]
  {
  }

  /** A split of the records at position i splits length and bytes. */
  lemma SplitAt(rs: seq<Record>, i: nat)
    requires i <= |rs|
    ensures TotalLength(rs) == TotalLength(rs[..i]) + TotalLength(rs[i..])
    ensures RecordsBytes(rs) == RecordsBytes(rs[..i]) + RecordsBytes(rs[i..])
  {
    hide RecordsBytes, RecordBytes, TotalLength;
    Parts(rs, i);
    TotalLengthAppend(rs[..i], rs[i..]);
    RecordsBytesAppend(rs[..i], rs[i..]);
  }

  /** The first record of a suffix. */
  lemma FirstOf(rs: seq<Record>, i: nat)
    requires i < |rs|
    ensures TotalLength(rs[i..]) == rs[i].length + TotalLength(rs[i + 1..])
    ensures RecordsBytes(rs[i..]) == RecordBytes(rs[i]) + RecordsBytes(rs[i + 1..])
    ensures TotalLength(rs[..i + 1]) == TotalLength(rs[..i]) + rs[i].length
  {
    hide RecordsBytes, RecordBytes, TotalLength;
    Parts(rs, i);
    TotalLengthAppend(rs[..i], [rs[i]]);
    TotalLengthAppend([rs[i]], rs[i + 1..]);
    RecordsBytesCons(rs[i], rs[i + 1..]);
    OneRecord(rs[i]);
  }

  /** The suffix from record i, split at record j. */
  lemma SplitBetween(rs: seq<Record>, i: nat, j: nat)
    requires i <= j <= |rs|
    ensures TotalLength(rs[i..]) == TotalLength(rs[i..j]) + TotalLength(rs[j..])
    ensures RecordsBytes(rs[i..]) == RecordsBytes(rs[i..j]) + RecordsBytes(rs[j..])
  {
    hide RecordsBytes, RecordBytes, TotalLength;
    assert rs[i..][..j - i] == rs[i..j] && rs[i..][j - i..] == rs[j..];
    SplitAt(rs[i..], j - i);
  }

  /** The clamped slice that dispatch_data_create_subrange promises. */
  ghost function Slice(s: seq<byte>, offset: nat, length: nat): seq<byte> {
    if offset >= |s| then []
    else if length > |s| - offset then s[offset..]
    else s[offset..offset + length]
  }

  /** A record without its first x bytes, cut to y bytes. */
  function Trimmed(r: Record, x: nat, y: nat): Record {
    Record(r.obj, r.from + x, y)
  }

  lemma TrimmedBytes(r: Record, x: nat, y: nat)
    requires GoodRecord(r) && y > 0 && x + y <= r.length
    ensures GoodRecord(Trimmed(r, x, y)) && |RecordBytes(r)| == r.length
    ensures RecordBytes(Trimmed(r, x, y)) == RecordBytes(r)[x..x + y]
  {
    var b, t := r.obj.buffer.bytes, Trimmed(r, x, y);
    assert GoodRecord(t);
    assert b[r.from..r.from + r.length][x..x + y] == b[r.from + x..r.from + x + y];
  }

  lemma SliceOfThree(w: seq<byte>, p: seq<byte>, a: seq<byte>, t: seq<byte>, x: nat, y: nat)
    requires w == p + (a + t) && x + y <= |a|
    ensures |p| + x + y <= |w| && w[|p| + x..|p| + x + y] == a[x..x + y]
  {
  }

  /** The bytes of a range inside record i. */
  lemma InsideRecord(rs: seq<Record>, i: nat, x: nat, y: nat)
    requires i < |rs| && x + y <= |RecordBytes(rs[i])|
    ensures |RecordsBytes(rs[..i])| + x + y <= |RecordsBytes(rs)|
    ensures RecordsBytes(rs)[|RecordsBytes(rs[..i])| + x..|RecordsBytes(rs[..i])| + x + y]
            == RecordBytes(rs[i])[x..x + y]
  {
    hide RecordsBytes, RecordBytes;
    SplitAt(rs, i);
    FirstOf(rs, i);
    SliceOfThree(RecordsBytes(rs), RecordsBytes(rs[..i]), RecordBytes(rs[i]), RecordsBytes(rs[i + 1..]), x, y);
  }

  lemma SliceOfFive(w: seq<byte>, p: seq<byte>, a: seq<byte>, m: seq<byte>, l: seq<byte>, t: seq<byte>,
                    x: nat, y: nat)
    requires w == p + (a + (m + (l + t))) && x <= |a| && y <= |l|
    ensures |p| + x <= |p| + |a| + |m| + y <= |w|
    ensures w[|p| + x..|p| + |a| + |m| + y] == a[x..] + m + l[..y]
  {
  }

  /** The bytes of a range from the middle of record i to the middle of record j. */
  lemma AcrossRecords(rs: seq<Record>, i: nat, j: nat, x: nat, y: nat)
    requires i < j < |rs| && x <= |RecordBytes(rs[i])| && y <= |RecordBytes(rs[j])|
    ensures |RecordsBytes(rs[..i])| + x <= |RecordsBytes(rs[..j])| + y <= |RecordsBytes(rs)|
    ensures RecordsBytes(rs)[|RecordsBytes(rs[..i])| + x..|RecordsBytes(rs[..j])| + y]
            == RecordBytes(rs[i])[x..] + RecordsBytes(rs[i + 1..j]) + RecordBytes(rs[j])[..y]
  {
    hide RecordsBytes, RecordBytes, TotalLength;
    var p, a, m, l, t := RecordsBytes(rs[..i]), RecordBytes(rs[i]), RecordsBytes(rs[i + 1..j]),
                         RecordBytes(rs[j]), RecordsBytes(rs[j + 1..]);
    FiveParts(rs, i, j);
    SliceOfFive(RecordsBytes(rs), p, a, m, l, t, x, y);
  }

  lemma FiveParts(rs: seq<Record>, i: nat, j: nat)
    requires i < j < |rs|
    ensures RecordsBytes(rs) == RecordsBytes(rs[..i]) + (RecordBytes(rs[i])
            + (RecordsBytes(rs[i + 1..j]) + (RecordBytes(rs[j]) + RecordsBytes(rs[j + 1..]))))
    ensures |RecordsBytes(rs[..j])| == |RecordsBytes(rs[..i])| + |RecordBytes(rs[i])| + |RecordsBytes(rs[i + 1..j])|
  {
    hide RecordsBytes, RecordBytes, TotalLength;
    SplitAt(rs, i);
    FirstOf(rs, i);
    SplitBetween(rs, i + 1, j);
    FirstOf(rs, j);
    SplitAt(rs, j);
  }

  /** The records that a subrange spanning several records is made of: record i without
      its first x bytes, the records up to j, and the first y bytes of record j. */
  function Spanning(rs: seq<Record>, i: nat, j: nat, x: nat, y: nat): (s: seq<Record>)
    requires i < j < |rs| && x < rs[i].length
    ensures |s| == j - i + 1
  {
    [Trimmed(rs[i], x, rs[i].length - x)] + rs[i + 1..j] + [Trimmed(rs[j], 0, y)]
  }

  lemma SpanningGood(rs: seq<Record>, i: nat, j: nat, x: nat, y: nat)
    requires GoodRecords(rs) && i < j < |rs| && x < rs[i].length && 0 < y <= rs[j].length
    ensures GoodRecords(Spanning(rs, i, j, x, y))
  {
    var mid := rs[i + 1..j];
    assert forall k :: 0 <= k < |mid| ==> mid[k] == rs[i + 1 + k];
  }

  lemma SpanningParts(rs: seq<Record>, i: nat, j: nat, x: nat, y: nat)
    requires GoodRecords(rs) && i < j < |rs| && x < rs[i].length && 0 < y <= rs[j].length
    ensures RecordsBytes(Spanning(rs, i, j, x, y)) ==
            RecordBytes(rs[i])[x..] + RecordsBytes(rs[i + 1..j]) + RecordBytes(rs[j])[..y]
  {
    hide RecordsBytes, RecordBytes, TotalLength;
    TrimmedBytes(rs[i], x, rs[i].length - x);
    TrimmedBytes(rs[j], 0, y);
    Sandwich(Trimmed(rs[i], x, rs[i].length - x), rs[i + 1..j], Trimmed(rs[j], 0, y));
  }

  lemma Sandwich(first: Record, mid: seq<Record>, last: Record)
    ensures RecordsBytes([first] + mid + [last]) == RecordBytes(first) + RecordsBytes(mid) + RecordBytes(last)
  {
    hide RecordsBytes, RecordBytes, TotalLength;
    OneRecord(first);
    OneRecord(last);
    RecordsBytesAppend([first], mid);
    RecordsBytesAppend([first] + mid, [last]);
  }

  /** Those records mean the slice between the two middles. */
  lemma SpanningBytes(rs: seq<Record>, i: nat, j: nat, x: nat, y: nat)
    requires GoodRecords(rs) && i < j < |rs| && x < rs[i].length && 0 < y <= rs[j].length
    ensures |RecordsBytes(rs[..i])| + x <= |RecordsBytes(rs[..j])| + y <= |RecordsBytes(rs)|
    ensures RecordsBytes(Spanning(rs, i, j, x, y)) ==
            RecordsBytes(rs)[|RecordsBytes(rs[..i])| + x..|RecordsBytes(rs[..j])| + y]
  {
    hide RecordsBytes, RecordBytes, TotalLength;
    TrimmedBytes(rs[i], x, rs[i].length - x);
    TrimmedBytes(rs[j], 0, y);
    AcrossRecords(rs, i, j, x, y);
    SpanningParts(rs, i, j, x, y);
  }

  /** Where a byte is kept: a leaf, and a position in its buffer. */
  datatype Place = Place(leaf: DataObject, at: nat)

  /** Where byte p of a list of records is. */
  ghost function PlaceIn(rs: seq<Record>, p: nat): Place
    requires p < TotalLength(rs)
  {
    if p < rs[0].length then Place(rs[0].obj, rs[0].from + p) else PlaceIn(rs[1..], p - rs[0].length)
  }

  /** Where byte p of the object is. */
  ghost function Where(d: DataObject, p: nat): Place
    requires WellFormed(d) && p < d.size
  {
    if Leaf(d) then Place(d, p) else PlaceIn(d.records, p)
  }

  /** Byte p of r, if there is one, is kept where dd keeps byte offset + p. */
  ghost predicate SamePlace(r: DataObject, dd: DataObject, offset: nat, p: nat)
    requires WellFormed(r) && WellFormed(dd)
  {
    p < r.size ==> offset + p < dd.size && Where(r, p) == Where(dd, offset + p)
  }

  /** Every byte of r is kept where dd keeps it, `offset` further on. */
  ghost predicate SamePlaces(r: DataObject, dd: DataObject, offset: nat)
    requires WellFormed(r) && WellFormed(dd)
  {
    forall p: nat :: SamePlace(r, dd, offset, p)
  }

  lemma {:induction false} PlaceAppend(a: seq<Record>, b: seq<Record>, p: nat)
    requires p < TotalLength(a) + TotalLength(b)
    ensures p < TotalLength(a + b)
    ensures PlaceIn(a + b, p) == if p < TotalLength(a) then PlaceIn(a, p) else PlaceIn(b, p - TotalLength(a))
    decreases a
  {
    TotalLengthAppend(a, b);
    if a == [] {
      assert a + b == b;
    } else {
      assert (a + b)[1..] == a[1..] + b && (a + b)[0] == a[0];
      if p >= a[0].length {
        PlaceAppend(a[1..], b, p - a[0].length);
      }
    }
  }

  /** Byte x of record i. */
  lemma PlaceAt(rs: seq<Record>, i: nat, x: nat)
    requires i < |rs| && x < rs[i].length
    ensures TotalLength(rs[..i]) + x < TotalLength(rs)
    ensures PlaceIn(rs, TotalLength(rs[..i]) + x) == Place(rs[i].obj, rs[i].from + x)
  {
    hide RecordsBytes;
    SplitAt(rs, i);
    FirstOf(rs, i);
    Parts(rs, i);
    PlaceAppend(rs[..i], rs[i..], TotalLength(rs[..i]) + x);
  }

  /** Byte p of the records behind the first i ones. */
  lemma PlaceBehind(rs: seq<Record>, i: nat, p: nat)
    requires i <= |rs| && p < TotalLength(rs[i..])
    ensures TotalLength(rs[..i]) + p < TotalLength(rs)
    ensures PlaceIn(rs, TotalLength(rs[..i]) + p) == PlaceIn(rs[i..], p)
  {
    hide PlaceIn, TotalLength, RecordsBytes;
    SplitAt(rs, i);
    Parts(rs, i);
    PlaceAppend(rs[..i], rs[i..], TotalLength(rs[..i]) + p);
  }

  /** The object's byte is the byte at its place, in a leaf. */
  lemma PlaceHolds(d: DataObject, p: nat)
    requires WellFormed(d) && p < d.size
    ensures var w := Where(d, p);
      GoodLeaf(w.leaf) && w.at < w.leaf.size && w.leaf.buffer.bytes[w.at] == Bytes(d)[p]
  {
    if !Leaf(d) {
      PlaceInHolds(d.records, p);
    }
  }

  lemma {:induction false} PlaceInHolds(rs: seq<Record>, p: nat)
    requires GoodRecords(rs) && p < TotalLength(rs)
    ensures |RecordsBytes(rs)| == TotalLength(rs)
    ensures var w := PlaceIn(rs, p);
      GoodLeaf(w.leaf) && w.at < w.leaf.size && w.leaf.buffer.bytes[w.at] == RecordsBytes(rs)[p]
    decreases rs
  {
    hide RecordBytes, GoodRecord, GoodLeaf;
    RecordsBytesLength(rs);
    PlaceInRecord(rs[0], p);
    if p >= rs[0].length {
      PlaceInHolds(rs[1..], p - rs[0].length);
    }
  }

  lemma PlaceInRecord(r: Record, p: nat)
    requires GoodRecord(r)
    ensures |RecordBytes(r)| == r.length && GoodLeaf(r.obj)
    ensures p < r.length ==> r.from + p < r.obj.size && r.obj.buffer.bytes[r.from + p] == RecordBytes(r)[p]
  {
  }

  /** A range that starts in record i, at its byte x, and ends in record j, behind y of its
      bytes: each byte keeps its place. */
  lemma SpanningPlaces(rs: seq<Record>, i: nat, j: nat, x: nat, y: nat, p: nat)
    requires GoodRecords(rs) && i < j < |rs| && x < rs[i].length && 0 < y <= rs[j].length
    requires TotalLength(rs[..i]) + x + p < TotalLength(rs[..j]) + y
    ensures p < TotalLength(Spanning(rs, i, j, x, y)) && TotalLength(rs[..i]) + x + p < TotalLength(rs)
    ensures PlaceIn(Spanning(rs, i, j, x, y), p) == PlaceIn(rs, TotalLength(rs[..i]) + x + p)
  {
    hide PlaceIn, TotalLength, RecordsBytes, GoodRecords;
    var first, mid, last := Trimmed(rs[i], x, rs[i].length - x), rs[i + 1..j], Trimmed(rs[j], 0, y);
    FirstOf(rs, i);
    PrefixAndMiddle(rs, i, j);
    OneRecord(first);
    OneRecord(last);
    TotalLengthAppend([first], mid);
    TotalLengthAppend([first] + mid, [last]);
    PlaceAppend([first] + mid, [last], p);
    if p < first.length {
      PlaceAppend([first], mid, p);
      PlaceOfOne(first, p);
      PlaceAt(rs, i, x + p);
    } else if p < first.length + TotalLength(mid) {
      PlaceAppend([first], mid, p);
      SplitBetween(rs, i + 1, j);
      var q := p - first.length;
      PlaceBehind(rs, i + 1, q);
      assert rs[i + 1..] == mid + rs[j..];
      PlaceAppend(mid, rs[j..], q);
    } else {
      var q := p - first.length - TotalLength(mid);
      PlaceOfOne(last, q);
      PlaceAt(rs, j, q);
    }
  }

  lemma PlaceOfOne(r: Record, p: nat)
    requires p < r.length
    ensures TotalLength([r]) == r.length && PlaceIn([r], p) == Place(r.obj, r.from + p)
  {
    OneRecord(r);
  }

  lemma PrefixAndMiddle(rs: seq<Record>, i: nat, j: nat)
    requires i < j <= |rs|
    ensures TotalLength(rs[..j]) == TotalLength(rs[..i + 1]) + TotalLength(rs[i + 1..j])
  {
    hide TotalLength;
    assert rs[..j] == rs[..i + 1] + rs[i + 1..j];
    TotalLengthAppend(rs[..i + 1], rs[i + 1..j]);
  }

  // ----- the records that a range meets

  ghost predicate Meets(rs: seq<Record>, k: nat, offset: nat, length: nat)
    requires k < |rs|
  {
    TotalLength(rs[..k]) < offset + length && offset < TotalLength(rs[..k + 1])
  }

  /** The records with a byte in the range. */
  ghost function RecordsMet(rs: seq<Record>, offset: nat, length: nat): set<nat> {
    set k: nat | k < |rs| && Meets(rs, k, offset, length)
  }

  lemma {:induction false} PrefixMonotone(rs: seq<Record>, i: nat, j: nat)
    requires i <= j <= |rs|
    ensures TotalLength(rs[..i]) <= TotalLength(rs[..j])
  {
    hide TotalLength;
    assert rs[..j] == rs[..i] + rs[i..j];
    TotalLengthAppend(rs[..i], rs[i..j]);
  }

  function Between(i: nat, j: nat): (s: set<nat>)
    requires i <= j
    ensures |s| == j - i && forall k: nat :: k in s <==> i <= k < j
  {
    if i == j then {} else Between(i, j - 1) + {j - 1}
  }

  /** A range that starts in record i and ends in record j meets the records from i to j. */
  lemma MetBetween(rs: seq<Record>, i: nat, j: nat, offset: nat, length: nat)
    requires i <= j < |rs|
    requires TotalLength(rs[..i]) <= offset < TotalLength(rs[..i + 1])
    requires TotalLength(rs[..j]) < offset + length <= TotalLength(rs[..j + 1])
    ensures |RecordsMet(rs, offset, length)| == j - i + 1
  {
    hide TotalLength;
    forall k: nat | k < |rs| ensures Meets(rs, k, offset, length) <==> i <= k < j + 1 {
      if k < i {
        PrefixMonotone(rs, k + 1, i);
      } else if j < k {
        PrefixMonotone(rs, j + 1, k);
      } else {
        PrefixMonotone(rs, i + 1, k + 1);
        PrefixMonotone(rs, k, j);
      }
    }
    assert RecordsMet(rs, offset, length) == Between(i, j + 1);
  }

  /** r is the range of dd from `offset` on, as an object that shares dd's leaves: every byte
      stays where it is, and there is a record for each record of dd that the range meets. */
  ghost predicate IsPart(r: DataObject, dd: DataObject, offset: nat)
    requires WellFormed(r) && WellFormed(dd)
  {
    && SamePlaces(r, dd, offset)
    && (r.size > 0 ==> NumRecords(r) == |RecordsMet(AsRecords(dd), offset, r.size)|)
  }

  lemma EmptyPart(r: DataObject, dd: DataObject, offset: nat)
    requires WellFormed(r) && WellFormed(dd) && r.size == 0
    ensures IsPart(r, dd, offset) && SamePlaces(r, dd, offset)
  {
  }

  lemma WholePlaces(dd: DataObject)
    requires WellFormed(dd)
    ensures SamePlaces(dd, dd, 0)
  {
    hide WellFormed, Where;
  }

  lemma WholePart(dd: DataObject)
    requires WellFormed(dd)
    ensures IsPart(dd, dd, 0)
  {
    if dd.size > 0 {
      var rs := AsRecords(dd);
      AsRecordsMeaning(dd);
      assert rs[..|rs|] == rs;
      FirstOf(rs, |rs| - 1);
      hide RecordsBytes, WellFormed;
      FirstOf(rs, 0);
      assert GoodRecord(rs[0]) && GoodRecord(rs[|rs| - 1]);
      MetBetween(rs, 0, |rs| - 1, 0, dd.size);
    }
  }

  /** The only record of a leaf is met by every range inside it. */
  lemma LeafMet(dd: DataObject, offset: nat, length: nat)
    requires Leaf(dd) && length > 0 && offset + length <= dd.size
    ensures |RecordsMet(AsRecords(dd), offset, length)| == 1
  {
    var rs := AsRecords(dd);
    OneRecord(rs[0]);
    assert rs[..1] == rs;
    MetBetween(rs, 0, 0, offset, length);
  }

  lemma LeafPlaces(dd: DataObject, offset: nat, length: nat, r: DataObject)
    requires WellFormed(dd) && WellFormed(r) && Leaf(dd) && offset + length <= dd.size
    requires r.size == length && r.records == [Record(dd, offset, length)]
    ensures SamePlaces(r, dd, offset)
  {
  }

  lemma LeafPart(dd: DataObject, offset: nat, length: nat, r: DataObject)
    requires WellFormed(dd) && WellFormed(r) && Leaf(dd) && length > 0 && offset + length <= dd.size
    requires r.size == length && r.records == [Record(dd, offset, length)]
    ensures IsPart(r, dd, offset)
  {
    LeafMet(dd, offset, length);
    LeafPlaces(dd, offset, length, r);
  }

  /** A range of the leaf under record i, inside that record, is a range of the object. */
  lemma RecordPlaces(dd: DataObject, i: nat, x: nat, r: DataObject)
    requires WellFormed(dd) && WellFormed(r) && i < |dd.records| && x + r.size <= dd.records[i].length
    requires WellFormed(dd.records[i].obj) && SamePlaces(r, dd.records[i].obj, dd.records[i].from + x)
    ensures SamePlaces(r, dd, TotalLength(dd.records[..i]) + x)
  {
    hide TotalLength, WellFormed, Where, PlaceIn;
    var rs := dd.records;
    var start := TotalLength(rs[..i]) + x;
    RecordOfObject(dd, i);
    forall p: nat ensures SamePlace(r, dd, start, p) {
      if p < r.size {
        PlaceAt(rs, i, x + p);
        PlaceGiven(dd, i, x, r, p);
      }
    }
    assert SamePlaces(r, dd, start);
  }

  lemma RecordOfObject(dd: DataObject, i: nat)
    requires WellFormed(dd) && i < |dd.records|
    ensures TotalLength(dd.records) == dd.size
    ensures GoodRecord(dd.records[i])
  {
  }

  lemma PlaceGiven(dd: DataObject, i: nat, x: nat, r: DataObject, p: nat)
    requires WellFormed(dd) && WellFormed(r) && i < |dd.records| && p < r.size && dd.size == TotalLength(dd.records)
    requires Leaf(dd.records[i].obj)
    requires WellFormed(dd.records[i].obj) && SamePlaces(r, dd.records[i].obj, dd.records[i].from + x)
    requires TotalLength(dd.records[..i]) + x + p < TotalLength(dd.records)
    requires PlaceIn(dd.records, TotalLength(dd.records[..i]) + x + p)
             == Place(dd.records[i].obj, dd.records[i].from + x + p)
    ensures Where(r, p) == Where(dd, TotalLength(dd.records[..i]) + x + p)
  {
    hide TotalLength, WellFormed, PlaceIn;
    assert SamePlace(r, dd.records[i].obj, dd.records[i].from + x, p);
  }

  lemma RecordPart(dd: DataObject, i: nat, x: nat, r: DataObject)
    requires WellFormed(dd) && WellFormed(r) && i < |dd.records|
    requires r.size > 0 && x + r.size <= dd.records[i].length
    requires WellFormed(dd.records[i].obj) && IsPart(r, dd.records[i].obj, dd.records[i].from + x)
    ensures IsPart(r, dd, TotalLength(dd.records[..i]) + x)
  {
    hide TotalLength, WellFormed, RecordsMet, SamePlaces, RecordsBytes;
    RecordPlaces(dd, i, x, r);
    RecordOfObject(dd, i);
    LeafMet(dd.records[i].obj, dd.records[i].from + x, r.size);
    FirstOf(dd.records, i);
    MetBetween(dd.records, i, i, TotalLength(dd.records[..i]) + x, r.size);
  }

  lemma CompositeTotal(dd: DataObject)
    requires WellFormed(dd) && !Leaf(dd)
    ensures TotalLength(dd.records) == dd.size && GoodRecords(dd.records)
  {
  }

  lemma SpanningPart(dd: DataObject, i: nat, j: nat, x: nat, y: nat, r: DataObject)
    requires WellFormed(dd) && WellFormed(r) && i < j < |dd.records|
    requires x < dd.records[i].length && 0 < y <= dd.records[j].length
    requires r.records == Spanning(dd.records, i, j, x, y)
    requires TotalLength(dd.records[..i]) + x + r.size == TotalLength(dd.records[..j]) + y
    ensures IsPart(r, dd, TotalLength(dd.records[..i]) + x)
  {
    hide TotalLength, WellFormed, RecordsMet, Spanning, PlaceIn, SamePlaces, RecordsBytes;
    CompositeTotal(dd);
    var rs := dd.records;
    FirstOf(rs, i);
    FirstOf(rs, j);
    PrefixMonotone(rs, i + 1, j);
    MetBetween(rs, i, j, TotalLength(rs[..i]) + x, r.size);
    SpanningKeeps(dd, i, j, x, y, r);
  }

  lemma SpanningKeeps(dd: DataObject, i: nat, j: nat, x: nat, y: nat, r: DataObject)
    requires WellFormed(dd) && WellFormed(r) && i < j < |dd.records|
    requires x < dd.records[i].length && 0 < y <= dd.records[j].length
    requires r.records == Spanning(dd.records, i, j, x, y)
    requires TotalLength(dd.records[..i]) + x + r.size == TotalLength(dd.records[..j]) + y
    ensures SamePlaces(r, dd, TotalLength(dd.records[..i]) + x)
  {
    hide TotalLength, WellFormed, Spanning, PlaceIn, GoodRecords;
    CompositeTotal(dd);
    CompositeTotal(r);
    var start := TotalLength(dd.records[..i]) + x;
    forall p: nat ensures SamePlace(r, dd, start, p) {
      if p < r.size {
        SpanningPlaces(dd.records, i, j, x, y, p);
      }
    }
  }

  /** A concatenation keeps every byte of both objects where it is. */
  lemma JoinedPlaces(dd1: DataObject, dd2: DataObject, d: DataObject, p: nat)
    requires WellFormed(dd1) && dd1.size > 0 && WellFormed(dd2) && dd2.size > 0 && WellFormed(d)
    requires d.records == AsRecords(dd1) + AsRecords(dd2) && p < d.size
    ensures d.size == dd1.size + dd2.size
    ensures Where(d, p) == if p < dd1.size then Where(dd1, p) else Where(dd2, p - dd1.size)
  {
    hide TotalLength, RecordsBytes;
    AsRecordsMeaning(dd1);
    AsRecordsMeaning(dd2);
    CompositeTotal(d);
    TotalLengthAppend(AsRecords(dd1), AsRecords(dd2));
    PlaceAppend(AsRecords(dd1), AsRecords(dd2), p);
  }

  /** One call of the client's applier: logical offset, address and length. */
  datatype Tile = Tile(offset: nat, buffer: Buffer, at: nat, length: nat)

  ghost predicate GoodTile(t: Tile) {
    t.at + t.length <= |t.buffer.bytes|
  }

  ghost function TileBytes(t: Tile): seq<byte> {
    if GoodTile(t) then t.buffer.bytes[t.at..t.at + t.length] else []
  }

  ghost predicate GoodTiles(ts: seq<Tile>) {
    forall k :: 0 <= k < |ts| ==> GoodTile(ts[k])
  }

  ghost function TilesBytes(ts: seq<Tile>): seq<byte> {
    if ts == [] then [] else TileBytes(ts[0]) + TilesBytes(ts[1..])
  }

  /** The tiles lie one behind the other, from `offset` on. */
  ghost predicate Contiguous(ts: seq<Tile>, offset: nat) {
    ts == [] || (ts[0].offset == offset && ts[0].length > 0 && Contiguous(ts[1..], offset + ts[0].length))
  }

  ghost function RecordTiles(rs: seq<Record>, offset: nat): seq<Tile>
    requires GoodRecords(rs)
  {
    if rs == [] then []
    else [Tile(offset, rs[0].obj.buffer, rs[0].from, rs[0].length)] + RecordTiles(rs[1..], offset + rs[0].length)
  }

  /** A cached flat buffer, if there is one, holds the meaning of its object. */
  ghost predicate GoodCache(d: DataObject, cached: Buffer?)
    requires WellFormed(d)
  {
    cached != null ==> |d.records| >= 2 && cached.bytes == Bytes(d)
  }

  /** The tiles that a walk visits for `size` bytes of the object from `from` on, when
      these stand at logical offset `offset`: one for a leaf, a trivial subrange and a
      flattened object, otherwise one for each record. */
  ghost function TilesAt(d: DataObject, cached: Buffer?, offset: nat, from: nat, size: nat): seq<Tile>
    requires WellFormed(d) && d.size > 0
  {
    if Leaf(d) then [Tile(offset, d.buffer, from, size)]
    else if |d.records| == 1 then [Tile(offset, d.records[0].obj.buffer, d.records[0].from + from, size)]
    else if cached != null then [Tile(offset, cached, from, size)]
    else RecordTiles(d.records, offset)
  }

  /** The tiles of the whole object. */
  ghost function Tiles(d: DataObject, cached: Buffer?): seq<Tile>
    requires WellFormed(d)
  {
    if d.size == 0 then [] else TilesAt(d, cached, 0, 0, d.size)
  }

  lemma {:induction false} RecordTilesMeaning(rs: seq<Record>, offset: nat)
    requires GoodRecords(rs)
    ensures Contiguous(RecordTiles(rs, offset), offset)
    ensures TilesBytes(RecordTiles(rs, offset)) == RecordsBytes(rs)
    ensures |RecordTiles(rs, offset)| == |rs|
    ensures GoodTiles(RecordTiles(rs, offset))
  {
    if rs != [] {
      var rest := rs[1..];
      assert forall i :: 0 <= i < |rest| ==> rest[i] == rs[i + 1];
      RecordTilesMeaning(rest, offset + rs[0].length);
      hide TilesBytes, Contiguous, TileBytes, GoodTiles;
      var r := rs[0];
      assert GoodRecord(r);
      RecordTile(r, offset);
      ConsTiles(Tile(offset, r.obj.buffer, r.from, r.length), RecordTiles(rest, offset + r.length));
    }
  }

  lemma RecordTile(r: Record, offset: nat)
    requires GoodRecord(r)
    ensures GoodTile(Tile(offset, r.obj.buffer, r.from, r.length))
    ensures TileBytes(Tile(offset, r.obj.buffer, r.from, r.length)) == RecordBytes(r)
  {
  }

  lemma ConsTiles(t: Tile, ts: seq<Tile>)
    requires GoodTile(t) && t.length > 0
    requires GoodTiles(ts) && Contiguous(ts, t.offset + t.length)
    ensures GoodTiles([t] + ts) && Contiguous([t] + ts, t.offset)
    ensures TilesBytes([t] + ts) == TileBytes(t) + TilesBytes(ts)
  {
    assert ([t] + ts)[1..] == ts;
  }

  lemma OneTile(t: Tile)
    requires GoodTile(t) && t.length > 0
    ensures Contiguous([t], t.offset) && TilesBytes([t]) == TileBytes(t)
  {
    assert [t][1..] == [];
  }

  /** The tiles cover the object from offset 0 to its size, in order and without gap
      or overlap, with exactly its bytes. */
  lemma TilesMeaning(d: DataObject, cached: Buffer?)
    requires WellFormed(d) && GoodCache(d, cached)
    ensures Contiguous(Tiles(d, cached), 0)
    ensures TilesBytes(Tiles(d, cached)) == Bytes(d)
    ensures GoodTiles(Tiles(d, cached))
  {
    if d.size > 0 {
      if !Leaf(d) && |d.records| == 1 {
        var r := d.records[0];
        assert d.records == [r] && GoodRecord(r);
        OneRecord(r);
        OneTile(Tile(0, r.obj.buffer, r.from, d.size));
      } else if Leaf(d) || cached != null {
        OneTile(Tiles(d, cached)[0]);
      } else {
        RecordTilesMeaning(d.records, 0);
      }
    }
  }

  lemma TilesUnfold(ts: seq<Tile>, offset: nat)
    requires Contiguous(ts, offset) && GoodTiles(ts) && ts != []
    ensures ts[0].offset == offset && |TileBytes(ts[0])| == ts[0].length
    ensures GoodTiles(ts[1..]) && Contiguous(ts[1..], offset + ts[0].length)
    ensures TilesBytes(ts) == TileBytes(ts[0]) + TilesBytes(ts[1..])
  {
    hide TilesBytes, Contiguous;
    var tail := ts[1..];
    assert forall i :: 0 <= i < |tail| ==> tail[i] == ts[i + 1];
    assert GoodTile(ts[0]);
    TilesUnfoldBytes(ts, offset);
  }

  lemma TilesUnfoldBytes(ts: seq<Tile>, offset: nat)
    requires Contiguous(ts, offset) && ts != []
    ensures ts[0].offset == offset && Contiguous(ts[1..], offset + ts[0].length)
    ensures TilesBytes(ts) == TileBytes(ts[0]) + TilesBytes(ts[1..])
  {
  }

  /** In a contiguous list, every tile holds the slice of the whole at its offset. */
  lemma {:induction false} TileIsSlice(ts: seq<Tile>, offset: nat, k: nat)
    requires Contiguous(ts, offset) && GoodTiles(ts) && k < |ts|
    ensures offset <= ts[k].offset && ts[k].offset - offset + ts[k].length <= |TilesBytes(ts)|
    ensures TilesBytes(ts)[ts[k].offset - offset..ts[k].offset - offset + ts[k].length] == TileBytes(ts[k])
    decreases k
  {
    hide TilesBytes, TileBytes, Contiguous, GoodTiles;
    TilesUnfold(ts, offset);
    var head, rest := TileBytes(ts[0]), TilesBytes(ts[1..]);
    if k == 0 {
      assert (head + rest)[..ts[0].length] == head;
    } else {
      var tail := ts[1..];
      TileIsSlice(tail, offset + ts[0].length, k - 1);
      assert tail[k - 1] == ts[k];
      ShiftedSlice(head, rest, ts[k].offset - offset - ts[0].length, ts[k].length);
    }
  }

  /** Where the tile after tile k starts, or where the whole ends. */
  lemma {:induction false} NextOffset(ts: seq<Tile>, offset: nat, k: nat)
    requires Contiguous(ts, offset) && GoodTiles(ts) && k < |ts|
    ensures ts[k].offset + ts[k].length == if k + 1 < |ts| then ts[k + 1].offset else offset + |TilesBytes(ts)|
    decreases k
  {
    hide TilesBytes, TileBytes, Contiguous, GoodTiles;
    TilesUnfold(ts, offset);
    var tail := ts[1..];
    if k > 0 {
      NextOffset(tail, offset + ts[0].length, k - 1);
    } else if tail == [] {
      NoTiles(tail);
    } else {
      TilesUnfold(tail, offset + ts[0].length);
    }
  }

  lemma NoTiles(ts: seq<Tile>)
    requires ts == []
    ensures TilesBytes(ts) == []
  {
  }

  lemma ShiftedSlice(head: seq<byte>, rest: seq<byte>, x: nat, y: nat)
    requires x + y <= |rest|
    ensures (head + rest)[|head| + x..|head| + x + y] == rest[x..x + y]
  {
  }
}
