/** The operations on dispatch data objects, with reference counts and cached flat
    buffers (data.c). */
module DataStores {
  import opened DataObjects
  import opened DataCounts

  /** What an operation that allocates may come to. Trap is the write through the null
      pointer that a failed allocation leaves behind. */
  datatype Outcome = Done(obj: DataObject) | OutOfMemory | Trap

  /** _dispatch_data_alloc succeeds iff the storage size does not overflow size_t. */
  predicate AllocFits(n: nat) {
    SIZEOF_DATA + n * SIZEOF_RECORD <= SIZE_MAX
  }

  /** The calls that reach the applier: it answers reply(k) to the k-th call, and the
      first refusal is the last call. */
  ghost function Delivered(ts: seq<Tile>, reply: nat -> bool, k: nat): seq<Tile> {
    if ts == [] then []
    else if !reply(k) then [ts[0]]
    else [ts[0]] + Delivered(ts[1..], reply, k + 1)
  }

  ghost predicate Accepted(reply: nat -> bool, from: nat, to: nat) {
    forall n :: from <= n < to ==> reply(n)
  }

  /** The delivered calls are a prefix; it is everything, or ends with the first
      refusal. */
  lemma {:induction false} DeliveredStops(ts: seq<Tile>, reply: nat -> bool, k: nat)
    ensures Delivered(ts, reply, k) <= ts
    ensures Accepted(reply, k, k + |ts|) ==> Delivered(ts, reply, k) == ts
    ensures !Accepted(reply, k, k + |ts|) ==>
      var last := k + |Delivered(ts, reply, k)| - 1;
      k <= last && !reply(last) && Accepted(reply, k, last)
  {
    if ts != [] && reply(k) {
      DeliveredStops(ts[1..], reply, k + 1);
    } else if ts != [] {
      assert !reply(k) && k < k + |ts|;
    }
  }

  /** The references held outside, with one more for d; the empty object is not
      counted. */
  ghost function OneMore(outside: map<DataObject, nat>, empty: DataObject, d: DataObject): map<DataObject, nat> {
    if d == empty then outside else outside[d := (if d in outside then outside[d] else 0) + 1]
  }

  class DataStore {
    const empty: DataObject
    var refs: map<DataObject, nat>
    var flat: map<DataObject, Buffer>
    ghost var outside: map<DataObject, nat>
    ghost var created: seq<DataObject>
    ghost var destroyed: multiset<DataObject>
    ghost var published: set<Buffer>
    ghost var freed: multiset<Buffer>
    ghost var dismissed: seq<Dismissal>   // what became of the buffers of empty requests

    ghost function Books(): Book
      reads this
    {
      Book(refs, flat, outside, created, destroyed, published, freed)
    }

    /** The books balance; the empty object is a global that is never counted. */
    ghost predicate Counted()
      reads this
    {
      && Balanced(Books())
      && GoodLeaf(empty) && empty.size == 0 && empty !in created
    }

    /** Besides, every object has record lengths that add up to its size. */
    ghost predicate Valid()
      reads this
    {
      Counted() && forall o :: o in created ==> WellFormed(o)
    }

    /** The object may be used: it is the empty object, or it is live. */
    predicate Live(d: DataObject)
      reads this
    {
      d == empty || d in refs
    }

    /** The cached flat buffer of an object. */
    function Cached(d: DataObject): Buffer?
      reads this
    {
      if d in flat then flat[d] else null
    }

    /** Nothing changed but the references held outside and the objects created. */
    twostate predicate OnlyAdds()
      reads this
    {
      flat == old(flat) && destroyed == old(destroyed) && published == old(published) && freed == old(freed)
    }

    /** A constructor returned r: its caller holds one reference more, objects were at
        most added, and nothing was destroyed, published or freed. */
    twostate predicate Returned(new r: DataObject)
      reads this
    {
      && Counted() && Live(r)
      && outside == OneMore(old(outside), empty, r)
      && (created == old(created) || created == old(created) + [r])
      && dismissed == old(dismissed)
      && OnlyAdds()
    }

    constructor ()
      ensures Valid() && created == [] && refs == map[] && outside == map[] && fresh(empty)
      ensures dismissed == []
    {
      empty := new DataObject(0, [], null);
      refs, flat := map[], map[];
      outside, created, destroyed, published, freed := map[], [], multiset{}, {}, multiset{};
      dismissed := [];
    }

    lemma LiveIsGood(d: DataObject)
      requires Counted() && Live(d) && WellFormed(d)
      ensures WellFormed(d)
      ensures d != empty ==> d in created && d in outside && RecordsIn(d.records, refs)
      ensures GoodCache(d, Cached(d))
    {
      if d != empty {
        BookGives(Books(), d);
      }
    }

    /** The empty object is returned without touching any count. */
    twostate lemma ReturnedEmpty()
      requires Counted() && Books() == old(Books()) && dismissed == old(dismissed)
      ensures Returned(empty)
    {
    }

    /** _dispatch_data_retain by a caller. */
    method Retain(d: DataObject)
      requires Counted() && Live(d)
      modifies this
      ensures Returned(d) && created == old(created)
    {
      hide Balanced, WellFormed;
      if d != empty {
        RetainedBalanced(Books(), d);
        BookGives(Books(), d);
        refs := refs[d := refs[d] + 1];
        outside := outside[d := outside[d] + 1];
      }
    }

    /** Allocates an object and retains the objects of its records. */
    method NewObject(size: nat, records: seq<Record>, buffer: Buffer?) returns (d: DataObject)
      requires Counted() && RecordsIn(records, refs) && GoodFields(size, records, buffer)
      modifies this
      ensures fresh(d) && d.size == size && d.records == records && d.buffer == buffer
      ensures Returned(d) && d in refs && created == old(created) + [d]
    {
      hide Balanced, Points, GoodFields, WellFormed, RecordsIn;
      d := new DataObject(size, records, buffer);
      ghost var before := Books();
      NotCreated(before, d);
      RetainRecords(d, records);
      outside := outside[d := 1];
      created := created + [d];
      RetainEnd(before, Books(), d, records);
      AddedBalanced(before, Books(), d);
    }

    /** The new object gets its first reference, and the object of every record one
        more. */
    method RetainRecords(d: DataObject, records: seq<Record>)
      requires d !in refs && RecordsIn(records, refs)
      modifies this`refs
      ensures RetainedUpTo(old(refs), refs, d, records, |records|)
    {
      hide RetainedUpTo;
      refs := refs[d := 1];
      RetainStart(old(refs), refs, d, records);
      for i := 0 to |records|
        invariant RetainedUpTo(old(refs), refs, d, records, i)
      {
        RetainStep(old(refs), refs, d, records, i);
        refs := refs[records[i].obj := refs[records[i].obj] + 1];
      }
    }

    /** dispatch_data_create: a leaf over the client's buffer, or over a copy of it. */
    method Create(buffer: Buffer?, destructor: Destructor, mallocOk: bool) returns (r: Outcome)
      requires Counted() && (buffer != null ==> |buffer.bytes| <= SIZE_MAX)
      modifies this
      ensures Counted() && (old(Valid()) ==> Valid()) && old(created) <= created && OnlyAdds()
      ensures r.Done? ==> Live(r.obj) && outside == OneMore(old(outside), empty, r.obj)
      ensures !r.Done? ==> outside == old(outside)
      ensures buffer == null || buffer.bytes == [] ==> r == Done(empty)
      ensures r.Done? && buffer != null ==> Leaf(r.obj) && Bytes(r.obj) == buffer.bytes
      ensures r.Done? && buffer != null && buffer.bytes != [] ==> (r.obj.buffer == buffer <==> destructor == Other)
      ensures dismissed == old(dismissed) +
        if buffer == null || buffer.bytes == [] then Dismissed(buffer, destructor) else []
      ensures r == OutOfMemory <==> buffer != null && buffer.bytes != [] && destructor == Default && !mallocOk
      ensures r == Trap <==> buffer != null && destructor == Inline && SIZEOF_DATA + |buffer.bytes| > SIZE_MAX
    {
      hide Balanced, WellFormed;
      if buffer == null || |buffer.bytes| == 0 {
        if destructor != Default {
          dismissed := dismissed + [if destructor == Inline then CrashQueued else Destroyed(buffer)];
        }
        return Done(empty);
      }
      var mem: Buffer := buffer;
      if destructor == Default {
        if !mallocOk {
          return OutOfMemory;
        }
        mem := new Buffer(buffer.bytes);
      } else if destructor == Inline {
        if SIZEOF_DATA + |buffer.bytes| > SIZE_MAX {
          return Trap;
        }
        mem := new Buffer(buffer.bytes);
      }
      var d := NewObject(|buffer.bytes|, [], mem);
      NewLeafIsGood(d);
      return Done(d);
    }

    /** dispatch_data_create_concat. The source does not check the sum of the sizes:
        the result is well formed, and means the concatenation, exactly when it fits. */
    method Concat(dd1: DataObject, dd2: DataObject) returns (r: Outcome)
      requires Counted() && Live(dd1) && WellFormed(dd1) && Live(dd2) && WellFormed(dd2)
      modifies this
      ensures if r.Done? then Returned(r.obj) else Books() == old(Books()) && dismissed == old(dismissed)
      ensures r.Done? ==> ConcatResult(dd1, dd2, r.obj)
      ensures r.Done? && old(Valid()) ==> (Valid() <==> dd1.size + dd2.size <= SIZE_MAX)
      ensures !r.Done? ==> dd1.size > 0 && dd2.size > 0 && !AllocFits(NumRecords(dd1) + NumRecords(dd2))
    {
      LiveIsGood(dd1);
      LiveIsGood(dd2);
      hide Balanced, WellFormed, RecordsIn, GoodFields, ConcatResult, GoodCache;
      if dd1.size == 0 {
        ConcatWithEmpty(dd1, dd2);
        Retain(dd2);
        return Done(dd2);
      }
      if dd2.size == 0 {
        ConcatWithEmpty(dd1, dd2);
        Retain(dd1);
        return Done(dd1);
      }
      r := ConcatNonEmpty(dd1, dd2);
    }

    /** The rest of dispatch_data_create_concat, once empty arguments are dealt with. */
    method ConcatNonEmpty(dd1: DataObject, dd2: DataObject) returns (r: Outcome)
      requires Counted() && dd1 in refs && dd2 in refs && dd1.size > 0 && dd2.size > 0
      requires WellFormed(dd1) && RecordsIn(dd1.records, refs) && WellFormed(dd2) && RecordsIn(dd2.records, refs)
      modifies this
      ensures if r.Done? then Returned(r.obj) else Books() == old(Books()) && dismissed == old(dismissed)
      ensures r.Done? ==> ConcatResult(dd1, dd2, r.obj)
      ensures r.Done? && old(Valid()) ==> (Valid() <==> dd1.size + dd2.size <= SIZE_MAX)
      ensures !r.Done? ==> !AllocFits(NumRecords(dd1) + NumRecords(dd2))
    {
      hide Balanced, WellFormed, RecordsIn, GoodFields, ConcatResult;
      var n := NumRecords(dd1) + NumRecords(dd2);
      if n > SIZE_MAX {
        return OutOfMemory;
      }
      if !AllocFits(n) {
        return Trap;
      }
      var size := (dd1.size + dd2.size) % (SIZE_MAX + 1);
      var records := AsRecords(dd1) + AsRecords(dd2);
      ConcatGood(dd1, dd2, refs);
      var d := NewObject(size, records, null);
      ConcatMeaning(dd1, dd2, d);
      return Done(d);
    }

    /** dispatch_data_create_subrange: the clamped slice, as a part of the object that keeps
        every byte in its leaf. Both crashes of the source are the places marked as
        unreachable. */
    method Subrange(dd: DataObject, offset: nat, length: nat) returns (r: DataObject)
      requires Counted() && Live(dd) && WellFormed(dd)
      modifies this
      ensures (old(Valid()) ==> Valid()) && Returned(r)
      ensures WellFormed(r) && Bytes(r) == Slice(Bytes(dd), offset, length) && IsPart(r, dd, offset)
      ensures offset == 0 && length == dd.size && length > 0 ==> r == dd
      ensures Leaf(dd) && offset < dd.size && length > 0 ==>
        (r.records == [Record(dd, 0, dd.size)] <==> offset == 0 && length > dd.size)
      decreases |dd.records|, 2
    {
      hide Balanced, WellFormed, Bytes, RecordsIn, GoodFields, Slice, GoodCache, IsPart;
      if offset >= dd.size || length == 0 {
        SliceEmpty(Bytes(dd), offset, length);
        EmptyRange(dd, offset);
        ReturnedEmpty();
        return empty;
      }
      var clamped := length;
      if length > dd.size - offset {
        clamped := dd.size - offset;
      } else if length == dd.size {
        SliceClamped(Bytes(dd), offset, length, length);
        SliceWhole(Bytes(dd));
        WholePart(dd);
        Retain(dd);
        return dd;
      }
      SliceClamped(Bytes(dd), offset, length, clamped);
      LiveIsGood(dd);
      r := SubrangeInside(dd, offset, clamped);
    }

    /** The rest of dispatch_data_create_subrange, once the range is clamped. */
    method SubrangeInside(dd: DataObject, offset: nat, length: nat) returns (r: DataObject)
      requires Counted() && dd in refs && WellFormed(dd) && RecordsIn(dd.records, refs)
      requires length > 0 && offset + length <= dd.size
      modifies this
      ensures (old(Valid()) ==> Valid()) && Returned(r)
      ensures WellFormed(r) && Bytes(r) == Bytes(dd)[offset..offset + length] && IsPart(r, dd, offset)
      ensures Leaf(dd) ==> r.records == [Record(dd, offset, length)]
      decreases |dd.records|, 1
    {
      hide Balanced, WellFormed, Bytes, RecordsIn, GoodFields, IsPart;
      if Leaf(dd) {
        LeafRange(dd, offset, length, refs);
        r := NewObject(length, [Record(dd, offset, length)], null);
        LeafRangeMeaning(dd, offset, length, r);
        LeafPart(dd, offset, length, r);
      } else {
        hide Slice;
        CompositeParts(dd);
        var i, x := FindStart(dd.records, offset);
        if x + length <= dd.records[i].length {
          RecordRange(dd, i, x, length, refs);
          SliceClamped(Bytes(dd), offset, length, length);
          r := Subrange(dd.records[i].obj, dd.records[i].from + x, length);
          RecordPart(dd, i, x, r);
        } else {
          r := SubrangeAcross(dd, i, x, offset, length);
        }
      }
    }

    /** A range that starts in record i and does not fit into it. */
    method SubrangeAcross(dd: DataObject, i: nat, x: nat, offset: nat, length: nat) returns (r: DataObject)
      requires Counted() && WellFormed(dd) && !Leaf(dd) && RecordsIn(dd.records, refs)
      requires i < |dd.records| && x < dd.records[i].length < x + length
      requires offset == TotalLength(dd.records[..i]) + x && offset + length <= dd.size
      modifies this
      ensures (old(Valid()) ==> Valid()) && Returned(r)
      ensures WellFormed(r) && Bytes(r) == Bytes(dd)[offset..offset + length] && IsPart(r, dd, offset)
      decreases |dd.records|, 0
    {
      hide Balanced, WellFormed, Bytes, RecordsIn, GoodFields, Spanning, TotalLength, GoodRecords, Patched, IsPart;
      CompositeParts(dd);
      var toTheEnd := offset + length == dd.size;
      var count, lastLength := FindEnd(dd.records, i, x, length, toTheEnd);
      var records := Patched(dd.records, i, count, x, toTheEnd, lastLength);
      ghost var j := i + count - 1;
      ghost var y := if toTheEnd then dd.records[j].length else lastLength;
      PatchedIsSpanning(dd.records, i, count, x, toTheEnd, lastLength);
      SpanRange(dd, i, j, x, y, length, refs);
      r := NewObject(length, records, null);
      SpanRangeMeaning(dd, i, j, x, y, offset, length, r);
      SpanningPart(dd, i, j, x, y, r);
    }

    /** The loop that finds the record containing the offset. */
    method FindStart(rs: seq<Record>, offset: nat) returns (i: nat, x: nat)
      requires offset < TotalLength(rs)
      ensures i < |rs| && x < rs[i].length && offset == TotalLength(rs[..i]) + x
    {
      hide TotalLength;
      i, x := 0, offset;
      NoPrefix(rs);
      AllPrefix(rs);
      while i < |rs| && x >= rs[i].length
        invariant i <= |rs| && offset == TotalLength(rs[..i]) + x
      {
        PrefixStep(rs, i);
        x := x - rs[i].length;
        i := i + 1;
      }
      if i >= |rs| {
        assert false; // dispatch_data_create_subrange out of bounds
      }
    }

    /** The loop that finds the record containing the end of a range that does not fit
        into record i, and how much of that record is used. */
    method FindEnd(rs: seq<Record>, i: nat, x: nat, length: nat, toTheEnd: bool)
      returns (count: nat, lastLength: nat)
      requires GoodRecords(rs) && i < |rs| && x < rs[i].length < x + length
      requires TotalLength(rs[..i]) + x + length <= TotalLength(rs)
      requires toTheEnd <==> TotalLength(rs[..i]) + x + length == TotalLength(rs)
      ensures count >= 2 && i + count <= |rs|
      ensures toTheEnd ==> i + count == |rs|
      ensures !toTheEnd ==> 0 < lastLength <= rs[i + count - 1].length
      ensures TotalLength(rs[..i + count - 1]) + (if toTheEnd then rs[i + count - 1].length else lastLength)
              == TotalLength(rs[..i]) + x + length
    {
      hide TotalLength, GoodRecords;
      PrefixStep(rs, i);
      AllPrefix(rs);
      lastLength := 0;
      if toTheEnd {
        count := |rs| - i;
        WholePrefix(rs, i);
        return;
      }
      ghost var end := TotalLength(rs[..i]) + x + length;
      lastLength := length - (rs[i].length - x);
      count := 1;
      while i + count < |rs|
        invariant 1 <= count && i + count <= |rs| && lastLength > 0
        invariant TotalLength(rs[..i + count]) + lastLength == end
      {
        PrefixStep(rs, i + count);
        var recordLength := rs[i + count].length;
        count := count + 1;
        if lastLength <= recordLength {
          return;
        }
        lastLength := lastLength - recordLength;
        if i + count >= |rs| {
          assert false; // dispatch_data_create_subrange out of bounds
        }
      }
      assert false; // the loop is only left from inside
    }

    lemma CacheIsGood(o: DataObject)
      requires Counted() && WellFormed(o)
      ensures GoodCache(o, Cached(o))
    {
    }

    /** _dispatch_data_map_direct: sees through a trivial subrange; the buffer is that of
        the leaf, or the cached flat buffer if there is one. */
    function MapDirect(dd: DataObject, offset: nat): Direct
      reads this
    {
      var trivial := !Leaf(dd) && NumRecords(dd) == 1;
      var obj := if trivial then dd.records[0].obj else dd;
      var from := if trivial then offset + dd.records[0].from else offset;
      Direct(obj, from, if Leaf(obj) then obj.buffer else Cached(obj))
    }

    /** _dispatch_data_apply, where reply(n) is what the applier answers to call n and
        k calls were made before. */
    method ApplyFrom(dd: DataObject, offset: nat, from: nat, size: nat, reply: nat -> bool, k: nat)
      returns (ok: bool, calls: seq<Tile>)
      requires Counted() && WellFormed(dd) && dd.size > 0
      requires Leaf(dd) || (from == 0 && size == dd.size)
      ensures calls == Delivered(TilesAt(dd, Cached(dd), offset, from, size), reply, k)
      ensures ok <==> Accepted(reply, k, k + |TilesAt(dd, Cached(dd), offset, from, size)|)
      decreases |dd.records|, 1
    {
      hide Balanced, WellFormed, GoodCache, Delivered, Accepted;
      var direct := MapDirect(dd, 0);
      CacheIsGood(dd);
      DirectTile(dd, Cached(dd), offset, from, size);
      if direct.buffer != null {
        calls := [Tile(offset, direct.buffer, direct.from + from, size)];
        ok := reply(k);
        DeliveredOne(calls[0], reply, k);
        return;
      }
      CompositeParts(dd);
      RecordTilesMeaning(dd.records, offset);
      ok, calls := ApplyToRecords(dd.records, offset, reply, k);
    }

    /** The loop of _dispatch_data_apply over the records of a composite. */
    method ApplyToRecords(rs: seq<Record>, offset: nat, reply: nat -> bool, k: nat)
      returns (ok: bool, calls: seq<Tile>)
      requires Counted() && GoodRecords(rs)
      ensures calls == Delivered(RecordTiles(rs, offset), reply, k)
      ensures ok <==> Accepted(reply, k, k + |rs|)
      decreases |rs|, 0
    {
      hide Balanced, Delivered, RecordTiles, GoodRecords, Progress, WellFormed, TilesAt, Accepted;
      ok, calls := true, [];
      var at: nat := offset;
      var i: nat := 0;
      ProgressStart(rs, offset, reply, k);
      while i < |rs| && ok
        invariant i <= |rs| && Progress(rs, offset, reply, k, i, ok, calls, at)
      {
        RecordGives(rs, i);
        CacheIsGood(rs[i].obj);
        var more;
        ok, more := ApplyFrom(rs[i].obj, at, rs[i].from, rs[i].length, reply, k + i);
        LeafTile(rs[i], Cached(rs[i].obj), at, reply, k + i);
        ProgressStep(rs, offset, reply, k, i, calls, at);
        calls := calls + more;
        at := at + rs[i].length;
        i := i + 1;
      }
      ProgressEnd(rs, offset, reply, k, i, ok, calls, at);
    }

    /** dispatch_data_apply: the applier gets the tiles of the object in order, up to and
        including the first one that it refuses. */
    method Apply(dd: DataObject, reply: nat -> bool) returns (ok: bool, calls: seq<Tile>)
      requires Counted() && Live(dd) && WellFormed(dd)
      ensures calls == Delivered(Tiles(dd, Cached(dd)), reply, 0)
      ensures ok <==> Accepted(reply, 0, |Tiles(dd, Cached(dd))|)
    {
      LiveIsGood(dd);
      if dd.size == 0 {
        return true, [];
      }
      hide Balanced, WellFormed, TilesAt;
      ok, calls := ApplyFrom(dd, 0, 0, dd.size, reply, 0);
    }

    /** The walk of _dispatch_data_flatten, whose applier accepts every call. */
    method AllTiles(dd: DataObject) returns (calls: seq<Tile>)
      requires Counted() && Live(dd) && WellFormed(dd)
      ensures Contiguous(calls, 0) && GoodTiles(calls) && TilesBytes(calls) == Bytes(dd)
    {
      LiveIsGood(dd);
      hide Balanced, WellFormed, Bytes, Contiguous, GoodTiles, TilesBytes, Delivered, Tiles;
      var yes := (n: nat) => true;
      var ok;
      ok, calls := Apply(dd, yes);
      DeliveredStops(Tiles(dd, Cached(dd)), yes, 0);
      TilesMeaning(dd, Cached(dd));
    }

    /** _dispatch_data_flatten: a new buffer with the bytes of the object. */
    method Flatten(dd: DataObject) returns (f: Buffer)
      requires Counted() && Live(dd) && WellFormed(dd) && dd.size > 0
      ensures fresh(f) && f.bytes == Bytes(dd)
    {
      hide Valid, Counted, WellFormed, Bytes, Contiguous, GoodTiles, TilesBytes, TileBytes, Copied;
      var calls := AllTiles(dd);
      var buffer := new byte[dd.size](_ => 0);
      ghost var bytes := Bytes(dd);
      CopiedStart(buffer[..], bytes, calls);
      for i := 0 to |calls|
        invariant Copied(buffer[..], bytes, calls, i)
      {
        CopiedSize(buffer[..], bytes, calls, i);
        TileAt(calls, bytes, i);
        ghost var before := buffer[..];
        Memcpy(buffer, calls[i].offset, calls[i].buffer, calls[i].at, calls[i].length);
        CopiedStep(before, buffer[..], bytes, calls, i);
      }
      CopiedAll(buffer[..], bytes, calls);
      f := new Buffer(buffer[..]);
    }

    method Memcpy(to: array<byte>, offset: nat, from: Buffer, at: nat, length: nat)
      requires offset + length <= to.Length && at + length <= |from.bytes|
      modifies to
      ensures to[..] == old(to[..offset]) + from.bytes[at..at + length] + old(to[offset + length..])
    {
      forall k | 0 <= k < length {
        to[offset + k] := from.bytes[at + k];
      }
    }

    /** dispatch_data_create_map: a contiguous view of the object, as the object itself
        when it has one, or as a new leaf over a flat copy. */
    method CreateMap(dd: DataObject, mallocOk: bool)
      returns (data: DataObject?, buffer: Buffer?, at: nat, size: nat)
      requires Counted() && Live(dd) && WellFormed(dd)
      modifies this
      ensures Counted() && (old(Valid()) ==> Valid())
      ensures data != null ==> Returned(data) && WellFormed(data) && Bytes(data) == Bytes(dd) && size == dd.size
      ensures data != null && size > 0 ==> Holds(buffer, at, Bytes(dd))
      ensures data != null && size > 0 ==> MapDirect(data, 0).buffer == buffer && MapDirect(data, 0).from == at
      ensures data == null ==>
        !mallocOk && buffer == null && size == 0 && Books() == old(Books()) && dismissed == old(dismissed)
      ensures dd.size > 0 && old(MapDirect(dd, 0)).buffer != null ==> data == dd
      ensures dd.size > 0 && old(MapDirect(dd, 0)).buffer == null && data != null ==>
        Leaf(data) && data.buffer == buffer && at == 0 && fresh(buffer) && created == old(created) + [data]
    {
      LiveIsGood(dd);
      hide Balanced, WellFormed, Bytes, GoodCache, Holds, Returned;
      if dd.size == 0 {
        EmptyObject(dd);
        EmptyObject(empty);
        ReturnedEmpty();
        return empty, null, 0, 0;
      }
      var direct := MapDirect(dd, 0);
      if direct.buffer != null {
        DirectHolds(dd);
        Retain(dd);
        return dd, direct.buffer, direct.from, dd.size;
      }
      if !mallocOk {
        return null, null, 0, 0;
      }
      var flatbuf := Flatten(dd);
      HoldsWhole(flatbuf);
      var d := LeafOver(flatbuf);
      return d, flatbuf, 0, dd.size;
    }

    method LeafOver(buffer: Buffer) returns (d: DataObject)
      requires Counted() && 0 < |buffer.bytes| <= SIZE_MAX
      modifies this
      ensures (old(Valid()) ==> Valid()) && Returned(d)
      ensures WellFormed(d) && Bytes(d) == buffer.bytes && Leaf(d) && d.buffer == buffer
      ensures created == old(created) + [d]
    {
      hide Balanced, WellFormed;
      d := NewObject(|buffer.bytes|, [], buffer);
      NewLeafIsGood(d);
    }

    /** At most a flat buffer was published. */
    twostate predicate OnlyPublishes()
      reads this
    {
      && refs == old(refs) && outside == old(outside) && created == old(created)
      && destroyed == old(destroyed) && freed == old(freed)
      && old(published) <= published && dismissed == old(dismissed)
    }

    twostate lemma NothingPublished()
      requires Books() == old(Books()) && dismissed == old(dismissed)
      ensures OnlyPublishes()
    {
    }

    /** dispatch_data_get_flattened_bytes_4libxpc without contention: the object keeps
        the flat copy. FlattenRace has the version with other threads. */
    method GetFlattenedBytes(dd: DataObject, mallocOk: bool) returns (buffer: Buffer?, at: nat)
      requires Counted() && Live(dd) && WellFormed(dd)
      modifies this
      ensures Counted() && (old(Valid()) ==> Valid()) && OnlyPublishes()
      ensures buffer != null ==>
        Holds(buffer, at, Bytes(dd)) && MapDirect(dd, 0).buffer == buffer && MapDirect(dd, 0).from == at
      ensures buffer == null <==> dd.size == 0 || (old(MapDirect(dd, 0)).buffer == null && !mallocOk)
    {
      LiveIsGood(dd);
      hide Balanced, WellFormed, Bytes, GoodCache, Holds, OnlyPublishes, MapDirect;
      NothingPublished();
      if dd.size == 0 {
        return null, 0;
      }
      var direct := MapDirect(dd, 0);
      if direct.buffer != null {
        DirectHolds(dd);
        return direct.buffer, direct.from;
      }
      if !mallocOk {
        return null, 0;
      }
      buffer := FlattenAndPublish(dd);
      at := 0;
    }

    lemma DirectHolds(dd: DataObject)
      requires Counted() && WellFormed(dd) && dd.size > 0
      ensures MapDirect(dd, 0).buffer != null ==> Holds(MapDirect(dd, 0).buffer, MapDirect(dd, 0).from, Bytes(dd))
    {
      hide Balanced, WellFormed, Bytes, GoodCache, Holds;
      CacheIsGood(dd);
      DirectBytes(dd, Cached(dd));
    }

    /** The flat copy, and the compare-and-swap of the cached buffer that finds null. */
    method FlattenAndPublish(dd: DataObject) returns (f: Buffer)
      requires Counted() && Live(dd) && WellFormed(dd) && dd.size > 0 && MapDirect(dd, 0).buffer == null
      modifies this`flat, this`published
      ensures Counted() && (old(Valid()) ==> Valid()) && OnlyPublishes()
      ensures Holds(f, 0, Bytes(dd)) && MapDirect(dd, 0).buffer == f && MapDirect(dd, 0).from == 0 && fresh(f)
    {
      hide Balanced, Bytes, Holds;
      f := Flatten(dd);
      HoldsWhole(f);
      NotDirect(dd);
      PublishedBalanced(Books(), dd, f);
      flat := flat[dd := f];
      published := published + {f};
    }

    /** dispatch_data_copy_region: the tile that contains the location, as an object of
        its own, and the offset of that tile. */
    method CopyRegion(dd: DataObject, location: nat) returns (r: DataObject, offset: nat)
      requires Counted() && Live(dd) && WellFormed(dd)
      modifies this
      ensures (old(Valid()) ==> Valid()) && Returned(r) && WellFormed(r)
      ensures location >= dd.size ==> r == empty && offset == dd.size
      ensures location < dd.size ==> HasRegion(Tiles(dd, old(Cached(dd))), r, offset, location)
      ensures SamePlaces(r, dd, offset) && (r == dd || |r.records| <= 1)
    {
      hide Balanced, WellFormed, Bytes, TilesAt, HasRegion, Returned, SamePlaces;
      if location >= dd.size {
        ReturnedEmpty();
        EmptyRange(dd, dd.size);
        return empty, dd.size;
      }
      r, offset := CopyRegionFrom(dd, 0, dd.size, location, 0);
    }

    lemma EmptyRange(dd: DataObject, offset: nat)
      requires Counted() && WellFormed(dd)
      ensures WellFormed(empty) && Bytes(empty) == []
      ensures SamePlaces(empty, dd, offset) && IsPart(empty, dd, offset)
    {
      hide Balanced;
      EmptyPart(empty, dd, offset);
    }

    method CopyRegionFrom(dd: DataObject, from: nat, size: nat, location: nat, base: nat)
      returns (r: DataObject, offset: nat)
      requires Counted() && Live(dd) && WellFormed(dd) && dd.size > 0 && location < size
      requires if Leaf(dd) then from + size <= dd.size else from == 0 && size == dd.size
      modifies this
      ensures (old(Valid()) ==> Valid()) && Returned(r) && WellFormed(r)
      ensures HasRegion(TilesAt(dd, old(Cached(dd)), base, from, size), r, offset, base + location)
      ensures base <= offset && offset - base + r.size <= size && SamePlaces(r, dd, from + (offset - base))
      ensures r == dd || |r.records| <= 1
      decreases |dd.records|, 1
    {
      hide Balanced, WellFormed, Bytes, TilesAt, HasRegion, Returned, SamePlaces;
      if MapDirect(dd, from).buffer != null {
        r := CopyDirectRegion(dd, from, size, location, base);
        offset := base;
      } else {
        NotDirect(dd);
        r, offset := CopyRegionOfRecord(dd, location, base);
      }
    }

    /** The branch for objects with a contiguous buffer. */
    method CopyDirectRegion(dd: DataObject, from: nat, size: nat, location: nat, ghost base: nat)
      returns (r: DataObject)
      requires Counted() && Live(dd) && WellFormed(dd) && dd.size > 0 && location < size
      requires if Leaf(dd) then from + size <= dd.size else from == 0 && size == dd.size
      requires MapDirect(dd, from).buffer != null
      modifies this
      ensures (old(Valid()) ==> Valid()) && Returned(r) && WellFormed(r)
      ensures HasRegion(TilesAt(dd, old(Cached(dd)), base, from, size), r, base, base + location)
      ensures r.size == size && SamePlaces(r, dd, from) && (r == dd || |r.records| <= 1)
    {
      LiveIsGood(dd);
      hide Balanced, WellFormed, Bytes, TilesAt, HasRegion, GoodFields, RecordsIn, GoodCache, SamePlaces;
      if from == 0 && size == dd.size {
        WholeRegion(dd, Cached(dd), base, location);
        WholePlaces(dd);
        Retain(dd);
        return dd;
      }
      // The source also tests here whether the range is all of direct.obj; for a leaf
      // that is the case above.
      var direct := MapDirect(dd, from);
      LeafRange(dd, from, size, refs);
      r := NewObject(size, [Record(direct.obj, direct.from, size)], null);
      PartRegion(dd, old(Cached(dd)), from, size, r, base, location);
      LeafPlaces(dd, from, size, r);
    }

    /** The branch for composites that were not flattened. */
    method CopyRegionOfRecord(dd: DataObject, location: nat, base: nat) returns (r: DataObject, offset: nat)
      requires Counted() && Live(dd) && WellFormed(dd) && |dd.records| >= 2 && location < dd.size
      requires Cached(dd) == null
      modifies this
      ensures (old(Valid()) ==> Valid()) && Returned(r) && WellFormed(r)
      ensures HasRegion(TilesAt(dd, null, base, 0, dd.size), r, offset, base + location)
      ensures base <= offset && offset - base + r.size <= dd.size && SamePlaces(r, dd, offset - base)
      ensures |r.records| <= 1
      decreases |dd.records|, 0
    {
      hide Valid, Counted, WellFormed, Bytes, TilesAt, HasRegion, RecordsIn, TotalLength, GoodRecords, SamePlaces;
      CompositeParts(dd);
      var i, at := FindRecord(dd.records, location);
      PrefixStep(dd.records, i);
      var c := dd.records[i];
      RecordIsLive(dd, i);
      r, offset := CopyRegionFrom(c.obj, c.from, c.length, location - at, base + at);
      RegionOfRecord(dd, old(Cached(c.obj)), i, at, r, offset, base, base + location);
      RecordPlaces(dd, i, offset - base - at, r);
    }

    lemma RecordIsLive(dd: DataObject, i: nat)
      requires Counted() && Live(dd) && WellFormed(dd) && i < |dd.records|
      ensures WellFormed(dd) && RecordsIn(dd.records, refs)
      ensures var c := dd.records[i];
        c.obj in refs && Leaf(c.obj) && WellFormed(c.obj) && c.obj.size > 0 && c.from + c.length <= c.obj.size
    {
      LiveIsGood(dd);
      hide Balanced, WellFormed, GoodCache;
      RecordAtIndex(dd, i, refs);
    }

    /** The loop of _dispatch_data_copy_region; the crash behind it is unreachable. */
    method FindRecord(rs: seq<Record>, location: nat) returns (i: nat, offset: nat)
      requires location < TotalLength(rs)
      ensures i < |rs| && offset == TotalLength(rs[..i]) && offset <= location < offset + rs[i].length
    {
      hide TotalLength;
      NoPrefix(rs);
      AllPrefix(rs);
      i, offset := 0, 0;
      while i < |rs|
        invariant i <= |rs| && offset == TotalLength(rs[..i]) && offset <= location
      {
        if location < offset + rs[i].length {
          return;
        }
        PrefixStep(rs, i);
        offset := offset + rs[i].length;
        i := i + 1;
      }
      assert false; // dispatch_data_copy_region out of bounds
    }

    /** One decrement of a count. The object whose count reaches zero is disposed: a leaf
        runs its destructor, a composite frees its flat buffer. */
    method DropOne(o: DataObject)
      requires o in refs
      modifies this
      ensures Books() == Dropped(old(Books()), o) && dismissed == old(dismissed)
    {
      ghost var gone := Gone(Books(), o);
      if refs[o] > 1 {
        refs := refs[o := refs[o] - 1];
      } else {
        hide Gone;
        refs := refs - {o};
        flat := flat - {o};
        GoneParts(old(Books()), o);
        outside, destroyed, freed := gone.outside, gone.destroyed, gone.freed;
      }
    }

    /** _dispatch_data_release by a caller that holds a reference, and what it disposes:
        an object goes exactly when nothing refers to it any more. */
    method Release(d: DataObject)
      requires Counted() && (d == empty || (d in outside && outside[d] > 0))
      modifies this
      ensures Counted() && (old(Valid()) ==> Valid())
      ensures created == old(created) && published == old(published) && dismissed == old(dismissed)
      ensures d == empty ==> Books() == old(Books())
      ensures d != empty ==> Settled(old(outside)[d := old(outside)[d] - 1], Books())
    {
      hide Balanced, BalancedOwing, Settled, Excess;
      if d == empty {
        return;
      }
      GiveUp(Books(), d);
      outside := outside[d := outside[d] - 1];
      ghost var held := outside;
      SettledStartOf(Books(), d);
      ghost var before := Books();
      DropOne(d);
      DroppedBalances(before, [], d);
      SettledDropped(held, before, [], d);
      if d !in refs && !Leaf(d) {
        ReleaseRecords(d.records, held);
      } else {
        BalancedNow(Books());
      }
    }

    /** The loop of _dispatch_data_dispose over the records of a composite. */
    method ReleaseRecords(rs: seq<Record>, ghost held: map<DataObject, nat>)
      requires BalancedOwing(Books(), rs) && Settled(held, Books())
      modifies this
      ensures Balanced(Books()) && Settled(held, Books())
      ensures created == old(created) && published == old(published) && dismissed == old(dismissed)
    {
      hide BalancedOwing, Settled, Excess;
      assert rs[0..] == rs;
      for i := 0 to |rs|
        invariant BalancedOwing(Books(), rs[i..]) && Settled(held, Books())
        invariant created == old(created) && published == old(published) && dismissed == old(dismissed)
      {
        ghost var before := Books();
        OwedIsExcess(before, rs, i);
        ExcessGives(before, rs[i + 1..], rs[i].obj);
        DropOne(rs[i].obj);
        DroppedBalances(before, rs[i + 1..], rs[i].obj);
        SettledDropped(held, before, rs[i + 1..], rs[i].obj);
      }
      assert rs[|rs|..] == [];
    }
  }

  /** Two halves of 2^63 bytes each are more than size_t counts: the concatenation of a leaf
      of that size with itself succeeds, with size 0 and records of 2^64 bytes. */
  method OverflowingConcat() returns (store: DataStore, d: DataObject, r: DataObject)
    ensures fresh(store) && store.Counted() && store.Live(d) && WellFormed(d) && store.Live(r)
    ensures d.size + d.size > SIZE_MAX && r.records == [Record(d, 0, d.size), Record(d, 0, d.size)]
    ensures !WellFormed(r) && !store.Valid()
  {
    hide Balanced, Bytes;
    store := new DataStore();
    var half := new Buffer(seq(0x8000_0000_0000_0000, _ => 0));
    var made := store.Create(half, Other, true);
    d := made.obj;
    store.LiveIsGood(d);
    var joined := store.Concat(d, d);
    r := joined.obj;
    assert d in store.outside;
    HeldIsLive(store, d);
  }

  lemma HeldIsLive(store: DataStore, d: DataObject)
    requires store.Counted() && d in store.outside
    ensures store.Live(d)
  {
  }

  lemma GoneParts(b: Book, o: DataObject)
    ensures Gone(b, o).refs == b.refs - {o} && Gone(b, o).flat == b.flat - {o}
    ensures Gone(b, o).created == b.created && Gone(b, o).published == b.published
  {
  }

  lemma SettledStartOf(b: Book, d: DataObject)
    requires Excess(b, [], d)
    ensures Settled(b.outside, b) && d in b.refs
  {
    SettledStart(b);
  }

  lemma ExcessGives(b: Book, owed: seq<Record>, x: DataObject)
    requires Excess(b, owed, x)
    ensures x in b.refs
  {
  }

  lemma BalancedNow(b: Book)
    requires BalancedOwing(b, [])
    ensures Balanced(b)
  {
  }

  /** What _dispatch_data_map_direct finds: the object behind a trivial subrange, the
      offset into it, and its contiguous buffer or null. */
  datatype Direct = Direct(obj: DataObject, from: nat, buffer: Buffer?)

  lemma DirectTile(dd: DataObject, cached: Buffer?, offset: nat, from: nat, size: nat)
    requires WellFormed(dd) && dd.size > 0 && GoodCache(dd, cached)
    ensures Leaf(dd) ==>
      dd.buffer != null && TilesAt(dd, cached, offset, from, size) == [Tile(offset, dd.buffer, 0 + from, size)]
    ensures |dd.records| == 1 ==>
      var r := dd.records[0];
      Leaf(r.obj) && r.obj.buffer != null
      && TilesAt(dd, cached, offset, from, size) == [Tile(offset, r.obj.buffer, 0 + r.from + from, size)]
    ensures |dd.records| >= 2 && cached != null ==>
      TilesAt(dd, cached, offset, from, size) == [Tile(offset, cached, 0 + from, size)]
    ensures |dd.records| >= 2 && cached == null ==>
      TilesAt(dd, cached, offset, from, size) == RecordTiles(dd.records, offset)
  {
    if |dd.records| == 1 {
      assert GoodRecord(dd.records[0]);
    }
  }

  lemma DeliveredOne(t: Tile, reply: nat -> bool, k: nat)
    ensures Delivered([t], reply, k) == [t] && (reply(k) <==> Accepted(reply, k, k + 1))
  {
    assert [t][1..] == [];
  }

  lemma RecordGives(rs: seq<Record>, i: nat)
    requires GoodRecords(rs) && i < |rs|
    ensures WellFormed(rs[i].obj) && rs[i].obj.size > 0 && Leaf(rs[i].obj) && rs[i].length > 0
  {
    assert GoodRecord(rs[i]);
  }

  lemma LeafTile(r: Record, cached: Buffer?, at: nat, reply: nat -> bool, k: nat)
    requires Leaf(r.obj) && WellFormed(r.obj) && r.obj.size > 0
    ensures TilesAt(r.obj, cached, at, r.from, r.length) == [Tile(at, r.obj.buffer, r.from, r.length)]
    ensures Delivered(TilesAt(r.obj, cached, at, r.from, r.length), reply, k) ==
            [Tile(at, r.obj.buffer, r.from, r.length)]
    ensures Accepted(reply, k, k + 1) <==> reply(k)
  {
    DeliveredOne(Tile(at, r.obj.buffer, r.from, r.length), reply, k);
  }

  /** The state of the loop over records after i of them: the calls made, and those
      still to be made unless one was refused, are the calls to deliver. */
  ghost predicate Progress(rs: seq<Record>, offset: nat, reply: nat -> bool, k: nat, i: nat, ok: bool,
                           calls: seq<Tile>, at: nat)
    requires i <= |rs| && GoodRecords(rs)
  {
    && (ok <==> Accepted(reply, k, k + i))
    && GoodRecords(rs[i..])
    && Delivered(RecordTiles(rs, offset), reply, k)
       == calls + if ok then Delivered(RecordTiles(rs[i..], at), reply, k + i) else []
  }

  lemma ProgressStart(rs: seq<Record>, offset: nat, reply: nat -> bool, k: nat)
    requires GoodRecords(rs)
    ensures Progress(rs, offset, reply, k, 0, true, [], offset)
  {
    hide Delivered, RecordTiles;
    assert rs[0..] == rs;
  }

  lemma ProgressStep(rs: seq<Record>, offset: nat, reply: nat -> bool, k: nat, i: nat, calls: seq<Tile>, at: nat)
    requires GoodRecords(rs) && i < |rs| && Progress(rs, offset, reply, k, i, true, calls, at)
    ensures Progress(rs, offset, reply, k, i + 1, reply(k + i),
                     calls + [Tile(at, rs[i].obj.buffer, rs[i].from, rs[i].length)], at + rs[i].length)
  {
    hide Delivered, RecordTiles;
    TailGood(rs, i);
    var t := Tile(at, rs[i].obj.buffer, rs[i].from, rs[i].length);
    RecordTilesUnfold(rs, i, at);
    var rest := RecordTiles(rs[i + 1..], at + rs[i].length);
    DeliveredUnfold(t, rest, reply, k + i);
    Assoc(calls, [t], Delivered(rest, reply, k + i + 1));
  }

  lemma TailGood(rs: seq<Record>, i: nat)
    requires GoodRecords(rs) && i < |rs|
    ensures GoodRecords(rs[i + 1..]) && GoodRecords(rs[i..]) && GoodRecord(rs[i])
  {
  }

  lemma RecordTilesUnfold(rs: seq<Record>, i: nat, at: nat)
    requires i < |rs| && GoodRecords(rs[i..]) && GoodRecords(rs[i + 1..]) && GoodRecord(rs[i])
    ensures RecordTiles(rs[i..], at) ==
            [Tile(at, rs[i].obj.buffer, rs[i].from, rs[i].length)] + RecordTiles(rs[i + 1..], at + rs[i].length)
  {
    assert rs[i..][1..] == rs[i + 1..];
  }

  lemma DeliveredUnfold(t: Tile, ts: seq<Tile>, reply: nat -> bool, k: nat)
    ensures Delivered([t] + ts, reply, k) == [t] + if reply(k) then Delivered(ts, reply, k + 1) else []
  {
    assert ([t] + ts)[1..] == ts;
  }

  lemma ProgressEnd(rs: seq<Record>, offset: nat, reply: nat -> bool, k: nat, i: nat, ok: bool,
                    calls: seq<Tile>, at: nat)
    requires GoodRecords(rs) && i <= |rs| && (i < |rs| ==> !ok)
    requires Progress(rs, offset, reply, k, i, ok, calls, at)
    ensures calls == Delivered(RecordTiles(rs, offset), reply, k)
    ensures ok <==> Accepted(reply, k, k + |rs|)
  {
  }

  /** The flat copy holds the bytes of the tiles before tile i. */
  ghost predicate Copied(copy: seq<byte>, bytes: seq<byte>, ts: seq<Tile>, i: nat)
    requires i <= |ts|
  {
    var done := if i < |ts| then ts[i].offset else |bytes|;
    |copy| == |bytes| && done <= |bytes| && copy[..done] == bytes[..done]
  }

  lemma TileAt(ts: seq<Tile>, bytes: seq<byte>, i: nat)
    requires Contiguous(ts, 0) && GoodTiles(ts) && TilesBytes(ts) == bytes && i < |ts|
    ensures ts[i].offset + ts[i].length <= |bytes| && ts[i].at + ts[i].length <= |ts[i].buffer.bytes|
    ensures bytes[ts[i].offset..ts[i].offset + ts[i].length] == ts[i].buffer.bytes[ts[i].at..ts[i].at + ts[i].length]
    ensures ts[i].offset + ts[i].length == if i + 1 < |ts| then ts[i + 1].offset else |bytes|
  {
    hide TilesBytes, Contiguous;
    TileIsSlice(ts, 0, i);
    NextOffset(ts, 0, i);
    assert GoodTile(ts[i]);
  }

  lemma CopiedStart(copy: seq<byte>, bytes: seq<byte>, ts: seq<Tile>)
    requires |copy| == |bytes| > 0 && Contiguous(ts, 0) && TilesBytes(ts) == bytes
    ensures Copied(copy, bytes, ts, 0)
  {
  }

  lemma CopiedSize(copy: seq<byte>, bytes: seq<byte>, ts: seq<Tile>, i: nat)
    requires i <= |ts| && Copied(copy, bytes, ts, i)
    ensures |copy| == |bytes|
  {
  }

  lemma CopiedStep(before: seq<byte>, after: seq<byte>, bytes: seq<byte>, ts: seq<Tile>, i: nat)
    requires i < |ts| && Copied(before, bytes, ts, i)
    requires ts[i].offset + ts[i].length <= |bytes| && ts[i].at + ts[i].length <= |ts[i].buffer.bytes|
    requires bytes[ts[i].offset..ts[i].offset + ts[i].length] == ts[i].buffer.bytes[ts[i].at..ts[i].at + ts[i].length]
    requires ts[i].offset + ts[i].length == if i + 1 < |ts| then ts[i + 1].offset else |bytes|
    requires after == before[..ts[i].offset] + ts[i].buffer.bytes[ts[i].at..ts[i].at + ts[i].length]
                      + before[ts[i].offset + ts[i].length..]
    ensures Copied(after, bytes, ts, i + 1)
  {
    var x, y := ts[i].offset, ts[i].length;
    assert bytes[..x + y] == bytes[..x] + bytes[x..x + y];
    assert after[..x + y] == before[..x] + ts[i].buffer.bytes[ts[i].at..ts[i].at + y];
  }

  lemma CopiedAll(copy: seq<byte>, bytes: seq<byte>, ts: seq<Tile>)
    requires Copied(copy, bytes, ts, |ts|)
    ensures copy == bytes
  {
    assert copy[..|bytes|] == copy && bytes[..|bytes|] == bytes;
  }

  /** The bytes stand in the buffer from `at` on. */
  ghost predicate Holds(buffer: Buffer?, at: nat, bytes: seq<byte>) {
    buffer != null && at + |bytes| <= |buffer.bytes| && buffer.bytes[at..at + |bytes|] == bytes
  }

  lemma HoldsWhole(buffer: Buffer)
    ensures Holds(buffer, 0, buffer.bytes)
  {
  }

  /** A direct buffer holds the bytes of the object. */
  lemma DirectBytes(dd: DataObject, cached: Buffer?)
    requires WellFormed(dd) && dd.size > 0 && GoodCache(dd, cached)
    ensures Leaf(dd) ==> Holds(dd.buffer, 0, Bytes(dd))
    ensures |dd.records| == 1 ==>
      Leaf(dd.records[0].obj) && Holds(dd.records[0].obj.buffer, 0 + dd.records[0].from, Bytes(dd))
    ensures |dd.records| >= 2 && cached != null ==> Holds(cached, 0, Bytes(dd))
  {
    if |dd.records| == 1 {
      var r := dd.records[0];
      assert GoodRecord(r) && dd.records == [r];
      OneRecord(r);
    }
  }

  /** Only unflattened composites have no direct buffer. */
  lemma NotDirect(dd: DataObject)
    requires WellFormed(dd) && dd.size > 0
    ensures Leaf(dd) ==> dd.buffer != null
    ensures |dd.records| == 1 ==> Leaf(dd.records[0].obj) && dd.records[0].obj.buffer != null
  {
    if |dd.records| == 1 {
      assert GoodRecord(dd.records[0]);
    }
  }

  /** r is the tile as an object, the tile starts at `offset` and contains the location. */
  ghost predicate IsRegion(t: Tile, r: DataObject, offset: nat, location: nat)
    requires WellFormed(r)
  {
    GoodTile(t) && t.offset == offset && offset <= location < offset + t.length && Bytes(r) == TileBytes(t)
  }

  /** r is one of the tiles as an object. */
  ghost predicate HasRegion(ts: seq<Tile>, r: DataObject, offset: nat, location: nat)
    requires WellFormed(r)
  {
    exists k :: 0 <= k < |ts| && IsRegion(ts[k], r, offset, location)
  }

  lemma WholeRegion(dd: DataObject, cached: Buffer?, base: nat, location: nat)
    requires WellFormed(dd) && GoodCache(dd, cached) && location < dd.size
    requires |dd.records| >= 2 ==> cached != null
    ensures HasRegion(TilesAt(dd, cached, base, 0, dd.size), dd, base, base + location)
  {
    DirectTile(dd, cached, base, 0, dd.size);
    DirectBytes(dd, cached);
    hide WellFormed, Bytes, TilesAt;
    assert IsRegion(TilesAt(dd, cached, base, 0, dd.size)[0], dd, base, base + location);
  }

  lemma PartRegion(dd: DataObject, cached: Buffer?, from: nat, size: nat, r: DataObject, base: nat, location: nat)
    requires WellFormed(dd) && Leaf(dd) && from + size <= dd.size && location < size
    requires r.size == size && r.records == [Record(dd, from, size)]
    ensures WellFormed(r)
    ensures HasRegion(TilesAt(dd, cached, base, from, size), r, base, base + location)
  {
    LeafRangeMeaning(dd, from, size, r);
    assert IsRegion(TilesAt(dd, cached, base, from, size)[0], r, base, base + location);
  }

  lemma RecordAtIndex(dd: DataObject, i: nat, refs: map<DataObject, nat>)
    requires WellFormed(dd) && i < |dd.records| && RecordsIn(dd.records, refs)
    ensures var r := dd.records[i];
      r.obj in refs && Leaf(r.obj) && WellFormed(r.obj) && r.obj.size > 0 && r.from + r.length <= r.obj.size
  {
    assert GoodRecord(dd.records[i]);
  }

  lemma {:induction false} RecordTilesIndex(rs: seq<Record>, offset: nat, i: nat)
    requires GoodRecords(rs) && i < |rs|
    ensures |RecordTiles(rs, offset)| == |rs|
    ensures RecordTiles(rs, offset)[i] ==
            Tile(offset + TotalLength(rs[..i]), rs[i].obj.buffer, rs[i].from, rs[i].length)
    decreases i
  {
    hide RecordTiles, GoodRecords, TotalLength;
    RecordTilesCount(rs, offset);
    TailGood(rs, 0);
    assert rs[0..] == rs;
    RecordTilesUnfold(rs, 0, offset);
    if i == 0 {
      NoPrefix(rs);
    } else {
      RecordTilesIndex(rs[1..], offset + rs[0].length, i - 1);
      PrefixCons(rs, i);
    }
  }

  lemma RecordTilesCount(rs: seq<Record>, offset: nat)
    requires GoodRecords(rs)
    ensures |RecordTiles(rs, offset)| == |rs|
  {
    hide TilesBytes, RecordsBytes, Contiguous;
    RecordTilesMeaning(rs, offset);
  }

  lemma PrefixCons(rs: seq<Record>, i: nat)
    requires 0 < i <= |rs|
    ensures TotalLength(rs[..i]) == rs[0].length + TotalLength(rs[1..][..i - 1])
  {
    assert rs[..i] == [rs[0]] + rs[1..][..i - 1];
    TotalLengthAppend([rs[0]], rs[1..][..i - 1]);
    OneRecord(rs[0]);
  }

  /** The region found in record i is the i-th tile of the composite. */
  lemma RegionOfRecord(dd: DataObject, cached: Buffer?, i: nat, at: nat, r: DataObject, offset: nat,
                       base: nat, location: nat)
    requires WellFormed(dd) && dd.size > 0 && |dd.records| >= 2 && i < |dd.records|
    requires at == TotalLength(dd.records[..i]) && WellFormed(r)
    requires var c := dd.records[i];
      && Leaf(c.obj) && WellFormed(c.obj) && c.obj.size > 0
      && HasRegion(TilesAt(c.obj, cached, base + at, c.from, c.length), r, offset, location)
    ensures HasRegion(TilesAt(dd, null, base, 0, dd.size), r, offset, location)
  {
    hide IsRegion, TotalLength, RecordTiles;
    RecordTilesIndex(dd.records, base, i);
    assert IsRegion(TilesAt(dd, null, base, 0, dd.size)[i], r, offset, location);
  }

  /** The destructors that matter here: copy the buffer, copy it inline, keep it. */
  datatype Destructor = Default | Inline | Other

  /** What a request for empty data makes of its destructor at once: the buffer is destroyed
      by it, or, for the inline destructor, whose block crashes when it runs, that block is
      put on a queue. */
  datatype Dismissal = Destroyed(buffer: Buffer?) | CrashQueued

  function Dismissed(buffer: Buffer?, destructor: Destructor): seq<Dismissal> {
    match destructor
    case Default => []
    case Inline => [CrashQueued]
    case Other => [Destroyed(buffer)]
  }

  lemma NewLeafIsGood(d: DataObject)
    requires d.records == [] && d.buffer != null && |d.buffer.bytes| == d.size && 0 < d.size <= SIZE_MAX
    ensures WellFormed(d) && Bytes(d) == d.buffer.bytes
  {
  }

  lemma EmptyObject(d: DataObject)
    requires WellFormed(d) && d.size == 0
    ensures Bytes(d) == []
  {
  }

  /** The records of a live object with bytes, ready to be put into a new one. */
  lemma AsRecordsReady(d: DataObject, refs: map<DataObject, nat>)
    requires WellFormed(d) && d.size > 0 && d in refs && RecordsIn(d.records, refs)
    ensures RecordsIn(AsRecords(d), refs) && GoodRecords(AsRecords(d)) && |AsRecords(d)| == NumRecords(d)
  {
    AsRecordsMeaning(d);
  }

  /** What a successful concatenation returns: an argument when the other is empty,
      otherwise the records of both; well formed and meaning the concatenation exactly
      when the sizes add up without overflow. */
  ghost predicate ConcatResult(dd1: DataObject, dd2: DataObject, d: DataObject)
    requires WellFormed(dd1) && WellFormed(dd2)
  {
    && (dd1.size == 0 ==> d == dd2)
    && (dd1.size > 0 && dd2.size == 0 ==> d == dd1)
    && (dd1.size > 0 && dd2.size > 0 ==>
          d.records == AsRecords(dd1) + AsRecords(dd2) && AllocFits(NumRecords(dd1) + NumRecords(dd2)))
    && (WellFormed(d) <==> dd1.size + dd2.size <= SIZE_MAX)
    && (WellFormed(d) ==> Bytes(d) == Bytes(dd1) + Bytes(dd2))
  }

  lemma ConcatWithEmpty(dd1: DataObject, dd2: DataObject)
    requires WellFormed(dd1) && WellFormed(dd2) && (dd1.size == 0 || dd2.size == 0)
    ensures ConcatResult(dd1, dd2, if dd1.size == 0 then dd2 else dd1)
    ensures dd1.size + dd2.size <= SIZE_MAX
  {
    hide WellFormed, Bytes;
    SizeFits(dd1);
    SizeFits(dd2);
    if dd1.size == 0 {
      EmptyObject(dd1);
      assert Bytes(dd1) + Bytes(dd2) == Bytes(dd2);
    } else {
      EmptyObject(dd2);
      assert Bytes(dd1) + Bytes(dd2) == Bytes(dd1);
    }
  }

  lemma SizeFits(d: DataObject)
    requires WellFormed(d)
    ensures d.size <= SIZE_MAX
  {
  }

  lemma ConcatGood(dd1: DataObject, dd2: DataObject, refs: map<DataObject, nat>)
    requires WellFormed(dd1) && dd1.size > 0 && dd1 in refs && RecordsIn(dd1.records, refs)
    requires WellFormed(dd2) && dd2.size > 0 && dd2 in refs && RecordsIn(dd2.records, refs)
    requires AllocFits(NumRecords(dd1) + NumRecords(dd2))
    ensures RecordsIn(AsRecords(dd1) + AsRecords(dd2), refs)
    ensures GoodFields((dd1.size + dd2.size) % (SIZE_MAX + 1), AsRecords(dd1) + AsRecords(dd2), null)
  {
    hide WellFormed;
    AsRecordsReady(dd1, refs);
    AsRecordsReady(dd2, refs);
    GoodAppend(AsRecords(dd1), AsRecords(dd2));
  }

  lemma ConcatMeaning(dd1: DataObject, dd2: DataObject, d: DataObject)
    requires WellFormed(dd1) && dd1.size > 0 && WellFormed(dd2) && dd2.size > 0
    requires d.records == AsRecords(dd1) + AsRecords(dd2) && GoodShape(d)
    requires d.size == (dd1.size + dd2.size) % (SIZE_MAX + 1)
    requires AllocFits(NumRecords(dd1) + NumRecords(dd2))
    ensures ConcatResult(dd1, dd2, d)
    ensures WellFormed(d) <==> dd1.size + dd2.size <= SIZE_MAX
  {
    hide RecordsBytes, TotalLength;
    AsRecordsMeaning(dd1);
    AsRecordsMeaning(dd2);
    TotalLengthAppend(AsRecords(dd1), AsRecords(dd2));
    RecordsBytesAppend(AsRecords(dd1), AsRecords(dd2));
  }

  lemma LeafRange(dd: DataObject, offset: nat, length: nat, refs: map<DataObject, nat>)
    requires WellFormed(dd) && Leaf(dd) && dd in refs && length > 0 && offset + length <= dd.size
    ensures GoodFields(length, [Record(dd, offset, length)], null)
    ensures RecordsIn([Record(dd, offset, length)], refs)
  {
    assert GoodRecord(Record(dd, offset, length));
  }

  lemma LeafRangeMeaning(dd: DataObject, offset: nat, length: nat, r: DataObject)
    requires WellFormed(dd) && Leaf(dd) && length > 0 && offset + length <= dd.size
    requires r.size == length && r.records == [Record(dd, offset, length)]
    ensures WellFormed(r) && Bytes(r) == Bytes(dd)[offset..offset + length]
  {
    assert GoodRecord(Record(dd, offset, length));
    OneRecord(Record(dd, offset, length));
  }

  lemma CompositeParts(dd: DataObject)
    requires WellFormed(dd) && !Leaf(dd)
    ensures GoodRecords(dd.records) && TotalLength(dd.records) == dd.size <= SIZE_MAX
    ensures forall k :: 0 <= k < |dd.records| ==> dd.records[k].length > 0
  {
    assert forall k :: 0 <= k < |dd.records| ==> GoodRecord(dd.records[k]);
  }

  lemma PrefixStep(rs: seq<Record>, i: nat)
    requires i < |rs|
    ensures TotalLength(rs[..i + 1]) == TotalLength(rs[..i]) + rs[i].length
    ensures TotalLength(rs[..i + 1]) <= TotalLength(rs)
  {
    hide TotalLength, RecordsBytes;
    FirstOf(rs, i);
    SplitAt(rs, i + 1);
  }

  lemma NoPrefix(rs: seq<Record>)
    ensures TotalLength(rs[..0]) == 0
  {
  }

  lemma AllPrefix(rs: seq<Record>)
    ensures TotalLength(rs[..|rs|]) == TotalLength(rs)
  {
    assert rs[..|rs|] == rs;
  }

  lemma WholePrefix(rs: seq<Record>, i: nat)
    requires i < |rs|
    ensures TotalLength(rs[..|rs| - 1]) + rs[|rs| - 1].length == TotalLength(rs)
    ensures i == |rs| - 1 ==> TotalLength(rs[..i]) + rs[i].length == TotalLength(rs)
  {
    PrefixStep(rs, |rs| - 1);
    assert rs[..|rs|] == rs;
  }

  lemma RecordRange(dd: DataObject, i: nat, x: nat, length: nat, refs: map<DataObject, nat>)
    requires WellFormed(dd) && i < |dd.records| && length > 0 && x + length <= dd.records[i].length
    requires RecordsIn(dd.records, refs)
    ensures var r := dd.records[i];
      && Leaf(r.obj) && r.obj in refs && WellFormed(r.obj)
      && Slice(Bytes(r.obj), r.from + x, length)
         == Slice(Bytes(dd), TotalLength(dd.records[..i]) + x, length)
  {
    hide RecordsBytes, TotalLength, Slice;
    var r := dd.records[i];
    assert GoodRecord(r);
    RecordsBytesLength(dd.records[..i]) by { SubGood(dd.records, i); }
    RecordsBytesLength(dd.records);
    InsideRecord(dd.records, i, x, length);
    RecordIsSlice(r, x, length);
    SliceInside(Bytes(dd), TotalLength(dd.records[..i]) + x, length);
  }

  lemma SliceEmpty(s: seq<byte>, offset: nat, length: nat)
    requires offset >= |s| || length == 0
    ensures Slice(s, offset, length) == []
  {
  }

  lemma SliceClamped(s: seq<byte>, offset: nat, length: nat, clamped: nat)
    requires offset < |s| && clamped == if length > |s| - offset then |s| - offset else length
    ensures Slice(s, offset, length) == s[offset..offset + clamped]
  {
  }

  lemma SliceWhole(s: seq<byte>)
    ensures s[0..0 + |s|] == s
  {
  }

  lemma SliceInside(s: seq<byte>, offset: nat, length: nat)
    requires length > 0 && offset + length <= |s|
    ensures Slice(s, offset, length) == s[offset..offset + length]
  {
  }

  lemma RecordIsSlice(r: Record, x: nat, length: nat)
    requires GoodRecord(r) && length > 0 && x + length <= r.length
    ensures WellFormed(r.obj)
    ensures RecordBytes(r)[x..x + length] == Slice(Bytes(r.obj), r.from + x, length)
  {
    var b := r.obj.buffer.bytes;
    assert Bytes(r.obj) == b;
    SliceInside(b, r.from + x, length);
    assert b[r.from..r.from + r.length][x..x + length] == b[r.from + x..r.from + x + length];
  }

  lemma SubGood(rs: seq<Record>, i: nat)
    requires GoodRecords(rs) && i <= |rs|
    ensures GoodRecords(rs[..i])
  {
  }

  /** The copied records, with the first one and the last one patched. */
  function Patched(rs: seq<Record>, i: nat, count: nat, x: nat, toTheEnd: bool, lastLength: nat): seq<Record>
    requires count >= 2 && i + count <= |rs| && x < rs[i].length
  {
    var copied := rs[i..i + count];
    var first := if x == 0 then copied
                 else copied[0 := Record(copied[0].obj, copied[0].from + x, copied[0].length - x)];
    if toTheEnd then first else first[count - 1 := first[count - 1].(length := lastLength)]
  }

  lemma PatchedIsSpanning(rs: seq<Record>, i: nat, count: nat, x: nat, toTheEnd: bool, lastLength: nat)
    requires count >= 2 && i + count <= |rs| && x < rs[i].length
    ensures Patched(rs, i, count, x, toTheEnd, lastLength) ==
            Spanning(rs, i, i + count - 1, x, if toTheEnd then rs[i + count - 1].length else lastLength)
  {
    var p := Patched(rs, i, count, x, toTheEnd, lastLength);
    var s := Spanning(rs, i, i + count - 1, x, if toTheEnd then rs[i + count - 1].length else lastLength);
    forall k | 0 <= k < count ensures p[k] == s[k] {
      assert rs[i..i + count][k] == rs[i + k];
    }
  }

  lemma SpanRange(dd: DataObject, i: nat, j: nat, x: nat, y: nat, length: nat, refs: map<DataObject, nat>)
    requires WellFormed(dd) && i < j < |dd.records| && x < dd.records[i].length && 0 < y <= dd.records[j].length
    requires RecordsIn(dd.records, refs) && length <= dd.size
    ensures RecordsIn(Spanning(dd.records, i, j, x, y), refs)
    ensures GoodFields(length, Spanning(dd.records, i, j, x, y), null)
  {
    hide TotalLength;
    SpanningGood(dd.records, i, j, x, y);
  }

  lemma SpanRangeMeaning(dd: DataObject, i: nat, j: nat, x: nat, y: nat, offset: nat, length: nat, r: DataObject)
    requires WellFormed(dd) && i < j < |dd.records| && x < dd.records[i].length && 0 < y <= dd.records[j].length
    requires offset == TotalLength(dd.records[..i]) + x && offset + length == TotalLength(dd.records[..j]) + y
    requires r.size == length && r.records == Spanning(dd.records, i, j, x, y) && GoodShape(r)
    ensures WellFormed(r) && offset + length <= dd.size && Bytes(r) == Bytes(dd)[offset..offset + length]
  {
    hide RecordsBytes, TotalLength, Spanning;
    var rs := dd.records;
    SubGood(rs, i);
    SubGood(rs, j);
    RecordsBytesLength(rs[..i]);
    RecordsBytesLength(rs[..j]);
    RecordsBytesLength(rs);
    SpanningBytes(rs, i, j, x, y);
    SpanningGood(rs, i, j, x, y);
    RecordsBytesLength(Spanning(rs, i, j, x, y));
    assert |r.records| > 0;
  }

  lemma BookGives(b: Book, d: DataObject)
    requires Balanced(b) && d in b.refs
    ensures d in b.outside && d in b.created && RecordsIn(d.records, b.refs)
    ensures d in b.flat ==> WellFormed(d) && GoodCache(d, b.flat[d])
  {
  }

  lemma NotCreated(b: Book, d: DataObject)
    requires Balanced(b) && d !in b.created
    ensures d !in b.refs && d !in b.outside
  {
  }

  /** The counts in the loop of a constructor that retains its records: d is the new
      object, and the first i records are retained. */
  ghost predicate RetainedUpTo(old_: map<DataObject, nat>, now: map<DataObject, nat>, d: DataObject,
                               records: seq<Record>, i: nat)
    requires i <= |records|
  {
    && d !in old_ && RecordsIn(records, old_)
    && now.Keys == old_.Keys + {d} && now[d] == 1
    && forall o :: o in old_ ==> now[o] == old_[o] + Points(records[..i], o)
  }

  lemma RetainStart(old_: map<DataObject, nat>, now: map<DataObject, nat>, d: DataObject, records: seq<Record>)
    requires d !in old_ && now == old_[d := 1] && RecordsIn(records, old_)
    ensures RetainedUpTo(old_, now, d, records, 0)
  {
  }

  lemma RetainStep(old_: map<DataObject, nat>, now: map<DataObject, nat>, d: DataObject,
                   records: seq<Record>, i: nat)
    requires i < |records| && RetainedUpTo(old_, now, d, records, i)
    ensures var o := records[i].obj; o in now && RetainedUpTo(old_, now[o := now[o] + 1], d, records, i + 1)
  {
    hide Points;
    forall o | o in old_
      ensures Points(records[..i + 1], o) == Points(records[..i], o) + if records[i].obj == o then 1 else 0
    {
      PointsSnoc(records, i, o);
    }
  }

  lemma RetainEnd(b: Book, b': Book, d: DataObject, records: seq<Record>)
    requires d.records == records && RetainedUpTo(b.refs, b'.refs, d, records, |records|)
    requires b' == b.(refs := b'.refs, outside := b.outside[d := 1], created := b.created + [d])
    ensures Added(b, b', d)
  {
    hide Points, RecordsIn;
    assert records[..|records|] == records;
  }
}
