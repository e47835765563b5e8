/** Reference counting of data objects: the books that retain, release and dispose
    keep, and why they balance (data.c). */
module DataCounts {
  import opened Basics
  import opened DataObjects

  /** The mutable state of a heap of data objects. `refs` holds the count of every
      object that was not disposed, `flat` the cached flat buffers. The rest records
      history: references held outside, every object created, the destructors run,
      the flat buffers ever published and the flat buffers freed. */
  datatype Book = Book(
    refs: map<DataObject, nat>,
    flat: map<DataObject, Buffer>,
    outside: map<DataObject, nat>,
    created: seq<DataObject>,
    destroyed: multiset<DataObject>,
    published: set<Buffer>,
    freed: multiset<Buffer>)

  /** How many of the records point at o. */
  ghost function Points(rs: seq<Record>, o: DataObject): nat {
    if rs == [] then 0 else (if rs[0].obj == o then 1 else 0) + Points(rs[1..], o)
  }

  /** How many records of live objects point at o. */
  ghost function Pointers(objs: seq<DataObject>, live: set<DataObject>, o: DataObject): nat {
    if objs == [] then 0
    else (if objs[0] in live then Points(objs[0].records, o) else 0) + Pointers(objs[1..], live, o)
  }

  ghost predicate RecordsIn(rs: seq<Record>, live: map<DataObject, nat>) {
    forall k :: 0 <= k < |rs| ==> rs[k].obj in live && Leaf(rs[k].obj)
  }

  /** The flat buffers: cached ones belong to live composites, hold their bytes, are
      not shared and not freed; every other published one was freed once. */
  ghost predicate FlatBooks(b: Book) {
    && (forall d :: d in b.flat ==> d in b.refs && WellFormed(d) && GoodCache(d, b.flat[d]) && b.flat[d] in b.published)
    && (forall d, e :: d in b.flat && e in b.flat && b.flat[d] == b.flat[e] ==> d == e)
    && (forall f :: f in b.published ==> b.freed[f] == if f in b.flat.Values then 0 else 1)
    && (forall f :: f in b.freed ==> f in b.published)
  }

  /** Live objects are created ones of good shape, and what they point at is live. */
  ghost predicate HeapBooks(b: Book) {
    && Distinct(b.created)
    && (forall o :: o in b.created ==> GoodShape(o))
    && (forall o :: o in b.refs ==> o in b.created && RecordsIn(o.records, b.refs))
    && b.outside.Keys == b.refs.Keys
  }

  /** Every leaf that is gone ran its destructor once, and no other object did. */
  ghost predicate DestructorBooks(b: Book) {
    && (forall o :: o in b.created ==> b.destroyed[o] == if Leaf(o) && o !in b.refs then 1 else 0)
    && (forall o :: o in b.destroyed ==> o in b.created)
  }

  /** Every count is the references from outside plus the records of live objects,
      plus the records `owed` that a running dispose has still to release. */
  ghost predicate CountBooks(b: Book, owed: seq<Record>)
    requires b.outside.Keys == b.refs.Keys
  {
    && RecordsIn(owed, b.refs)
    && forall o :: o in b.refs ==>
      b.refs[o] > 0 && b.refs[o] == b.outside[o] + Pointers(b.created, b.refs.Keys, o) + Points(owed, o)
  }

  ghost predicate BalancedOwing(b: Book, owed: seq<Record>) {
    HeapBooks(b) && FlatBooks(b) && DestructorBooks(b) && CountBooks(b, owed)
  }

  ghost predicate Balanced(b: Book) {
    BalancedOwing(b, [])
  }

  // ----- counting lemmas

  lemma {:induction false} PointsAppend(a: seq<Record>, c: seq<Record>, o: DataObject)
    ensures Points(a + c, o) == Points(a, o) + Points(c, o)
  {
    if a == [] {
      assert a + c == c;
    } else {
      PointsAppend(a[1..], c, o);
      assert (a + c)[1..] == a[1..] + c && (a + c)[0] == a[0];
    }
  }

  lemma PointsSnoc(rs: seq<Record>, i: nat, o: DataObject)
    requires i < |rs|
    ensures Points(rs[..i + 1], o) == Points(rs[..i], o) + if rs[i].obj == o then 1 else 0
  {
    assert rs[..i + 1] == rs[..i] + [rs[i]];
    PointsAppend(rs[..i], [rs[i]], o);
    assert [rs[i]][1..] == [];
  }

  lemma {:induction false} PointsZero(rs: seq<Record>, o: DataObject)
    ensures Points(rs, o) == 0 <==> forall k :: 0 <= k < |rs| ==> rs[k].obj != o
  {
    if rs != [] {
      PointsZero(rs[1..], o);
      assert forall k :: 1 <= k < |rs| ==> rs[k] == rs[1..][k - 1];
      assert forall k :: 0 <= k < |rs| - 1 ==> rs[1..][k] == rs[k + 1];
    }
  }

  lemma {:induction false} PointersSnoc(objs: seq<DataObject>, d: DataObject, live: set<DataObject>, o: DataObject)
    ensures Pointers(objs + [d], live, o) == Pointers(objs, live, o) + if d in live then Points(d.records, o) else 0
  {
    if objs == [] {
      assert objs + [d] == [d] && [d][1..] == [];
    } else {
      PointersSnoc(objs[1..], d, live, o);
      assert (objs + [d])[1..] == objs[1..] + [d] && (objs + [d])[0] == objs[0];
    }
  }

  /** Only the liveness of listed objects matters. */
  lemma {:induction false} PointersSame(objs: seq<DataObject>, live: set<DataObject>, live': set<DataObject>,
                                        o: DataObject)
    requires forall d :: d in objs && !Leaf(d) ==> (d in live <==> d in live')
    ensures Pointers(objs, live, o) == Pointers(objs, live', o)
  {
    if objs != [] {
      assert forall d :: d in objs[1..] ==> d in objs;
      PointersSame(objs[1..], live, live', o);
      if Leaf(objs[0]) {
        PointsZero(objs[0].records, o);
      }
    }
  }

  /** The death of one listed object takes away exactly its own records. */
  lemma {:induction false} PointersKill(objs: seq<DataObject>, live: set<DataObject>, d: DataObject, o: DataObject)
    requires Distinct(objs) && d in objs && d in live
    ensures Pointers(objs, live, o) == Pointers(objs, live - {d}, o) + Points(d.records, o)
  {
    var rest := objs[1..];
    assert forall i :: 0 <= i < |rest| ==> rest[i] == objs[i + 1];
    if objs[0] == d {
      assert d !in rest;
      PointersSame(rest, live, live - {d}, o);
    } else {
      assert d in rest;
      PointersKill(rest, live, d, o);
    }
  }

  lemma {:induction false} PointersZero(objs: seq<DataObject>, live: set<DataObject>, o: DataObject, d: DataObject)
    requires Pointers(objs, live, o) == 0 && d in objs && d in live
    ensures Points(d.records, o) == 0
  {
    if objs[0] != d {
      assert d in objs[1..];
      PointersZero(objs[1..], live, o, d);
    }
  }

  /** Nobody points at a composite. */
  lemma {:induction false} NoPointersToComposite(objs: seq<DataObject>, live: set<DataObject>, o: DataObject)
    requires !Leaf(o) && forall d :: d in objs ==> GoodShape(d)
    ensures Pointers(objs, live, o) == 0
  {
    if objs != [] {
      assert forall d :: d in objs[1..] ==> d in objs;
      NoPointersToComposite(objs[1..], live, o);
      var d := objs[0];
      assert GoodShape(d);
      assert forall k :: 0 <= k < |d.records| ==> GoodRecord(d.records[k]);
      PointsZero(d.records, o);
    }
  }

  // ----- the steps of retain, release and creation

  function Retained(b: Book, o: DataObject): Book
    requires o in b.refs && o in b.outside
  {
    b.(refs := b.refs[o := b.refs[o] + 1], outside := b.outside[o := b.outside[o] + 1])
  }

  /** Changing counts alone touches only the count books. */
  lemma SameObjectsKeep(b: Book, b': Book)
    requires HeapBooks(b) && FlatBooks(b) && DestructorBooks(b)
    requires b'.refs.Keys == b.refs.Keys && b'.outside.Keys == b.outside.Keys
    requires b' == b.(refs := b'.refs, outside := b'.outside)
    ensures HeapBooks(b') && FlatBooks(b') && DestructorBooks(b')
    ensures forall rs :: RecordsIn(rs, b.refs) ==> RecordsIn(rs, b'.refs)
  {
    hide WellFormed, GoodCache, GoodShape;
  }

  lemma RetainedOwing(b: Book, owed: seq<Record>, o: DataObject)
    requires BalancedOwing(b, owed) && o in b.refs
    ensures BalancedOwing(Retained(b, o), owed)
  {
    hide Pointers, Points, HeapBooks, FlatBooks, DestructorBooks;
    OutsideKeys(b);
    SameObjectsKeep(b, Retained(b, o));
    assert b.refs.Keys == Retained(b, o).refs.Keys;
  }

  lemma RetainedBalanced(b: Book, o: DataObject)
    requires Balanced(b) && o in b.refs
    ensures Balanced(Retained(b, o))
  {
    RetainedOwing(b, [], o);
  }

  lemma OutsideKeys(b: Book)
    requires HeapBooks(b)
    ensures b.outside.Keys == b.refs.Keys
  {
  }

  /** The object is gone: leaves run their destructor, composites free their cached
      flat buffer. The records of a composite are released one by one afterwards. */
  function Gone(b: Book, o: DataObject): Book {
    b.(refs := b.refs - {o},
       outside := b.outside - {o},
       destroyed := if Leaf(o) then b.destroyed + multiset{o} else b.destroyed,
       flat := b.flat - {o},
       freed := if o in b.flat then b.freed + multiset{b.flat[o]} else b.freed)
  }

  /** One release: the count goes down, and the object with it when it was the last. */
  function Dropped(b: Book, o: DataObject): Book
    requires o in b.refs
  {
    if b.refs[o] > 1 then b.(refs := b.refs[o := b.refs[o] - 1]) else Gone(b, o)
  }

  /** The books balance except that x has one reference more than it should. */
  ghost predicate Excess(b: Book, owed: seq<Record>, x: DataObject) {
    && HeapBooks(b) && FlatBooks(b) && DestructorBooks(b)
    && RecordsIn(owed, b.refs) && x in b.refs
    && forall o :: o in b.refs ==>
      && b.refs[o] > 0
      && b.refs[o] == b.outside[o] + Pointers(b.created, b.refs.Keys, o) + Points(owed, o) + if o == x then 1 else 0
  }

  /** Nothing refers to x any more. */
  ghost predicate Unreferenced(b: Book, owed: seq<Record>, x: DataObject)
    requires x in b.outside
  {
    b.outside[x] == 0 && Pointers(b.created, b.refs.Keys, x) == 0 && Points(owed, x) == 0
  }

  lemma GoneKeepsHeap(b: Book, owed: seq<Record>, x: DataObject)
    requires HeapBooks(b) && RecordsIn(owed, b.refs) && x in b.refs && Unreferenced(b, owed, x)
    ensures HeapBooks(Gone(b, x)) && RecordsIn(owed, Gone(b, x).refs)
    ensures RecordsIn(x.records, Gone(b, x).refs)
  {
    hide Pointers, Points;
    var g := Gone(b, x);
    forall o | o in g.refs ensures RecordsIn(o.records, g.refs) {
      PointersZero(b.created, b.refs.Keys, x, o);
      PointsZero(o.records, x);
      assert RecordsIn(o.records, b.refs);
    }
    PointsZero(owed, x);
    PointersZero(b.created, b.refs.Keys, x, x);
    PointsZero(x.records, x);
    assert RecordsIn(x.records, b.refs);
  }

  lemma GoneKeepsFlat(b: Book, x: DataObject)
    requires FlatBooks(b)
    ensures FlatBooks(Gone(b, x))
  {
    hide WellFormed, GoodCache;
    var g := Gone(b, x);
    forall f | f in g.published ensures g.freed[f] == if f in g.flat.Values then 0 else 1 {
      if f in b.flat.Values {
        var d :| d in b.flat && b.flat[d] == f;
        if d != x {
          assert d in g.flat && g.flat[d] == f;
        } else {
          assert f !in g.flat.Values;
        }
      }
    }
  }

  lemma GoneKeepsDestructors(b: Book, x: DataObject)
    requires DestructorBooks(b) && x in b.refs && x in b.created
    ensures DestructorBooks(Gone(b, x))
  {
  }

  lemma GoneKeepsCounts(b: Book, owed: seq<Record>, x: DataObject, o: DataObject)
    requires HeapBooks(b) && x in b.refs && o in b.refs && o != x
    ensures Pointers(b.created, b.refs.Keys, o) ==
            Pointers(b.created, Gone(b, x).refs.Keys, o) + Points(x.records, o)
  {
    PointersKill(b.created, b.refs.Keys, x, o);
    assert b.refs.Keys - {x} == Gone(b, x).refs.Keys;
  }

  /** Releasing the excess reference balances the books, except that the records of a
      composite that died are owed now. */
  lemma DroppedOwing(b: Book, owed: seq<Record>, x: DataObject)
    requires Excess(b, owed, x)
    ensures BalancedOwing(Dropped(b, x), if x in Dropped(b, x).refs then owed else x.records + owed)
    ensures x !in Dropped(b, x).refs ==> Unreferenced(b, owed, x)
  {
    hide Pointers, Points, HeapBooks, FlatBooks, DestructorBooks;
    var g := Dropped(b, x);
    OutsideKeys(b);
    if b.refs[x] > 1 {
      SameObjectsKeep(b, g);
      assert g.refs.Keys == b.refs.Keys;
    } else {
      assert Unreferenced(b, owed, x);
      GoneKeepsHeap(b, owed, x);
      GoneKeepsFlat(b, x);
      HeapGives(b, x);
      GoneKeepsDestructors(b, x);
      forall o | o in g.refs
        ensures g.refs[o] > 0
        ensures b.refs[o] == b.outside[o] + Pointers(b.created, g.refs.Keys, o) + Points(x.records + owed, o)
      {
        GoneKeepsCounts(b, owed, x, o);
        PointsAppend(x.records, owed, o);
      }
    }
  }

  /** With nothing owed before, or a leaf, that leaves what one dispose owes. */
  lemma DroppedBalances(b: Book, owed: seq<Record>, x: DataObject)
    requires Excess(b, owed, x) && (!Leaf(x) ==> owed == [])
    ensures x in Dropped(b, x).refs || Leaf(x) ==> BalancedOwing(Dropped(b, x), owed)
    ensures x !in Dropped(b, x).refs && !Leaf(x) ==> BalancedOwing(Dropped(b, x), x.records)
    ensures x !in Dropped(b, x).refs ==> Unreferenced(b, owed, x)
  {
    hide BalancedOwing, Excess, Unreferenced, Dropped;
    assert x in b.refs by { ExcessIsLive(b, owed, x); }
    DroppedOwing(b, owed, x);
    if Leaf(x) {
      assert x.records + owed == owed;
    } else {
      assert x.records + owed == x.records;
    }
  }

  lemma ExcessIsLive(b: Book, owed: seq<Record>, x: DataObject)
    requires Excess(b, owed, x)
    ensures x in b.refs && x in b.outside
  {
  }

  lemma HeapGives(b: Book, x: DataObject)
    requires HeapBooks(b) && x in b.refs
    ensures x in b.created && b.outside.Keys == b.refs.Keys && Gone(b, x).outside.Keys == Gone(b, x).refs.Keys
  {
  }

  /** A new object, held once. */
  ghost predicate AddedObject(b: Book, b': Book, d: DataObject) {
    && b'.refs.Keys == b.refs.Keys + {d}
    && b'.refs[d] == 1
    && b'.outside == b.outside[d := 1]
    && b'.created == b.created + [d]
    && b'.flat == b.flat && b'.destroyed == b.destroyed && b'.published == b.published && b'.freed == b.freed
  }

  /** A new object whose records were retained. */
  ghost predicate Added(b: Book, b': Book, d: DataObject) {
    AddedObject(b, b', d) && forall o :: o in b.refs ==> b'.refs[o] == b.refs[o] + Points(d.records, o)
  }

  lemma AddedBalanced(b: Book, b': Book, d: DataObject)
    requires Balanced(b) && d !in b.created && GoodShape(d) && RecordsIn(d.records, b.refs)
    requires Added(b, b', d)
    ensures Balanced(b')
  {
    hide Pointers, Points, GoodShape, HeapBooks, FlatBooks, DestructorBooks;
    AddedHeap(b, b', d);
    AddedRest(b, b', d);
    OutsideKeys(b);
    forall o | o in b'.refs
      ensures b'.refs[o] > 0 && b'.refs[o] == b'.outside[o] + Pointers(b'.created, b'.refs.Keys, o) + Points([], o)
    {
      PointersSnoc(b.created, d, b'.refs.Keys, o);
      AddedSamePointers(b, b', d, o);
      if o == d {
        AddedUnreferenced(b, d);
      }
      PointsZero([], o);
    }
  }

  lemma AddedSamePointers(b: Book, b': Book, d: DataObject, o: DataObject)
    requires d !in b.created && b'.refs.Keys == b.refs.Keys + {d}
    ensures Pointers(b.created, b'.refs.Keys, o) == Pointers(b.created, b.refs.Keys, o)
  {
    PointersSame(b.created, b.refs.Keys, b'.refs.Keys, o);
  }

  lemma AddedRest(b: Book, b': Book, d: DataObject)
    requires FlatBooks(b) && DestructorBooks(b) && d !in b.created && HeapBooks(b)
    requires AddedObject(b, b', d)
    ensures FlatBooks(b') && DestructorBooks(b') && d in b'.refs && d !in b.refs
  {
    hide Points, GoodShape, WellFormed, GoodCache;
    assert d !in b.destroyed;
  }

  lemma AddedHeap(b: Book, b': Book, d: DataObject)
    requires HeapBooks(b) && d !in b.created && GoodShape(d) && RecordsIn(d.records, b.refs)
    requires AddedObject(b, b', d)
    ensures HeapBooks(b')
  {
    hide Points, GoodShape;
    assert d !in b.refs;
    forall o | o in b'.refs ensures o in b'.created && RecordsIn(o.records, b'.refs) {
      if o != d {
        assert RecordsIn(o.records, b.refs);
      }
    }
  }

  /** Nothing points at an object that was not created yet. */
  lemma AddedUnreferenced(b: Book, d: DataObject)
    requires HeapBooks(b) && d !in b.created && RecordsIn(d.records, b.refs)
    ensures Points(d.records, d) == 0 && Pointers(b.created, b.refs.Keys, d) == 0
  {
    hide GoodShape;
    PointsZero(d.records, d);
    NobodyPoints(b.created, b.refs, d);
  }

  lemma {:induction false} NobodyPoints(objs: seq<DataObject>, live: map<DataObject, nat>, d: DataObject)
    requires d !in live && forall o :: o in objs && o in live ==> RecordsIn(o.records, live)
    ensures Pointers(objs, live.Keys, d) == 0
  {
    if objs != [] {
      assert forall o :: o in objs[1..] ==> o in objs;
      NobodyPoints(objs[1..], live, d);
      PointsZero(objs[0].records, d);
    }
  }

  /** A flat buffer is published for an object that had none. */
  lemma PublishedOwing(b: Book, owed: seq<Record>, d: DataObject, f: Buffer)
    requires BalancedOwing(b, owed) && d in b.refs && d !in b.flat && f !in b.published
    requires WellFormed(d) && GoodCache(d, f)
    ensures BalancedOwing(b.(flat := b.flat[d := f], published := b.published + {f}), owed)
  {
    hide Pointers, Points, WellFormed, GoodCache, GoodShape, RecordsIn;
    var g := b.(flat := b.flat[d := f], published := b.published + {f});
    assert f !in b.freed;
    assert d in g.flat && g.flat[d] == f;
    assert forall e :: e in b.flat ==> e in g.flat && g.flat[e] == b.flat[e];
    forall h | h in g.published ensures g.freed[h] == if h in g.flat.Values then 0 else 1 {
      if h in b.flat.Values {
        var e :| e in b.flat && b.flat[e] == h;
        assert g.flat[e] == h;
      }
    }
  }

  lemma PublishedBalanced(b: Book, d: DataObject, f: Buffer)
    requires Balanced(b) && d in b.refs && d !in b.flat && f !in b.published
    requires WellFormed(d) && GoodCache(d, f)
    ensures Balanced(b.(flat := b.flat[d := f], published := b.published + {f}))
  {
    hide BalancedOwing;
    PublishedOwing(b, [], d, f);
  }

  /** Fewer live objects point at fewer things. */
  lemma {:induction false} PointersMonotone(objs: seq<DataObject>, live: set<DataObject>, live': set<DataObject>,
                                            o: DataObject)
    requires live' <= live
    ensures Pointers(objs, live', o) <= Pointers(objs, live, o)
  {
    if objs != [] {
      PointersMonotone(objs[1..], live, live', o);
    }
  }

  /** Since the references held outside were `held`: the objects still there are held as
      they were, and each one that is gone was neither held nor pointed at. */
  ghost predicate Settled(held: map<DataObject, nat>, b: Book) {
    && b.outside.Keys == b.refs.Keys && b.refs.Keys <= held.Keys
    && (forall o :: o in b.refs ==> b.outside[o] == held[o])
    && (forall o :: o in held && o !in b.refs ==> held[o] == 0 && Pointers(b.created, b.refs.Keys, o) == 0)
  }

  lemma SettledStart(b: Book)
    requires HeapBooks(b)
    ensures Settled(b.outside, b)
  {
  }

  lemma SettledDropped(held: map<DataObject, nat>, b: Book, owed: seq<Record>, x: DataObject)
    requires Settled(held, b) && x in b.refs
    requires x !in Dropped(b, x).refs ==> Unreferenced(b, owed, x)
    ensures Settled(held, Dropped(b, x))
  {
    hide Pointers, Points;
    var g := Dropped(b, x);
    assert g.created == b.created && g.refs.Keys <= b.refs.Keys;
    forall o | o in held && o !in g.refs ensures held[o] == 0 && Pointers(g.created, g.refs.Keys, o) == 0 {
      PointersMonotone(b.created, b.refs.Keys, g.refs.Keys, o);
    }
  }

  /** The books before a reference is given up and the ones with its count excluded. */
  lemma GiveUpOwing(b: Book, owed: seq<Record>, d: DataObject)
    requires BalancedOwing(b, owed) && d in b.outside && b.outside[d] > 0
    ensures d in b.refs && Excess(b.(outside := b.outside[d := b.outside[d] - 1]), owed, d)
  {
    hide Pointers, HeapBooks, FlatBooks, DestructorBooks;
    OutsideKeys(b);
    var g := b.(outside := b.outside[d := b.outside[d] - 1]);
    assert g.outside.Keys == b.outside.Keys;
    SameObjectsKeep(b, g);
  }

  lemma GiveUp(b: Book, d: DataObject)
    requires Balanced(b) && d in b.outside && b.outside[d] > 0
    ensures d in b.refs && Excess(b.(outside := b.outside[d := b.outside[d] - 1]), [], d)
  {
    hide BalancedOwing, Excess;
    GiveUpOwing(b, [], d);
  }

  /** A record still owed is one reference too many of its object. */
  lemma OwedIsExcess(b: Book, rs: seq<Record>, i: nat)
    requires i < |rs| && BalancedOwing(b, rs[i..])
    ensures Excess(b, rs[i + 1..], rs[i].obj) && Leaf(rs[i].obj)
  {
    hide Pointers, HeapBooks, FlatBooks, DestructorBooks;
    var owed, rest := rs[i..], rs[i + 1..];
    assert owed[1..] == rest && owed[0] == rs[i];
    assert forall k :: 0 <= k < |rest| ==> rest[k] == owed[k + 1];
    OutsideKeys(b);
  }

  // ----- what balanced books mean

  /** A live object never denotes a destroyed buffer: its leaves are live, and the
      destructor of a live leaf has not run. */
  lemma LiveObjectsAreBacked(b: Book, owed: seq<Record>, d: DataObject, k: nat)
    requires BalancedOwing(b, owed) && d in b.refs
    ensures b.destroyed[d] == 0
    ensures k < |d.records| ==> d.records[k].obj in b.refs && b.destroyed[d.records[k].obj] == 0
  {
    hide Pointers, Points, GoodShape, WellFormed, GoodCache;
    assert RecordsIn(d.records, b.refs);
  }

  /** No leak: once no reference is held outside, every object is gone, every leaf ever
      created ran its destructor exactly once and every flat buffer was freed once. */
  lemma NothingHeldNothingLeft(b: Book)
    requires Balanced(b) && forall o :: o in b.outside ==> b.outside[o] == 0
    ensures b.refs == map[]
    ensures forall o :: o in b.created && Leaf(o) ==> b.destroyed[o] == 1
    ensures forall f :: f in b.published ==> b.freed[f] == 1
  {
    hide Pointers, Points, GoodShape, WellFormed, GoodCache;
    forall o | o in b.refs ensures Leaf(o) {
      if !Leaf(o) {
        NoPointersToComposite(b.created, b.refs.Keys, o);
        PointsZero([], o);
      }
    }
    forall o | o in b.refs ensures false {
      OnlyLeavesNoPointers(b.created, b.refs.Keys, o);
      PointsZero([], o);
    }
  }

  lemma {:induction false} OnlyLeavesNoPointers(objs: seq<DataObject>, live: set<DataObject>, o: DataObject)
    requires forall d :: d in live ==> Leaf(d)
    ensures Pointers(objs, live, o) == 0
  {
    if objs != [] {
      OnlyLeavesNoPointers(objs[1..], live, o);
      PointsZero(objs[0].records, o);
    }
  }
}
