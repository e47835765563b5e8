/** Reference counts of data objects under concurrency: any number of threads retain,
    release, dispose, build and read objects at the same time, one atomic step on one count after
    the other (data.c). */
module CountRaces {
  import opened DataObjects
  import opened DataCounts

  /** What a thread is in the middle of: releasing the records of a dead composite, or
      a call on arguments, building a new object and having retained the objects of some
      records. */
  datatype Thread =
    | Idle
    | Disposing(owed: seq<Record>)
    | Building(arguments: set<DataObject>, retained: seq<Record>)

  datatype State = State(book: Book, threads: seq<Thread>)

  datatype Action =
    | Retain(d: DataObject)
    | Release(d: DataObject)
    | ReleaseRecord                        // the next record of a dead composite
    | Begin(arguments: set<DataObject>)    // a constructor or a walk is called
    | RetainRecord(r: Record)              // it retains the object of a record
    | Finish(d: DataObject)                // it returns the new object
    | HandOut(d: DataObject)               // it returns a leaf that its arguments consist of
    | Return                               // the call, a walk for example, returns no object
    | Publish(d: DataObject, f: Buffer)    // the compare-and-swap of a flat buffer succeeds

  /** The references that a thread itself accounts for. */
  function Refs(th: Thread): seq<Record> {
    match th
    case Idle => []
    case Disposing(owed) => owed
    case Building(_, retained) => retained
  }

  function Owed(threads: seq<Thread>): seq<Record> {
    if threads == [] then [] else Refs(threads[0]) + Owed(threads[1..])
  }

  ghost predicate HeldOutside(s: State, d: DataObject) {
    d in s.book.outside && s.book.outside[d] >= 1
  }

  ghost predicate Argument(s: State, d: DataObject) {
    exists t :: 0 <= t < |s.threads| && s.threads[t].Building? && d in s.threads[t].arguments
  }

  /** The object of the record is an argument, or one of the objects it consists of. */
  ghost predicate FromArguments(arguments: set<DataObject>, r: Record) {
    exists p :: p in arguments &&
      ((Leaf(p) && r.obj == p) || exists k :: 0 <= k < |p.records| && p.records[k].obj == r.obj)
  }

  /** What callers may do: use objects that somebody holds a reference to, and keep one
      reference to the argument of a call until the call has returned. */
  ghost predicate Enabled(s: State, t: nat, a: Action)
    requires t < |s.threads|
  {
    match a
    case Retain(d) => s.threads[t] == Idle && HeldOutside(s, d)
    case Release(d) => s.threads[t] == Idle && HeldOutside(s, d) && (Argument(s, d) ==> s.book.outside[d] >= 2)
    case ReleaseRecord => s.threads[t].Disposing? && s.threads[t].owed != []
    case Begin(arguments) => s.threads[t] == Idle && forall p :: p in arguments ==> HeldOutside(s, p)
    case RetainRecord(r) => s.threads[t].Building? && FromArguments(s.threads[t].arguments, r)
    case Finish(d) =>
      && s.threads[t].Building? && d !in s.book.created && d !in s.book.refs
      && GoodShape(d) && d.records == s.threads[t].retained
    case HandOut(d) =>
      && s.threads[t].Building? && s.threads[t].retained == []
      && FromArguments(s.threads[t].arguments, Record(d, 0, 0))
    case Return => s.threads[t].Building? && s.threads[t].retained == []
    case Publish(d, f) =>
      && s.threads[t] == Idle && HeldOutside(s, d) && d !in s.book.flat && f !in s.book.published
      && WellFormed(d) && GoodCache(d, f)
  }

  function Goto(s: State, t: nat, book: Book, th: Thread): State
    requires t < |s.threads|
  {
    State(book, s.threads[t := th])
  }

  /** One decrement of a count, and the beginning of the dispose when it was the last. A
      decrement of a count that is gone would corrupt the heap; StepsTouchLiveCounts shows
      that there is none. */
  function Drop(b: Book, o: DataObject): Book {
    if o in b.refs then Dropped(b, o) else b
  }

  function Increment(b: Book, o: DataObject): Book {
    if o in b.refs then b.(refs := b.refs[o := b.refs[o] + 1]) else b
  }

  /** One more reference, held by a caller. */
  function Increase(b: Book, o: DataObject): Book {
    if o in b.refs && o in b.outside then Retained(b, o) else b
  }

  function AfterDrop(b: Book, d: DataObject): Thread {
    if d in b.refs && b.refs[d] == 1 && !Leaf(d) then Disposing(d.records) else Idle
  }

  /** One atomic step of thread t. */
  ghost function Next(s: State, t: nat, a: Action): State
    requires t < |s.threads| && Enabled(s, t, a)
  {
    var b, th := s.book, s.threads[t];
    match a
    case Retain(d) =>
      Goto(s, t, Increase(b, d), Idle)
    case Release(d) =>
      Goto(s, t, Drop(b.(outside := b.outside[d := b.outside[d] - 1]), d), AfterDrop(b, d))
    case ReleaseRecord =>
      Goto(s, t, Drop(b, th.owed[0].obj), if |th.owed| == 1 then Idle else Disposing(th.owed[1..]))
    case Begin(arguments) => Goto(s, t, b, Building(arguments, []))
    case RetainRecord(r) => Goto(s, t, Increment(b, r.obj), Building(th.arguments, th.retained + [r]))
    case Finish(d) =>
      Goto(s, t, b.(refs := b.refs[d := 1], outside := b.outside[d := 1], created := b.created + [d]), Idle)
    case HandOut(d) => Goto(s, t, Increase(b, d), Idle)
    case Return => Goto(s, t, b, Idle)
    case Publish(d, f) => Goto(s, t, b.(flat := b.flat[d := f], published := b.published + {f}), Idle)
  }

  // ----- the invariant

  ghost predicate ThreadFits(s: State, t: nat)
    requires t < |s.threads|
  {
    match s.threads[t]
    case Idle => true
    case Disposing(owed) => owed != []
    case Building(arguments, _) => forall p :: p in arguments ==> HeldOutside(s, p)
  }

  /** Every count is the references held outside, plus the records of live objects, plus
      what the threads account for themselves. */
  ghost predicate Inv(s: State) {
    BalancedOwing(s.book, Owed(s.threads)) && forall t :: 0 <= t < |s.threads| ==> ThreadFits(s, t)
  }

  ghost predicate Init(s: State) {
    && s.book == Book(map[], map[], map[], [], multiset{}, {}, multiset{})
    && forall t :: 0 <= t < |s.threads| ==> s.threads[t] == Idle
  }

  lemma {:induction false} IdleOwesNothing(threads: seq<Thread>)
    requires forall t :: 0 <= t < |threads| ==> threads[t] == Idle
    ensures Owed(threads) == []
  {
    if threads != [] {
      IdleOwesNothing(threads[1..]);
    }
  }

  lemma InitInv(s: State)
    requires Init(s)
    ensures Inv(s)
  {
    IdleOwesNothing(s.threads);
  }

  /** One thread changes what it accounts for. */
  lemma {:induction false} OwedUpdate(threads: seq<Thread>, t: nat, th: Thread, o: DataObject)
    requires t < |threads|
    ensures Points(Owed(threads[t := th]), o) + Points(Refs(threads[t]), o) ==
            Points(Owed(threads), o) + Points(Refs(th), o)
    decreases |threads|
  {
    hide Points, Refs;
    var next := threads[t := th];
    PointsAppend(Refs(threads[0]), Owed(threads[1..]), o);
    PointsAppend(Refs(next[0]), Owed(next[1..]), o);
    if t == 0 {
      assert next[1..] == threads[1..];
    } else {
      OwedUpdate(threads[1..], t - 1, th, o);
      assert next[1..] == threads[1..][t - 1 := th];
    }
  }

  /** Only how often each object is pointed at matters. */
  lemma SamePointsIn(a: seq<Record>, c: seq<Record>, live: map<DataObject, nat>)
    requires RecordsIn(a, live) && forall o :: Points(c, o) == Points(a, o)
    ensures RecordsIn(c, live)
  {
    forall k | 0 <= k < |c| ensures c[k].obj in live && Leaf(c[k].obj) {
      PointsZero(c, c[k].obj);
      PointsZero(a, c[k].obj);
    }
  }

  lemma SameOwed(b: Book, a: seq<Record>, c: seq<Record>)
    requires BalancedOwing(b, a) && forall o :: Points(c, o) == Points(a, o)
    ensures BalancedOwing(b, c)
  {
    hide Points, Pointers, HeapBooks, FlatBooks, DestructorBooks;
    OutsideKeys(b);
    SamePointsIn(a, c, b.refs);
  }

  /** One owed record less makes its object's count too high by one. */
  lemma OwedExcess(b: Book, a: seq<Record>, rest: seq<Record>, x: DataObject)
    requires BalancedOwing(b, a) && forall o :: Points(a, o) == Points(rest, o) + if o == x then 1 else 0
    ensures Excess(b, rest, x) && Leaf(x)
  {
    hide Points, Pointers, HeapBooks, FlatBooks, DestructorBooks;
    OutsideKeys(b);
    PointedIsLive(a, x, b.refs);
    forall k | 0 <= k < |rest| ensures rest[k].obj in b.refs && Leaf(rest[k].obj) {
      PointsZero(rest, rest[k].obj);
      PointedIsLive(a, rest[k].obj, b.refs);
    }
  }

  lemma PointedIsLive(a: seq<Record>, x: DataObject, live: map<DataObject, nat>)
    requires RecordsIn(a, live) && Points(a, x) > 0
    ensures x in live && Leaf(x)
  {
    PointsZero(a, x);
  }

  lemma IncrementOwing(b: Book, a: seq<Record>, c: seq<Record>, x: DataObject)
    requires BalancedOwing(b, a) && x in b.refs && Leaf(x)
    requires forall o :: Points(c, o) == Points(a, o) + if o == x then 1 else 0
    ensures BalancedOwing(Increment(b, x), c)
  {
    hide Points, Pointers, HeapBooks, FlatBooks, DestructorBooks;
    var g := Increment(b, x);
    OutsideKeys(b);
    SameObjectsKeep(b, g);
    assert g.refs.Keys == b.refs.Keys;
    forall k | 0 <= k < |c| ensures c[k].obj in g.refs && Leaf(c[k].obj) {
      PointsZero(c, c[k].obj);
      if c[k].obj != x {
        PointedIsLive(a, c[k].obj, b.refs);
      }
    }
  }

  /** The references retained for a new object become its records. */
  lemma FinishedOwing(b: Book, a: seq<Record>, c: seq<Record>, d: DataObject)
    requires BalancedOwing(b, a) && d !in b.created && d !in b.refs && GoodShape(d)
    requires forall o :: Points(a, o) == Points(c, o) + Points(d.records, o)
    ensures BalancedOwing(b.(refs := b.refs[d := 1], outside := b.outside[d := 1], created := b.created + [d]), c)
  {
    hide Points, Pointers, GoodShape, HeapBooks, FlatBooks, DestructorBooks;
    var g := b.(refs := b.refs[d := 1], outside := b.outside[d := 1], created := b.created + [d]);
    OutsideKeys(b);
    forall k | 0 <= k < |d.records| ensures d.records[k].obj in b.refs && Leaf(d.records[k].obj) {
      PointsZero(d.records, d.records[k].obj);
      PointedIsLive(a, d.records[k].obj, b.refs);
    }
    forall k | 0 <= k < |c| ensures c[k].obj in b.refs && Leaf(c[k].obj) {
      PointsZero(c, c[k].obj);
      PointedIsLive(a, c[k].obj, b.refs);
    }
    assert g.refs.Keys == b.refs.Keys + {d};
    AddedHeap(b, g, d);
    AddedRest(b, g, d);
    AddedUnreferenced(b, d);
    PointsZero(c, d);
    forall o | o in g.refs
      ensures g.refs[o] > 0 && g.refs[o] == g.outside[o] + Pointers(g.created, g.refs.Keys, o) + Points(c, o)
    {
      PointersSnoc(b.created, d, g.refs.Keys, o);
      AddedSamePointers(b, g, d, o);
    }
    OutsideKeys(g);
  }

  // ----- every step keeps the invariant

  /** How often the threads point at o once thread t goes on as `th`, and how often thread t
      did before. */
  ghost function PointsAfter(s: State, t: nat, th: Thread, o: DataObject): nat
    requires t < |s.threads|
  {
    Points(Owed(s.threads[t := th]), o) + Points(Refs(s.threads[t]), o)
  }

  /** Thread t goes on as `th`: how often the threads point at o changes by the difference. */
  lemma Moved(s: State, t: nat, th: Thread)
    requires t < |s.threads|
    ensures forall o :: PointsAfter(s, t, th, o) == Points(Owed(s.threads), o) + Points(Refs(th), o)
    ensures forall o :: Points([], o) == 0
  {
    hide Points, Owed;
    forall o ensures PointsAfter(s, t, th, o) == Points(Owed(s.threads), o) + Points(Refs(th), o) {
      OwedUpdate(s.threads, t, th, o);
    }
    forall o ensures Points([], o) == 0 {
      PointsZero([], o);
    }
  }

  lemma HeldIsLive(s: State, d: DataObject)
    requires BalancedOwing(s.book, Owed(s.threads)) && HeldOutside(s, d)
    ensures d in s.book.refs && d in s.book.created
  {
    hide Points, Pointers, Owed, FlatBooks, DestructorBooks;
  }

  lemma RetainBooks(s: State, t: nat, d: DataObject)
    requires Inv(s) && t < |s.threads| && Enabled(s, t, Retain(d))
    ensures var s' := Next(s, t, Retain(d)); BalancedOwing(s'.book, Owed(s'.threads))
  {
    hide Points, Pointers, Owed, BalancedOwing;
    HeldIsLive(s, d);
    RetainedOwing(s.book, Owed(s.threads), d);
    assert s.threads[t := Idle] == s.threads;
  }

  lemma ReleaseBooks(s: State, t: nat, d: DataObject)
    requires Inv(s) && t < |s.threads| && Enabled(s, t, Release(d))
    ensures var s' := Next(s, t, Release(d)); BalancedOwing(s'.book, Owed(s'.threads))
  {
    hide Points, Pointers, Owed, BalancedOwing, Excess, Unreferenced;
    var b := s.book;
    HeldIsLive(s, d);
    GiveUpOwing(b, Owed(s.threads), d);
    var g := b.(outside := b.outside[d := b.outside[d] - 1]);
    DroppedOwing(g, Owed(s.threads), d);
    var th := AfterDrop(b, d);
    Moved(s, t, th);
    CountPositive(b, Owed(s.threads), d);
    var owed := if d in Dropped(g, d).refs then Owed(s.threads) else d.records + Owed(s.threads);
    forall o ensures Points(Owed(s.threads[t := th]), o) == Points(owed, o) {
      PointsAppend(d.records, Owed(s.threads), o);
    }
    SameOwed(Dropped(g, d), owed, Owed(s.threads[t := th]));
  }

  lemma CountPositive(b: Book, owed: seq<Record>, d: DataObject)
    requires BalancedOwing(b, owed) && d in b.refs
    ensures b.refs[d] > 0
  {
    hide Points, Pointers, HeapBooks, FlatBooks, DestructorBooks;
  }

  /** The next record that a dispose releases, and what is owed without it. */
  lemma RecordExcess(s: State, t: nat)
    requires Inv(s) && t < |s.threads| && Enabled(s, t, ReleaseRecord)
    ensures var owed := s.threads[t].owed;
      var th := if |owed| == 1 then Idle else Disposing(owed[1..]);
      Excess(s.book, Owed(s.threads[t := th]), owed[0].obj) && Leaf(owed[0].obj) && owed[0].obj in s.book.refs
  {
    hide Pointers, Owed, BalancedOwing, Excess;
    var owed := s.threads[t].owed;
    var th := if |owed| == 1 then Idle else Disposing(owed[1..]);
    Moved(s, t, th);
    assert |owed| == 1 ==> owed[1..] == [];
    forall o ensures Points(owed, o) == Points(owed[1..], o) + if o == owed[0].obj then 1 else 0 {
    }
    OwedExcess(s.book, Owed(s.threads), Owed(s.threads[t := th]), owed[0].obj);
    ExcessIsLive(s.book, Owed(s.threads[t := th]), owed[0].obj);
  }

  lemma ReleaseRecordBooks(s: State, t: nat)
    requires Inv(s) && t < |s.threads| && Enabled(s, t, ReleaseRecord)
    ensures var s' := Next(s, t, ReleaseRecord); BalancedOwing(s'.book, Owed(s'.threads))
  {
    hide Points, Pointers, Owed, BalancedOwing, Excess, Unreferenced;
    var owed := s.threads[t].owed;
    var th := if |owed| == 1 then Idle else Disposing(owed[1..]);
    RecordExcess(s, t);
    DroppedOwing(s.book, Owed(s.threads[t := th]), owed[0].obj);
    assert owed[0].obj.records + Owed(s.threads[t := th]) == Owed(s.threads[t := th]);
  }

  lemma BeginBooks(s: State, t: nat, arguments: set<DataObject>)
    requires Inv(s) && t < |s.threads| && Enabled(s, t, Begin(arguments))
    ensures var s' := Next(s, t, Begin(arguments)); BalancedOwing(s'.book, Owed(s'.threads))
  {
    hide Points, Pointers, Owed, BalancedOwing;
    var th := Building(arguments, []);
    Moved(s, t, th);
    SameOwed(s.book, Owed(s.threads), Owed(s.threads[t := th]));
  }

  /** What a constructor retains is live, because its arguments are held. */
  lemma RetainedIsLive(s: State, t: nat, r: Record)
    requires Inv(s) && t < |s.threads| && s.threads[t].Building? && FromArguments(s.threads[t].arguments, r)
    ensures r.obj in s.book.refs && Leaf(r.obj)
  {
    hide Points, Pointers, Owed, FlatBooks, DestructorBooks, GoodShape;
    assert ThreadFits(s, t);
    var arguments := s.threads[t].arguments;
    var p :| p in arguments &&
      ((Leaf(p) && r.obj == p) || exists k :: 0 <= k < |p.records| && p.records[k].obj == r.obj);
    assert HeldOutside(s, p);
    assert RecordsIn(p.records, s.book.refs);
  }

  lemma RetainRecordBooks(s: State, t: nat, r: Record)
    requires Inv(s) && t < |s.threads| && Enabled(s, t, RetainRecord(r))
    ensures var s' := Next(s, t, RetainRecord(r)); BalancedOwing(s'.book, Owed(s'.threads))
  {
    hide Points, Pointers, Owed, BalancedOwing, ThreadFits;
    RetainedIsLive(s, t, r);
    var retained := s.threads[t].retained;
    var th := Building(s.threads[t].arguments, retained + [r]);
    Moved(s, t, th);
    forall o ensures Points(retained + [r], o) == Points(retained, o) + if o == r.obj then 1 else 0 {
      PointsAppend(retained, [r], o);
      OnePoint(r, o);
    }
    IncrementOwing(s.book, Owed(s.threads), Owed(s.threads[t := th]), r.obj);
  }

  lemma OnePoint(r: Record, o: DataObject)
    ensures Points([r], o) == if o == r.obj then 1 else 0
  {
  }

  lemma FinishBooks(s: State, t: nat, d: DataObject)
    requires Inv(s) && t < |s.threads| && Enabled(s, t, Finish(d))
    ensures var s' := Next(s, t, Finish(d)); BalancedOwing(s'.book, Owed(s'.threads))
  {
    hide Points, Pointers, Owed, BalancedOwing, GoodShape;
    Moved(s, t, Idle);
    FinishedOwing(s.book, Owed(s.threads), Owed(s.threads[t := Idle]), d);
  }

  /** A subrange or a region inside one record is the record's leaf itself, whoever else
      still holds it. */
  lemma HandOutBooks(s: State, t: nat, d: DataObject)
    requires Inv(s) && t < |s.threads| && Enabled(s, t, HandOut(d))
    ensures var s' := Next(s, t, HandOut(d)); BalancedOwing(s'.book, Owed(s'.threads))
    ensures d in s.book.refs && HeldOutside(Next(s, t, HandOut(d)), d)
  {
    hide Points, Pointers, Owed, BalancedOwing;
    RetainedIsLive(s, t, Record(d, 0, 0));
    HeldIsCounted(s.book, Owed(s.threads), d);
    RetainedOwing(s.book, Owed(s.threads), d);
    Moved(s, t, Idle);
    SameOwed(Retained(s.book, d), Owed(s.threads), Owed(s.threads[t := Idle]));
  }

  lemma ReturnBooks(s: State, t: nat)
    requires Inv(s) && t < |s.threads| && Enabled(s, t, Return)
    ensures var s' := Next(s, t, Return); BalancedOwing(s'.book, Owed(s'.threads))
  {
    hide Points, Pointers, Owed, BalancedOwing;
    Moved(s, t, Idle);
    SameOwed(s.book, Owed(s.threads), Owed(s.threads[t := Idle]));
  }

  lemma PublishBooks(s: State, t: nat, d: DataObject, f: Buffer)
    requires Inv(s) && t < |s.threads| && Enabled(s, t, Publish(d, f))
    ensures var s' := Next(s, t, Publish(d, f)); BalancedOwing(s'.book, Owed(s'.threads))
  {
    hide Points, Pointers, Owed, BalancedOwing, WellFormed, GoodCache;
    HeldIsLive(s, d);
    PublishedOwing(s.book, Owed(s.threads), d, f);
    assert s.threads[t := Idle] == s.threads;
  }

  lemma StepBooks(s: State, t: nat, a: Action)
    requires Inv(s) && t < |s.threads| && Enabled(s, t, a)
    ensures var s' := Next(s, t, a); BalancedOwing(s'.book, Owed(s'.threads))
  {
    hide Inv, Enabled, Next, BalancedOwing, Owed;
    match a
    case Retain(d) => RetainBooks(s, t, d);
    case Release(d) => ReleaseBooks(s, t, d);
    case ReleaseRecord => ReleaseRecordBooks(s, t);
    case Begin(arguments) => BeginBooks(s, t, arguments);
    case RetainRecord(r) => RetainRecordBooks(s, t, r);
    case Finish(d) => FinishBooks(s, t, d);
    case HandOut(d) => HandOutBooks(s, t, d);
    case Return => ReturnBooks(s, t);
    case Publish(d, f) => PublishBooks(s, t, d, f);
  }

  /** A reference held outside stays unless it is the one that is released. */
  lemma HeldStays(s: State, t: nat, a: Action, p: DataObject)
    requires Inv(s) && t < |s.threads| && Enabled(s, t, a) && HeldOutside(s, p)
    requires a == Release(p) ==> s.book.outside[p] >= 2
    ensures HeldOutside(Next(s, t, a), p)
  {
    hide Points, Pointers, Owed, BalancedOwing, Excess;
    HeldIsLive(s, p);
    match a
    case Release(d) =>
      HeldIsLive(s, d);
      HeldIsCounted(s.book, Owed(s.threads), p);
    case ReleaseRecord =>
      RecordExcess(s, t);
      var owed := s.threads[t].owed;
      var th := if |owed| == 1 then Idle else Disposing(owed[1..]);
      ExcessIsCounted(s.book, Owed(s.threads[t := th]), owed[0].obj);
    case _ =>
  }

  lemma HeldIsCounted(b: Book, owed: seq<Record>, p: DataObject)
    requires BalancedOwing(b, owed) && p in b.refs
    ensures p in b.outside && b.refs[p] >= b.outside[p]
  {
    hide Points, Pointers, HeapBooks, FlatBooks, DestructorBooks;
    OutsideKeys(b);
  }

  lemma ExcessIsCounted(b: Book, owed: seq<Record>, x: DataObject)
    requires Excess(b, owed, x)
    ensures x in b.refs && x in b.outside && b.refs[x] >= b.outside[x] + 1
  {
    hide Points, Pointers, FlatBooks, DestructorBooks;
  }

  lemma StepThreads(s: State, t: nat, a: Action, u: nat)
    requires Inv(s) && t < |s.threads| && Enabled(s, t, a) && u < |s.threads|
    ensures ThreadFits(Next(s, t, a), u)
  {
    hide Inv, BalancedOwing, Owed, HeldOutside, Dropped;
    assert ThreadFits(s, u) && ThreadFits(s, t) by { InvThread(s, u); InvThread(s, t); }
    var s' := Next(s, t, a);
    if s'.threads[u].Building? {
      forall p | p in s'.threads[u].arguments ensures HeldOutside(s', p) {
        if a == Release(p) {
          assert u != t && Argument(s, p);
        }
        HeldStays(s, t, a, p);
      }
    }
  }

  lemma InvThread(s: State, t: nat)
    requires Inv(s) && t < |s.threads|
    ensures ThreadFits(s, t)
  {
  }

  lemma StepInv(s: State, t: nat, a: Action)
    requires Inv(s) && t < |s.threads| && Enabled(s, t, a)
    ensures Inv(Next(s, t, a))
  {
    hide Enabled, BalancedOwing, Owed, ThreadFits;
    StepBooks(s, t, a);
    SameThreads(s, t, a);
    forall u | 0 <= u < |s.threads| ensures ThreadFits(Next(s, t, a), u) {
      StepThreads(s, t, a, u);
    }
  }

  lemma SameThreads(s: State, t: nat, a: Action)
    requires t < |s.threads| && Enabled(s, t, a)
    ensures |Next(s, t, a).threads| == |s.threads|
  {
  }

  // ----- runs

  datatype Step = Step(t: nat, a: Action)

  ghost predicate StepOf(s: State, s': State, step: Step) {
    step.t < |s.threads| && Enabled(s, step.t, step.a) && s' == Next(s, step.t, step.a)
  }

  /** A run: from an empty heap, one step of some thread after the other. */
  ghost predicate Run(run: seq<State>, steps: seq<Step>) {
    && |run| == |steps| + 1 && Init(run[0])
    && forall k :: 0 <= k < |steps| ==> StepOf(run[k], run[k + 1], steps[k])
  }

  lemma {:induction false} RunInv(run: seq<State>, steps: seq<Step>, k: nat)
    requires Run(run, steps) && k < |run|
    ensures Inv(run[k])
    decreases k
  {
    hide Inv, Init, Next, Enabled;
    if k == 0 {
      InitInv(run[0]);
    } else {
      RunInv(run, steps, k - 1);
      assert StepOf(run[k - 1], run[k - 1 + 1], steps[k - 1]);
      StepInv(run[k - 1], steps[k - 1].t, steps[k - 1].a);
    }
  }

  /** In every run, a step that changes a count changes the count of an object that was not
      disposed. */
  lemma StepsTouchLiveCounts(run: seq<State>, steps: seq<Step>, k: nat)
    requires Run(run, steps) && k < |steps|
    ensures match steps[k].a
      case Retain(d) => d in run[k].book.refs
      case Release(d) => d in run[k].book.refs
      case ReleaseRecord =>
        && steps[k].t < |run[k].threads| && run[k].threads[steps[k].t].Disposing?
        && run[k].threads[steps[k].t].owed != [] && run[k].threads[steps[k].t].owed[0].obj in run[k].book.refs
      case RetainRecord(r) => r.obj in run[k].book.refs
      case HandOut(d) => d in run[k].book.refs
      case _ => true
  {
    hide Inv, Next, BalancedOwing, Owed, Excess;
    RunInv(run, steps, k);
    assert StepOf(run[k], run[k + 1], steps[k]);
    InvBooks(run[k]);
    match steps[k].a
    case Retain(d) => HeldIsLive(run[k], d);
    case Release(d) => HeldIsLive(run[k], d);
    case ReleaseRecord => RecordExcess(run[k], steps[k].t);
    case RetainRecord(r) => RetainedIsLive(run[k], steps[k].t, r);
    case HandOut(d) => HandOutBooks(run[k], steps[k].t, d);
    case _ =>
  }

  lemma InvBooks(s: State)
    requires Inv(s)
    ensures BalancedOwing(s.book, Owed(s.threads))
  {
  }

  /** In every run, the destructor of a leaf has run once if the leaf is gone and not at all
      before; an object that is gone is held by no caller, accounted for by no thread and
      part of no live object. */
  lemma DestructorRunsOnceAfterLastUse(run: seq<State>, steps: seq<Step>, k: nat, o: DataObject)
    requires Run(run, steps) && k < |run| && o in run[k].book.created
    ensures var b := run[k].book;
      && b.destroyed[o] == (if Leaf(o) && o !in b.refs then 1 else 0)
      && (o !in b.refs ==> !HeldOutside(run[k], o))
      && (o !in b.refs ==> forall d :: d in b.refs ==> forall r :: r in d.records ==> r.obj != o)
      && (o !in b.refs ==> forall r :: r in Owed(run[k].threads) ==> r.obj != o)
  {
    hide Points, Pointers, FlatBooks, GoodShape, Owed;
    RunInv(run, steps, k);
    var b := run[k].book;
    forall d | d in b.refs ensures RecordsIn(d.records, b.refs) {
    }
  }

  /** In every run, while a call runs, its arguments and every leaf that they consist of are
      there, and no destructor of theirs has run: whatever the call reads is intact. */
  lemma CallsReadLiveLeaves(run: seq<State>, steps: seq<Step>, k: nat, t: nat, p: DataObject)
    requires Run(run, steps) && k < |run| && t < |run[k].threads|
    requires run[k].threads[t].Building? && p in run[k].threads[t].arguments
    ensures p in run[k].book.refs && run[k].book.destroyed[p] == 0
    ensures forall r :: r in p.records ==> r.obj in run[k].book.refs && run[k].book.destroyed[r.obj] == 0
  {
    hide BalancedOwing, Owed, Run;
    RunInv(run, steps, k);
    InvThread(run[k], t);
    HeldIsLive(run[k], p);
    var owed := Owed(run[k].threads);
    LiveObjectsAreBacked(run[k].book, owed, p, |p.records|);
    forall r | r in p.records ensures r.obj in run[k].book.refs && run[k].book.destroyed[r.obj] == 0 {
      var i :| 0 <= i < |p.records| && p.records[i] == r;
      LiveObjectsAreBacked(run[k].book, owed, p, i);
    }
  }

  /** In every run, when every call has returned and no caller holds a reference, every
      object is gone, every leaf's destructor ran once and every flat buffer was freed. */
  lemma NothingLeftAtRest(run: seq<State>, steps: seq<Step>, k: nat)
    requires Run(run, steps) && k < |run|
    requires forall t :: 0 <= t < |run[k].threads| ==> run[k].threads[t] == Idle
    requires forall o :: o in run[k].book.outside ==> run[k].book.outside[o] == 0
    ensures run[k].book.refs == map[]
    ensures forall o :: o in run[k].book.created && Leaf(o) ==> run[k].book.destroyed[o] == 1
    ensures forall f :: f in run[k].book.published ==> run[k].book.freed[f] == 1
  {
    hide BalancedOwing, Run;
    RunInv(run, steps, k);
    IdleOwesNothing(run[k].threads);
    NothingHeldNothingLeft(run[k].book);
  }

  /** How many of the steps from j up to k are thread t's own. */
  ghost function OwnSteps(steps: seq<Step>, j: nat, k: nat, t: nat): nat
    requires j <= k <= |steps|
  {
    if j == k then 0 else OwnSteps(steps, j, k - 1, t) + if steps[k - 1].t == t then 1 else 0
  }

  /** In every run, a dispose that owes n records is over after n steps of its own thread,
      whatever the other threads do in between, and until then that thread can step. */
  lemma {:induction false} DisposeEnds(run: seq<State>, steps: seq<Step>, j: nat, k: nat, t: nat)
    requires Run(run, steps) && j <= k < |run| && t < |run[j].threads| && run[j].threads[t].Disposing?
    requires OwnSteps(steps, j, k, t) <= |run[j].threads[t].owed|
    ensures |run[k].threads| == |run[j].threads|
    ensures var owed, m := run[j].threads[t].owed, OwnSteps(steps, j, k, t);
      if m == |owed| then run[k].threads[t] == Idle
      else run[k].threads[t] == Disposing(owed[m..]) && Enabled(run[k], t, ReleaseRecord)
    decreases k
  {
    hide Inv, Init, Next, Enabled;
    var owed, m := run[j].threads[t].owed, OwnSteps(steps, j, k, t);
    if j == k {
      RunInv(run, steps, j);
      DisposingOwes(run[j], t);
      assert owed[0..] == owed;
    } else {
      assert OwnSteps(steps, j, k - 1, t) <= m;
      DisposeEnds(run, steps, j, k - 1, t);
      assert StepOf(run[k - 1], run[k - 1 + 1], steps[k - 1]);
      SameThreads(run[k - 1], steps[k - 1].t, steps[k - 1].a);
      if steps[k - 1].t == t {
        OwnRelease(run[k - 1], t, steps[k - 1].a, owed, m - 1);
      } else {
        OthersStay(run[k - 1], steps[k - 1].t, steps[k - 1].a, t);
      }
    }
    if m < |owed| {
      CanRelease(run[k], t, owed, m);
    }
  }

  lemma CanRelease(s: State, t: nat, owed: seq<Record>, m: nat)
    requires m < |owed| && t < |s.threads| && s.threads[t] == Disposing(owed[m..])
    ensures Enabled(s, t, ReleaseRecord)
  {
  }

  lemma DisposingOwes(s: State, t: nat)
    requires Inv(s) && t < |s.threads| && s.threads[t].Disposing?
    ensures s.threads[t].owed != []
  {
    InvThread(s, t);
  }

  lemma OwnRelease(s: State, t: nat, a: Action, owed: seq<Record>, m: nat)
    requires m < |owed| && t < |s.threads| && s.threads[t] == Disposing(owed[m..]) && Enabled(s, t, a)
    ensures |Next(s, t, a).threads| == |s.threads|
    ensures Next(s, t, a).threads[t] == if m + 1 == |owed| then Idle else Disposing(owed[m + 1..])
  {
    assert owed[m..][1..] == owed[m + 1..];
  }

  lemma OthersStay(s: State, u: nat, a: Action, t: nat)
    requires u < |s.threads| && Enabled(s, u, a) && t < |s.threads| && t != u
    ensures |Next(s, u, a).threads| == |s.threads| && Next(s, u, a).threads[t] == s.threads[t]
  {
  }
}
