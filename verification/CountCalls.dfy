/** What the calls on data objects come to, in any interleaving and on their own: references
    held are references acquired and not given up, a constructor makes its object, and
    everything can be given back (data.c). */
module CountCalls {
  import opened DataObjects
  import opened DataCounts
  import opened CountRaces

  // ----- the references held are those acquired and not given up

  ghost function HeldCount(b: Book, o: DataObject): nat {
    if o in b.outside then b.outside[o] else 0
  }

  /** The call that ends with this action gives its caller one more reference to o. */
  ghost predicate Acquires(a: Action, o: DataObject) {
    a == Retain(o) || a == Finish(o) || a == HandOut(o)
  }

  ghost function Acquired(steps: seq<Step>, k: nat, o: DataObject): nat
    requires k <= |steps|
  {
    if k == 0 then 0 else Acquired(steps, k - 1, o) + if Acquires(steps[k - 1].a, o) then 1 else 0
  }

  ghost function GivenUp(steps: seq<Step>, k: nat, o: DataObject): nat
    requires k <= |steps|
  {
    if k == 0 then 0 else GivenUp(steps, k - 1, o) + if steps[k - 1].a == Release(o) then 1 else 0
  }

  lemma StepHeld(s: State, t: nat, a: Action, o: DataObject)
    requires Inv(s) && t < |s.threads| && Enabled(s, t, a)
    ensures HeldCount(Next(s, t, a).book, o) + (if a == Release(o) then 1 else 0)
            == HeldCount(s.book, o) + if Acquires(a, o) then 1 else 0
  {
    hide Points, Pointers, Owed, BalancedOwing, FromArguments, GoodShape, Argument, Dropped;
    match a
    case Retain(d) => HeldIsLive(s, d);
    case Release(d) => ReleaseHeld(s, d, o);
    case ReleaseRecord => ReleaseRecordHeld(s, t, o);
    case HandOut(d) =>
      HandOutBooks(s, t, d);
      HeldIsCounted(s.book, Owed(s.threads), d);
    case Finish(d) => NotLiveNotHeld(s.book, Owed(s.threads), d);
    case _ =>
  }

  lemma ReleaseHeld(s: State, d: DataObject, o: DataObject)
    requires Inv(s) && HeldOutside(s, d)
    ensures var b := s.book.(outside := s.book.outside[d := s.book.outside[d] - 1]);
      HeldCount(Drop(b, d), o) + (if o == d then 1 else 0) == HeldCount(s.book, o)
  {
    hide Points, Pointers, Owed, BalancedOwing;
    HeldIsLive(s, d);
    HeldIsCounted(s.book, Owed(s.threads), d);
  }

  lemma ReleaseRecordHeld(s: State, t: nat, o: DataObject)
    requires Inv(s) && t < |s.threads| && Enabled(s, t, ReleaseRecord)
    ensures HeldCount(Drop(s.book, s.threads[t].owed[0].obj), o) == HeldCount(s.book, o)
  {
    hide Points, Pointers, Owed, BalancedOwing, Excess;
    RecordExcess(s, t);
    var owed := s.threads[t].owed;
    var th := if |owed| == 1 then Idle else Disposing(owed[1..]);
    ExcessIsCounted(s.book, Owed(s.threads[t := th]), owed[0].obj);
  }

  lemma NotLiveNotHeld(b: Book, owed: seq<Record>, d: DataObject)
    requires BalancedOwing(b, owed) && d !in b.refs
    ensures d !in b.outside
  {
    hide Points, Pointers, FlatBooks, DestructorBooks, CountBooks;
    OutsideKeys(b);
  }

  /** In every run, callers hold as many references to an object as its constructor, retains
      and walks have handed out, less those given up; an object that is gone has none. */
  lemma {:induction false} HeldIsAcquired(run: seq<State>, steps: seq<Step>, k: nat, o: DataObject)
    requires Run(run, steps) && k < |run|
    ensures HeldCount(run[k].book, o) + GivenUp(steps, k, o) == Acquired(steps, k, o)
    decreases k
  {
    hide Inv, Next, Enabled, Acquires;
    if k > 0 {
      HeldIsAcquired(run, steps, k - 1, o);
      RunInv(run, steps, k - 1);
      assert StepOf(run[k - 1], run[k - 1 + 1], steps[k - 1]);
      StepHeld(run[k - 1], steps[k - 1].t, steps[k - 1].a, o);
    }
  }

  predicate Publishes(a: Action, f: Buffer) {
    a.Publish? && a.f == f
  }

  lemma StepPublishes(s: State, t: nat, a: Action, f: Buffer)
    requires t < |s.threads| && Enabled(s, t, a)
    ensures f in Next(s, t, a).book.published <==> f in s.book.published || Publishes(a, f)
  {
  }

  /** In every run, exactly the flat buffers whose compare-and-swap succeeded are published. */
  lemma {:induction false} PublishedBySwap(run: seq<State>, steps: seq<Step>, k: nat, f: Buffer)
    requires Run(run, steps) && k < |run|
    ensures f in run[k].book.published <==> exists i :: 0 <= i < k && Publishes(steps[i].a, f)
    decreases k
  {
    hide Enabled, Next, Publishes;
    if k > 0 {
      PublishedBySwap(run, steps, k - 1, f);
      assert StepOf(run[k - 1], run[k - 1 + 1], steps[k - 1]);
      StepPublishes(run[k - 1], steps[k - 1].t, steps[k - 1].a, f);
    }
  }

  // ----- runs that go on

  /** The run goes on. */
  ghost predicate Extends(run: seq<State>, steps: seq<Step>, run': seq<State>, steps': seq<Step>) {
    Run(run', steps') && run <= run' && steps <= steps'
  }

  /** All steps from step k on are thread t's. */
  ghost predicate OwnSince(steps: seq<Step>, k: nat, t: nat) {
    forall i :: k <= i < |steps| ==> steps[i].t == t
  }

  lemma GoOn(run: seq<State>, steps: seq<Step>, step: Step) returns (run': seq<State>, steps': seq<Step>)
    requires Run(run, steps) && step.t < |run[|steps|].threads| && Enabled(run[|steps|], step.t, step.a)
    ensures Extends(run, steps, run', steps') && steps' == steps + [step]
    ensures run' == run + [Next(run[|steps|], step.t, step.a)]
  {
    hide Next, Enabled, Init;
    var s' := Next(run[|steps|], step.t, step.a);
    run', steps' := run + [s'], steps + [step];
    forall k | 0 <= k < |steps'| ensures StepOf(run'[k], run'[k + 1], steps'[k]) {
      if k < |steps| {
        assert StepOf(run[k], run[k + 1], steps[k]);
      }
    }
  }

  // ----- a constructor on its own

  /** What a constructor of d with these arguments may put into d. */
  ghost predicate MayBuild(s: State, arguments: set<DataObject>, d: DataObject) {
    && (forall p :: p in arguments ==> HeldOutside(s, p))
    && (forall k :: 0 <= k < |d.records| ==> FromArguments(arguments, d.records[k]))
    && d !in s.book.created && GoodShape(d)
  }

  /** Thread t has retained the first i records of d, and nothing else has happened. */
  ghost predicate RetainedSome(s: State, s': State, t: nat, arguments: set<DataObject>, d: DataObject, i: nat)
    requires t < |s.threads| && i <= |d.records|
  {
    && s'.threads == s.threads[t := Building(arguments, d.records[..i])]
    && s'.book.refs.Keys == s.book.refs.Keys
    && s'.book == s.book.(refs := s'.book.refs)
    && forall o :: o in s.book.refs ==> s'.book.refs[o] == s.book.refs[o] + Points(d.records[..i], o)
  }

  lemma RetainsOne(s: State, s': State, t: nat, arguments: set<DataObject>, d: DataObject, i: nat)
    requires Inv(s') && t < |s.threads| && i < |d.records| && RetainedSome(s, s', t, arguments, d, i)
    requires MayBuild(s, arguments, d)
    ensures Enabled(s', t, RetainRecord(d.records[i]))
    ensures RetainedSome(s, Next(s', t, RetainRecord(d.records[i])), t, arguments, d, i + 1)
  {
    hide Points, Inv, FromArguments, GoodShape;
    var r := d.records[i];
    RetainedIsLive(s', t, r);
    forall o ensures Points(d.records[..i + 1], o) == Points(d.records[..i], o) + if r.obj == o then 1 else 0 {
      PointsSnoc(d.records, i, o);
    }
    assert d.records[..i] + [r] == d.records[..i + 1];
  }

  lemma {:induction false} RetainsAll(run: seq<State>, steps: seq<Step>, s: State, t: nat,
                                      arguments: set<DataObject>, d: DataObject, i: nat)
    returns (run': seq<State>, steps': seq<Step>)
    requires Run(run, steps) && t < |s.threads| && i <= |d.records| && MayBuild(s, arguments, d)
    requires RetainedSome(s, run[|steps|], t, arguments, d, i)
    ensures Extends(run, steps, run', steps') && OwnSince(steps', |steps|, t)
    ensures RetainedSome(s, run'[|steps'|], t, arguments, d, |d.records|)
    decreases |d.records| - i
  {
    hide Inv, Next, Enabled, RetainedSome, MayBuild, Init;
    if i == |d.records| {
      run', steps' := run, steps;
    } else {
      RunInv(run, steps, |steps|);
      RetainsOne(s, run[|steps|], t, arguments, d, i);
      SomeThreads(s, run[|steps|], t, arguments, d, i);
      var more, also := GoOn(run, steps, Step(t, RetainRecord(d.records[i])));
      run', steps' := RetainsAll(more, also, s, t, arguments, d, i + 1);
    }
  }

  lemma SomeThreads(s: State, s': State, t: nat, arguments: set<DataObject>, d: DataObject, i: nat)
    requires t < |s.threads| && i <= |d.records| && RetainedSome(s, s', t, arguments, d, i)
    ensures |s'.threads| == |s.threads|
  {
  }

  /** From every reachable state, a constructor that nobody disturbs makes its object by its
      own thread's steps alone, and leaves the books as the constructor of DataStore does:
      one new object, held once, and one count more for each of its records. */
  lemma BuildsAlone(run: seq<State>, steps: seq<Step>, t: nat, arguments: set<DataObject>, d: DataObject)
    returns (run': seq<State>, steps': seq<Step>)
    requires Run(run, steps) && t < |run[|steps|].threads| && run[|steps|].threads[t] == Idle
    requires MayBuild(run[|steps|], arguments, d)
    ensures Extends(run, steps, run', steps') && OwnSince(steps', |steps|, t)
    ensures Added(run[|steps|].book, run'[|steps'|].book, d) && run'[|steps'|].threads == run[|steps|].threads
  {
    hide Inv, Next, Enabled, RetainedSome, Init, Added, MayBuild;
    var s := run[|steps|];
    RunInv(run, steps, |steps|);
    BeginsBuild(s, t, arguments, d);
    var run1, steps1 := GoOn(run, steps, Step(t, Begin(arguments)));
    var run2, steps2 := RetainsAll(run1, steps1, s, t, arguments, d, 0);
    SomeThreads(s, run2[|steps2|], t, arguments, d, |d.records|);
    FinishesBuild(s, run2[|steps2|], t, arguments, d);
    run', steps' := GoOn(run2, steps2, Step(t, Finish(d)));
  }

  lemma BeginsBuild(s: State, t: nat, arguments: set<DataObject>, d: DataObject)
    requires t < |s.threads| && s.threads[t] == Idle && MayBuild(s, arguments, d)
    ensures Enabled(s, t, Begin(arguments))
    ensures RetainedSome(s, Next(s, t, Begin(arguments)), t, arguments, d, 0)
  {
    hide HeldOutside, FromArguments, GoodShape;
  }

  lemma FinishesBuild(s: State, s': State, t: nat, arguments: set<DataObject>, d: DataObject)
    requires Inv(s) && t < |s.threads| && s.threads[t] == Idle && MayBuild(s, arguments, d)
    requires RetainedSome(s, s', t, arguments, d, |d.records|)
    ensures t < |s'.threads| && Enabled(s', t, Finish(d))
    ensures Added(s.book, Next(s', t, Finish(d)).book, d) && Next(s', t, Finish(d)).threads == s.threads
  {
    hide Points, HeldOutside, FromArguments, GoodShape, BalancedOwing, Owed;
    assert d.records[..|d.records|] == d.records;
    LiveIsCreated(s.book, Owed(s.threads), d);
  }

  lemma LiveIsCreated(b: Book, owed: seq<Record>, d: DataObject)
    requires BalancedOwing(b, owed)
    ensures d in b.refs ==> d in b.created
  {
    hide Points, Pointers, FlatBooks, DestructorBooks, CountBooks;
  }

  // ----- everything can be given back

  ghost function CountOf(refs: map<DataObject, nat>, o: DataObject): nat {
    if o in refs then refs[o] else 0
  }

  /** The counts of the listed objects added up. */
  ghost function TotalCount(objs: seq<DataObject>, refs: map<DataObject, nat>): nat {
    if objs == [] then 0 else CountOf(refs, objs[0]) + TotalCount(objs[1..], refs)
  }

  lemma {:induction false} TotalCountLess(objs: seq<DataObject>, refs: map<DataObject, nat>,
                                          less: map<DataObject, nat>, x: DataObject)
    requires forall o :: CountOf(less, o) <= CountOf(refs, o)
    ensures TotalCount(objs, less) <= TotalCount(objs, refs)
    ensures x in objs && CountOf(less, x) < CountOf(refs, x) ==> TotalCount(objs, less) < TotalCount(objs, refs)
  {
    if objs != [] {
      TotalCountLess(objs[1..], refs, less, x);
    }
  }

  /** One decrement. */
  lemma DropCounts(b: Book, x: DataObject)
    requires x in b.refs && b.refs[x] > 0 && x in b.created
    ensures Dropped(b, x).created == b.created
    ensures TotalCount(b.created, Dropped(b, x).refs) < TotalCount(b.created, b.refs)
  {
    TotalCountLess(b.created, b.refs, Dropped(b, x).refs, x);
  }

  ghost function Remaining(s: State): nat {
    TotalCount(s.book.created, s.book.refs)
  }

  ghost predicate NoCalls(s: State) {
    forall t :: 0 <= t < |s.threads| ==> !s.threads[t].Building?
  }

  /** With no call but disposes in progress, there is a step that lowers some count, unless
      no thread owes and no caller holds anything. */
  lemma SomethingToGive(s: State) returns (step: Step)
    requires Inv(s) && NoCalls(s) && s.threads != []
    requires (exists t :: 0 <= t < |s.threads| && s.threads[t] != Idle) || exists o :: HeldOutside(s, o)
    ensures step.t < |s.threads| && Enabled(s, step.t, step.a) && (step.a == ReleaseRecord || step.a.Release?)
  {
    hide BalancedOwing, Owed;
    if t :| 0 <= t < |s.threads| && s.threads[t] != Idle {
      assert ThreadFits(s, t);
      step := Step(t, ReleaseRecord);
    } else {
      var o :| HeldOutside(s, o);
      step := Step(0, Release(o));
    }
  }

  lemma GivesLess(s: State, t: nat, a: Action)
    requires Inv(s) && NoCalls(s) && t < |s.threads| && Enabled(s, t, a) && (a == ReleaseRecord || a.Release?)
    ensures NoCalls(Next(s, t, a)) && |Next(s, t, a).threads| == |s.threads|
    ensures Next(s, t, a).book.created == s.book.created
    ensures Remaining(Next(s, t, a)) < Remaining(s)
  {
    hide BalancedOwing, Owed, TotalCount, Dropped, Argument;
    match a
    case Release(d) =>
      ReleaseDrops(s, d);
      DropCounts(s.book.(outside := s.book.outside[d := s.book.outside[d] - 1]), d);
    case ReleaseRecord =>
      OwedDrops(s, t);
      DropCounts(s.book, s.threads[t].owed[0].obj);
  }

  lemma ReleaseDrops(s: State, d: DataObject)
    requires Inv(s) && HeldOutside(s, d)
    ensures d in s.book.refs && s.book.refs[d] > 0 && d in s.book.created && d in s.book.outside
  {
    hide BalancedOwing, Owed;
    HeldIsLive(s, d);
    CountPositive(s.book, Owed(s.threads), d);
  }

  lemma OwedDrops(s: State, t: nat)
    requires Inv(s) && t < |s.threads| && Enabled(s, t, ReleaseRecord)
    ensures var x := s.threads[t].owed[0].obj; x in s.book.refs && s.book.refs[x] > 0 && x in s.book.created
  {
    hide BalancedOwing, Owed, Excess;
    RecordExcess(s, t);
    var x := s.threads[t].owed[0].obj;
    CountPositive(s.book, Owed(s.threads), x);
    LiveIsCreated(s.book, Owed(s.threads), x);
  }

  /** From every reachable state in which no call but disposes is in progress there is a way to
      give everything back: releases and disposes alone end with no object left, every leaf
      destroyed once and every flat buffer freed once. */
  lemma {:induction false} EverythingCanGo(run: seq<State>, steps: seq<Step>)
    returns (run': seq<State>, steps': seq<Step>)
    requires Run(run, steps) && NoCalls(run[|steps|]) && run[|steps|].threads != []
    ensures Extends(run, steps, run', steps')
    ensures run'[|steps'|].book.refs == map[] && run'[|steps'|].book.created == run[|steps|].book.created
    ensures forall t :: 0 <= t < |run'[|steps'|].threads| ==> run'[|steps'|].threads[t] == Idle
    ensures forall o :: o in run'[|steps'|].book.created && Leaf(o) ==> run'[|steps'|].book.destroyed[o] == 1
    ensures forall f :: f in run'[|steps'|].book.published ==> run'[|steps'|].book.freed[f] == 1
    decreases Remaining(run[|steps|])
  {
    hide Inv, Next, Enabled, Init, Remaining, NoCalls;
    var s := run[|steps|];
    RunInv(run, steps, |steps|);
    if (exists t :: 0 <= t < |s.threads| && s.threads[t] != Idle) || exists o :: HeldOutside(s, o) {
      var step := SomethingToGive(s);
      GivesLess(s, step.t, step.a);
      var more, also := GoOn(run, steps, step);
      run', steps' := EverythingCanGo(more, also);
    } else {
      assert forall o :: o in s.book.outside ==> !HeldOutside(s, o);
      NothingLeftAtRest(run, steps, |steps|);
      run', steps' := run, steps;
    }
  }
}
