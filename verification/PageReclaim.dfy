/** What a thread of the allocator achieves: an allocation gets a slot when there is one, and
    a free that leaves its page empty gives the page back. */
module PageReclaim {
  import opened SlotProtocol
  import opened SlotRuns

  // ----- one thread on its own

  /** The next step of thread t inside its call, where it has no choice; an idle thread stays
      where it is. */
  ghost function Onward(c: Config, s: State, t: nat): State {
    if Shape(c, s) && t < |s.pcs| && s.pcs[t] != Idle && s.pcs[t] != Crashed then Next(c, s, t, Allocate(0)) else s
  }

  /** The state after n steps of thread t alone. */
  ghost function Alone(c: Config, s: State, t: nat, n: nat): State
    decreases n
  {
    if n == 0 then s else Alone(c, Onward(c, s, t), t, n - 1)
  }

  lemma {:induction false} AloneAdd(c: Config, s: State, t: nat, m: nat, n: nat)
    ensures Alone(c, s, t, m + n) == Alone(c, Alone(c, s, t, m), t, n)
    decreases m
  {
    hide Onward;
    if m > 0 {
      AloneAdd(c, Onward(c, s, t), t, m - 1, n);
    }
  }

  lemma OnwardKeeps(c: Config, s: State, t: nat)
    requires Inv(c, s)
    ensures Inv(c, Onward(c, s, t)) && Shape(c, s)
    ensures Reachable(c, s) ==> Reachable(c, Onward(c, s, t))
  {
    hide Inv, Next, Reachable, InRange;
    InvShape(c, s);
    if t < |s.pcs| && s.pcs[t] != Idle && s.pcs[t] != Crashed {
      StepInv(c, s, t, Allocate(0));
      if Reachable(c, s) {
        ReachableStep(c, s, t, Allocate(0), Onward(c, s, t));
      }
    }
  }

  /** These are states of runs. */
  lemma {:induction false} AloneReachable(c: Config, s: State, t: nat, n: nat)
    requires Reachable(c, s)
    ensures Reachable(c, Alone(c, s, t, n))
    decreases n
  {
    hide Reachable, Onward;
    if n > 0 {
      ReachableInv(c, s);
      OnwardKeeps(c, s, t);
      AloneReachable(c, Onward(c, s, t), t, n - 1);
    }
  }

  // ----- an empty page is given back

  /** The bitmaps from `first` + k to the end of the page are all zeroes. */
  ghost predicate EmptyFrom(c: Config, s: State, first: nat, k: nat) {
    first + c.perPage <= |s.maps| && forall d: nat :: first + k <= d < first + c.perPage ==> s.maps[d] == {}
  }

  ghost predicate PageEmpty(c: Config, s: State, first: nat) {
    EmptyFrom(c, s, first, 0)
  }

  lemma {:induction false} ScansAlone(c: Config, s: State, t: nat, first: nat, k: nat)
    requires Inv(c, s) && t < |s.pcs| && s.pcs[t] == Scan(first, k) && k < c.perPage && EmptyFrom(c, s, first, k)
    ensures Alone(c, s, t, c.perPage - k) == Goto(s, t, Lock(first, 0))
    decreases c.perPage - k
  {
    hide Inv, Shape, InRange, Config.Word, Config.First;
    OnwardKeeps(c, s, t);
    var s' := Onward(c, s, t);
    if k + 1 < c.perPage {
      ScansAlone(c, s', t, first, k + 1);
    } else {
      assert Alone(c, s', t, 0) == s';
    }
  }

  lemma {:induction false} LocksAlone(c: Config, s: State, t: nat, first: nat, k: nat)
    requires Inv(c, s) && t < |s.pcs| && s.pcs[t] == Lock(first, k) && k < c.perPage && EmptyFrom(c, s, first, k)
    ensures var e := Alone(c, s, t, c.perPage - k);
      |e.pcs| == |s.pcs| && e.pcs[t] == Advise(first) && Inv(c, e)
    decreases c.perPage - k
  {
    hide Inv, Shape, InRange, Config.Word, Config.First, Ones;
    OnwardKeeps(c, s, t);
    var s' := Onward(c, s, t);
    if k + 1 < c.perPage {
      LocksAlone(c, s', t, first, k + 1);
    } else {
      assert Alone(c, s', t, 0) == s';
    }
  }

  lemma {:induction false} UnlocksAlone(c: Config, s: State, t: nat, first: nat, k: nat)
    requires Inv(c, s) && t < |s.pcs| && s.pcs[t] == Unlock(first, k) && 0 < k <= c.perPage && EmptyFrom(c, s, first, k)
    ensures var e := Alone(c, s, t, k);
      |e.pcs| == |s.pcs| && e.pcs[t] == Idle && PageEmpty(c, e, first)
    decreases k
  {
    hide Inv, Shape, InRange, Config.Word, Config.First;
    OnwardKeeps(c, s, t);
    var s' := Onward(c, s, t);
    if k > 1 {
      UnlocksAlone(c, s', t, first, k - 1);
    } else {
      assert Alone(c, s', t, 0) == s';
    }
  }

  /** From the locks on: the page is advised, and all its bitmaps are zeroes again. */
  lemma AdvisesAlone(c: Config, s: State, t: nat, first: nat)
    requires Inv(c, s) && t < |s.pcs| && s.pcs[t] == Advise(first)
    ensures var e := Alone(c, s, t, c.perPage + 1);
      |e.pcs| == |s.pcs| && e.pcs[t] == Idle && PageEmpty(c, e, first)
  {
    hide Inv, Shape, Alone, Config.Word, Config.First;
    OnwardKeeps(c, s, t);
    InvRange(c, s, t);
    PageFits(c, first);
    var s' := Onward(c, s, t);
    UnlocksAlone(c, s', t, first, c.perPage);
    AloneNext(c, s, t, c.perPage);
  }

  lemma AloneNext(c: Config, s: State, t: nat, n: nat)
    ensures Alone(c, s, t, n + 1) == Alone(c, Onward(c, s, t), t, n)
  {
  }

  lemma InvRange(c: Config, s: State, t: nat)
    requires Inv(c, s) && t < |s.pcs|
    ensures c.Legal() && InRange(c, s.pcs[t]) && |s.maps| == c.Total() && s.pcs[t] != Crashed
  {
    hide InRange, Config.Word, Config.First;
    assert OwnerFits(s, t);
  }

  /** A thread that has emptied a bitmap, and finds its whole page empty, advises the page
      and becomes idle by its own steps alone; every bitmap of the page is empty again. */
  lemma EmptyPageIsAdvised(c: Config, s: State, t: nat, b: nat, i: nat)
    requires Reachable(c, s) && t < |s.pcs| && s.pcs[t] == FreeSuper(b, i, true)
    requires c.perPage > 0 && PageEmpty(c, s, c.First(b))
    ensures var a := Alone(c, s, t, 2 * c.perPage + 1);
      Reachable(c, a) && |a.pcs| == |s.pcs| && a.pcs[t] == Advise(c.First(b))
    ensures var e := Alone(c, s, t, 3 * c.perPage + 2);
      Reachable(c, e) && |e.pcs| == |s.pcs| && e.pcs[t] == Idle && PageEmpty(c, e, c.First(b))
  {
    hide Reachable, Alone, Config.First, Config.Word, Onward, Inv;
    var n := c.perPage;
    ReachableInv(c, s);
    LeavesSuper(c, s, t, b, i);
    var s1 := Onward(c, s, t);
    AloneNext(c, s, t, 0);
    OneAlone(c, s, t);
    OnwardKeeps(c, s, t);
    ScansAlone(c, s1, t, c.First(b), 0);
    AloneReachable(c, s1, t, n);
    var s2 := Alone(c, s1, t, n);
    ReachableInv(c, s2);
    LocksAlone(c, s2, t, c.First(b), 0);
    AloneAdd(c, s, t, 1, n);
    AloneAdd(c, s, t, 1 + n, n);
    AdvisesAlone(c, Alone(c, s, t, 2 * n + 1), t, c.First(b));
    AloneAdd(c, s, t, 2 * n + 1, n + 1);
    AloneReachable(c, s, t, 2 * n + 1);
    AloneReachable(c, s, t, 3 * n + 2);
  }

  lemma OneAlone(c: Config, s: State, t: nat)
    ensures Alone(c, s, t, 1) == Onward(c, s, t)
  {
    hide Onward;
    assert Alone(c, Onward(c, s, t), t, 0) == Onward(c, s, t);
  }

  lemma LeavesSuper(c: Config, s: State, t: nat, b: nat, i: nat)
    requires Inv(c, s) && t < |s.pcs| && s.pcs[t] == FreeSuper(b, i, true)
    requires c.perPage > 0 && PageEmpty(c, s, c.First(b))
    ensures var s' := Onward(c, s, t);
      |s'.pcs| == |s.pcs| && s'.pcs[t] == Scan(c.First(b), 0) && PageEmpty(c, s', c.First(b))
  {
    hide Inv, Config.First, Config.Word, InRange;
    InvShape(c, s);
  }

  // ----- every free tries

  /** Thread t looks at a bitmap of the page that is not empty, and goes on. */
  ghost predicate SeesBusy(c: Config, s: State, s': State, t: nat, first: nat) {
    && t < |s.pcs| == |s'.pcs| && s'.pcs[t] != s.pcs[t]
    && match s.pcs[t]
       case Scan(f, k) => f == first && k < c.perPage && first + k < |s.maps| && s.maps[first + k] != {}
       case Lock(f, k) => f == first && k < c.perPage && first + k < |s.maps| && s.maps[first + k] != {}
       case _ => false
  }

  /** Thread t is on its way to advise the page. */
  ghost predicate Trying(s: State, t: nat, b: nat, first: nat) {
    t < |s.pcs| &&
    match s.pcs[t]
    case FreeSuper(d, _, empty) => d == b && empty
    case Scan(f, _) => f == first
    case Lock(f, _) => f == first
    case Advise(f) => f == first
    case _ => false
  }

  lemma TryingStep(c: Config, s: State, s': State, u: nat, choice: Choice, t: nat, b: nat)
    requires StepOf(c, s, s', u, choice) && c.perPage > 0 && Trying(s, t, b, c.First(b))
    ensures Trying(s', t, b, c.First(b)) || s.pcs[t] == Advise(c.First(b)) || SeesBusy(c, s, s', t, c.First(b))
  {
    hide Config.First, Config.Word, Ones, TryAllocate, ClearBit, Return;
    if u != t {
      OthersPlaces(c, s, s', u, choice, t);
    } else {
      assert InRange(c, s.pcs[t]);
    }
  }

  lemma OthersPlaces(c: Config, s: State, s': State, u: nat, choice: Choice, t: nat)
    requires StepOf(c, s, s', u, choice) && t < |s.pcs| && u != t
    ensures |s'.pcs| == |s.pcs| && s'.pcs[t] == s.pcs[t]
  {
    hide Config.First, Config.Word, Config.Cap, Ones, FirstClear;
    assert InRange(c, s.pcs[u]);
    hide InRange, Shape;
  }

  /** The thread has advised the page, or has seen that it is not empty. */
  ghost predicate Settled(c: Config, run: seq<State>, m: nat, t: nat, first: nat) {
    m + 1 < |run| && t < |run[m].pcs| && (run[m].pcs[t] == Advise(first) || SeesBusy(c, run[m], run[m + 1], t, first))
  }

  lemma {:induction false} TriesUntil(c: Config, run: seq<State>, j: nat, k: nat, t: nat, b: nat)
    requires Run(c, run) && c.perPage > 0 && j <= k < |run| && Trying(run[j], t, b, c.First(b))
    ensures Trying(run[k], t, b, c.First(b)) || exists m :: j <= m < k && Settled(c, run, m, t, c.First(b))
    decreases k
  {
    hide Config.First, StepOf, Trying, Settled, SeesBusy, Init;
    if j < k {
      TriesUntil(c, run, j, k - 1, t, b);
      if Trying(run[k - 1], t, b, c.First(b)) {
        assert Follows(c, run[k - 1], run[k - 1 + 1]);
        var u: nat, choice :| StepOf(c, run[k - 1], run[k], u, choice);
        TryingStep(c, run[k - 1], run[k], u, choice, t, b);
        if !Trying(run[k], t, b, c.First(b)) {
          SettledNow(c, run, k - 1, t, b);
        }
      }
    }
  }

  lemma SettledNow(c: Config, run: seq<State>, m: nat, t: nat, b: nat)
    requires c.perPage > 0 && m + 1 < |run| && Trying(run[m], t, b, c.First(b))
    requires run[m].pcs[t] == Advise(c.First(b)) || SeesBusy(c, run[m], run[m + 1], t, c.First(b))
    ensures Settled(c, run, m, t, c.First(b))
  {
    hide Config.First;
  }

  /** In every run, a thread whose free empties a bitmap of the main arrays is not idle again
      before it has advised the page of the bitmap, or has seen a bitmap of that page that is
      not empty. */
  lemma EmptiedPageIsTried(c: Config, run: seq<State>, j: nat, k: nat, t: nat, b: nat, i: nat)
    requires Run(c, run) && c.perPage > 0 && j + 1 < k < |run| && t < |run[j].pcs| && b < c.mains
    requires run[j].pcs[t] == FreeAnd(b, i) && t < |run[j + 1].pcs| && run[j + 1].pcs[t] != FreeAnd(b, i)
    requires b < |run[j + 1].maps| && run[j + 1].maps[b] == {}
    requires t < |run[k].pcs| && run[k].pcs[t] == Idle
    ensures exists m :: j < m < k && Settled(c, run, m, t, c.First(b))
  {
    hide Config.First, Settled, Init, Run;
    EmptyingStep(c, run, j, t, b, i);
    TriesUntil(c, run, j + 1, k, t, b);
  }

  lemma EmptyingStep(c: Config, run: seq<State>, j: nat, t: nat, b: nat, i: nat)
    requires Run(c, run) && c.perPage > 0 && j + 1 < |run| && t < |run[j].pcs| && b < c.mains
    requires run[j].pcs[t] == FreeAnd(b, i) && t < |run[j + 1].pcs| && run[j + 1].pcs[t] != FreeAnd(b, i)
    requires b < |run[j + 1].maps| && run[j + 1].maps[b] == {}
    ensures Trying(run[j + 1], t, b, c.First(b))
  {
    hide Config.First, Config.Word, Init, InRange;
    assert Follows(c, run[j], run[j + 1]);
    var u: nat, choice :| StepOf(c, run[j], run[j + 1], u, choice);
    if u != t {
      OthersPlaces(c, run[j], run[j + 1], u, choice, t);
    }
  }

  // ----- frees end

  /** A bound on the steps that a thread inside a free still has to take. */
  function FreeSteps(c: Config, pc: PC): int {
    match pc
    case FreeCheck(_, _) => 3 * c.perPage + 4
    case FreeAnd(_, _) => 3 * c.perPage + 3
    case FreeSuper(_, _, _) => 3 * c.perPage + 2
    case Scan(_, k) => 3 * c.perPage + 1 - k
    case Lock(_, k) => 2 * c.perPage + 1 - k
    case Advise(_) => c.perPage + 1
    case Unlock(_, k) => k
    case _ => 0
  }

  /** In every reachable state, a step inside a free brings that free closer to its end, and
      no step of another thread sets it back: a free is over after 3 * perPage + 4 of its own
      steps at most, whatever the others do. */
  lemma FreesEnd(c: Config, s: State, s': State, u: nat, choice: Choice, t: nat)
    requires Reachable(c, s) && StepOf(c, s, s', u, choice) && t < |s.pcs|
    requires FreeSteps(c, s.pcs[t]) > 0
    ensures |s'.pcs| == |s.pcs| && 0 <= FreeSteps(c, s'.pcs[t]) <= FreeSteps(c, s.pcs[t]) <= 3 * c.perPage + 4
    ensures u == t ==> FreeSteps(c, s'.pcs[t]) < FreeSteps(c, s.pcs[t])
    ensures FreeSteps(c, s'.pcs[t]) == 0 ==> s'.pcs[t] == Idle
  {
    hide Reachable, Next, Inv, Enabled;
    NoDoubleFreeCrash(c, s, t);
    ReachableInv(c, s);
    InvRange(c, s, t);
    if u == t && AtPage(s.pcs[t]) {
      OwnPageStep(c, s, t, choice);
    } else if u == t {
      OwnFreeStep(c, s, t, choice);
    } else {
      OthersPlaces(c, s, s', u, choice, t);
    }
  }

  lemma OwnFreeStep(c: Config, s: State, t: nat, choice: Choice)
    requires Shape(c, s) && t < |s.pcs| && (s.pcs[t].FreeCheck? || s.pcs[t].FreeAnd? || s.pcs[t].FreeSuper?)
    requires s.pcs[t].FreeCheck? ==> s.pcs[t].i in s.maps[s.pcs[t].b]
    ensures var s' := Next(c, s, t, choice);
      && |s'.pcs| == |s.pcs| && 0 <= FreeSteps(c, s'.pcs[t]) < FreeSteps(c, s.pcs[t])
      && (FreeSteps(c, s'.pcs[t]) == 0 ==> s'.pcs[t] == Idle)
  {
    hide Config.First, Config.Word, Config.Cap, Ones, TryAllocate, Return;
  }

  lemma OwnPageStep(c: Config, s: State, t: nat, choice: Choice)
    requires Shape(c, s) && t < |s.pcs| && AtPage(s.pcs[t])
    ensures var s' := Next(c, s, t, choice);
      && |s'.pcs| == |s.pcs| && 0 <= FreeSteps(c, s'.pcs[t]) < FreeSteps(c, s.pcs[t])
      && (FreeSteps(c, s'.pcs[t]) == 0 ==> s'.pcs[t] == Idle)
  {
    hide Config.First, Config.Word, Config.Cap, Ones, TryAllocate, Return, ClearBit;
    assert InRange(c, s.pcs[t]);
  }

  // ----- allocations get a slot

  /** An idle thread that tries a bitmap with a clear bit for a slot gets the lowest such slot
      by its own steps alone; if that filled a bitmap of the main arrays, it is marked. */
  lemma AllocatesAlone(c: Config, s: State, t: nat, b: nat)
    requires Reachable(c, s) && Shape(c, s) && t < |s.pcs| && s.pcs[t] == Idle && b < c.Total()
    requires FirstClear(s.maps[b], 0, c.Cap(b)) < c.Cap(b)
    ensures var i, e := FirstClear(s.maps[b], 0, c.Cap(b)), Alone(c, Next(c, s, t, Allocate(b)), t, 3);
      && Reachable(c, e) && e.maps == s.maps[b := s.maps[b] + {i}]
      && e.pcs == s.pcs && e.owner == s.owner[(b, i) := Caller]
      && (b < c.mains && c.Word(b) < |e.supers| && e.maps[b] == Ones(c.bits) ==> b in e.supers[c.Word(b)])
  {
    hide Reachable, Config.Word, Config.First, Ones, Alone;
    ReachableStep(c, s, t, Allocate(b), Next(c, s, t, Allocate(b)));
    AloneReachable(c, Next(c, s, t, Allocate(b)), t, 3);
    var i := FirstClear(s.maps[b], 0, c.Cap(b));
    if b < c.mains {
      MarksAlone(c, s, Next(c, s, t, Allocate(b)), t, b, i);
    } else {
      StaysIdle(c, Next(c, s, t, Allocate(b)), t, 3);
    }
  }

  lemma {:induction false} StaysIdle(c: Config, s: State, t: nat, n: nat)
    requires t < |s.pcs| && s.pcs[t] == Idle
    ensures Alone(c, s, t, n) == s
    decreases n
  {
    if n > 0 {
      StaysIdle(c, s, t, n - 1);
    }
  }

  lemma MarksAlone(c: Config, s: State, s1: State, t: nat, b: nat, i: nat)
    requires Shape(c, s) && t < |s.pcs| && s.pcs[t] == Idle && b < c.mains && s1 == Taken(c, s, t, b, i)
    ensures var e := Alone(c, s1, t, 3);
      && e.maps == s1.maps && e.pcs == s.pcs && e.owner == s.owner[(b, i) := Caller]
      && (c.Word(b) < |e.supers| && e.maps[b] == Ones(c.bits) ==> b in e.supers[c.Word(b)])
  {
    hide Config.Word, Config.First, Ones, Onward;
    TakeShape(c, s, t, b, i);
    LoadsSuper(c, s1, t, b, i);
    var s2 := Goto(s1, t, MarkCheck(b, i, s1.supers[c.Word(b)]));
    AloneNext(c, s1, t, 2);
    CheckedAlone(c, s2, t, b, i);
    assert s2.pcs[t := Idle] == s.pcs;
    assert s1.owner[(b, i) := Caller] == s.owner[(b, i) := Caller];
  }

  lemma LoadsSuper(c: Config, s: State, t: nat, b: nat, i: nat)
    requires Shape(c, s) && t < |s.pcs| && s.pcs[t] == MarkLoad(b, i) && b < c.mains
    ensures Onward(c, s, t) == Goto(s, t, MarkCheck(b, i, s.supers[c.Word(b)]))
  {
    hide Config.Word, Config.First, Ones;
  }

  lemma CheckedAlone(c: Config, s: State, t: nat, b: nat, i: nat)
    requires Shape(c, s) && t < |s.pcs| && b < c.mains && s.pcs[t] == MarkCheck(b, i, s.supers[c.Word(b)])
    ensures var e := Alone(c, s, t, 2);
      && e.maps == s.maps && e.pcs == s.pcs[t := Idle] && e.owner == s.owner[(b, i) := Caller]
      && (c.Word(b) < |e.supers| && e.maps[b] == Ones(c.bits) ==> b in e.supers[c.Word(b)])
  {
    hide Config.Word, Config.First, Ones;
    AloneNext(c, s, t, 1);
    OneAlone(c, Onward(c, s, t), t);
    var s' := Goto(s, t, MarkSwap(b, i, s.supers[c.Word(b)]));
    assert Shape(c, s');
    if s.maps[b] == Ones(c.bits) {
      assert Onward(c, s, t) == s';
      assert s'.pcs[t := Idle] == s.pcs[t := Idle];
    }
  }
}
