/** What the allocator keeps in every interleaving of allocations, frees and page locks. */
module SlotRuns {
  import opened Basics
  import opened SlotProtocol

  ghost predicate Init(c: Config, s: State) {
    && Shape(c, s) && s.owner == map[] && s.locker == map[] && s.cause == map[]
    && (forall b :: 0 <= b < |s.maps| ==> s.maps[b] == {})
    && (forall w :: 0 <= w < |s.supers| ==> s.supers[w] == {})
    && (forall t :: 0 <= t < |s.pcs| ==> s.pcs[t] == Idle)
  }

  lemma InitInv(c: Config, s: State)
    requires Init(c, s)
    ensures Inv(c, s)
  {
    hide Config.Word, Config.First, Config.Cap;
  }

  ghost predicate StepOf(c: Config, s: State, s': State, t: nat, choice: Choice) {
    Shape(c, s) && t < |s.pcs| && Enabled(c, s, t, choice) && s' == Next(c, s, t, choice)
  }

  ghost predicate Follows(c: Config, s: State, s': State) {
    exists t: nat, choice :: StepOf(c, s, s', t, choice)
  }

  /** A run: every state follows from the one before by a step of some thread. */
  ghost predicate Run(c: Config, run: seq<State>) {
    && run != [] && Init(c, run[0])
    && forall k :: 0 <= k < |run| - 1 ==> Follows(c, run[k], run[k + 1])
  }

  lemma {:induction false} RunInv(c: Config, run: seq<State>, k: nat)
    requires Run(c, run) && k < |run|
    ensures Inv(c, run[k])
    decreases k
  {
    hide Inv, Next, Enabled, Shape, Init;
    if k == 0 {
      InitInv(c, run[0]);
    } else {
      RunInv(c, run, k - 1);
      assert Follows(c, run[k - 1], run[k - 1 + 1]);
      var t: nat, choice :| StepOf(c, run[k - 1], run[k], t, choice);
      StepInv(c, run[k - 1], t, choice);
    }
  }

  ghost predicate Reachable(c: Config, s: State) {
    exists run :: Run(c, run) && run[|run| - 1] == s
  }

  lemma ReachableInv(c: Config, s: State)
    requires Reachable(c, s)
    ensures Inv(c, s)
  {
    hide Inv, Follows, Init;
    var run :| Run(c, run) && run[|run| - 1] == s;
    RunInv(c, run, |run| - 1);
  }

  // ----- slots

  /** The ones of a bitmap are its owned slots, or it is locked, all ones, and none of its
      slots is owned. Only bits that stand for slots are ever owned. */
  lemma BitsAreOwners(c: Config, s: State, b: nat, i: nat)
    requires Reachable(c, s) && b < c.Total()
    ensures |s.maps| == c.Total()
    ensures b !in s.locker ==> (i in s.maps[b] <==> (b, i) in s.owner)
    ensures b in s.locker ==> s.maps[b] == Ones(c.bits) && (b, i) !in s.owner
    ensures (b, i) in s.owner ==> i < c.Cap(b)
  {
    hide Reachable, Config.Word, Config.First, InRange;
    ReachableInv(c, s);
    assert MapFits(c, s, b);
    if (b, i) in s.owner {
      assert SlotFits(c, s, (b, i));
    }
  }

  /** No two threads are inside a call with the same slot, and no caller holds a slot that
      a thread still has inside a call. */
  lemma NoSlotTwice(c: Config, s: State, t: nat, u: nat)
    requires Reachable(c, s) && t < |s.pcs| && u < |s.pcs| && t != u && SlotOf(s.pcs[t]).Some?
    ensures SlotOf(s.pcs[u]) != SlotOf(s.pcs[t])
    ensures SlotOf(s.pcs[t]).value in s.owner && s.owner[SlotOf(s.pcs[t]).value] == Thread(t)
  {
    hide Reachable, Config.Word, Config.First, InRange, SlotOf;
    ReachableInv(c, s);
    assert OwnerFits(s, t) && OwnerFits(s, u);
  }

  /** What one step may do to the ownership of a slot. */
  ghost predicate OwnershipStep(s: State, s': State, t: nat, choice: Choice, slot: (nat, nat))
    requires t < |s.pcs| == |s'.pcs|
  {
    && (slot in s'.owner && slot !in s.owner ==>
          s.pcs[t] == Idle && choice == Allocate(slot.0) && slot.0 < |s.maps| && slot.1 !in s.maps[slot.0])
    && (slot in s.owner && slot !in s'.owner ==>
          s.pcs[t] == FreeAnd(slot.0, slot.1) && s.owner[slot] == Thread(t))
    && (slot in s.owner && slot in s'.owner && s.owner[slot] != s'.owner[slot] ==>
          if s.owner[slot] == Caller then s.pcs[t] == Idle && choice == Release(slot.0, slot.1)
          else s.owner[slot] == Thread(t) && s'.owner[slot] == Caller && s'.pcs[t] == Idle)
  }

  /** Only an allocation makes a slot owned, and the bit it set was clear, so nobody owned
      the slot; only the free of a slot ends its ownership. In between the slot goes from
      the allocating thread to the caller, and from the caller to the freeing thread. */
  lemma OwnershipChanges(c: Config, s: State, s': State, t: nat, choice: Choice, slot: (nat, nat))
    requires Reachable(c, s) && StepOf(c, s, s', t, choice)
    ensures |s'.pcs| == |s.pcs| && OwnershipStep(s, s', t, choice, slot)
  {
    hide Reachable, Inv, Next, OwnershipStep, InRange, Config.Word, Config.First, Config.Legal;
    ReachableInv(c, s);
    InvShape(c, s);
    if s.pcs[t] == Idle {
      IdleOwnership(c, s, t, choice, slot);
    } else if SlotOf(s.pcs[t]).Some? {
      HeldOwnership(c, s, t, choice, slot);
    } else {
      OtherOwnership(c, s, t, choice, slot);
    }
  }

  lemma IdleOwnership(c: Config, s: State, t: nat, choice: Choice, slot: (nat, nat))
    requires Inv(c, s) && Shape(c, s) && t < |s.pcs| && Enabled(c, s, t, choice) && s.pcs[t] == Idle
    ensures |Next(c, s, t, choice).pcs| == |s.pcs| && OwnershipStep(s, Next(c, s, t, choice), t, choice, slot)
  {
    hide Inv, InRange, Config.Word, Config.First, Config.Legal, Ones;
    if choice.Allocate? {
      var i := FirstClear(s.maps[choice.b], 0, c.Cap(choice.b));
      if i < c.Cap(choice.b) {
        ClearBitIsFree(c, s, choice.b, i);
      }
    }
  }

  lemma HeldOwnership(c: Config, s: State, t: nat, choice: Choice, slot: (nat, nat))
    requires Inv(c, s) && Shape(c, s) && t < |s.pcs| && SlotOf(s.pcs[t]).Some?
    ensures |Next(c, s, t, choice).pcs| == |s.pcs| && OwnershipStep(s, Next(c, s, t, choice), t, choice, slot)
  {
    hide Inv, Config.Word, Config.First, Config.Legal, Ones;
    HeldBitIsSet(c, s, t, SlotOf(s.pcs[t]).value.0, SlotOf(s.pcs[t]).value.1);
  }

  lemma OtherOwnership(c: Config, s: State, t: nat, choice: Choice, slot: (nat, nat))
    requires Shape(c, s) && t < |s.pcs| && Enabled(c, s, t, choice) && SlotOf(s.pcs[t]) == None && s.pcs[t] != Idle
    ensures |Next(c, s, t, choice).pcs| == |s.pcs| && OwnershipStep(s, Next(c, s, t, choice), t, choice, slot)
  {
    hide Config.Word, Config.First, Config.Legal, Ones, TryAllocate, ClearBit, Return;
  }

  /** The crash for freeing a slot whose bit is clear cannot happen to callers that free
      what they own: the test always finds the bit, and so does the step after it. */
  lemma NoDoubleFreeCrash(c: Config, s: State, t: nat)
    requires Reachable(c, s) && t < |s.pcs|
    ensures s.pcs[t] != Crashed
    ensures s.pcs[t].FreeCheck? || s.pcs[t].FreeAnd? ==> s.pcs[t].b < |s.maps| && s.pcs[t].i in s.maps[s.pcs[t].b]
  {
    hide Reachable, Config.Word, Config.First, InRange;
    ReachableInv(c, s);
    assert OwnerFits(s, t);
    if s.pcs[t].FreeCheck? || s.pcs[t].FreeAnd? {
      HeldBitIsSet(c, s, t, s.pcs[t].b, s.pcs[t].i);
    }
  }

  // ----- pages

  /** A thread that is about to madvise a page holds every bitmap of that page; no slot of
      the page is owned by anyone, and no other thread holds one of the bitmaps. */
  lemma AdvisedPageIsFree(c: Config, s: State, t: nat, b: nat, i: nat, u: nat)
    requires Reachable(c, s) && t < |s.pcs| && s.pcs[t].Advise?
    requires c.Legal() && c.First(b) == s.pcs[t].first
    ensures b < c.mains && |s.maps| == c.Total() && s.maps[b] == Ones(c.bits)
    ensures (b, i) !in s.owner
    ensures Locks(c, s.pcs[t], b) && (u < |s.pcs| && u != t ==> !Locks(c, s.pcs[u], b))
  {
    hide Reachable, Config.Word, Config.First, Ones;
    ReachableInv(c, s);
    assert InRange(c, s.pcs[t]);
    PageOf(c, s.pcs[t].first);
    assert LockFits(c, s, t, b);
    if u < |s.pcs| {
      assert LockFits(c, s, u, b);
    }
    assert MapFits(c, s, b);
  }

  predicate AtPage(pc: PC) {
    pc.Scan? || pc.Lock? || pc.Advise? || pc.Unlock?
  }

  /** The steps of a thread that tries to madvise a page, under any interference: it locks
      a bitmap only when that is all zeroes, turning it into all ones, and unlocks it from
      all ones to all zeroes. It changes no other bitmap, and while it holds a bitmap no
      other thread changes or locks it. */
  lemma PageSteps(c: Config, s: State, s': State, t: nat, choice: Choice, b: nat, u: nat)
    requires Reachable(c, s) && StepOf(c, s, s', t, choice) && b < c.Total() && u < |s.pcs|
    ensures |s.maps| == |s'.maps| == c.Total() && |s'.pcs| == |s.pcs|
    ensures AtPage(s.pcs[t]) && !Locks(c, s.pcs[t], b) && Locks(c, s'.pcs[t], b) ==>
      s.maps[b] == {} && s'.maps[b] == Ones(c.bits)
    ensures Locks(c, s.pcs[t], b) && !Locks(c, s'.pcs[t], b) ==>
      s.maps[b] == Ones(c.bits) && s'.maps[b] == {}
    ensures AtPage(s.pcs[t]) && Locks(c, s.pcs[t], b) == Locks(c, s'.pcs[t], b) ==> s'.maps[b] == s.maps[b]
    ensures u != t && Locks(c, s.pcs[u], b) ==>
      s'.maps[b] == s.maps[b] == Ones(c.bits) && !Locks(c, s.pcs[t], b) && !Locks(c, s'.pcs[t], b)
  {
    hide Reachable, Inv, Config.Word, Config.First, Config.Legal, Next, Enabled;
    ReachableInv(c, s);
    InvShape(c, s);
    OwnLocks(c, s, s', t, choice, b);
    if u != t && Locks(c, s.pcs[u], b) {
      LockedIsFull(c, s, u, b);
      OthersLocks(c, s, s', t, choice, b, u);
    }
  }

  lemma LockedIsFull(c: Config, s: State, u: nat, b: nat)
    requires Inv(c, s) && u < |s.pcs| && Locks(c, s.pcs[u], b) && b < c.Total()
    ensures s.maps[b] == Ones(c.bits) && s.maps[b] != {} && b in s.locker && s.locker[b] == u
    ensures forall i: nat :: (b, i) !in s.owner
  {
    hide Config.Word, Config.First, InRange;
    assert LockFits(c, s, u, b);
    assert MapFits(c, s, b);
    assert 0 in Ones(c.bits);
  }

  lemma OwnLocks(c: Config, s: State, s': State, t: nat, choice: Choice, b: nat)
    requires Inv(c, s) && StepOf(c, s, s', t, choice) && b < c.Total()
    ensures |s.maps| == |s'.maps| == c.Total() && |s'.pcs| == |s.pcs|
    ensures AtPage(s.pcs[t]) && !Locks(c, s.pcs[t], b) && Locks(c, s'.pcs[t], b) ==>
      s.maps[b] == {} && s'.maps[b] == Ones(c.bits)
    ensures Locks(c, s.pcs[t], b) && !Locks(c, s'.pcs[t], b) ==>
      s.maps[b] == Ones(c.bits) && s'.maps[b] == {}
    ensures AtPage(s.pcs[t]) && Locks(c, s.pcs[t], b) == Locks(c, s'.pcs[t], b) ==> s'.maps[b] == s.maps[b]
  {
    hide Inv, Next, InRange, Config.Word, Config.First, Config.Legal, Ones;
    InvShape(c, s);
    if Locks(c, s.pcs[t], b) {
      LockedIsFull(c, s, t, b);
    }
    if AtPage(s.pcs[t]) {
      PageMaps(c, s, t, choice, b);
    } else {
      SlotMaps(c, s, t, choice, b);
    }
  }

  /** A step at a page changes a bitmap when it locks or unlocks it, and only then. */
  lemma PageMaps(c: Config, s: State, t: nat, choice: Choice, b: nat)
    requires Shape(c, s) && t < |s.pcs| && AtPage(s.pcs[t]) && b < c.Total()
    ensures var s' := Next(c, s, t, choice);
      && |s.maps| == |s'.maps| == c.Total() && |s'.pcs| == |s.pcs|
      && (!Locks(c, s.pcs[t], b) && Locks(c, s'.pcs[t], b) ==> s.maps[b] == {} && s'.maps[b] == Ones(c.bits))
      && (Locks(c, s.pcs[t], b) && !Locks(c, s'.pcs[t], b) ==> s'.maps[b] == {})
      && (Locks(c, s.pcs[t], b) == Locks(c, s'.pcs[t], b) ==> s'.maps[b] == s.maps[b])
  {
    hide Config.Word, Config.First, Ones, TryAllocate, ClearBit, Return;
    assert InRange(c, s.pcs[t]);
  }

  lemma OthersLocks(c: Config, s: State, s': State, t: nat, choice: Choice, b: nat, u: nat)
    requires Inv(c, s) && StepOf(c, s, s', t, choice) && b < c.Total() && u < |s.pcs|
    requires u != t && Locks(c, s.pcs[u], b)
    ensures |s.maps| == |s'.maps| == c.Total() && |s'.pcs| == |s.pcs|
    ensures s'.maps[b] == s.maps[b] && !Locks(c, s.pcs[t], b) && !Locks(c, s'.pcs[t], b)
  {
    hide Inv, Next, InRange, Config.Word, Config.First, Config.Legal, Ones, AtPage;
    InvShape(c, s);
    LockedIsFull(c, s, u, b);
    if Locks(c, s.pcs[t], b) {
      LockedIsFull(c, s, t, b);
    }
    if AtPage(s.pcs[t]) {
      PageMaps(c, s, t, choice, b);
    } else {
      SlotMaps(c, s, t, choice, b);
    }
  }

  /** A step away from pages changes a bitmap only to set a clear bit or to clear a bit
      that its thread owns, and locks nothing. */
  lemma SlotMaps(c: Config, s: State, t: nat, choice: Choice, b: nat)
    requires Inv(c, s) && Shape(c, s) && t < |s.pcs| && Enabled(c, s, t, choice) && !AtPage(s.pcs[t]) && b < c.Total()
    ensures var s' := Next(c, s, t, choice);
      && |s.maps| == |s'.maps| == c.Total() && |s'.pcs| == |s.pcs|
      && !Locks(c, s'.pcs[t], b) && (b in s.locker ==> s'.maps[b] == s.maps[b])
  {
    hide Inv, InRange, Config.Word, Config.First, Ones;
    if s.pcs[t].FreeAnd? {
      HeldBitIsSet(c, s, t, s.pcs[t].b, s.pcs[t].i);
    } else if s.pcs[t] == Idle && choice.Allocate? && choice.b == b {
      var i := FirstClear(s.maps[b], 0, c.Cap(b));
      if i < c.Cap(b) {
        ClearBitIsFree(c, s, b, i);
      }
    }
    assert InRange(c, s.pcs[t]);
  }

  // ----- supermaps

  /** A set supermap bit has its cause: the slot whose allocation last set it is still
      owned, or its free stands between clearing the bitmap and clearing the supermap. */
  lemma SuperBitHasCause(c: Config, s: State, b: nat)
    requires Reachable(c, s) && c.Legal() && b < c.mains && c.Word(b) < |s.supers| && b in s.supers[c.Word(b)]
    ensures b in s.cause
    ensures s.cause[b].Slot? ==> (b, s.cause[b].i) in s.owner
    ensures s.cause[b].FreedBy? ==>
      s.cause[b].t < |s.pcs| && s.pcs[s.cause[b].t].FreeSuper? && s.pcs[s.cause[b].t].b == b
  {
    hide Reachable, Config.Word, Config.First, InRange;
    ReachableInv(c, s);
    assert SuperFits(c, s, b);
  }

  ghost predicate Quiescent(s: State) {
    forall t :: 0 <= t < |s.pcs| ==> s.pcs[t] == Idle
  }

  /** With no call in flight nothing is locked, the ones of a bitmap are exactly the slots
      that callers hold, and an all-zero bitmap has a clear supermap bit. */
  lemma QuiescentState(c: Config, s: State, b: nat, i: nat)
    requires Reachable(c, s) && Quiescent(s) && b < c.Total()
    ensures |s.maps| == c.Total()
    ensures i in s.maps[b] <==> (b, i) in s.owner && s.owner[(b, i)] == Caller
    ensures c.Legal() && b < c.mains && s.maps[b] == {} ==> c.Word(b) < |s.supers| && b !in s.supers[c.Word(b)]
  {
    hide Reachable, Config.Word, Config.First, InRange, Ones;
    ReachableInv(c, s);
    assert MapFits(c, s, b);
    assert b in s.locker ==> LockFits(c, s, s.locker[b], b);
    if (b, i) in s.owner {
      assert SlotFits(c, s, (b, i));
    }
    if b < c.mains {
      assert SuperFits(c, s, b);
    }
  }

  lemma ReachableStep(c: Config, s: State, t: nat, choice: Choice, s': State)
    requires Reachable(c, s) && StepOf(c, s, s', t, choice)
    ensures Reachable(c, s')
  {
    hide Init, StepOf;
    var run :| Run(c, run) && run[|run| - 1] == s;
    assert Follows(c, s, s');
    assert Run(c, run + [s']);
  }

  /** Two bits, one bitmap, one page, one supermap. */
  const TINY: Config := Config(2, 1, 1, 1, [])

  function Tiny(m: set<nat>, super: set<nat>, a: PC, b: PC,
                owner: map<(nat, nat), Owner>, cause: map<nat, Cause>): State
  {
    State([m], [super], [a, b], owner, map[], cause)
  }

  /** A set supermap bit does not mean a full bitmap, not even with no call in flight: the
      free of one slot can pass between another thread's test that the bitmap is full and
      its compare-and-swap, which still succeeds. */
  lemma StaleMarkRemains() returns (s: State)
    ensures Reachable(TINY, s) && Quiescent(s) && |s.supers| == |s.maps| == 1
    ensures 0 in s.supers[TINY.Word(0)] && s.maps[0] == {1} && s.maps[0] != Ones(TINY.bits)
  {
    var one := StaleMarkHalfway();
    s := StaleMarkEnd(one);
  }

  /** Thread 0 has allocated slot 0; thread 1 has allocated slot 1 and found the bitmap
      full. */
  function Halfway(): State {
    Tiny({0, 1}, {}, Idle, MarkSwap(0, 1, {}), map[(0, 0) := Caller, (0, 1) := Thread(1)], map[])
  }

  lemma StaleMarkHalfway() returns (s: State)
    ensures s == Halfway() && Reachable(TINY, s)
  {
    hide Reachable;
    FirstAllocation();
    TinySets();
    var s3 := Tiny({0}, {}, Idle, Idle, map[(0, 0) := Caller], map[]);
    var s4 := Tiny({0, 1}, {}, Idle, MarkLoad(0, 1), map[(0, 0) := Caller, (0, 1) := Thread(1)], map[]);
    Move(s3, 1, Allocate(0), s4);
    var s5 := Tiny({0, 1}, {}, Idle, MarkCheck(0, 1, {}), map[(0, 0) := Caller, (0, 1) := Thread(1)], map[]);
    Move(s4, 1, Allocate(0), s5);
    s := Halfway();
    Move(s5, 1, Allocate(0), s);
  }

  lemma FirstAllocation()
    ensures Reachable(TINY, Tiny({0}, {}, Idle, Idle, map[(0, 0) := Caller], map[]))
  {
    hide Reachable;
    var s0 := Tiny({}, {}, Idle, Idle, map[], map[]);
    Begin(s0);
    TinySets();
    var s1 := Tiny({0}, {}, MarkLoad(0, 0), Idle, map[(0, 0) := Thread(0)], map[]);
    Move(s0, 0, Allocate(0), s1);
    var s2 := Tiny({0}, {}, MarkCheck(0, 0, {}), Idle, map[(0, 0) := Thread(0)], map[]);
    Move(s1, 0, Allocate(0), s2);
    var s3 := Tiny({0}, {}, Idle, Idle, map[(0, 0) := Caller], map[]);
    Move(s2, 0, Allocate(0), s3);
  }

  lemma TinySets()
    ensures FirstClear({}, 0, 2) == 0 && FirstClear({0}, 0, 2) == 1 && Ones(2) == {0, 1}
    ensures {} + {0} == {0} && {0} + {1} == {0, 1} && {0, 1} - {0} == {1} && {1} != {0, 1}
  {
    assert 0 in {0, 1} && 0 !in {1};
  }

  lemma StaleMarkEnd(one: State) returns (s: State)
    requires one == Halfway() && Reachable(TINY, one)
    ensures Reachable(TINY, s) && Quiescent(s) && |s.supers| == |s.maps| == 1
    ensures 0 in s.supers[TINY.Word(0)] && s.maps[0] == {1} && s.maps[0] != Ones(TINY.bits)
  {
    hide Reachable, Ones;
    TinySets();
    var waiting := MarkSwap(0, 1, {});
    var both := map[(0, 0) := Thread(0), (0, 1) := Thread(1)];
    var s1 := Tiny({0, 1}, {}, FreeCheck(0, 0), waiting, both, map[]);
    Move(one, 0, Release(0, 0), s1);
    var s2 := Tiny({0, 1}, {}, FreeAnd(0, 0), waiting, both, map[]);
    Move(s1, 0, Release(0, 0), s2);
    SlotFreed(s2);
    var s3 := Tiny({1}, {}, FreeSuper(0, 0, false), waiting, map[(0, 1) := Thread(1)], map[]);
    s := StaleMarkSet(s3);
  }

  lemma SlotFreed(s: State)
    requires Reachable(TINY, s)
    requires s == Tiny({0, 1}, {}, FreeAnd(0, 0), MarkSwap(0, 1, {}),
                       map[(0, 0) := Thread(0), (0, 1) := Thread(1)], map[])
    ensures Reachable(TINY, Tiny({1}, {}, FreeSuper(0, 0, false), MarkSwap(0, 1, {}), map[(0, 1) := Thread(1)], map[]))
  {
    hide Reachable;
    TinySets();
    assert s.owner - {(0, 0)} == map[(0, 1) := Thread(1)];
    Move(s, 0, Release(0, 0),
         Tiny({1}, {}, FreeSuper(0, 0, false), MarkSwap(0, 1, {}), map[(0, 1) := Thread(1)], map[]));
  }

  lemma StaleMarkSet(s3: State) returns (s: State)
    requires Reachable(TINY, s3)
    requires s3 == Tiny({1}, {}, FreeSuper(0, 0, false), MarkSwap(0, 1, {}), map[(0, 1) := Thread(1)], map[])
    ensures Reachable(TINY, s) && Quiescent(s) && |s.supers| == |s.maps| == 1
    ensures 0 in s.supers[TINY.Word(0)] && s.maps[0] == {1} && s.maps[0] != Ones(TINY.bits)
  {
    hide Reachable;
    TinySets();
    var none: set<nat> := {};
    assert none - {0} == none && none + {0} == {0};
    var s4 := Tiny({1}, {}, Idle, MarkSwap(0, 1, {}), map[(0, 1) := Thread(1)], map[]);
    Move(s3, 0, Release(0, 0), s4);
    s := Tiny({1}, {0}, Idle, Idle, map[(0, 1) := Caller], map[0 := Slot(1)]);
    Move(s4, 1, Release(0, 0), s);
  }

  lemma Begin(s: State)
    requires s == Tiny({}, {}, Idle, Idle, map[], map[])
    ensures Reachable(TINY, s)
  {
    assert Run(TINY, [s]);
  }

  lemma Move(s: State, t: nat, choice: Choice, s': State)
    requires Reachable(TINY, s) && Shape(TINY, s) && t < |s.pcs| && Enabled(TINY, s, t, choice)
    requires var n := Next(TINY, s, t, choice);
      && n.maps == s'.maps && n.supers == s'.supers && n.pcs == s'.pcs
      && n.owner == s'.owner && n.locker == s'.locker && n.cause == s'.cause
    ensures Reachable(TINY, s')
  {
    hide Reachable, Next;
    ReachableStep(TINY, s, t, choice, s');
  }
}
