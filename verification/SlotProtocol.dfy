/** The continuation allocator as a concurrent step machine: threads allocate, free, mark
    bitmaps as full, and lock whole pages of bitmaps to madvise them (allocator.c). */
module SlotProtocol {
  import opened Basics
  import opened Powers

  /** The bitmaps of all magazines, numbered. Numbers below `mains` are bitmaps of the
      main arrays: `perPage` of them in a row control one page, `perSuper` of them in a
      row belong to one supermap. The others are first-page bitmaps, of which only the
      first `caps[k]` bits may be set; they have no supermap and no page of their own. */
  datatype Config = Config(bits: nat, mains: nat, perPage: nat, perSuper: nat, caps: seq<nat>) {
    predicate Legal() {
      && bits > 0 && perPage > 0 && perSuper > 0 && Multiple(mains, perPage)
      && forall k :: 0 <= k < |caps| ==> caps[k] <= bits
    }

    function Total(): nat {
      mains + |caps|
    }

    /** How many bits of bitmap b stand for a slot. */
    function Cap(b: nat): nat
      requires b < Total()
    {
      if b < mains then bits else caps[b - mains]
    }

    /** The supermap word of a bitmap. */
    function Word(b: nat): nat
      requires perSuper > 0
    {
      b / perSuper
    }

    /** The first bitmap in the same page. */
    function First(b: nat): nat
      requires perPage > 0
    {
      Down(b, perPage)
    }
  }

  /** Where a thread stands. Slot i of bitmap b is (b, i). */
  datatype PC =
    | Idle
    | MarkLoad(b: nat, i: nat)                      // has allocated; about to load the supermap
    | MarkCheck(b: nat, i: nat, seen: set<nat>)     // about to test that the bitmap is full
    | MarkSwap(b: nat, i: nat, seen: set<nat>)      // about to compare-and-swap the supermap
    | FreeCheck(b: nat, i: nat)                     // about to test that the bit is set
    | FreeAnd(b: nat, i: nat)                       // about to clear the bit
    | FreeSuper(b: nat, i: nat, empty: bool)        // about to clear the bit in the supermap
    | Scan(first: nat, k: nat)                      // about to look at bitmap first + k
    | Lock(first: nat, k: nat)                      // holds k bitmaps; about to lock the next
    | Advise(first: nat)                            // holds the page; about to madvise it
    | Unlock(first: nat, k: nat)                    // holds k bitmaps; about to unlock the last
    | Crashed

  /** Who holds a slot: a caller that got it from an allocation, or a thread inside one
      of the two calls. */
  datatype Owner = Caller | Thread(t: nat)

  /** What the last setting of a supermap bit rests on: an allocated slot, or, after its
      bit was cleared, the free that is about to clear the supermap bit. */
  datatype Cause = Slot(i: nat) | FreedBy(t: nat)

  /** Bitmaps and supermap words are sets of the positions of their ones. The last three
      fields record history: who owns a slot, who locked a bitmap, why a supermap bit was
      last set. No step reads `locker` or `cause`. */
  datatype State = State(
    maps: seq<set<nat>>, supers: seq<set<nat>>, pcs: seq<PC>,
    owner: map<(nat, nat), Owner>, locker: map<nat, nat>, cause: map<nat, Cause>)

  /** What an idle thread may begin. The search order of an allocation is not fixed here:
      it may try any bitmap. */
  datatype Choice = Allocate(b: nat) | Release(b: nat, i: nat)

  function Ones(n: nat): (s: set<nat>)
    ensures forall i: nat :: i in s <==> i < n
  {
    if n == 0 then {} else Ones(n - 1) + {n - 1}
  }

  /** os_atomic_set_first_bit finds this bit, or `cap` when there is none. */
  function FirstClear(m: set<nat>, from: nat, cap: nat): (r: nat)
    requires from <= cap
    ensures from <= r <= cap && (forall j :: from <= j < r ==> j in m) && (r < cap ==> r !in m)
    decreases cap - from
  {
    if from == cap then cap else if from !in m then from else FirstClear(m, from + 1, cap)
  }

  function Goto(s: State, t: nat, pc: PC): State
    requires t < |s.pcs|
  {
    s.(pcs := s.pcs[t := pc])
  }

  /** The call returns slot (b, i) to its caller. */
  function Return(s: State, t: nat, b: nat, i: nat): State
    requires t < |s.pcs|
  {
    Goto(s.(owner := s.owner[(b, i) := Caller]), t, Idle)
  }

  predicate Shape(c: Config, s: State) {
    && c.Legal()
    && |s.maps| == c.Total()
    && (forall b :: 0 <= b < c.mains ==> c.Word(b) < |s.supers|)
    && (forall t :: 0 <= t < |s.pcs| ==> InRange(c, s.pcs[t]))
  }

  /** `first` is the first bitmap of a page. */
  predicate IsPage(c: Config, first: nat)
    requires c.perPage > 0
  {
    first + c.perPage <= c.mains && c.First(first) == first
  }

  predicate InRange(c: Config, pc: PC)
    requires c.perPage > 0
  {
    match pc
    case Idle => true
    case Crashed => true
    case MarkLoad(b, i) => b < c.mains
    case MarkCheck(b, i, _) => b < c.mains
    case MarkSwap(b, i, _) => b < c.mains
    case FreeCheck(b, i) => b < c.Total()
    case FreeAnd(b, i) => b < c.Total()
    case FreeSuper(b, i, _) => b < c.mains
    case Scan(first, k) => IsPage(c, first) && k < c.perPage
    case Lock(first, k) => IsPage(c, first) && k < c.perPage
    case Advise(first) => IsPage(c, first)
    case Unlock(first, k) => IsPage(c, first) && 0 < k <= c.perPage
  }

  /** An idle thread may release only a slot that a caller holds. */
  predicate Enabled(c: Config, s: State, t: nat, choice: Choice)
    requires t < |s.pcs|
  {
    match s.pcs[t]
    case Crashed => false
    case Idle =>
      (match choice
       case Allocate(b) => b < c.Total()
       case Release(b, i) => b < c.Total() && (b, i) in s.owner && s.owner[(b, i)] == Caller)
    case _ => true
  }

  /** One atomic step of thread t. */
  function Next(c: Config, s: State, t: nat, choice: Choice): State
    requires Shape(c, s) && t < |s.pcs| && Enabled(c, s, t, choice)
  {
    assert InRange(c, s.pcs[t]);
    match s.pcs[t]
    case Idle =>
      (match choice
       case Allocate(b) => TryAllocate(c, s, t, b)
       case Release(b, i) => Goto(s.(owner := s.owner[(b, i) := Thread(t)]), t, FreeCheck(b, i)))
    case MarkLoad(b, i) => Goto(s, t, MarkCheck(b, i, s.supers[c.Word(b)]))
    case MarkCheck(b, i, seen) =>
      if s.maps[b] == Ones(c.bits) then Goto(s, t, MarkSwap(b, i, seen)) else Return(s, t, b, i)
    case MarkSwap(b, i, seen) =>
      var w := c.Word(b);
      if s.supers[w] == seen then
        Return(s.(supers := s.supers[w := seen + {b}], cause := s.cause[b := Slot(i)]), t, b, i)
      else Goto(s, t, MarkCheck(b, i, s.supers[w]))
    case FreeCheck(b, i) =>
      Goto(s, t, if i !in s.maps[b] then Crashed else FreeAnd(b, i))
    case FreeAnd(b, i) => ClearBit(c, s, t, b, i)
    case FreeSuper(b, i, empty) =>
      var w := c.Word(b);
      Goto(s.(supers := s.supers[w := s.supers[w] - {b}]), t, if empty then Scan(c.First(b), 0) else Idle)
    case Scan(first, k) =>
      Goto(s, t, if s.maps[first + k] != {} then Idle
                 else if k + 1 < c.perPage then Scan(first, k + 1) else Lock(first, 0))
    case Lock(first, k) =>
      if s.maps[first + k] == {} then
        Goto(s.(maps := s.maps[first + k := Ones(c.bits)], locker := s.locker[first + k := t]), t,
             if k + 1 < c.perPage then Lock(first, k + 1) else Advise(first))
      else Goto(s, t, if k == 0 then Idle else Unlock(first, k))
    case Advise(first) => Goto(s, t, Unlock(first, c.perPage))
    case Unlock(first, k) =>
      Goto(s.(maps := s.maps[first + k - 1 := {}], locker := s.locker - {first + k - 1}), t,
           if k == 1 then Idle else Unlock(first, k - 1))
  }

  function TryAllocate(c: Config, s: State, t: nat, b: nat): State
    requires |s.maps| == c.Total() && t < |s.pcs| && b < c.Total()
  {
    var i := FirstClear(s.maps[b], 0, c.Cap(b));
    if i == c.Cap(b) then s else Taken(c, s, t, b, i)
  }

  /** Setting the clear bit i of bitmap b, and what the thread does next. */
  function Taken(c: Config, s: State, t: nat, b: nat, i: nat): State
    requires |s.maps| == c.Total() && t < |s.pcs| && b < c.Total()
  {
    var taken := s.(maps := s.maps[b := s.maps[b] + {i}], owner := s.owner[(b, i) := Thread(t)]);
    if b < c.mains then Goto(taken, t, MarkLoad(b, i)) else Return(taken, t, b, i)
  }

  /** Clearing the bit ends the ownership; a supermap bit that rested on the slot rests on
      this free from now on. */
  function ClearBit(c: Config, s: State, t: nat, b: nat, i: nat): State
    requires |s.maps| == c.Total() && t < |s.pcs| && b < c.Total()
  {
    var left := s.maps[b] - {i};
    var cleared := s.(maps := s.maps[b := left], owner := s.owner - {(b, i)},
                      cause := if b in s.cause && s.cause[b] == Slot(i) then s.cause[b := FreedBy(t)] else s.cause);
    Goto(cleared, t, if b < c.mains then FreeSuper(b, i, left == {}) else Idle)
  }

  // ----- the invariant

  /** The slot that a thread holds inside a call. */
  function SlotOf(pc: PC): Option<(nat, nat)> {
    match pc
    case MarkLoad(b, i) => Some((b, i))
    case MarkCheck(b, i, _) => Some((b, i))
    case MarkSwap(b, i, _) => Some((b, i))
    case FreeCheck(b, i) => Some((b, i))
    case FreeAnd(b, i) => Some((b, i))
    case _ => None
  }

  /** The thread has locked bitmap b. */
  predicate Locks(c: Config, pc: PC, b: nat) {
    match pc
    case Lock(first, k) => first <= b < first + k
    case Advise(first) => first <= b < first + c.perPage
    case Unlock(first, k) => first <= b < first + k
    case _ => false
  }

  ghost predicate OwnerFits(s: State, t: nat)
    requires t < |s.pcs|
  {
    && (SlotOf(s.pcs[t]).Some? ==> SlotOf(s.pcs[t]).value in s.owner && s.owner[SlotOf(s.pcs[t]).value] == Thread(t))
    && (s.pcs[t] != Crashed)
  }

  ghost predicate SlotFits(c: Config, s: State, slot: (nat, nat))
    requires slot in s.owner
  {
    && slot.0 < c.Total() && slot.1 < c.Cap(slot.0)
    && (s.owner[slot].Thread? ==> s.owner[slot].t < |s.pcs| && SlotOf(s.pcs[s.owner[slot].t]) == Some(slot))
  }

  ghost predicate LockFits(c: Config, s: State, t: nat, b: nat)
    requires t < |s.pcs|
  {
    Locks(c, s.pcs[t], b) <==> b in s.locker && s.locker[b] == t
  }

  /** A locked bitmap is all ones and none of its slots is owned; in any other bitmap the
      ones are exactly the owned slots. */
  ghost predicate MapFits(c: Config, s: State, b: nat)
    requires |s.maps| == c.Total() && b < c.Total()
  {
    if b in s.locker then
      s.locker[b] < |s.pcs| && b < c.mains && s.maps[b] == Ones(c.bits) && forall i: nat :: (b, i) !in s.owner
    else
      forall i: nat :: i in s.maps[b] <==> (b, i) in s.owner
  }

  /** A supermap bit never outlives its cause. */
  ghost predicate SuperFits(c: Config, s: State, b: nat)
    requires Shape(c, s) && b < c.mains
  {
    b in s.supers[c.Word(b)] ==>
      b in s.cause &&
      match s.cause[b]
      case Slot(i) => (b, i) in s.owner
      case FreedBy(t) => t < |s.pcs| && s.pcs[t].FreeSuper? && s.pcs[t].b == b
  }

  ghost predicate Inv(c: Config, s: State) {
    && Shape(c, s)
    && (forall t :: 0 <= t < |s.pcs| ==> OwnerFits(s, t))
    && (forall slot :: slot in s.owner ==> SlotFits(c, s, slot))
    && (forall t, b: nat :: 0 <= t < |s.pcs| ==> LockFits(c, s, t, b))
    && (forall b :: 0 <= b < c.Total() ==> MapFits(c, s, b))
    && (forall b :: 0 <= b < c.mains ==> SuperFits(c, s, b))
  }

  // ----- arithmetic of the numbering

  lemma PageOf(c: Config, b: nat)
    requires c.Legal()
    ensures c.First(b) <= b < c.First(b) + c.perPage
    ensures b < c.mains ==> IsPage(c, c.First(b))
    ensures forall d: nat :: c.First(d) == c.First(b) <==> c.First(b) <= d < c.First(b) + c.perPage
  {
    hide Multiple, Down;
    var n := c.perPage;
    DownIsMultiple(b, n);
    forall d: nat ensures c.First(d) == c.First(b) <==> c.First(b) <= d < c.First(b) + n {
      DownIsMultiple(d, n);
      if c.First(b) <= d < c.First(b) + n {
        DownUnique(d, n, c.First(b));
      }
    }
    if b < c.mains {
      PageInside(b, n, c.mains);
      DownUnique(c.First(b), n, c.First(b));
    }
  }

  // ----- every step keeps the invariant

  /** Only the place of thread t changes, and neither the slot nor the locks it holds. */
  lemma GotoInv(c: Config, s: State, t: nat, pc: PC)
    requires Inv(c, s) && t < |s.pcs| && InRange(c, pc) && pc != Crashed && !s.pcs[t].FreeSuper?
    requires SlotOf(pc) == SlotOf(s.pcs[t])
    requires forall b: nat :: Locks(c, pc, b) == Locks(c, s.pcs[t], b)
    ensures Inv(c, Goto(s, t, pc))
  {
    hide Ones, SlotOf, Locks, InRange, Config.Word, Config.First, Config.Legal;
    var s' := Goto(s, t, pc);
    forall u | 0 <= u < |s.pcs| ensures OwnerFits(s', u) {
      assert OwnerFits(s, u);
    }
    forall slot | slot in s.owner ensures SlotFits(c, s', slot) {
      assert SlotFits(c, s, slot);
    }
    forall u, b: nat | 0 <= u < |s.pcs| ensures LockFits(c, s', u, b) {
      assert LockFits(c, s, u, b);
    }
    forall b | 0 <= b < c.Total() ensures MapFits(c, s', b) {
      assert MapFits(c, s, b);
    }
    forall b | 0 <= b < c.mains ensures SuperFits(c, s', b) {
      assert SuperFits(c, s, b);
    }
  }

  /** The call of thread t hands its slot to the caller. */
  lemma ReturnInv(c: Config, s: State, t: nat, b: nat, i: nat)
    requires Inv(c, s) && t < |s.pcs| && SlotOf(s.pcs[t]) == Some((b, i))
    ensures Inv(c, Return(s, t, b, i))
  {
    hide Ones, InRange, Config.Word, Config.First, Config.Legal;
    var s' := Return(s, t, b, i);
    assert OwnerFits(s, t);
    forall u | 0 <= u < |s.pcs| ensures OwnerFits(s', u) {
      assert OwnerFits(s, u);
    }
    forall slot | slot in s'.owner ensures SlotFits(c, s', slot) {
      assert SlotFits(c, s, slot);
    }
    forall u, d: nat | 0 <= u < |s.pcs| ensures LockFits(c, s', u, d) {
      assert LockFits(c, s, u, d);
    }
    forall d | 0 <= d < c.Total() ensures MapFits(c, s', d) {
      assert MapFits(c, s, d);
    }
    ReturnInRange(c, s, t, b, i);
    forall d | 0 <= d < c.mains ensures SuperFits(c, s', d) {
      assert SuperFits(c, s, d);
    }
  }

  lemma ReturnInRange(c: Config, s: State, t: nat, b: nat, i: nat)
    requires Shape(c, s) && t < |s.pcs|
    ensures Shape(c, Return(s, t, b, i))
  {
  }

  /** A thread that holds a slot of bitmap b sets its supermap bit. */
  function SetSuper(c: Config, s: State, b: nat, i: nat): State
    requires Shape(c, s) && b < c.mains
  {
    var w := c.Word(b);
    s.(supers := s.supers[w := s.supers[w] + {b}], cause := s.cause[b := Slot(i)])
  }

  lemma SetSuperInv(c: Config, s: State, t: nat, b: nat, i: nat)
    requires Inv(c, s) && t < |s.pcs| && SlotOf(s.pcs[t]) == Some((b, i)) && b < c.mains
    ensures Inv(c, SetSuper(c, s, b, i))
  {
    hide Ones, InRange, Locks, Config.Word, Config.First, Config.Legal;
    var s' := SetSuper(c, s, b, i);
    assert OwnerFits(s, t);
    forall u | 0 <= u < |s.pcs| ensures OwnerFits(s', u) {
      assert OwnerFits(s, u);
    }
    forall slot | slot in s'.owner ensures SlotFits(c, s', slot) {
      assert SlotFits(c, s, slot);
    }
    forall u, d: nat | 0 <= u < |s.pcs| ensures LockFits(c, s', u, d) {
      assert LockFits(c, s, u, d);
    }
    forall d | 0 <= d < c.Total() ensures MapFits(c, s', d) {
      assert MapFits(c, s, d);
    }
    forall d | 0 <= d < c.mains ensures SuperFits(c, s', d) {
      assert SuperFits(c, s, d);
    }
  }

  /** A clear bit belongs to no owner and no lock: the allocation gets a slot that nobody
      has. */
  lemma ClearBitIsFree(c: Config, s: State, b: nat, i: nat)
    requires Inv(c, s) && b < c.Total() && i < c.Cap(b) && i !in s.maps[b]
    ensures (b, i) !in s.owner && b !in s.locker
  {
    hide InRange, Config.Word, Config.First, Config.Legal;
    assert MapFits(c, s, b);
  }

  lemma AllocateInv(c: Config, s: State, t: nat, b: nat)
    requires Inv(c, s) && t < |s.pcs| && s.pcs[t] == Idle && b < c.Total()
    ensures Inv(c, TryAllocate(c, s, t, b))
  {
    var i := FirstClear(s.maps[b], 0, c.Cap(b));
    if i < c.Cap(b) {
      TakeInv(c, s, t, b, i);
    }
  }

  lemma TakeInv(c: Config, s: State, t: nat, b: nat, i: nat)
    requires Inv(c, s) && t < |s.pcs| && s.pcs[t] == Idle && b < c.Total() && i < c.Cap(b) && i !in s.maps[b]
    ensures Inv(c, Taken(c, s, t, b, i))
  {
    hide Ones, InRange, Config.Word, Config.First, Config.Legal, Config.Cap;
    ClearBitIsFree(c, s, b, i);
    TakeThreads(c, s, t, b, i);
    var s' := Taken(c, s, t, b, i);
    forall d | 0 <= d < c.Total() ensures MapFits(c, s', d) {
      assert MapFits(c, s, d);
    }
    TakeShape(c, s, t, b, i);
    forall d | 0 <= d < c.mains ensures SuperFits(c, s', d) {
      assert SuperFits(c, s, d);
    }
  }

  lemma TakeThreads(c: Config, s: State, t: nat, b: nat, i: nat)
    requires Inv(c, s) && t < |s.pcs| && s.pcs[t] == Idle && b < c.Total() && i < c.Cap(b) && (b, i) !in s.owner
    ensures var s' := Taken(c, s, t, b, i);
      && |s'.pcs| == |s.pcs|
      && (forall u :: 0 <= u < |s'.pcs| ==> OwnerFits(s', u))
      && (forall slot :: slot in s'.owner ==> SlotFits(c, s', slot))
      && (forall u, d: nat :: 0 <= u < |s'.pcs| ==> LockFits(c, s', u, d))
  {
    hide Ones, InRange, MapFits, SuperFits, Config.Word, Config.First, Config.Legal, Config.Cap;
    var s' := Taken(c, s, t, b, i);
    forall u | 0 <= u < |s.pcs| ensures OwnerFits(s', u) {
      assert OwnerFits(s, u);
    }
    forall slot | slot in s'.owner ensures SlotFits(c, s', slot) {
      if slot != (b, i) {
        assert SlotFits(c, s, slot);
      }
    }
    forall u, d: nat | 0 <= u < |s.pcs| ensures LockFits(c, s', u, d) {
      assert LockFits(c, s, u, d);
    }
  }

  lemma TakeShape(c: Config, s: State, t: nat, b: nat, i: nat)
    requires Shape(c, s) && t < |s.pcs| && b < c.Total()
    ensures Shape(c, Taken(c, s, t, b, i))
  {
    hide Config.Word, Config.First, Config.Legal;
  }

  lemma ReleaseInv(c: Config, s: State, t: nat, b: nat, i: nat)
    requires Inv(c, s) && t < |s.pcs| && s.pcs[t] == Idle && b < c.Total()
    requires (b, i) in s.owner && s.owner[(b, i)] == Caller
    ensures Inv(c, Goto(s.(owner := s.owner[(b, i) := Thread(t)]), t, FreeCheck(b, i)))
  {
    hide Ones, Config.Word, Config.First, Config.Legal, Config.Cap;
    var s' := Goto(s.(owner := s.owner[(b, i) := Thread(t)]), t, FreeCheck(b, i));
    forall u | 0 <= u < |s.pcs| ensures OwnerFits(s', u) {
      assert OwnerFits(s, u);
    }
    forall slot | slot in s'.owner ensures SlotFits(c, s', slot) {
      assert SlotFits(c, s, slot);
    }
    forall u, d: nat | 0 <= u < |s.pcs| ensures LockFits(c, s', u, d) {
      assert LockFits(c, s, u, d);
    }
    forall d | 0 <= d < c.Total() ensures MapFits(c, s', d) {
      assert MapFits(c, s, d);
    }
    forall d | 0 <= d < c.mains ensures SuperFits(c, s', d) {
      assert SuperFits(c, s, d);
    }
  }

  /** While a thread holds a slot of bitmap b, its bit is set and nobody has locked b. */
  lemma HeldBitIsSet(c: Config, s: State, t: nat, b: nat, i: nat)
    requires Inv(c, s) && t < |s.pcs| && SlotOf(s.pcs[t]) == Some((b, i))
    ensures b < c.Total() && i in s.maps[b] && b !in s.locker
    ensures (b, i) in s.owner && s.owner[(b, i)] == Thread(t)
  {
    hide InRange, Config.Word, Config.First, Config.Legal;
    assert OwnerFits(s, t);
    assert SlotFits(c, s, (b, i));
    assert MapFits(c, s, b);
  }

  lemma ClearBitInv(c: Config, s: State, t: nat, b: nat, i: nat)
    requires Inv(c, s) && t < |s.pcs| && s.pcs[t] == FreeAnd(b, i) && b < c.Total()
    ensures Inv(c, ClearBit(c, s, t, b, i))
  {
    hide Ones, Config.Word, Config.First, Config.Legal, Config.Cap;
    HeldBitIsSet(c, s, t, b, i);
    var s' := ClearBit(c, s, t, b, i);
    forall u | 0 <= u < |s.pcs| ensures OwnerFits(s', u) {
      assert OwnerFits(s, u);
    }
    forall slot | slot in s'.owner ensures SlotFits(c, s', slot) {
      assert SlotFits(c, s, slot);
    }
    forall u, d: nat | 0 <= u < |s.pcs| ensures LockFits(c, s', u, d) {
      assert LockFits(c, s, u, d);
    }
    forall d | 0 <= d < c.Total() ensures MapFits(c, s', d) {
      assert MapFits(c, s, d);
    }
    forall d | 0 <= d < c.mains ensures SuperFits(c, s', d) {
      assert SuperFits(c, s, d);
    }
  }

  lemma FreeSuperInv(c: Config, s: State, t: nat, pc: PC)
    requires Inv(c, s) && t < |s.pcs| && s.pcs[t].FreeSuper? && s.pcs[t].b < c.mains
    requires InRange(c, pc) && (pc.Scan? || pc == Idle)
    ensures var w := c.Word(s.pcs[t].b);
      Inv(c, Goto(s.(supers := s.supers[w := s.supers[w] - {s.pcs[t].b}]), t, pc))
  {
    hide Ones, InRange, Config.Word, Config.First, Config.Cap;
    var b := s.pcs[t].b;
    var w := c.Word(b);
    var s' := Goto(s.(supers := s.supers[w := s.supers[w] - {b}]), t, pc);
    forall u | 0 <= u < |s.pcs| ensures OwnerFits(s', u) {
      assert OwnerFits(s, u);
    }
    forall slot | slot in s'.owner ensures SlotFits(c, s', slot) {
      assert SlotFits(c, s, slot);
    }
    forall u, d: nat | 0 <= u < |s.pcs| ensures LockFits(c, s', u, d) {
      assert LockFits(c, s, u, d);
    }
    forall d | 0 <= d < c.Total() ensures MapFits(c, s', d) {
      assert MapFits(c, s, d);
    }
    forall d | 0 <= d < c.mains ensures SuperFits(c, s', d) {
      assert SuperFits(c, s, d);
    }
  }

  /** The place of a thread whose lock set grows or shrinks by bitmap d. */
  ghost predicate LocksAlso(c: Config, pc: PC, more: PC, d: nat) {
    !Locks(c, pc, d) && forall b: nat :: Locks(c, more, b) <==> Locks(c, pc, b) || b == d
  }

  lemma LockInv(c: Config, s: State, t: nat, d: nat, pc: PC)
    requires Inv(c, s) && t < |s.pcs| && s.pcs[t].Lock? && d < c.mains && s.maps[d] == {}
    requires InRange(c, pc) && (pc.Lock? || pc.Advise?) && LocksAlso(c, s.pcs[t], pc, d)
    ensures Inv(c, Goto(s.(maps := s.maps[d := Ones(c.bits)], locker := s.locker[d := t]), t, pc))
  {
    hide InRange, Locks, Config.Word, Config.First;
    var s' := Goto(s.(maps := s.maps[d := Ones(c.bits)], locker := s.locker[d := t]), t, pc);
    EmptyIsUnlocked(c, s, d);
    forall u | 0 <= u < |s.pcs| ensures OwnerFits(s', u) {
      assert OwnerFits(s, u);
    }
    forall slot | slot in s'.owner ensures SlotFits(c, s', slot) {
      assert SlotFits(c, s, slot);
    }
    forall u, e: nat | 0 <= u < |s.pcs| ensures LockFits(c, s', u, e) {
      assert LockFits(c, s, u, e);
    }
    forall e | 0 <= e < c.Total() ensures MapFits(c, s', e) {
      assert MapFits(c, s, e);
    }
    forall e | 0 <= e < c.mains ensures SuperFits(c, s', e) {
      assert SuperFits(c, s, e);
    }
  }

  lemma EmptyIsUnlocked(c: Config, s: State, d: nat)
    requires Inv(c, s) && d < c.mains && s.maps[d] == {}
    ensures d !in s.locker && forall i: nat :: (d, i) !in s.owner
  {
    hide InRange, Config.Word, Config.First;
    assert MapFits(c, s, d);
    assert 0 in Ones(c.bits);
  }

  lemma UnlockInv(c: Config, s: State, t: nat, d: nat, pc: PC)
    requires Inv(c, s) && t < |s.pcs| && s.pcs[t].Unlock? && d < c.mains
    requires InRange(c, pc) && (pc.Unlock? || pc == Idle) && LocksAlso(c, pc, s.pcs[t], d)
    ensures Inv(c, Goto(s.(maps := s.maps[d := {}], locker := s.locker - {d}), t, pc))
  {
    hide Ones, InRange, Locks, Config.Word, Config.First, Config.Legal;
    var s' := Goto(s.(maps := s.maps[d := {}], locker := s.locker - {d}), t, pc);
    assert LockFits(c, s, t, d);
    forall u | 0 <= u < |s.pcs| ensures OwnerFits(s', u) {
      assert OwnerFits(s, u);
    }
    forall slot | slot in s'.owner ensures SlotFits(c, s', slot) {
      assert SlotFits(c, s, slot);
    }
    forall u, e: nat | 0 <= u < |s.pcs| ensures LockFits(c, s', u, e) {
      assert LockFits(c, s, u, e);
    }
    assert MapFits(c, s, d);
    forall e | 0 <= e < c.Total() ensures MapFits(c, s', e) {
      assert MapFits(c, s, e);
    }
    forall e | 0 <= e < c.mains ensures SuperFits(c, s', e) {
      assert SuperFits(c, s, e);
    }
  }

  lemma IdleStepInv(c: Config, s: State, t: nat, choice: Choice)
    requires Inv(c, s) && t < |s.pcs| && Enabled(c, s, t, choice) && s.pcs[t] == Idle
    ensures Inv(c, Next(c, s, t, choice))
  {
    hide Inv, TryAllocate;
    match choice
    case Allocate(b) => AllocateInv(c, s, t, b);
    case Release(b, i) => ReleaseInv(c, s, t, b, i);
  }

  lemma MarkStepInv(c: Config, s: State, t: nat, choice: Choice)
    requires Inv(c, s) && t < |s.pcs| && (s.pcs[t].MarkLoad? || s.pcs[t].MarkCheck? || s.pcs[t].MarkSwap?)
    ensures Inv(c, Next(c, s, t, choice))
  {
    hide Inv, Config.Word, Ones, Return;
    InvShape(c, s);
    var pc := s.pcs[t];
    assert InRange(c, pc);
    var b, i := pc.b, pc.i;
    match pc
    case MarkLoad(_, _) => GotoInv(c, s, t, MarkCheck(b, i, s.supers[c.Word(b)]));
    case MarkCheck(_, _, seen) =>
      if s.maps[b] == Ones(c.bits) {
        GotoInv(c, s, t, MarkSwap(b, i, seen));
      } else {
        ReturnInv(c, s, t, b, i);
      }
    case MarkSwap(_, _, seen) =>
      if s.supers[c.Word(b)] == seen {
        SetSuperInv(c, s, t, b, i);
        ReturnInv(c, SetSuper(c, s, b, i), t, b, i);
      } else {
        GotoInv(c, s, t, MarkCheck(b, i, s.supers[c.Word(b)]));
      }
  }

  lemma InvShape(c: Config, s: State)
    requires Inv(c, s)
    ensures Shape(c, s)
  {
  }

  lemma FreeStepInv(c: Config, s: State, t: nat, choice: Choice)
    requires Inv(c, s) && t < |s.pcs| && (s.pcs[t].FreeCheck? || s.pcs[t].FreeAnd? || s.pcs[t].FreeSuper?)
    ensures Inv(c, Next(c, s, t, choice))
  {
    hide Inv, Config.Word, Config.First, Ones, ClearBit;
    InvShape(c, s);
    var pc := s.pcs[t];
    assert InRange(c, pc);
    match pc
    case FreeCheck(b, i) =>
      HeldBitIsSet(c, s, t, b, i);
      GotoInv(c, s, t, FreeAnd(b, i));
    case FreeAnd(b, i) => ClearBitInv(c, s, t, b, i);
    case FreeSuper(b, i, empty) =>
      PageOf(c, b);
      FreeSuperInv(c, s, t, if empty then Scan(c.First(b), 0) else Idle);
  }

  lemma PageStepInv(c: Config, s: State, t: nat, choice: Choice)
    requires Inv(c, s) && t < |s.pcs| && (s.pcs[t].Scan? || s.pcs[t].Lock? || s.pcs[t].Advise? || s.pcs[t].Unlock?)
    ensures Inv(c, Next(c, s, t, choice))
  {
    hide Inv, Config.First, Config.Word, Ones, IsPage;
    InvShape(c, s);
    var pc := s.pcs[t];
    assert InRange(c, pc);
    PageFits(c, pc.first);
    var to := Next(c, s, t, choice).pcs[t];
    assert InRange(c, to);
    if pc.Lock? && s.maps[pc.first + pc.k] == {} {
      LockInv(c, s, t, pc.first + pc.k, to);
    } else if pc.Unlock? {
      UnlockInv(c, s, t, pc.first + pc.k - 1, to);
    } else {
      GotoInv(c, s, t, to);
    }
  }

  lemma PageFits(c: Config, first: nat)
    requires c.perPage > 0 && IsPage(c, first)
    ensures first + c.perPage <= c.mains
  {
  }

  lemma StepInv(c: Config, s: State, t: nat, choice: Choice)
    requires Inv(c, s) && t < |s.pcs| && Enabled(c, s, t, choice)
    ensures Inv(c, Next(c, s, t, choice))
  {
    hide Inv, Next;
    InvShape(c, s);
    match s.pcs[t]
    case Idle => IdleStepInv(c, s, t, choice);
    case MarkLoad(_, _) => MarkStepInv(c, s, t, choice);
    case MarkCheck(_, _, _) => MarkStepInv(c, s, t, choice);
    case MarkSwap(_, _, _) => MarkStepInv(c, s, t, choice);
    case FreeCheck(_, _) => FreeStepInv(c, s, t, choice);
    case FreeAnd(_, _) => FreeStepInv(c, s, t, choice);
    case FreeSuper(_, _, _) => FreeStepInv(c, s, t, choice);
    case Scan(_, _) => PageStepInv(c, s, t, choice);
    case Lock(_, _) => PageStepInv(c, s, t, choice);
    case Advise(_) => PageStepInv(c, s, t, choice);
    case Unlock(_, _) => PageStepInv(c, s, t, choice);
  }
}
