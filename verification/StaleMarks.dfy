/** When a supermap bit stays set on a bitmap that is not full, under concurrent use: exactly
    when the swap that last set it came too late (allocator.c). */
module StaleMarks {
  import opened SlotProtocol
  import opened SlotRuns

  ghost predicate Marked(c: Config, s: State, b: nat)
    requires Shape(c, s) && b < c.mains
  {
    b in s.supers[c.Word(b)]
  }

  /** The next step of thread t clears the bit of b. */
  ghost predicate Clears(s: State, t: nat, b: nat) {
    t < |s.pcs| && s.pcs[t].FreeSuper? && s.pcs[t].b == b
  }

  /** Some free of a slot of bitmap b is about to clear the supermap bit. */
  ghost predicate Freeing(s: State, b: nat) {
    exists t: nat :: Clears(s, t, b)
  }

  /** The bit of b is set, b is not full, and nobody is about to clear the bit. */
  ghost predicate Stale(c: Config, s: State, b: nat)
    requires Shape(c, s) && b < c.mains
  {
    Marked(c, s, b) && s.maps[b] != Ones(c.bits) && !Freeing(s, b)
  }

  /** A compare-and-swap that sets the bit of b now would come too late. */
  ghost predicate TooLate(c: Config, s: State, b: nat)
    requires Shape(c, s) && b < c.mains
  {
    s.maps[b] != Ones(c.bits) && !Freeing(s, b)
  }

  /** The next step of thread t is a compare-and-swap that sets the bit of b. */
  ghost predicate Sets(c: Config, s: State, t: nat, b: nat)
    requires Shape(c, s) && b < c.mains
  {
    t < |s.pcs| && s.pcs[t].MarkSwap? && s.pcs[t].b == b && s.supers[c.Word(b)] == s.pcs[t].seen
  }

  // ----- what one step does

  /** A step moves its own thread alone, and to FreeSuper only from FreeAnd. */
  lemma StepPlace(c: Config, s: State, s': State, t: nat, choice: Choice) returns (pc: PC)
    requires StepOf(c, s, s', t, choice)
    ensures t < |s.pcs| && |s'.pcs| == |s.pcs| && pc == s'.pcs[t] && s'.pcs == s.pcs[t := pc]
    ensures pc.FreeSuper? <==> s.pcs[t].FreeAnd? && s.pcs[t].b < c.mains
    ensures pc.FreeSuper? ==> pc.b == s.pcs[t].b
  {
    hide InRange, Config.Word, Config.First, Config.Legal, Ones, TryAllocate, ClearBit;
    if s.pcs[t] == Idle && choice.Allocate? {
      AllocatePlace(c, s, t, choice.b);
    } else if s.pcs[t].FreeAnd? {
      PlaceInRange(c, s, t);
      ClearPlace(c, s, t, s.pcs[t].b, s.pcs[t].i);
    }
    pc := s'.pcs[t];
  }

  lemma PlaceInRange(c: Config, s: State, t: nat)
    requires Shape(c, s) && t < |s.pcs|
    ensures s.pcs[t].FreeAnd? ==> s.pcs[t].b < c.Total()
  {
  }

  lemma AllocatePlace(c: Config, s: State, t: nat, b: nat)
    requires |s.maps| == c.Total() && t < |s.pcs| && s.pcs[t] == Idle && b < c.Total()
    ensures var s' := TryAllocate(c, s, t, b);
      |s'.pcs| == |s.pcs| && s'.pcs == s.pcs[t := s'.pcs[t]] && !s'.pcs[t].FreeSuper? && s'.supers == s.supers
  {
  }

  lemma ClearPlace(c: Config, s: State, t: nat, b: nat, i: nat)
    requires |s.maps| == c.Total() && t < |s.pcs| && b < c.Total()
    ensures var s' := ClearBit(c, s, t, b, i);
      && |s'.pcs| == |s.pcs| && s'.pcs == s.pcs[t := s'.pcs[t]] && s'.supers == s.supers
      && (s'.pcs[t].FreeSuper? <==> b < c.mains) && (s'.pcs[t].FreeSuper? ==> s'.pcs[t].b == b)
  {
  }

  lemma MarkChange(c: Config, s: State, s': State, t: nat, choice: Choice, b: nat)
    requires StepOf(c, s, s', t, choice) && Shape(c, s') && b < c.mains
    ensures Marked(c, s', b) <==> (Marked(c, s, b) && !Clears(s, t, b)) || Sets(c, s, t, b)
  {
    hide InRange, Config.Word, Config.First, Config.Legal, Ones, TryAllocate, ClearBit;
    assert Shape(c, s);
    PlaceInRange(c, s, t);
    if s.pcs[t] == Idle && choice.Allocate? {
      AllocatePlace(c, s, t, choice.b);
    } else if s.pcs[t].FreeAnd? {
      ClearPlace(c, s, t, s.pcs[t].b, s.pcs[t].i);
    }
  }

  lemma FreeingChange(c: Config, s: State, s': State, t: nat, choice: Choice, b: nat)
    requires StepOf(c, s, s', t, choice) && b < c.mains
    ensures Freeing(s, b) && !Clears(s, t, b) ==> Freeing(s', b)
    ensures Freeing(s', b) ==> Freeing(s, b) || (s.pcs[t].FreeAnd? && s.pcs[t].b == b)
    ensures s.pcs[t].FreeAnd? && s.pcs[t].b == b ==> Freeing(s', b)
  {
    hide StepOf;
    var pc := StepPlace(c, s, s', t, choice);
    if Freeing(s, b) && !Clears(s, t, b) {
      var u: nat :| Clears(s, u, b);
      assert Clears(s', u, b);
    }
    if Freeing(s', b) {
      var u: nat :| Clears(s', u, b);
      assert u != t ==> Clears(s, u, b);
    }
    if s.pcs[t].FreeAnd? && s.pcs[t].b == b {
      assert Clears(s', t, b);
    }
  }

  /** A marked bitmap that is empty or locked has its mark about to be cleared. */
  lemma MarkedInUse(c: Config, s: State, b: nat)
    requires Inv(c, s) && b < c.mains && Marked(c, s, b)
    ensures Freeing(s, b) || (s.maps[b] != {} && b !in s.locker)
  {
    hide InRange, Config.Word, Config.First, Ones;
    assert SuperFits(c, s, b) && MapFits(c, s, b);
    if s.cause[b].FreedBy? {
      assert Clears(s, s.cause[b].t, b);
    }
  }

  /** How a step may change a marked bitmap whose mark nobody is about to clear: a free
      clears a bit and will clear the mark, or an allocation takes a clear bit. */
  lemma MapChange(c: Config, s: State, s': State, t: nat, choice: Choice, b: nat)
    requires Inv(c, s) && StepOf(c, s, s', t, choice) && b < c.mains && Marked(c, s, b) && !Freeing(s, b)
    ensures |s.maps| == |s'.maps| == c.Total() && |s.pcs| == |s'.pcs|
    ensures s'.maps[b] != s.maps[b] ==>
      || (s.pcs[t].FreeAnd? && s.pcs[t].b == b)
      || (s.maps[b] != Ones(c.bits) && s'.pcs[t].MarkLoad? && s'.pcs[t].b == b)
  {
    hide Inv, Config.Word, Config.First, Config.Legal, Ones, Next, Enabled, Shape;
    InvShape(c, s);
    MarkedInUse(c, s, b);
    if AtPage(s.pcs[t]) {
      OwnLocks(c, s, s', t, choice, b);
      NotItsLock(c, s, t, b);
    } else {
      SlotChange(c, s, t, choice, b);
    }
  }

  lemma NotItsLock(c: Config, s: State, t: nat, b: nat)
    requires Inv(c, s) && t < |s.pcs| && b !in s.locker
    ensures !Locks(c, s.pcs[t], b)
  {
    hide Config.Word, Config.First, Config.Legal, Ones, Locks;
    assert LockFits(c, s, t, b);
  }

  lemma SlotChange(c: Config, s: State, t: nat, choice: Choice, b: nat)
    requires Shape(c, s) && t < |s.pcs| && Enabled(c, s, t, choice) && !AtPage(s.pcs[t]) && b < c.mains
    ensures var s' := Next(c, s, t, choice);
      && |s'.maps| == |s.maps| == c.Total() && |s'.pcs| == |s.pcs|
      && (s'.maps[b] != s.maps[b] ==>
            || (s.pcs[t].FreeAnd? && s.pcs[t].b == b)
            || (s.maps[b] != Ones(c.bits) && s'.pcs[t].MarkLoad? && s'.pcs[t].b == b))
  {
    hide Config.Word, Config.First, Ones;
    assert InRange(c, s.pcs[t]);
  }

  /** A mark goes stale exactly by a swap that comes too late. */
  lemma StaleStepIff(c: Config, s: State, s': State, t: nat, choice: Choice, b: nat)
    requires Reachable(c, s) && StepOf(c, s, s', t, choice) && b < c.mains && !Stale(c, s, b)
    ensures Shape(c, s')
    ensures Stale(c, s', b) <==> Sets(c, s, t, b) && TooLate(c, s, b)
  {
    hide Reachable, Inv, Config.Word, Config.First, Config.Legal, Ones, StepOf, Shape;
    ReachableInv(c, s);
    ReachableStep(c, s, t, choice, s');
    ReachableInv(c, s');
    InvShape(c, s);
    InvShape(c, s');
    MarkChange(c, s, s', t, choice, b);
    FreeingChange(c, s, s', t, choice, b);
    var pc := StepPlace(c, s, s', t, choice);
    if Sets(c, s, t, b) {
      SwapKeepsMaps(c, s, s', t, choice);
    } else if Marked(c, s, b) && !Freeing(s, b) {
      MapChange(c, s, s', t, choice, b);
    }
  }

  lemma SwapKeepsMaps(c: Config, s: State, s': State, t: nat, choice: Choice)
    requires StepOf(c, s, s', t, choice) && s.pcs[t].MarkSwap?
    ensures s'.maps == s.maps
  {
    hide InRange, Config.Word, Config.First, Config.Legal, Ones;
  }

  // ----- threads that will still try to mark

  /** Thread t has allocated from b and may still set its supermap bit. */
  ghost predicate Marking(s: State, t: nat, b: nat) {
    t < |s.pcs| && (s.pcs[t].MarkLoad? || s.pcs[t].MarkCheck? || s.pcs[t].MarkSwap?) && s.pcs[t].b == b
  }

  /** If b is marked and full, some thread is still going to set the bit or clear it. */
  ghost predicate Pending(c: Config, s: State, b: nat)
    requires Shape(c, s) && b < c.mains
  {
    Marked(c, s, b) && s.maps[b] == Ones(c.bits) ==> Freeing(s, b) || exists t: nat :: Marking(s, t, b)
  }

  lemma MarkingStays(c: Config, s: State, s': State, t: nat, choice: Choice, b: nat)
    requires StepOf(c, s, s', t, choice) && b < c.mains && s.maps[b] == Ones(c.bits)
    requires Marking(s, t, b) && !Sets(c, s, t, b)
    ensures Marking(s', t, b)
  {
    hide InRange, Config.Word, Config.First, Config.Legal, Ones, TryAllocate, ClearBit, Return;
  }

  lemma ShapeSize(c: Config, s: State)
    requires Shape(c, s)
    ensures |s.maps| == c.Total()
  {
  }

  /** Only a swap that sets the bit can end the waiting. */
  lemma StepPending(c: Config, s: State, s': State, t: nat, choice: Choice, b: nat)
    requires Reachable(c, s) && StepOf(c, s, s', t, choice) && b < c.mains
    requires Shape(c, s) && Pending(c, s, b) && !Sets(c, s, t, b)
    ensures Shape(c, s') && Pending(c, s', b)
  {
    hide Reachable, Inv, Config.Word, Config.First, Config.Legal, Ones, StepOf, Shape;
    ReachableInv(c, s);
    ReachableStep(c, s, t, choice, s');
    ReachableInv(c, s');
    InvShape(c, s');
    ShapeSize(c, s');
    MarkChange(c, s, s', t, choice, b);
    FreeingChange(c, s, s', t, choice, b);
    var pc := StepPlace(c, s, s', t, choice);
    if Marked(c, s', b) && s'.maps[b] == Ones(c.bits) && !Freeing(s', b) {
      MapChange(c, s, s', t, choice, b);
      if s.maps[b] == Ones(c.bits) {
        var u: nat :| Marking(s, u, b);
        if u == t {
          MarkingStays(c, s, s', t, choice, b);
        }
        assert Marking(s', u, b);
      } else {
        assert Marking(s', t, b);
      }
    }
  }

  // ----- runs

  /** Step k of the run is a swap that sets the bit of b. */
  ghost predicate SetsAt(c: Config, run: seq<State>, k: nat, b: nat)
    requires k + 1 < |run| && b < c.mains
  {
    SetsBetween(c, run[k], run[k + 1], b)
  }

  ghost predicate SetsBetween(c: Config, s: State, s': State, b: nat)
    requires b < c.mains
  {
    exists t: nat, choice :: StepOf(c, s, s', t, choice) && Sets(c, s, t, b)
  }

  /** Step k is the last one before state n that sets the bit of b. */
  ghost predicate LastSet(c: Config, run: seq<State>, k: nat, n: nat, b: nat)
    requires n < |run| && b < c.mains
  {
    k < n && SetsAt(c, run, k, b) && forall j :: k < j < n ==> !SetsAt(c, run, j, b)
  }

  lemma RunStep(c: Config, run: seq<State>, k: nat) returns (t: nat, choice: Choice)
    requires Run(c, run) && k + 1 < |run|
    ensures Reachable(c, run[k]) && Shape(c, run[k]) && Shape(c, run[k + 1])
    ensures StepOf(c, run[k], run[k + 1], t, choice)
  {
    hide Init, StepOf, Inv, Shape;
    RunInv(c, run, k);
    RunInv(c, run, k + 1);
    InvShape(c, run[k]);
    InvShape(c, run[k + 1]);
    var prefix := run[..k + 1];
    forall i | 0 <= i < |prefix| - 1 ensures Follows(c, prefix[i], prefix[i + 1]) {
      assert Follows(c, run[i], run[i + 1]);
    }
    assert Run(c, prefix) && prefix[|prefix| - 1] == run[k];
    assert Follows(c, run[k], run[k + 1]);
    t, choice :| StepOf(c, run[k], run[k + 1], t, choice);
  }

  /** A set bit was set by some step. */
  lemma {:induction false} MarkHasSetter(c: Config, run: seq<State>, n: nat, b: nat) returns (k: nat)
    requires Run(c, run) && n < |run| && b < c.mains && Shape(c, run[n]) && Marked(c, run[n], b)
    ensures LastSet(c, run, k, n, b)
  {
    hide StepOf, Shape, Sets, Config.Word, Config.First, Config.Legal;
    if n == 0 {
      k := 0;
      StartUnmarked(c, run[0], b);
    } else {
      var t, choice := RunStep(c, run, n - 1);
      if SetsAt(c, run, n - 1, b) {
        k := n - 1;
      } else {
        MarkChange(c, run[n - 1], run[n], t, choice, b);
        k := MarkHasSetter(c, run, n - 1, b);
      }
    }
  }

  lemma StartUnmarked(c: Config, s: State, b: nat)
    requires Init(c, s) && b < c.mains
    ensures Shape(c, s) && !Marked(c, s, b)
  {
  }

  /** After a swap in time, and until the next swap, the mark is not stale. */
  lemma {:induction false} InTimeNotStale(c: Config, run: seq<State>, k: nat, n: nat, b: nat)
    requires Run(c, run) && n < |run| && b < c.mains && LastSet(c, run, k, n, b)
    requires Shape(c, run[k]) && !TooLate(c, run[k], b)
    ensures Shape(c, run[n]) && !Stale(c, run[n], b)
    decreases n
  {
    hide StepOf, Shape, Sets, Stale, TooLate, Config.Word, Config.First, Config.Legal;
    if n == k + 1 {
      var _, _ := RunStep(c, run, k);
      var t: nat, choice :| StepOf(c, run[k], run[k + 1], t, choice) && Sets(c, run[k], t, b);
      InTimeStep(c, run[k], run[k + 1], t, choice, b);
    } else {
      InTimeNotStale(c, run, k, n - 1, b);
      var t, choice := RunStep(c, run, n - 1);
      StaleStepIff(c, run[n - 1], run[n], t, choice, b);
      assert !SetsAt(c, run, n - 1, b);
    }
  }

  lemma InTimeStep(c: Config, s: State, s': State, t: nat, choice: Choice, b: nat)
    requires Reachable(c, s) && StepOf(c, s, s', t, choice) && b < c.mains
    requires Shape(c, s) && Sets(c, s, t, b) && !TooLate(c, s, b)
    ensures Shape(c, s') && !Stale(c, s', b)
  {
    hide Reachable, StepOf, Shape, Config.Word, Config.First, Config.Legal;
    assert !Stale(c, s, b);
    StaleStepIff(c, s, s', t, choice, b);
  }

  /** After a swap that came too late, and until the next swap, somebody is still busy with
      the mark whenever the bitmap is full. */
  lemma {:induction false} TooLatePending(c: Config, run: seq<State>, k: nat, n: nat, b: nat)
    requires Run(c, run) && n < |run| && b < c.mains && LastSet(c, run, k, n, b)
    requires Shape(c, run[k]) && TooLate(c, run[k], b)
    ensures Shape(c, run[n]) && Pending(c, run[n], b)
    decreases n
  {
    hide StepOf, Shape, Sets, Config.Word, Config.First, Config.Legal;
    if n == k + 1 {
      var _, _ := RunStep(c, run, k);
      var t: nat, choice :| StepOf(c, run[k], run[k + 1], t, choice) && Sets(c, run[k], t, b);
      SetsIsSwap(c, run[k], t, b);
      SwapKeepsMaps(c, run[k], run[k + 1], t, choice);
    } else {
      TooLatePending(c, run, k, n - 1, b);
      var t, choice := RunStep(c, run, n - 1);
      assert !SetsAt(c, run, n - 1, b);
      StepPending(c, run[n - 1], run[n], t, choice, b);
    }
  }

  lemma SetsIsSwap(c: Config, s: State, t: nat, b: nat)
    requires Shape(c, s) && b < c.mains && Sets(c, s, t, b)
    ensures t < |s.pcs| && s.pcs[t].MarkSwap?
  {
  }

  /** In every run, with no call in flight: a set supermap bit was set by some last swap,
      and its bitmap is full if and only if that swap did not come too late. */
  lemma RestingMarkIff(c: Config, run: seq<State>, n: nat, b: nat) returns (k: nat)
    requires Run(c, run) && n < |run| && b < c.mains && Quiescent(run[n])
    requires Shape(c, run[n]) && Marked(c, run[n], b)
    ensures LastSet(c, run, k, n, b) && Shape(c, run[k])
    ensures run[n].maps[b] == Ones(c.bits) <==> !TooLate(c, run[k], b)
  {
    hide LastSet, Shape, TooLate, Config.Word, Config.First, Config.Legal, Run;
    k := MarkHasSetter(c, run, n, b);
    assert k < n by { LastSetBefore(c, run, k, n, b); }
    RunInv(c, run, k);
    InvShape(c, run[k]);
    assert !Freeing(run[n], b);
    if TooLate(c, run[k], b) {
      TooLatePending(c, run, k, n, b);
    } else {
      InTimeNotStale(c, run, k, n, b);
    }
  }

  lemma LastSetBefore(c: Config, run: seq<State>, k: nat, n: nat, b: nat)
    requires n < |run| && b < c.mains && LastSet(c, run, k, n, b)
    ensures k < n
  {
  }
}
