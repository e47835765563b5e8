/** What the parallel dispatch_apply promises, over whole runs under any schedule. */
module ApplyRuns {
  import opened Basics
  import opened Totals
  import opened ApplyProtocol

  ghost predicate Follows(c: Config, s: State, s': State) {
    Sized(c, s) && exists t :: 0 <= t < |s.pcs| && Enabled(s, t) && s' == Next(c, s, t)
  }

  /** A run: every state follows from the one before by a step of some thread. */
  ghost predicate Run(c: Config, run: seq<State>)
    requires Legal(c)
  {
    && run != [] && run[0] == Init(c)
    && forall i :: 0 <= i < |run| - 1 ==> Follows(c, run[i], run[i + 1])
  }

  ghost predicate Reachable(c: Config, s: State)
    requires Legal(c)
  {
    exists run :: Run(c, run) && run[|run| - 1] == s
  }

  lemma {:induction false} RunInv(c: Config, run: seq<State>, i: nat)
    requires Legal(c) && NoWrap(c) && Run(c, run) && i < |run|
    ensures Inv(c, run[i])
    decreases i
  {
    hide Inv, Init, Next, Enabled, Legal, NoWrap;
    if i == 0 {
      InitInv(c);
    } else {
      RunInv(c, run, i - 1);
      assert Follows(c, run[i - 1], run[i - 1 + 1]);
      var t :| 0 <= t < |run[i - 1].pcs| && Enabled(run[i - 1], t) && run[i] == Next(c, run[i - 1], t);
      StepInv(c, run[i - 1], t);
    }
  }

  lemma ReachableInv(c: Config, s: State)
    requires Legal(c) && NoWrap(c) && Reachable(c, s)
    ensures Inv(c, s)
  {
    hide Inv, Init, Next, Enabled, NoWrap, Follows;
    var run :| Run(c, run) && run[|run| - 1] == s;
    RunInv(c, run, |run| - 1);
  }

  lemma ReachableStep(c: Config, s: State, t: nat)
    requires Legal(c) && Reachable(c, s) && Sized(c, s) && t < |s.pcs| && Enabled(s, t)
    ensures Reachable(c, Next(c, s, t))
  {
    hide Init, Next, Enabled, Sized, Legal;
    var run :| Run(c, run) && run[|run| - 1] == s;
    var longer := run + [Next(c, s, t)];
    assert Follows(c, s, Next(c, s, t));
    assert Run(c, longer);
  }

  lemma ReachableInit(c: Config)
    requires Legal(c)
    ensures Reachable(c, Init(c))
  {
    assert Run(c, [Init(c)]);
  }

  // ----- safety

  /** Work that is claimed and not subtracted keeps da_todo positive and the event
      unsignalled. */
  lemma WorkHoldsEvent(c: Config, s: State, t: nat)
    requires Inv(c, s) && t < |s.pcs| && Work(s.pcs[t]) > 0
    ensures s.todo > 0 && s.signals == 0 && !Waited(s.pcs[0])
  {
    hide Total, Owners, Work, Wrap;
    TotalUpdate(Work, s.pcs, t, Gone);
    assert Local(s, 0);
  }

  /** No work index is begun or ended twice, and none ends that did not begin. */
  lemma AtMostOnce(c: Config, s: State, i: nat)
    requires Legal(c) && NoWrap(c) && Reachable(c, s) && i < c.n
    ensures |s.begun| == |s.ended| == c.n && s.ended[i] <= s.begun[i] <= 1
  {
    hide Reachable, Total, Wrap, OneHolder;
    ReachableInv(c, s);
    assert IndexState(c, s, i);
    if i < s.claims && !(s.begun[i] == 1 && s.ended[i] == 1) {
      var t :| 0 <= t < |s.pcs| && Holds(s.pcs[t]) == i + 1;
      assert HeldState(c, s, t);
    }
  }

  /** Once the event is signalled every index has been run from beginning to end, once. */
  lemma SignalledMeansDone(c: Config, s: State, i: nat)
    requires Legal(c) && NoWrap(c) && Reachable(c, s) && s.signals > 0 && i < c.n
    ensures s.signals == 1
    ensures |s.begun| == |s.ended| == c.n && s.begun[i] == s.ended[i] == 1
  {
    hide Reachable, Total, Wrap, OneHolder;
    ReachableInv(c, s);
    assert IndexState(c, s, i);
    if !(s.begun[i] == 1 && s.ended[i] == 1) {
      var t :| 0 <= t < |s.pcs| && Holds(s.pcs[t]) == i + 1;
      WorkHoldsEvent(c, s, t);
      assert false;
    }
  }

  /** The caller gets past its wait only after every index has been run exactly once. */
  lemma CallerReturnsAfterAll(c: Config, s: State, i: nat)
    requires Legal(c) && NoWrap(c) && Reachable(c, s) && s.pcs != [] && Waited(s.pcs[0]) && i < c.n
    ensures s.signals == 1
    ensures |s.begun| == |s.ended| == c.n && s.begun[i] == s.ended[i] == 1
  {
    hide Reachable, Total, Wrap, Counters, Owners;
    ReachableInv(c, s);
    assert Local(s, 0);
    SignalledMeansDone(c, s, i);
  }

  /** A thread that is about to read the caller's stack frame, or works on an index, does
      so while the caller is still inside _dispatch_apply_invoke2, before its wait ends. */
  lemma StackFrameIsAlive(c: Config, s: State, t: nat)
    requires Legal(c) && NoWrap(c) && Reachable(c, s) && t < |s.pcs|
    requires s.pcs[t].ReadDc? || s.pcs[t].Call? || s.pcs[t].Running?
    ensures !Waited(s.pcs[0]) && s.freed == 0 && s.thrCnt > 0
  {
    hide Reachable, Total, Wrap, Owners, Local;
    ReachableInv(c, s);
    WorkHoldsEvent(c, s, t);
    TotalUpdate(Inside, s.pcs, t, Gone);
  }

  /** The record is freed at most once, and exactly when every thread has left; while
      any thread can still take a step it is not freed. */
  lemma FreedByTheLast(c: Config, s: State)
    requires Legal(c) && NoWrap(c) && Reachable(c, s)
    ensures s.freed <= 1 && |s.pcs| == c.threads
    ensures s.freed == 1 <==> forall t :: 0 <= t < |s.pcs| ==> s.pcs[t] == Gone
  {
    hide Reachable, Total, Wrap, Owners, Local;
    ReachableInv(c, s);
    if s.freed == 1 {
      forall t | 0 <= t < |s.pcs| ensures s.pcs[t] == Gone {
        TotalUpdate(Inside, s.pcs, t, Gone);
        TotalUpdate(Freeing, s.pcs, t, Gone);
      }
    }
    if forall t :: 0 <= t < |s.pcs| ==> s.pcs[t] == Gone {
      TotalUniform(Inside, s.pcs, 0);
      TotalUniform(Freeing, s.pcs, 0);
    }
  }

  lemma NoUseAfterFree(c: Config, s: State, t: nat)
    requires Legal(c) && NoWrap(c) && Reachable(c, s) && t < |s.pcs| && Enabled(s, t)
    ensures s.freed == 0
  {
    hide Reachable, Inv;
    FreedByTheLast(c, s);
  }

  // ----- progress

  /** How many steps a thread still has before its next claim fails it. */
  function Rank(pc: PC): nat {
    match pc
    case NotStarted => 9
    case FirstClaim => 8
    case ReadDc(_) => 10
    case Call(_, _) => 9
    case Running(_, _) => 8
    case NextClaim(_) => 7
    case Subtract(_) => 6
    case Signal => 5
    case Wait => 4
    case Destroy => 3
    case Leave => 2
    case Free => 1
    case Gone => 0
  }

  ghost function Measure(c: Config, s: State): nat {
    3 * (c.n - Min(s.claims, c.n)) + Total(Rank, s.pcs)
  }

  /** Every step brings the whole closer to its end. */
  lemma StepProgress(c: Config, s: State, t: nat)
    requires NoWrap(c) && Inv(c, s) && t < |s.pcs| && Enabled(s, t)
    ensures Measure(c, Next(c, s, t)) < Measure(c, s)
  {
    hide Total, Wrap, Owners, Local;
    var pc := NextMoves(c, s, t);
    TotalUpdate(Rank, s.pcs, t, pc);
    if s.pcs[t].FirstClaim? || s.pcs[t].NextClaim? {
      IndexIsClaims(c, s, t);
    }
  }

  /** While the caller has not returned, some thread that has already started can step:
      completion never depends on a queued worker that has not started. */
  lemma SomeStartedThreadCanStep(c: Config, s: State) returns (t: nat)
    requires Inv(c, s) && c.threads > 0 && s.pcs[0] != Gone
    ensures t < |s.pcs| && Enabled(s, t) && s.pcs[t] != NotStarted
  {
    hide Total, Wrap, Owners;
    assert Local(s, 0);
    t := 0;
    if s.pcs[0] == Wait && s.signals == 0 {
      if s.todo == 0 {
        t := TotalPositive(Signalling, s.pcs);
      } else {
        TotalUpdate(Failed, s.pcs, 0, Gone);
        t := TotalPositive(Work, s.pcs);
      }
    }
  }

  /** A run that can go no further has freed the record, exactly once, and has run every
      index exactly once. */
  lemma FinishedRunFreed(c: Config, s: State, i: nat)
    requires Legal(c) && NoWrap(c) && Reachable(c, s) && i < c.n
    requires forall t :: 0 <= t < |s.pcs| ==> !Enabled(s, t)
    ensures s.freed == 1 && s.signals == 1
    ensures |s.begun| == |s.ended| == c.n && s.begun[i] == s.ended[i] == 1
  {
    hide Reachable, Inv, Enabled;
    ReachableInv(c, s);
    FreedByTheLast(c, s);
    if s.pcs[0] != Gone {
      var t := SomeStartedThreadCanStep(c, s);
      assert false;
    }
    forall t | 0 <= t < |s.pcs| ensures s.pcs[t] == Gone {
      StuckMeansGone(c, s, t);
    }
    CallerReturnsAfterAll(c, s, i);
  }

  /** Only the caller ever waits. */
  lemma StuckMeansGone(c: Config, s: State, t: nat)
    requires Inv(c, s) && t < |s.pcs| && !Enabled(s, t) && (t == 0 ==> s.pcs[0] == Gone)
    ensures s.pcs[t] == Gone
  {
    hide Counters, Owners;
    assert Local(s, t);
  }

  /** A path from s on which only threads that have started take steps. */
  ghost predicate StartedPath(c: Config, path: seq<State>) {
    forall i :: 0 <= i < |path| - 1 ==> StartedStep(c, path[i], path[i + 1])
  }

  ghost predicate StartedStep(c: Config, s: State, s': State) {
    Sized(c, s) && exists t :: 0 <= t < |s.pcs| && s.pcs[t] != NotStarted && Enabled(s, t) && s' == Next(c, s, t)
  }

  /** From every reachable state the started threads alone bring the caller home, with
      every index run once. */
  lemma {:induction false} CompletesWithoutWorkers(c: Config, s: State) returns (path: seq<State>)
    requires Legal(c) && NoWrap(c) && Reachable(c, s)
    ensures path != [] && path[0] == s && StartedPath(c, path)
    ensures Reachable(c, path[|path| - 1]) && path[|path| - 1].pcs != [] && path[|path| - 1].pcs[0] == Gone
    decreases Measure(c, s)
  {
    hide Reachable, Measure, Next, Enabled, Counters, Owners, Local;
    ReachableInv(c, s);
    SizedOf(c, s);
    if s.pcs[0] == Gone {
      path := [s];
    } else {
      var t := SomeStartedThreadCanStep(c, s);
      StepProgress(c, s, t);
      ReachableStep(c, s, t);
      var rest := CompletesWithoutWorkers(c, Next(c, s, t));
      path := [s] + rest;
      assert StartedStep(c, s, rest[0]);
      forall i | 0 <= i < |path| - 1 ensures StartedStep(c, path[i], path[i + 1]) {
        if i > 0 {
          assert StartedStep(c, rest[i - 1], rest[i - 1 + 1]);
        }
      }
    }
  }

  /** A path on which thread t alone takes steps. */
  ghost predicate OwnPath(c: Config, path: seq<State>, t: nat) {
    forall i :: 0 <= i < |path| - 1 ==> OwnStep(c, path[i], path[i + 1], t)
  }

  ghost predicate OwnStep(c: Config, s: State, s': State, t: nat) {
    Sized(c, s) && t < |s.pcs| && Enabled(s, t) && s' == Next(c, s, t)
  }

  /** Any thread, the caller or a worker, that has not failed a claim can do all the work
      that is left: by its own steps alone, from every reachable state, it runs every index
      that nobody has claimed. */
  lemma TakesTheRest(c: Config, s: State, t: nat) returns (path: seq<State>)
    requires Legal(c) && NoWrap(c) && Reachable(c, s) && t < |s.pcs| && Failed(s.pcs[t]) == 0
    ensures path != [] && path[0] == s && OwnPath(c, path, t) && Reachable(c, path[|path| - 1])
    ensures var e := path[|path| - 1];
      |e.begun| == |e.ended| == c.n && forall i :: s.claims <= i < c.n ==> e.begun[i] == e.ended[i] == 1
  {
    hide Reachable, Counters, OwnPath, Failed, Legal, NoWrap;
    path := WorksOn(c, s, t);
    ReachableInv(c, s);
    var e := path[|path| - 1];
    ReachableInv(c, e);
    SizedOf(c, s);
    SizedOf(c, e);
    forall u | 0 <= u < |s.pcs| ensures Holds(s.pcs[u]) <= s.claims {
      assert HeldState(c, s, u);
    }
    forall i | s.claims <= i < c.n ensures e.begun[i] == e.ended[i] == 1 {
      assert IndexState(c, e, i);
    }
  }

  /** Thread t works until nothing is left to claim; the others stay where they are. */
  lemma {:induction false} WorksOn(c: Config, s: State, t: nat) returns (path: seq<State>)
    requires Legal(c) && NoWrap(c) && Reachable(c, s) && t < |s.pcs| && Failed(s.pcs[t]) == 0
    ensures path != [] && path[0] == s && OwnPath(c, path, t)
    ensures var e := path[|path| - 1];
      && Reachable(c, e) && |e.pcs| == |s.pcs| && e.claims >= c.n && Holds(e.pcs[t]) == 0
      && forall u :: 0 <= u < |s.pcs| && u != t ==> e.pcs[u] == s.pcs[u]
    decreases Measure(c, s)
  {
    hide Reachable, Measure, Next, Counters, Owners, Local, OwnStep, Legal, NoWrap;
    if s.claims >= c.n && Holds(s.pcs[t]) == 0 {
      path := [s];
    } else {
      ReachableInv(c, s);
      SizedOf(c, s);
      StillWorks(c, s, t);
      StepProgress(c, s, t);
      ReachableStep(c, s, t);
      OwnStepIs(c, s, t);
      var rest := WorksOn(c, Next(c, s, t), t);
      path := [s] + rest;
      forall i | 0 <= i < |path| - 1 ensures OwnStep(c, path[i], path[i + 1], t) {
        if i > 0 {
          assert OwnStep(c, rest[i - 1], rest[i - 1 + 1], t);
        }
      }
    }
  }

  lemma OwnStepIs(c: Config, s: State, t: nat)
    requires Sized(c, s) && t < |s.pcs| && Enabled(s, t)
    ensures OwnStep(c, s, Next(c, s, t), t)
  {
  }

  lemma StillWorks(c: Config, s: State, t: nat)
    requires NoWrap(c) && Inv(c, s) && Sized(c, s) && t < |s.pcs| && Failed(s.pcs[t]) == 0
    requires s.claims < c.n || Holds(s.pcs[t]) > 0
    ensures Enabled(s, t)
    ensures var s' := Next(c, s, t);
      && |s'.pcs| == |s.pcs| && Failed(s'.pcs[t]) == 0
      && forall u :: 0 <= u < |s.pcs| && u != t ==> s'.pcs[u] == s.pcs[u]
  {
    hide Counters, Owners, Local;
    if s.pcs[t].FirstClaim? || s.pcs[t].NextClaim? {
      IndexIsClaims(c, s, t);
    }
  }

  /** No run is longer than its first state allows. */
  lemma {:induction false} RunBounded(c: Config, run: seq<State>, i: nat)
    requires Legal(c) && NoWrap(c) && Run(c, run) && i < |run|
    ensures i + Measure(c, run[i]) <= 3 * c.n + 9 * c.threads
    decreases i
  {
    hide Inv, Measure, Next, Enabled, Legal, NoWrap;
    if i == 0 {
      InitMeasure(c);
    } else {
      RunBounded(c, run, i - 1);
      RunInv(c, run, i - 1);
      assert Follows(c, run[i - 1], run[i - 1 + 1]);
      var t :| 0 <= t < |run[i - 1].pcs| && Enabled(run[i - 1], t) && run[i] == Next(c, run[i - 1], t);
      StepProgress(c, run[i - 1], t);
    }
  }

  lemma InitMeasure(c: Config)
    requires Legal(c)
    ensures Measure(c, Init(c)) <= 3 * c.n + 9 * c.threads
  {
    hide Total;
    var all := seq(c.threads, _ => NotStarted);
    TotalUniform(Rank, all, 9);
    TotalUpdate(Rank, all, 0, FirstClaim);
    assert Init(c).pcs == all[0 := FirstClaim];
  }
}
