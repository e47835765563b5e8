/** Parallel dispatch_apply: threads claim indices by fetch-and-add, subtract what they
    have done, and the last one out frees the shared record (apply.c). */
module ApplyProtocol {
  import opened Basics
  import opened Totals

  /** Where a thread stands in _dispatch_apply_invoke2. Thread 0 is the caller, which
      invokes with the WAIT flag; the others are queued workers. */
  datatype PC =
    | NotStarted
    | FirstClaim
    | ReadDc(idx: nat)                // has an index; about to read da_dc
    | Call(idx: nat, done: nat)       // about to call the work function
    | Running(idx: nat, done: nat)    // inside the work function
    | NextClaim(done: nat)
    | Subtract(done: nat)
    | Signal
    | Wait
    | Destroy                         // the wait has returned
    | Leave                           // about to decrement da_thr_cnt
    | Free
    | Gone

  /** The shared record, the threads, and what happened: how often the event was
      signalled and the record freed, how many claims were made in all, and how often
      the call for each index was begun and ended. */
  datatype State = State(
    index: nat, todo: nat, thrCnt: int,
    pcs: seq<PC>,
    claims: nat, signals: nat, freed: nat,
    begun: seq<nat>, ended: seq<nat>)

  /** n iterations; counters wrap at `limit`, which is one more than SIZE_MAX. */
  datatype Config = Config(n: nat, threads: nat, limit: nat)

  /** What dispatch_apply_f guarantees when it takes the parallel path. */
  ghost predicate Legal(c: Config) {
    0 < c.n < c.limit && 2 <= c.threads <= c.n
  }

  function Zeros(n: nat): (s: seq<nat>)
    ensures |s| == n && forall i :: 0 <= i < n ==> s[i] == 0
  {
    seq(n, _ => 0)
  }

  function Init(c: Config): State
    requires Legal(c)
  {
    State(0, c.n, c.threads, seq(c.threads, t => if t == 0 then FirstClaim else NotStarted),
          0, 0, 0, Zeros(c.n), Zeros(c.n))
  }

  /** The label `out`. */
  function Out(t: nat): PC {
    if t == 0 then Wait else Leave
  }

  predicate Enabled(s: State, t: nat)
    requires t < |s.pcs|
  {
    match s.pcs[t]
    case Wait => s.signals > 0
    case Gone => false
    case _ => true
  }

  ghost predicate Sized(c: Config, s: State) {
    |s.pcs| == c.threads && |s.begun| == c.n && |s.ended| == c.n && 0 < c.limit
    && forall t :: 0 <= t < |s.pcs| ==> Holds(s.pcs[t]) <= c.n
  }

  /** One more than the index held, or 0. */
  function Holds(pc: PC): nat {
    match pc
    case ReadDc(i) => i + 1
    case Call(i, _) => i + 1
    case Running(i, _) => i + 1
    case _ => 0
  }

  /** A counter of type size_t wraps at `limit`. */
  function Wrap(x: int, limit: nat): nat
    requires limit > 0
  {
    x % limit
  }

  lemma WrapSmall(x: int, limit: nat)
    requires 0 <= x < limit
    ensures Wrap(x, limit) == x
  {
  }

  /** The atomic increment of da_index. */
  function Claimed(c: Config, s: State): State
    requires 0 < c.limit
  {
    s.(index := Wrap(s.index + 1, c.limit), claims := s.claims + 1)
  }

  function Goto(s: State, t: nat, pc: PC): State
    requires t < |s.pcs|
  {
    s.(pcs := s.pcs[t := pc])
  }

  /** One atomic step of thread t. */
  function Next(c: Config, s: State, t: nat): State
    requires Sized(c, s) && t < |s.pcs| && Enabled(s, t)
  {
    match s.pcs[t]
    case NotStarted => Goto(s, t, FirstClaim)
    case FirstClaim =>
      Goto(Claimed(c, s), t, if s.index >= c.n then Out(t) else ReadDc(s.index))
    case ReadDc(i) => Goto(s, t, Call(i, 0))
    case Call(i, done) =>
      assert Holds(s.pcs[t]) <= c.n;
      Goto(s.(begun := s.begun[i := s.begun[i] + 1]), t, Running(i, done))
    case Running(i, done) =>
      assert Holds(s.pcs[t]) <= c.n;
      Goto(s.(ended := s.ended[i := s.ended[i] + 1]), t, NextClaim(done + 1))
    case NextClaim(done) =>
      Goto(Claimed(c, s), t, if s.index < c.n then Call(s.index, done) else Subtract(done))
    case Subtract(done) =>
      var todo := Wrap(s.todo - done, c.limit);
      Goto(s.(todo := todo), t, if todo == 0 then Signal else Out(t))
    case Signal => Goto(s.(signals := s.signals + 1), t, Out(t))
    case Wait => Goto(s, t, Destroy)
    case Destroy => Goto(s, t, Leave)
    case Leave =>
      Goto(s.(thrCnt := s.thrCnt - 1), t, if s.thrCnt - 1 == 0 then Free else Gone)
    case Free => Goto(s.(freed := s.freed + 1), t, Gone)
  }

  // ----- weights

  /** Claimed indices that the thread has not subtracted yet. */
  function Work(pc: PC): nat {
    match pc
    case ReadDc(_) => 1
    case Call(_, done) => done + 1
    case Running(_, done) => done + 1
    case NextClaim(done) => done
    case Subtract(done) => done
    case _ => 0
  }

  /** The thread got a number past the last index. */
  function Failed(pc: PC): nat {
    match pc
    case NotStarted => 0
    case FirstClaim => 0
    case ReadDc(_) => 0
    case Call(_, _) => 0
    case Running(_, _) => 0
    case NextClaim(_) => 0
    case _ => 1
  }

  function Signalling(pc: PC): nat {
    if pc == Signal then 1 else 0
  }

  /** The thread has not decremented da_thr_cnt yet. */
  function Inside(pc: PC): nat {
    if pc == Free || pc == Gone then 0 else 1
  }

  function Freeing(pc: PC): nat {
    if pc == Free then 1 else 0
  }

  /** The wait of the caller has returned. */
  predicate Waited(pc: PC) {
    pc == Destroy || pc == Leave || pc == Free || pc == Gone
  }

  // ----- the invariant

  /** The counters of the record, in terms of where the threads stand. */
  ghost predicate Counters(c: Config, s: State) {
    && Sized(c, s)
    && s.index == Wrap(s.claims, c.limit)
    && s.claims <= c.n + Total(Failed, s.pcs)
    && (Total(Failed, s.pcs) > 0 ==> s.claims == c.n + Total(Failed, s.pcs))
    && s.todo <= c.n
    && s.todo + Min(s.claims, c.n) == c.n + Total(Work, s.pcs)
    && s.signals + Total(Signalling, s.pcs) == (if s.todo == 0 then 1 else 0)
    && s.thrCnt == Total(Inside, s.pcs)
    && s.freed + Total(Freeing, s.pcs) == (if s.thrCnt == 0 then 1 else 0)
  }

  /** What a single thread's place says. */
  ghost predicate Local(s: State, t: nat)
    requires t < |s.pcs|
  {
    && (s.pcs[t].NextClaim? || s.pcs[t].Subtract? ==> s.pcs[t].done > 0)
    && ((s.pcs[t] == Wait || s.pcs[t] == Destroy) ==> t == 0)
    && (t == 0 ==> s.pcs[t] != NotStarted)
    && (t == 0 && Waited(s.pcs[t]) ==> s.signals > 0)
  }

  /** Index i is untouched, held by one thread, or done once. */
  ghost predicate IndexState(c: Config, s: State, i: nat)
    requires Sized(c, s) && i < c.n
  {
    if i >= s.claims then s.begun[i] == 0 && s.ended[i] == 0
    else (s.begun[i] == 1 && s.ended[i] == 1) || exists t :: 0 <= t < |s.pcs| && Holds(s.pcs[t]) == i + 1
  }

  /** The index that thread t holds is claimed, not ended, and begun when it runs. */
  ghost predicate HeldState(c: Config, s: State, t: nat)
    requires Sized(c, s) && t < |s.pcs|
  {
    Holds(s.pcs[t]) > 0 ==>
      var i := Holds(s.pcs[t]) - 1;
      i < s.claims && s.ended[i] == 0 && s.begun[i] == if s.pcs[t].Running? then 1 else 0
  }

  ghost predicate OneHolder(s: State) {
    forall t, u :: 0 <= t < u < |s.pcs| && Holds(s.pcs[t]) > 0 ==> Holds(s.pcs[t]) != Holds(s.pcs[u])
  }

  ghost predicate Owners(c: Config, s: State)
    requires Sized(c, s)
  {
    && OneHolder(s)
    && (forall t :: 0 <= t < |s.pcs| ==> HeldState(c, s, t))
    && (forall i :: 0 <= i < c.n ==> IndexState(c, s, i))
  }

  ghost predicate Inv(c: Config, s: State) {
    && Counters(c, s) && Owners(c, s)
    && forall t :: 0 <= t < |s.pcs| ==> Local(s, t)
  }

  /** The counters of the shared record never wrap: the exact condition under which the
      protocol is correct. */
  ghost predicate NoWrap(c: Config) {
    c.n + c.threads <= c.limit
  }

  lemma InitInv(c: Config)
    requires Legal(c)
    ensures Inv(c, Init(c))
  {
    hide Counters, Total, Wrap;
    InitCounters(c);
    SizedOf(c, Init(c));
  }

  lemma InitCounters(c: Config)
    requires Legal(c)
    ensures Counters(c, Init(c))
  {
    hide Total;
    var s := Init(c);
    TotalUniform(Failed, s.pcs, 0);
    TotalUniform(Work, s.pcs, 0);
    TotalUniform(Signalling, s.pcs, 0);
    TotalUniform(Freeing, s.pcs, 0);
    TotalUniform(Inside, s.pcs, 1);
  }

  // ----- every step keeps the invariant

  /** How the totals change when thread t goes to `pc`. */
  lemma Moved(s: seq<PC>, t: nat, pc: PC)
    requires t < |s|
    ensures Total(Failed, s[t := pc]) + Failed(s[t]) == Total(Failed, s) + Failed(pc)
    ensures Total(Work, s[t := pc]) + Work(s[t]) == Total(Work, s) + Work(pc)
    ensures Total(Signalling, s[t := pc]) + Signalling(s[t]) == Total(Signalling, s) + Signalling(pc)
    ensures Total(Inside, s[t := pc]) + Inside(s[t]) == Total(Inside, s) + Inside(pc)
    ensures Total(Freeing, s[t := pc]) + Freeing(s[t]) == Total(Freeing, s) + Freeing(pc)
    ensures Work(s[t]) <= Total(Work, s) && Inside(s[t]) <= Total(Inside, s) && Failed(s[t]) <= Total(Failed, s)
    ensures Failed(s[t]) == 0 ==> Total(Failed, s) < |s|
  {
    hide Total, Failed, Work, Signalling, Inside, Freeing;
    TotalUpdate(Failed, s, t, pc);
    TotalUpdate(Work, s, t, pc);
    TotalUpdate(Signalling, s, t, pc);
    TotalUpdate(Inside, s, t, pc);
    TotalUpdate(Freeing, s, t, pc);
    FailedAtMost(s, t);
  }

  lemma FailedAtMost(s: seq<PC>, t: nat)
    requires t < |s|
    ensures Failed(s[t]) == 0 ==> Total(Failed, s) < |s|
  {
    hide Total;
    TotalUpdate(Failed, s, t, Gone);
    TotalAtMost(Failed, s[t := Gone]);
  }

  lemma NextMoves(c: Config, s: State, t: nat) returns (pc: PC)
    requires Sized(c, s) && t < |s.pcs| && Enabled(s, t)
    ensures pc == Next(c, s, t).pcs[t] && Next(c, s, t).pcs == s.pcs[t := pc]
  {
    pc := Next(c, s, t).pcs[t];
  }

  /** A claim reads the number of claims made before: da_index has not wrapped. */
  lemma IndexIsClaims(c: Config, s: State, t: nat)
    requires NoWrap(c) && Counters(c, s) && t < |s.pcs| && Failed(s.pcs[t]) == 0
    ensures s.index == s.claims < c.n + c.threads
    ensures s.claims < c.n ==> Total(Failed, s.pcs) == 0
  {
    hide Total, Wrap;
    FailedAtMost(s.pcs, t);
    WrapSmall(s.claims, c.limit);
  }

  lemma ClaimCounters(c: Config, s: State, t: nat)
    requires NoWrap(c) && Counters(c, s) && t < |s.pcs| && (s.pcs[t].FirstClaim? || s.pcs[t].NextClaim?)
    requires Local(s, t)
    ensures Counters(c, Next(c, s, t))
  {
    hide Total, Wrap;
    var pc := NextMoves(c, s, t);
    Moved(s.pcs, t, pc);
    IndexIsClaims(c, s, t);
    NextSized(c, s, t);
  }

  lemma OtherCounters(c: Config, s: State, t: nat)
    requires NoWrap(c) && Counters(c, s) && t < |s.pcs| && Enabled(s, t)
    requires Local(s, t) && !s.pcs[t].FirstClaim? && !s.pcs[t].NextClaim?
    ensures Counters(c, Next(c, s, t))
  {
    hide Total, Wrap;
    var pc := NextMoves(c, s, t);
    Moved(s.pcs, t, pc);
    NextSized(c, s, t);
    if s.pcs[t].Subtract? {
      WrapSmall(s.todo - s.pcs[t].done, c.limit);
    }
  }

  lemma NextSized(c: Config, s: State, t: nat)
    requires Sized(c, s) && t < |s.pcs| && Enabled(s, t)
    ensures Sized(c, Next(c, s, t))
  {
  }

  /** After a step of thread t: t still holds what it held, or nothing, or the next
      unclaimed index. */
  lemma NextHolds(c: Config, s: State, t: nat) returns (pc: PC)
    requires NoWrap(c) && Sized(c, s) && Counters(c, s) && t < |s.pcs| && Enabled(s, t) && HeldState(c, s, t)
    ensures pc == Next(c, s, t).pcs[t] && Next(c, s, t).pcs == s.pcs[t := pc]
    ensures Sized(c, Next(c, s, t)) && s.claims <= Next(c, s, t).claims
    ensures Holds(pc) == 0 || Holds(pc) == Holds(s.pcs[t]) || Holds(pc) == s.claims + 1
    ensures Holds(pc) == s.claims + 1 ==> s.claims < c.n && Next(c, s, t).claims == s.claims + 1
    ensures Holds(pc) > Holds(s.pcs[t]) ==> Holds(pc) == s.claims + 1 && Holds(s.pcs[t]) == 0 && !pc.Running?
    ensures s.claims < Next(c, s, t).claims && s.claims < c.n ==> Holds(pc) == s.claims + 1
  {
    hide Total, Wrap;
    pc := NextMoves(c, s, t);
    NextSized(c, s, t);
    if s.pcs[t].FirstClaim? || s.pcs[t].NextClaim? {
      IndexIsClaims(c, s, t);
    }
  }

  lemma StepOneHolder(c: Config, s: State, t: nat)
    requires NoWrap(c) && Sized(c, s) && Counters(c, s) && Owners(c, s) && t < |s.pcs| && Enabled(s, t)
    ensures OneHolder(Next(c, s, t))
  {
    hide Total, Wrap, Counters, Next, IndexState, Holds;
    assert HeldState(c, s, t);
    var pc := NextHolds(c, s, t);
    var s' := Next(c, s, t);
    forall u, v | 0 <= u < v < |s'.pcs| && Holds(s'.pcs[u]) > 0 ensures Holds(s'.pcs[u]) != Holds(s'.pcs[v]) {
      assert HeldState(c, s, u) && HeldState(c, s, v);
    }
  }

  lemma StepHeld(c: Config, s: State, t: nat, u: nat)
    requires NoWrap(c) && Sized(c, s) && Counters(c, s) && Owners(c, s) && t < |s.pcs| && Enabled(s, t) && u < |s.pcs|
    ensures Sized(c, Next(c, s, t)) && HeldState(c, Next(c, s, t), u)
  {
    hide Total, Wrap, Counters;
    assert HeldState(c, s, u) && HeldState(c, s, t);
    var pc := NextHolds(c, s, t);
    if s.claims < c.n {
      assert IndexState(c, s, s.claims);
    }
  }

  lemma StepIndex(c: Config, s: State, t: nat, i: nat)
    requires NoWrap(c) && Sized(c, s) && Counters(c, s) && Owners(c, s) && t < |s.pcs| && Enabled(s, t) && i < c.n
    ensures Sized(c, Next(c, s, t)) && IndexState(c, Next(c, s, t), i)
  {
    hide Total, Wrap, Counters, OneHolder;
    assert HeldState(c, s, t) && IndexState(c, s, i);
    var pc := NextHolds(c, s, t);
    var s' := Next(c, s, t);
    if i < s.claims && !(s.begun[i] == 1 && s.ended[i] == 1) {
      var u :| 0 <= u < |s.pcs| && Holds(s.pcs[u]) == i + 1;
      assert HeldState(c, s, u);
      assert u != t ==> s'.pcs[u] == s.pcs[u];
    } else if s.claims <= i < s'.claims {
      assert Holds(s'.pcs[t]) == i + 1;
    }
  }

  lemma StepLocal(c: Config, s: State, t: nat, u: nat)
    requires Sized(c, s) && t < |s.pcs| && Enabled(s, t) && u < |s.pcs| && Local(s, t) && Local(s, u)
    ensures Local(Next(c, s, t), u)
  {
    hide Wrap;
    var pc := NextMoves(c, s, t);
  }

  lemma StepInv(c: Config, s: State, t: nat)
    requires NoWrap(c) && Inv(c, s) && t < |s.pcs| && Enabled(s, t)
    ensures Inv(c, Next(c, s, t))
  {
    hide Counters, OneHolder, HeldState, IndexState, Local, Enabled, Next;
    assert Sized(c, s) by { SizedOf(c, s); }
    assert HeldState(c, s, t);
    if s.pcs[t].FirstClaim? || s.pcs[t].NextClaim? {
      ClaimCounters(c, s, t);
    } else {
      OtherCounters(c, s, t);
    }
    StepOneHolder(c, s, t);
    NextSized(c, s, t);
    forall u | 0 <= u < |s.pcs| ensures Local(Next(c, s, t), u) && HeldState(c, Next(c, s, t), u) {
      StepLocal(c, s, t, u);
      StepHeld(c, s, t, u);
    }
    forall i | 0 <= i < c.n ensures IndexState(c, Next(c, s, t), i) {
      StepIndex(c, s, t, i);
    }
  }

  lemma SizedOf(c: Config, s: State)
    requires Counters(c, s)
    ensures Sized(c, s)
  {
  }
}
