/** Any number of threads asking for the flattened bytes of one composite at the same
    time (dispatch_data_get_flattened_bytes_4libxpc in data.c). */
module FlattenRace {
  import opened DataObjects
  import opened Basics

  /** Where a thread stands. A thread that allocated owns the block with its own number
      until it publishes or frees it. */
  datatype PC =
    | Start                      // before loading the cached pointer
    | Missed                     // the pointer was null
    | Walking                    // has allocated; about to walk over the object
    | Copying(source: Option<nat>) // the walk loaded the cached pointer again
    | Swapping                   // about to compare-and-swap the cached pointer
    | Losing(winner: nat)        // the swap found another pointer; about to free
    | Done(result: Option<nat>)  // returned the flat buffer, or NULL

  datatype Block = Unallocated | Allocated(bytes: seq<byte>) | Freed(times: nat)

  /** The cached pointer of the object, the threads, and the block of each thread. */
  datatype State = State(cache: Option<nat>, pcs: seq<PC>, blocks: seq<Block>)

  /** The object is an unflattened composite. */
  ghost predicate Composite(d: DataObject) {
    WellFormed(d) && d.size > 0 && |d.records| >= 2
  }

  ghost predicate Init(s: State) {
    && s.cache == None && |s.blocks| == |s.pcs|
    && (forall t :: 0 <= t < |s.pcs| ==> s.pcs[t] == Start && s.blocks[t] == Unallocated)
  }

  function Goto(s: State, t: nat, pc: PC): State
    requires t < |s.pcs|
  {
    s.(pcs := s.pcs[t := pc])
  }

  function Store(s: State, t: nat, b: Block): State
    requires t < |s.blocks|
  {
    s.(blocks := s.blocks[t := b])
  }

  /** The bytes that a walk over the object copies. */
  ghost function Walked(d: DataObject, s: State, source: Option<nat>): seq<byte> {
    match source
    case None => RecordsBytes(d.records)
    case Some(w) => if w < |s.blocks| && s.blocks[w].Allocated? then s.blocks[w].bytes else []
  }

  /** The thread that steps, and whether malloc has memory for it. */
  datatype Move = Move(t: nat, mallocOk: bool)

  /** One atomic step. */
  ghost predicate Step(d: DataObject, s: State, s': State, m: Move)
    requires m.t < |s.pcs| == |s.blocks|
  {
    var t := m.t;
    match s.pcs[t]
    case Start =>
      s' == if s.cache.Some? then Goto(s, t, Done(s.cache)) else Goto(s, t, Missed)
    case Missed =>
      // malloc of d.size bytes of arbitrary content, or its failure
      if m.mallocOk then
        exists junk: seq<byte> :: |junk| == d.size && s' == Goto(Store(s, t, Allocated(junk)), t, Walking)
      else s' == Goto(s, t, Done(None))
    case Walking =>
      s' == Goto(s, t, Copying(s.cache))
    case Copying(source) =>
      s' == Goto(Store(s, t, Allocated(Walked(d, s, source))), t, Swapping)
    case Swapping =>
      s' == if s.cache == None then Goto(s.(cache := Some(t)), t, Done(Some(t)))
            else Goto(s, t, Losing(s.cache.value))
    case Losing(winner) =>
      s' == Goto(Store(s, t, Freed(match s.blocks[t] case Freed(n) => n + 1 case _ => 1)), t, Done(Some(winner)))
    case Done(_) =>
      s' == s
  }

  /** The block of thread t matches its program counter. */
  ghost predicate BlockFits(d: DataObject, s: State, t: nat)
    requires t < |s.pcs| == |s.blocks|
  {
    match s.pcs[t]
    case Start => s.blocks[t] == Unallocated
    case Missed => s.blocks[t] == Unallocated
    case Walking => s.blocks[t].Allocated?
    case Copying(source) => s.blocks[t].Allocated? && (source.Some? ==> source == s.cache)
    case Swapping => s.blocks[t] == Allocated(RecordsBytes(d.records))
    case Losing(winner) => s.blocks[t].Allocated? && s.cache == Some(winner) && winner != t
    case Done(result) =>
      && (result.Some? ==> result == s.cache)
      && (result == None ==> s.blocks[t] == Unallocated)
      && (result.Some? && result.value != t ==> s.blocks[t] == Unallocated || s.blocks[t] == Freed(1))
  }

  ghost predicate Inv(d: DataObject, s: State) {
    && |s.blocks| == |s.pcs|
    && (forall t :: 0 <= t < |s.pcs| ==> BlockFits(d, s, t))
    && (s.cache.Some? ==>
          && s.cache.value < |s.pcs|
          && s.pcs[s.cache.value] == Done(s.cache)
          && s.blocks[s.cache.value] == Allocated(RecordsBytes(d.records)))
  }

  lemma InitInv(d: DataObject, s: State)
    requires Init(s)
    ensures Inv(d, s)
  {
  }

  /** What a walk copies is the meaning of the object, whether it reads the records or
      the buffer that another thread has published meanwhile. */
  lemma WalkedMeaning(d: DataObject, s: State, t: nat, source: Option<nat>)
    requires Inv(d, s) && t < |s.pcs| && s.pcs[t] == Copying(source)
    ensures Walked(d, s, source) == RecordsBytes(d.records)
    ensures source.Some? ==> source.value < |s.blocks| && source.value != t && s.blocks[source.value].Allocated?
  {
    assert BlockFits(d, s, t);
  }

  lemma StepInv(d: DataObject, s: State, s': State, m: Move)
    requires Inv(d, s) && m.t < |s.pcs| && Step(d, s, s', m)
    ensures Inv(d, s')
  {
    hide RecordsBytes;
    assert BlockFits(d, s, m.t);
    if s.pcs[m.t].Copying? {
      WalkedMeaning(d, s, m.t, s.pcs[m.t].source);
    }
    forall u | 0 <= u < |s'.pcs| ensures BlockFits(d, s', u) {
      assert BlockFits(d, s, u);
    }
  }

  ghost predicate StepOf(d: DataObject, s: State, s': State, m: Move) {
    m.t < |s.pcs| == |s.blocks| && Step(d, s, s', m)
  }

  /** A run: one step of some thread after the other. */
  ghost predicate Run(d: DataObject, run: seq<State>, moves: seq<Move>) {
    && |run| == |moves| + 1 && Init(run[0])
    && forall k :: 0 <= k < |moves| ==> StepOf(d, run[k], run[k + 1], moves[k])
  }

  lemma {:induction false} RunInv(d: DataObject, run: seq<State>, moves: seq<Move>, i: nat)
    requires Run(d, run, moves) && i < |run|
    ensures Inv(d, run[i])
    decreases i
  {
    hide Inv, Step, Init;
    if i == 0 {
      InitInv(d, run[0]);
    } else {
      RunInv(d, run, moves, i - 1);
      assert StepOf(d, run[i - 1], run[i - 1 + 1], moves[i - 1]);
      StepInv(d, run[i - 1], run[i], moves[i - 1]);
    }
  }

  /** Once a buffer is published it stays, with its content. */
  lemma StepKeepsPublished(d: DataObject, s: State, s': State, m: Move)
    requires Inv(d, s) && m.t < |s.pcs| && Step(d, s, s', m) && s.cache.Some?
    ensures |s'.blocks| == |s.blocks| && s.cache.value < |s.blocks|
    ensures s'.cache == s.cache && s'.blocks[s.cache.value] == s.blocks[s.cache.value]
  {
    assert BlockFits(d, s, m.t);
    assert s.pcs[s.cache.value].Done?;
  }

  lemma CacheInBlocks(d: DataObject, s: State)
    requires Inv(d, s) && s.cache.Some?
    ensures s.cache.value < |s.blocks|
  {
  }

  lemma {:induction false} PublishedForever(d: DataObject, run: seq<State>, moves: seq<Move>, i: nat, j: nat)
    requires Run(d, run, moves) && i <= j < |run| && run[i].cache.Some?
    ensures run[j].cache == run[i].cache
    ensures |run[i].blocks| == |run[j].blocks| && run[i].cache.value < |run[i].blocks|
    ensures run[j].blocks[run[i].cache.value] == run[i].blocks[run[i].cache.value]
    decreases j
  {
    hide Inv, Step, Init;
    RunInv(d, run, moves, i);
    CacheInBlocks(d, run[i]);
    if i < j {
      PublishedForever(d, run, moves, i, j - 1);
      RunInv(d, run, moves, j - 1);
      assert StepOf(d, run[j - 1], run[j - 1 + 1], moves[j - 1]);
      StepKeepsPublished(d, run[j - 1], run[j], moves[j - 1]);
    }
  }

  /** In every run, two threads that got a buffer at any two moments got the same one;
      it holds the bytes of the object and is never freed. */
  lemma AllGetTheSame(d: DataObject, run: seq<State>, moves: seq<Move>, i: nat, j: nat, t: nat, u: nat)
    requires Composite(d) && Run(d, run, moves) && i <= j < |run| && t < |run[i].pcs| && u < |run[j].pcs|
    requires run[i].pcs[t].Done? && run[i].pcs[t].result.Some?
    requires run[j].pcs[u].Done? && run[j].pcs[u].result.Some?
    ensures run[i].pcs[t].result == run[j].pcs[u].result
    ensures var w := run[i].pcs[t].result.value;
      w < |run[j].blocks| && run[j].blocks[w] == Allocated(Bytes(d))
  {
    RunInv(d, run, moves, i);
    RunInv(d, run, moves, j);
    assert BlockFits(d, run[i], t) && BlockFits(d, run[j], u);
    PublishedForever(d, run, moves, i, j);
  }

  /** In every run, a thread that has returned and allocated either published its block
      or freed it exactly once; a thread that returned NULL has none. */
  lemma LosersFreeOnce(d: DataObject, run: seq<State>, moves: seq<Move>, i: nat, t: nat)
    requires Run(d, run, moves) && i < |run| && t < |run[i].pcs| && run[i].pcs[t].Done?
    ensures |run[i].blocks| == |run[i].pcs|
    ensures run[i].blocks[t] == Unallocated || run[i].blocks[t] == Freed(1) || run[i].cache == Some(t)
    ensures run[i].pcs[t].result == None ==> run[i].blocks[t] == Unallocated
    ensures run[i].cache == Some(t) ==> run[i].blocks[t].Allocated?
  {
    RunInv(d, run, moves, i);
    assert BlockFits(d, run[i], t);
  }

  /** In every run, no step reads a freed block: the source of a copy and the block that
      a loser frees are allocated at that moment. */
  lemma NoUseAfterFree(d: DataObject, run: seq<State>, moves: seq<Move>, i: nat, t: nat)
    requires Run(d, run, moves) && i < |run| && t < |run[i].pcs|
    ensures |run[i].blocks| == |run[i].pcs|
    ensures run[i].pcs[t].Copying? && run[i].pcs[t].source.Some? ==>
      run[i].pcs[t].source.value < |run[i].blocks| && run[i].blocks[run[i].pcs[t].source.value].Allocated?
    ensures run[i].pcs[t].Losing? ==> run[i].blocks[t].Allocated? && run[i].cache != Some(t)
  {
    RunInv(d, run, moves, i);
    assert BlockFits(d, run[i], t);
  }

  /** Before, during and after the race the object means the same: a walk over it at any
      moment, with or without the published buffer, sees Bytes(d). */
  lemma MeaningUnchanged(d: DataObject, run: seq<State>, moves: seq<Move>, i: nat, flat: Buffer)
    requires Composite(d) && Run(d, run, moves) && i < |run| && run[i].cache.Some?
    requires run[i].cache.value < |run[i].blocks| ==> run[i].blocks[run[i].cache.value] == Allocated(flat.bytes)
    ensures GoodCache(d, flat) && TilesBytes(Tiles(d, flat)) == Bytes(d) == TilesBytes(Tiles(d, null))
  {
    RunInv(d, run, moves, i);
    TilesMeaning(d, flat);
    TilesMeaning(d, null);
  }

  // ----- every thread gets its answer

  /** A bound on the steps that a thread at this place still has to take. */
  function StepsLeft(pc: PC): nat {
    match pc
    case Start => 6
    case Missed => 5
    case Walking => 4
    case Copying(_) => 3
    case Swapping => 2
    case Losing(_) => 1
    case Done(_) => 0
  }

  /** How many of the steps from j up to k are thread t's own. */
  ghost function OwnSteps(moves: seq<Move>, j: nat, k: nat, t: nat): nat
    requires j <= k <= |moves|
  {
    if j == k then 0 else OwnSteps(moves, j, k - 1, t) + if moves[k - 1].t == t then 1 else 0
  }

  lemma StepAt(d: DataObject, s: State, s': State, m: Move, t: nat)
    requires StepOf(d, s, s', m) && t < |s.pcs|
    ensures |s'.pcs| == |s.pcs| && |s'.blocks| == |s.blocks|
    ensures m.t != t ==> s'.pcs[t] == s.pcs[t]
    ensures m.t == t && !s.pcs[t].Done? ==> StepsLeft(s'.pcs[t]) < StepsLeft(s.pcs[t])
    ensures s.pcs[t].Done? ==> s'.pcs[t] == s.pcs[t]
    ensures s'.pcs[t] == Done(None) <==> s.pcs[t] == Done(None) || (s.pcs[t] == Missed && m == Move(t, false))
  {
    hide Walked;
  }

  /** In every run, the call of a thread is over after a bounded number of its own steps,
      six from its start and four once it has allocated, whatever the others do; and a
      thread that has allocated gets a buffer. */
  lemma {:induction false} CallEnds(d: DataObject, run: seq<State>, moves: seq<Move>, j: nat, k: nat, t: nat)
    requires Run(d, run, moves) && j <= k < |run| && t < |run[j].pcs|
    ensures |run[k].pcs| == |run[j].pcs|
    ensures StepsLeft(run[j].pcs[t]) <= OwnSteps(moves, j, k, t) ==> run[k].pcs[t].Done?
    ensures 0 < StepsLeft(run[j].pcs[t]) <= 4 ==> run[k].pcs[t] != Done(None)
    ensures run[k].pcs[t].Done? || StepsLeft(run[k].pcs[t]) + OwnSteps(moves, j, k, t) <= StepsLeft(run[j].pcs[t])
    ensures StepsLeft(run[k].pcs[t]) <= StepsLeft(run[j].pcs[t])
    decreases k
  {
    hide Step, Init;
    if j < k {
      CallEnds(d, run, moves, j, k - 1, t);
      assert StepOf(d, run[k - 1], run[k - 1 + 1], moves[k - 1]);
      StepAt(d, run[k - 1], run[k], moves[k - 1], t);
    }
  }

  /** A step of thread t in which malloc has no memory for it. */
  ghost predicate NoMemory(s: State, m: Move, t: nat) {
    m == Move(t, false) && t < |s.pcs| && s.pcs[t] == Missed
  }

  /** In every run, a thread has returned NULL if and only if its own malloc had no memory. */
  lemma {:induction false} NullIffNoMemory(d: DataObject, run: seq<State>, moves: seq<Move>, k: nat, t: nat)
    requires Run(d, run, moves) && k < |run| && t < |run[k].pcs|
    ensures run[k].pcs[t] == Done(None) <==> exists i :: 0 <= i < k && NoMemory(run[i], moves[i], t)
    decreases k
  {
    hide Step;
    if k > 0 {
      assert StepOf(d, run[k - 1], run[k - 1 + 1], moves[k - 1]);
      SameThreads(d, run[k - 1], run[k], moves[k - 1]);
      StepAt(d, run[k - 1], run[k], moves[k - 1], t);
      NullIffNoMemory(d, run, moves, k - 1, t);
    }
  }

  lemma SameThreads(d: DataObject, s: State, s': State, m: Move)
    requires StepOf(d, s, s', m)
    ensures |s'.pcs| == |s.pcs|
  {
    hide Walked;
  }

  /** In every run, a thread that loads a published pointer returns that buffer. */
  lemma {:induction false} LoadedIsReturned(d: DataObject, run: seq<State>, moves: seq<Move>, i: nat, k: nat)
    requires Run(d, run, moves) && i < k < |run| && moves[i].t < |run[i].pcs|
    requires run[i].pcs[moves[i].t] == Start && run[i].cache.Some?
    ensures |run[k].pcs| == |run[i].pcs| && run[k].pcs[moves[i].t] == Done(run[i].cache)
    decreases k
  {
    assert StepOf(d, run[k - 1], run[k - 1 + 1], moves[k - 1]);
    if i < k - 1 {
      hide Step;
      LoadedIsReturned(d, run, moves, i, k - 1);
      StepAt(d, run[k - 1], run[k], moves[k - 1], moves[i].t);
    }
  }

  /** The run goes on with steps of thread t alone, with memory. */
  ghost predicate Extends(d: DataObject, run: seq<State>, moves: seq<Move>, run': seq<State>, moves': seq<Move>,
                          t: nat)
  {
    && Run(d, run', moves') && run <= run' && moves <= moves'
    && forall i :: |moves| <= i < |moves'| ==> moves'[i] == Move(t, true)
  }

  /** From every reachable state, a thread that has not returned gets a buffer by its own
      steps alone while there is memory: the published one, and its own if there is none. */
  lemma {:induction false} GetsTheBuffer(d: DataObject, run: seq<State>, moves: seq<Move>, t: nat)
    returns (run': seq<State>, moves': seq<Move>)
    requires Run(d, run, moves) && t < |run[|moves|].pcs| && !run[|moves|].pcs[t].Done?
    ensures Extends(d, run, moves, run', moves', t)
    ensures run'[|moves'|].cache == if run[|moves|].cache.Some? then run[|moves|].cache else Some(t)
    ensures |run'[|moves'|].pcs| == |run[|moves|].pcs| && run'[|moves'|].pcs[t] == Done(run'[|moves'|].cache)
    decreases StepsLeft(run[|moves|].pcs[t])
  {
    hide Init, Step, StepsLeft;
    var s := run[|moves|];
    RunInv(d, run, moves, |moves|);
    var s' := Onwards(d, s, t);
    AppendStep(d, run, moves, s', Move(t, true));
    var longer, more := run + [s'], moves + [Move(t, true)];
    StepAt(d, s, s', Move(t, true), t);
    if s'.pcs[t].Done? {
      run', moves' := longer, more;
    } else {
      run', moves' := GetsTheBuffer(d, longer, more, t);
    }
  }

  /** The step that thread t takes next when there is memory. */
  lemma Onwards(d: DataObject, s: State, t: nat) returns (s': State)
    requires Inv(d, s) && t < |s.pcs| && !s.pcs[t].Done?
    ensures StepOf(d, s, s', Move(t, true)) && |s'.pcs| == |s.pcs|
    ensures s'.cache == if s.cache == None && s.pcs[t] == Swapping then Some(t) else s.cache
    ensures s'.pcs[t].Done? ==> s'.pcs[t] == Done(s'.cache) && s'.cache.Some?
    ensures !s'.pcs[t].Done? && s.pcs[t] == Swapping ==> s.cache.Some?
    ensures s.pcs[t].Losing? ==> s.cache.Some?
  {
    assert BlockFits(d, s, t);
    match s.pcs[t]
    case Start => s' := if s.cache.Some? then Goto(s, t, Done(s.cache)) else Goto(s, t, Missed);
    case Missed =>
      var junk := seq(d.size, _ => 0);
      s' := Goto(Store(s, t, Allocated(junk)), t, Walking);
    case Walking => s' := Goto(s, t, Copying(s.cache));
    case Copying(source) => s' := Goto(Store(s, t, Allocated(Walked(d, s, source))), t, Swapping);
    case Swapping =>
      s' := if s.cache == None then Goto(s.(cache := Some(t)), t, Done(Some(t)))
            else Goto(s, t, Losing(s.cache.value));
    case Losing(winner) => s' := Goto(Store(s, t, Freed(1)), t, Done(Some(winner)));
  }

  lemma AppendStep(d: DataObject, run: seq<State>, moves: seq<Move>, s': State, m: Move)
    requires Run(d, run, moves) && StepOf(d, run[|moves|], s', m)
    ensures Run(d, run + [s'], moves + [m]) && (run + [s'])[|moves + [m]|] == s'
  {
    hide Step, Init;
    var longer, more := run + [s'], moves + [m];
    forall k | 0 <= k < |more| ensures StepOf(d, longer[k], longer[k + 1], more[k]) {
      if k < |moves| {
        assert StepOf(d, run[k], run[k + 1], moves[k]);
      }
    }
  }
}
