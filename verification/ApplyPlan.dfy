/** How dispatch_apply_f plans the number of threads, and what nesting does to it. */
module ApplyPlan {
  import opened Basics
  import opened Powers
  import ApplyProtocol

  const APPLY_MAX: nat := 65535

  /** A call of dispatch_apply. `serialQueue` says that the queue forces the serial path,
      whatever the thread count: its width is 1, or the call already runs on it. `granted`
      is the width that the queues between it and the root grant to the call when it asks;
      on a root queue nobody is asked, which is a grant of all that the call wants. */
  datatype Call = Call(iterations: nat, serialQueue: bool, granted: nat)

  /** What is left of the parallelism inside of other calls. */
  function Share(parallelism: nat, nested: nat): nat
    requires nested > 0
  {
    if nested < parallelism then parallelism / nested else 1
  }

  /** da_thr_cnt as dispatch_apply_f computes it; `nested` is 0 outside of any apply. */
  function ThreadCount(parallelism: nat, nested: nat, iterations: nat): nat {
    var share := if nested == 0 then parallelism else Share(parallelism, nested);
    if iterations < share then iterations else share
  }

  /** da_nested: the iterations of all enclosing calls multiplied, or the maximum. */
  function Nesting(nested: nat, iterations: nat): nat {
    if nested == 0 then iterations
    else if nested < APPLY_MAX && iterations < APPLY_MAX then nested * iterations else APPLY_MAX
  }

  predicate RunsSerially(parallelism: nat, nested: nat, call: Call) {
    call.serialQueue || ThreadCount(parallelism, nested, call.iterations) <= 1 || call.granted == 0
  }

  /** The threads of a call that does not run serially: the caller, and one for each width
      that it wants and is granted. */
  function Threads(parallelism: nat, nested: nat, call: Call): (t: nat)
    requires !RunsSerially(parallelism, nested, call)
    ensures 2 <= t <= ThreadCount(parallelism, nested, call.iterations)
  {
    Min(ThreadCount(parallelism, nested, call.iterations) - 1, call.granted) + 1
  }

  /** Threads at work when `calls` are nested in each other, the outermost first. The
      serial path uses one thread and leaves the nesting of the thread alone. */
  function ThreadsAtWork(parallelism: nat, nested: nat, calls: seq<Call>): nat
    decreases |calls|
  {
    if calls == [] then 1
    else if calls[0].iterations == 0 then 1
    else if RunsSerially(parallelism, nested, calls[0]) then ThreadsAtWork(parallelism, nested, calls[1..])
    else
      Threads(parallelism, nested, calls[0])
      * ThreadsAtWork(parallelism, Nesting(nested, calls[0].iterations), calls[1..])
  }

  lemma ShareTimes(p: nat, n: nat, t: nat)
    requires 0 < n && t <= p / n
    ensures n * t <= p
  {
    var q, r := Divide(p, n);
    TimesMonotone(t, q, n);
  }

  /** The plan is the largest there is: it allows t threads exactly when there is work for
      them and they stay within the parallelism, that of the enclosing calls counted in. One
      thread is always allowed. */
  lemma PlanIsLargest(p: nat, nested: nat, n: nat, t: nat)
    requires p > 0
    ensures t <= ThreadCount(p, nested, n) <==> t <= n && (t <= 1 || (if nested == 0 then 1 else nested) * t <= p)
  {
    hide Share;
    if nested > 0 {
      ShareIff(p, nested, t);
    }
  }

  lemma ShareIff(p: nat, n: nat, t: nat)
    requires 0 < n && 0 < p
    ensures t <= Share(p, n) <==> t <= 1 || n * t <= p
  {
    if n < p {
      var q, r := Divide(p, n);
      if t <= q {
        TimesMonotone(t, q, n);
      } else {
        TimesMonotone(q + 1, t, n);
        Distribute(q, 1, n);
      }
      TimesMonotone(1, q, n);
    } else if t > 1 {
      TimesMonotone(2, t, n);
    }
  }

  /** A chain of calls in which no queue forces the serial path and everybody gets all the
      width that is wanted. */
  predicate Unhindered(calls: seq<Call>) {
    forall k :: 0 <= k < |calls| ==>
      calls[k].iterations > 0 && !calls[k].serialQueue && calls[k].granted >= calls[k].iterations - 1
  }

  /** How often the innermost work runs. */
  function AllIterations(calls: seq<Call>): nat {
    if calls == [] then 1 else calls[0].iterations * AllIterations(calls[1..])
  }

  lemma {:induction false} WorkThere(calls: seq<Call>)
    requires Unhindered(calls)
    ensures AllIterations(calls) > 0
  {
    if calls != [] {
      WorkThere(calls[1..]);
      TimesMonotone(1, calls[0].iterations, AllIterations(calls[1..]));
    }
  }

  /** The recorded nesting never exceeds the iterations outside. */
  lemma NestingBelow(nested: nat, n: nat)
    requires n > 0
    ensures 0 < nested ==> 0 < Nesting(nested, n) <= nested * n
    ensures nested == 0 ==> Nesting(nested, n) == n
  {
    if nested > 0 {
      TimesMonotone(1, n, nested);
      TimesMonotone(1, nested, n);
    }
  }

  /** Nested calls with no more iterations in all than the parallelism get a thread for
      every iteration, at any depth. */
  lemma {:induction false} EveryIterationItsThread(p: nat, nested: nat, calls: seq<Call>)
    requires Unhindered(calls) && (if nested == 0 then 1 else nested) * AllIterations(calls) <= p
    ensures ThreadsAtWork(p, nested, calls) == AllIterations(calls)
    decreases |calls|
  {
    if calls != [] {
      hide ThreadCount, Nesting;
      var call, rest := calls[0], calls[1..];
      var above := if nested == 0 then 1 else nested;
      WorkThere(rest);
      TimesAssociative(above, call.iterations, AllIterations(rest));
      TimesMonotone(1, call.iterations, AllIterations(rest));
      LevelGetsAll(p, nested, call, AllIterations(rest));
      NestingBelow(nested, call.iterations);
      if RunsSerially(p, nested, call) {
        EveryIterationItsThread(p, nested, rest);
      } else {
        TimesMonotone(Nesting(nested, call.iterations), above * call.iterations, AllIterations(rest));
        EveryIterationItsThread(p, Nesting(nested, call.iterations), rest);
      }
    }
  }

  /** One level, above `inner` iterations. */
  lemma LevelGetsAll(p: nat, nested: nat, call: Call, inner: nat)
    requires Unhindered([call]) && inner > 0
    requires (if nested == 0 then 1 else nested) * call.iterations * inner <= p
    ensures ThreadCount(p, nested, call.iterations) == call.iterations
    ensures RunsSerially(p, nested, call) <==> call.iterations == 1
    ensures !RunsSerially(p, nested, call) ==> Threads(p, nested, call) == call.iterations
  {
    hide ThreadCount;
    assert [call][0] == call;
    var above := if nested == 0 then 1 else nested;
    TimesMonotone(1, inner, above * call.iterations);
    TimesMonotone(1, above, call.iterations);
    PlanIsLargest(p, nested, call.iterations, call.iterations);
    PlanIsLargest(p, nested, call.iterations, call.iterations + 1);
  }

  /** An outermost call with at least as many iterations as the parallelism puts exactly that
      many threads to work when it is granted them all; otherwise the caller works, and one
      thread for each granted width. */
  lemma GrantIsUsed(p: nat, call: Call)
    requires p > 0 && call.iterations >= p && !call.serialQueue
    ensures ThreadsAtWork(p, 0, [call]) == if call.granted >= p - 1 then p else call.granted + 1
  {
    assert [call][1..] == [];
  }

  /** With `above` threads already at work outside, the rest of the chain keeps the total
      within the parallelism. */
  lemma {:induction false} ChainWithin(p: nat, nested: nat, calls: seq<Call>, above: nat)
    requires 0 < p < 2 * APPLY_MAX && 0 < above <= p
    requires nested == 0 ==> above == 1
    requires nested > 0 ==> above <= nested || nested == APPLY_MAX
    ensures above * ThreadsAtWork(p, nested, calls) <= p
    decreases |calls|
  {
    hide ThreadCount, Threads, Nesting, RunsSerially;
    if calls != [] && calls[0].iterations > 0 {
      var call := calls[0];
      if RunsSerially(p, nested, call) {
        ChainWithin(p, nested, calls[1..], above);
      } else {
        var t := Threads(p, nested, call);
        LevelWithin(p, nested, call, above);
        var inner := ThreadsAtWork(p, Nesting(nested, call.iterations), calls[1..]);
        ChainWithin(p, Nesting(nested, call.iterations), calls[1..], above * t);
        TimesAssociative(above, t, inner);
      }
    }
  }

  lemma LevelWithin(p: nat, nested: nat, call: Call, above: nat)
    requires 0 < p < 2 * APPLY_MAX && 0 < above <= p && call.iterations > 0
    requires nested == 0 ==> above == 1
    requires nested > 0 ==> above <= nested || nested == APPLY_MAX
    requires !RunsSerially(p, nested, call)
    ensures 0 < above * Threads(p, nested, call) <= p
    ensures 0 < Nesting(nested, call.iterations)
    ensures above * Threads(p, nested, call) <= Nesting(nested, call.iterations)
      || Nesting(nested, call.iterations) == APPLY_MAX
  {
    hide Threads;
    var t := Threads(p, nested, call);
    if nested > 0 {
      ShareTimes(p, nested, t);
      TimesMonotone(2, t, nested);
      TimesMonotone(above, nested, t);
      TimesMonotone(t, call.iterations, nested);
      TimesMonotone(1, above, t);
    }
  }

  /** Nested parallel applies never put more threads to work than the parallelism asked
      for, at any depth, if and only if that is below twice DISPATCH_APPLY_MAX, where the
      saturated nesting still leaves a share of one thread. */
  lemma NestingKeepsParallelismIff(p: nat)
    requires p > 0
    ensures p < 2 * APPLY_MAX <==> forall calls: seq<Call> :: ThreadsAtWork(p, 0, calls) <= p
  {
    if p < 2 * APPLY_MAX {
      forall calls: seq<Call> ensures ThreadsAtWork(p, 0, calls) <= p {
        ChainWithin(p, 0, calls, 1);
      }
    } else {
      SaturationExceeds(p);
    }
  }

  /** Three levels: the second saturates the nesting, the third takes its share again. */
  lemma SaturationExceeds(p: nat)
    requires p >= 2 * APPLY_MAX
    ensures exists calls: seq<Call> :: ThreadsAtWork(p, 0, calls) > p
  {
    var q := p / APPLY_MAX;
    var inner := [Call(q, false, p)];
    var middle := [Call(q, false, p)] + inner;
    var calls := [Call(APPLY_MAX, false, p)] + middle;
    assert inner[1..] == [] && middle[1..] == inner && calls[1..] == middle;
    assert Nesting(APPLY_MAX, q) == APPLY_MAX;
    assert ThreadCount(p, APPLY_MAX, q) == q;
    assert ThreadsAtWork(p, APPLY_MAX, inner) == q * ThreadsAtWork(p, APPLY_MAX, []);
    assert ThreadsAtWork(p, APPLY_MAX, middle) == q * q;
    assert ThreadsAtWork(p, 0, calls) == APPLY_MAX * (q * q);
    TimesMonotone(2, q, q);
    assert APPLY_MAX * (q * q) >= APPLY_MAX * (q + 1) > p;
  }

  /** The parallel path, on a root queue or after the redirection has lowered the thread
      count to what was granted, starts from a configuration for which the protocol is
      proved. */
  lemma ParallelPathIsLegal(parallelism: nat, nested: nat, call: Call, limit: nat)
    requires 0 < call.iterations < limit && !RunsSerially(parallelism, nested, call)
    ensures ApplyProtocol.Legal(ApplyProtocol.Config(call.iterations, Threads(parallelism, nested, call), limit))
  {
  }
}
