/** When iterations plus threads exceed SIZE_MAX + 1, da_index can wrap and an index can
    be handed out twice: the exact limit of what parallel dispatch_apply promises. */
module ApplyWrap {
  import opened Totals
  import opened ApplyProtocol
  import opened ApplyRuns

  /** The caller stands at `caller`, workers 1 .. left have left, the others have not
      started. */
  function Places(c: Config, caller: PC, left: nat): (s: seq<PC>)
    ensures |s| == c.threads
  {
    seq(c.threads, t => if t == 0 then caller else if t <= left then Leave else NotStarted)
  }

  /** Ones up to k. */
  function Upto(n: nat, k: nat): (s: seq<nat>)
    ensures |s| == n
  {
    seq(n, i => if i < k then 1 else 0)
  }

  /** The caller alone has run indices 0 .. k - 1 and is about to claim again. */
  function Alone(c: Config, k: nat): State {
    State(k, c.n, c.threads, Places(c, NextClaim(k), 0), k, 0, 0, Upto(c.n, k), Upto(c.n, k))
  }

  /** Then the caller has failed to claim, and so have workers 1 .. left. */
  function Drained(c: Config, left: nat): State
    requires c.limit > 0
  {
    State(Wrap(c.n + 1 + left, c.limit), c.n, c.threads, Places(c, Subtract(c.n), left),
          c.n + 1 + left, 0, 0, Upto(c.n, c.n), Upto(c.n, c.n))
  }

  lemma StepTo(c: Config, s: State, t: nat, s': State)
    requires Legal(c) && Reachable(c, s) && Sized(c, s) && t < |s.pcs| && Enabled(s, t)
    requires s'.pcs == Next(c, s, t).pcs && s'.begun == Next(c, s, t).begun && s'.ended == Next(c, s, t).ended
    requires s'.(pcs := [], begun := [], ended := []) == Next(c, s, t).(pcs := [], begun := [], ended := [])
    ensures Reachable(c, s')
  {
    hide Reachable, Next, Sized, Enabled, Legal;
    ReachableStep(c, s, t);
  }

  /** Having claimed index k, the caller runs it. */
  lemma CallerRunsOne(c: Config, k: nat)
    requires Legal(c) && k < c.n
    requires Reachable(c, Alone(c, k).(index := k + 1, claims := k + 1, pcs := Places(c, Call(k, k), 0)))
    ensures Reachable(c, Alone(c, k + 1))
  {
    hide Reachable;
    var called := Alone(c, k).(index := k + 1, claims := k + 1, pcs := Places(c, Call(k, k), 0));
    var running := called.(begun := Upto(c.n, k + 1), pcs := Places(c, Running(k, k), 0));
    StepTo(c, called, 0, running);
    StepTo(c, running, 0, Alone(c, k + 1));
  }

  lemma {:induction false} CallerRuns(c: Config, k: nat)
    requires Legal(c) && 1 <= k <= c.n
    ensures Reachable(c, Alone(c, k))
  {
    hide Reachable, Wrap;
    if k == 1 {
      WrapSmall(1, c.limit);
      ReachableInit(c);
      var claimed := Alone(c, 0).(index := 1, claims := 1, pcs := Places(c, ReadDc(0), 0));
      StepTo(c, Init(c), 0, claimed);
      StepTo(c, claimed, 0, claimed.(pcs := Places(c, Call(0, 0), 0)));
    } else {
      CallerRuns(c, k - 1);
      WrapSmall(k, c.limit);
      StepTo(c, Alone(c, k - 1), 0, Alone(c, k - 1).(index := k, claims := k, pcs := Places(c, Call(k - 1, k - 1), 0)));
    }
    CallerRunsOne(c, k - 1);
  }

  /** As long as da_index has not wrapped, every further claim fails. */
  lemma {:induction false} WorkersFail(c: Config, left: nat)
    requires Legal(c) && left < c.threads && c.n + left < c.limit
    ensures Reachable(c, Drained(c, left))
  {
    hide Reachable, Wrap;
    if left == 0 {
      CallerRuns(c, c.n);
      StepTo(c, Alone(c, c.n), 0, Drained(c, 0));
    } else {
      WorkersFail(c, left - 1);
      WorkerFails(c, left);
    }
  }

  lemma WorkerFails(c: Config, w: nat)
    requires Legal(c) && 0 < w < c.threads && c.n + w < c.limit && Reachable(c, Drained(c, w - 1))
    ensures Reachable(c, Drained(c, w))
  {
    hide Reachable, Wrap;
    var before := Drained(c, w - 1);
    WrapSmall(c.n + w, c.limit);
    var started := before.(pcs := before.pcs[w := FirstClaim]);
    StepTo(c, before, w, started);
    StepTo(c, started, w, Drained(c, w));
  }

  /** Index 0 is begun a second time, after the caller has finished every index. */
  lemma WrapRunsTwice(c: Config) returns (s: State)
    requires Legal(c) && !NoWrap(c)
    ensures Reachable(c, s) && |s.begun| == c.n && s.begun[0] == 2
  {
    hide Reachable, Wrap;
    var left := c.limit - c.n - 1;
    WorkersFail(c, left);
    var drained := Drained(c, left);
    assert drained.index == 0 by {
      WrapAround(c.limit);
    }
    WrapSmall(1, c.limit);
    var w := left + 1;
    var started := drained.(pcs := drained.pcs[w := FirstClaim]);
    var claimed := started.(index := 1, claims := c.limit + 1, pcs := drained.pcs[w := ReadDc(0)]);
    var called := claimed.(pcs := drained.pcs[w := Call(0, 0)]);
    s := called.(begun := called.begun[0 := 2], pcs := drained.pcs[w := Running(0, 0)]);
    StepTo(c, drained, w, started);
    StepTo(c, started, w, claimed);
    StepTo(c, claimed, w, called);
    StepTo(c, called, w, s);
  }

  lemma WrapAround(limit: nat)
    requires limit > 0
    ensures Wrap(limit, limit) == 0
  {
  }

  ghost predicate NoneTwice(s: State) {
    forall i :: 0 <= i < |s.begun| ==> s.begun[i] <= 1
  }

  /** Every schedule begins every index at most once if and only if iterations plus
      threads do not exceed SIZE_MAX + 1. */
  lemma AtMostOnceIff(c: Config)
    requires Legal(c)
    ensures NoWrap(c) <==> forall s :: Reachable(c, s) ==> NoneTwice(s)
  {
    hide Reachable;
    if NoWrap(c) {
      forall s | Reachable(c, s) ensures NoneTwice(s) {
        ReachableInv(c, s);
        SizedOf(c, s);
        forall i | 0 <= i < |s.begun| ensures s.begun[i] <= 1 {
          AtMostOnce(c, s, i);
        }
      }
    } else {
      var s := WrapRunsTwice(c);
      assert !NoneTwice(s);
    }
  }
}
