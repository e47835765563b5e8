/** Parallel apply on a queue that is not a root: it reserves width on every queue of the
    target chain and gives back what the narrowest queue cannot match (apply.c). */
module ApplyRedirect {
  import opened Basics
  import opened QueueWidth

  class Queue {
    const width: nat          // dq_width
    const target: Queue?      // do_targetq
    const theirs: nat -> nat  // what the other threads alone make of dq_state, step by step
    var steps: nat            // atomic steps that this call has made on the queue
    var mine: nat             // width that this call holds on the queue
    var state: nat            // dq_state

    constructor (width: nat, target: Queue?, theirs: nat -> nat)
      ensures this.width == width && this.target == target && this.theirs == theirs
      ensures Sound() && mine == 0 && steps == 0
    {
      this.width, this.target, this.theirs := width, target, theirs;
      steps, mine, state := 0, 0, With(theirs(0), 0);
    }

    /** The word is what the other threads made of it plus the width this call holds. */
    predicate Sound()
      reads this
    {
      state == With(theirs(steps), mine)
    }

    /** Between two atomic steps of this call the other threads do what they like; none of
        them takes back the width that this call holds. */
    method Interfere()
      requires Sound()
      modifies this`steps, this`state
      ensures Sound() && steps == old(steps) + 1
    {
      steps := steps + 1;
      state := With(theirs(steps), mine);
    }

    /** The width that the queue has for this call in its next atomic step. */
    function Offer(): nat
      reads this
    {
      if width == 1 then 0 else AvailableWidth(With(theirs(steps + 1), mine))
    }

    /** _dispatch_queue_try_reserve_apply_width: adds as much of the wanted width to the
        word as the queue has, in one atomic step, and changes nothing else in it. */
    method TryReserve(wanted: nat) returns (got: nat)
      requires Sound() && wanted > 0
      modifies this
      ensures Sound() && mine == old(mine) + got && got == Min(wanted, old(Offer()))
      ensures steps == old(steps) + if width == 1 then 0 else 1
      ensures got > 0 ==> AvailableWidth(state) == old(Offer()) - got && WidthBits(state) <= WIDTH_FULL
      ensures got > 0 ==> OtherBits(state) == OtherBits(With(theirs(steps), old(mine)))
    {
      hide WidthBits, OtherBits, With;
      if width == 1 {
        return 0;
      }
      Interfere();
      assert state < WORD by { WithInWord(theirs(steps), mine); }
      got := AvailableWidth(state);
      if got == 0 {
        return;
      }
      if got > wanted {
        got := wanted;
      }
      BitsInRange(state);
      AddWidth(state, got);
      WordOfWord(state + got * INTERVAL);
      ShareChanges(theirs(steps), mine, got);
      state := state + got * INTERVAL;
      mine := mine + got;
    }

    /** Takes width that this call holds out of the word again, in one atomic step. As long
        as the field of the others has room for the share, nothing else in it changes. */
    method GiveBack(w: nat)
      requires Sound() && w <= mine
      modifies this
      ensures Sound() && mine == old(mine) - w && steps == old(steps) + 1
      ensures WidthBits(theirs(steps) % WORD) + old(mine) < FIELD ==>
        && WidthBits(state) == WidthBits(With(theirs(steps), old(mine))) - w
        && OtherBits(state) == OtherBits(With(theirs(steps), old(mine)))
    {
      hide WidthBits, OtherBits;
      Interfere();
      ShareChanges(theirs(steps), mine, w);
      if WidthBits(theirs(steps) % WORD) + mine < FIELD {
        ShareIsWidth(theirs(steps), mine);
        ShareIsWidth(theirs(steps), mine - w);
      }
      state := (state - w * INTERVAL) % WORD;
      mine := mine - w;
    }
  }

  /** The part of the shared apply record that matters here: the thread count, and with
      how many threads the work was run. */
  class Apply {
    var thrCnt: nat
    var ran: seq<nat>

    constructor (thrCnt: nat)
      ensures this.thrCnt == thrCnt && ran == []
    {
      this.thrCnt, ran := thrCnt, [];
    }

    /** _dispatch_apply_serial, entered with nothing reserved. */
    method RunSerially(ghost chain: seq<Queue>)
      requires AllSound(chain) && Holding(chain, 0, 0)
      modifies this`ran
      ensures ran == old(ran) + [1]
    {
      ran := ran + [1];
    }

    /** _dispatch_apply_f, entered with one width reserved on every queue for each thread
        but the caller. */
    method RunParallel(ghost chain: seq<Queue>)
      requires thrCnt >= 2 && AllSound(chain) && Holding(chain, |chain|, thrCnt - 1)
      modifies this`ran
      ensures ran == old(ran) + [thrCnt]
    {
      ran := ran + [thrCnt];
    }
  }

  // ----- the target chain

  function At(chain: seq<Queue>, root: Queue, i: nat): Queue
    requires i <= |chain|
  {
    if i < |chain| then chain[i] else root
  }

  /** `chain` holds the queues from the first one down to, not including, the root. */
  ghost predicate Linked(chain: seq<Queue>, root: Queue) {
    root.target == null && forall i :: 0 <= i < |chain| ==> chain[i].target == At(chain, root, i + 1)
  }

  /** A chain that ends at a root visits no queue twice. */
  lemma {:induction false} NoRepeat(chain: seq<Queue>, root: Queue, i: nat, j: nat)
    requires Linked(chain, root) && i < j <= |chain|
    ensures At(chain, root, i) != At(chain, root, j)
    decreases |chain| - j
  {
    assert chain[i].target == At(chain, root, i + 1);
    if j < |chain| {
      assert chain[j].target == At(chain, root, j + 1);
      NoRepeat(chain, root, i + 1, j + 1);
    }
  }

  ghost predicate NoQueueTwice(chain: seq<Queue>, root: Queue) {
    Distinct(chain + [root])
  }

  lemma AllDistinct(chain: seq<Queue>, root: Queue)
    requires Linked(chain, root)
    ensures NoQueueTwice(chain, root)
  {
    forall i, j | 0 <= i < j <= |chain| ensures (chain + [root])[i] != (chain + [root])[j] {
      NoRepeat(chain, root, i, j);
    }
  }

  ghost predicate AllSound(chain: seq<Queue>)
    reads chain
  {
    forall i :: 0 <= i < |chain| ==> chain[i].Sound()
  }

  /** The first k queues hold w for this call, the others nothing. */
  ghost predicate Holding(chain: seq<Queue>, k: nat, w: nat)
    reads chain
  {
    && (forall i :: 0 <= i < |chain| && i < k ==> chain[i].mine == w)
    && (forall i :: k <= i < |chain| ==> chain[i].mine == 0)
  }

  /** Every dq_state is what the other threads alone made of it. */
  ghost predicate Untouched(chain: seq<Queue>)
    reads chain
  {
    forall i :: 0 <= i < |chain| ==> chain[i].state == chain[i].theirs(chain[i].steps) % WORD
  }

  lemma HoldingNothingIsUntouched(chain: seq<Queue>)
    requires AllSound(chain) && Holding(chain, 0, 0)
    ensures Untouched(chain)
  {
  }

  /** What the queues from number k on offer. */
  ghost predicate Offers(chain: seq<Queue>, k: nat, grants: seq<nat>)
    reads chain
  {
    |grants| == |chain| && forall i :: k <= i < |chain| ==> chain[i].Offer() == grants[i]
  }

  /** The narrowest of the wanted width and the grants. */
  function Narrowest(wanted: nat, grants: seq<nat>): (w: nat)
    ensures w <= wanted && (forall i :: 0 <= i < |grants| ==> w <= grants[i])
    ensures w == wanted || w in grants
  {
    if grants == [] then wanted
    else Min(Narrowest(wanted, grants[..|grants| - 1]), grants[|grants| - 1])
  }

  /** _dispatch_queue_relinquish_width: from the top queue to the stop queue. */
  method Relinquish(top: Queue, stop: Queue, w: nat,
                    ghost chain: seq<Queue>, ghost root: Queue, ghost k: nat, ghost held: nat)
    requires Linked(chain, root) && k <= |chain| && top == At(chain, root, 0) && stop == At(chain, root, k)
    requires AllSound(chain) && w <= held && forall i :: 0 <= i < k ==> chain[i].mine == held
    modifies chain
    ensures AllSound(chain) && forall i :: 0 <= i < k ==> chain[i].mine == held - w
    ensures forall i :: k <= i < |chain| ==>
      chain[i].mine == old(chain[i].mine) && chain[i].Offer() == old(chain[i].Offer())
  {
    hide WidthBits, AvailableWidth, OtherBits, With, Queue.Offer, Linked, NoQueueTwice, At;
    AllDistinct(chain, root);
    var dq := top;
    ghost var n := 0;
    while dq != stop
      invariant n <= k && dq == At(chain, root, n)
      invariant AllSound(chain)
      invariant forall i :: 0 <= i < n ==> chain[i].mine == held - w
      invariant forall i :: n <= i < k ==> chain[i].mine == held
      invariant forall i :: k <= i < |chain| ==>
        chain[i].mine == old(chain[i].mine) && chain[i].Offer() == old(chain[i].Offer())
      decreases k - n
    {
      FrameOne(chain, root, n);
      NextQueue(chain, root, n);
      dq.GiveBack(w);
      dq := dq.target;
      n := n + 1;
    }
    OnePlace(chain, root, n, k);
  }

  lemma NextQueue(chain: seq<Queue>, root: Queue, n: nat)
    requires Linked(chain, root) && n < |chain|
    ensures At(chain, root, n) == chain[n] && chain[n].target == At(chain, root, n + 1)
  {
  }

  lemma OnePlace(chain: seq<Queue>, root: Queue, n: nat, k: nat)
    requires NoQueueTwice(chain, root) && n <= k <= |chain| && At(chain, root, n) == At(chain, root, k)
    ensures n == k
  {
    assert (chain + [root])[n] == At(chain, root, n) && (chain + [root])[k] == At(chain, root, k);
  }

  /** One turn of the loop of _dispatch_apply_redirect: asks queue number k, and when it
      grants too little makes the queues before it give the excess back. */
  method ReserveOne(dq: Queue, top: Queue, wanted: nat,
                    ghost chain: seq<Queue>, ghost root: Queue, ghost k: nat, ghost grants: seq<nat>)
      returns (got: nat)
    requires Linked(chain, root) && NoQueueTwice(chain, root) && Offers(chain, k, grants)
    requires k < |chain| && top == chain[0] && dq == chain[k]
    requires AllSound(chain) && Holding(chain, k, wanted) && wanted > 0
    modifies chain
    ensures AllSound(chain) && Holding(chain, k + 1, got) && got == Min(wanted, grants[k])
    ensures Offers(chain, k + 1, grants)
  {
    hide WidthBits, AvailableWidth, OtherBits, Linked, NoQueueTwice, With, Queue.Offer;
    got := dq.TryReserve(wanted);
    FrameOne(chain, root, k);
    assert forall i :: 0 <= i < k ==> chain[i].mine == wanted;
    if wanted > got {
      Relinquish(top, dq, wanted - got, chain, root, k, wanted);
    }
  }

  lemma FrameOne(chain: seq<Queue>, root: Queue, k: nat)
    requires NoQueueTwice(chain, root) && k < |chain|
    ensures forall i :: 0 <= i < |chain| && i != k ==> chain[i] != chain[k]
  {
    forall i | 0 <= i < |chain| && i != k ensures chain[i] != chain[k] {
      assert (chain + [root])[i] == chain[i] && (chain + [root])[k] == chain[k];
    }
  }

  /** The loop of _dispatch_apply_redirect, where `grants` is what the queues have to offer
      when it comes to them. */
  method ReserveChain(da: Apply, top: Queue, ghost chain: seq<Queue>, ghost root: Queue, ghost grants: seq<nat>)
      returns (width: nat, last: Queue)
    requires Linked(chain, root) && chain != [] && top == chain[0] && da.thrCnt >= 2
    requires AllSound(chain) && Holding(chain, 0, 0) && Offers(chain, 0, grants)
    modifies da`thrCnt, chain
    ensures AllSound(chain) && width == Narrowest(old(da.thrCnt) - 1, grants)
    ensures width == 0 ==> Holding(chain, 0, 0)
    ensures width > 0 ==> last == root && Holding(chain, |chain|, width) && da.thrCnt == width + 1
  {
    hide Narrowest, AllSound, NoQueueTwice, Holding, Offers, WidthBits, AvailableWidth, OtherBits, With;
    AllDistinct(chain, root);
    width := da.thrCnt - 1;
    var dq := top;
    ghost var k := 0;
    NarrowestOfNone(width);
    OffersLength(chain, 0, grants);
    assert grants[..0] == [];
    HoldingYet(chain, width);
    while true
      invariant k < |chain| == |grants| && dq == chain[k]
      invariant AllSound(chain) && Holding(chain, k, width) && Offers(chain, k, grants)
      invariant width == Narrowest(old(da.thrCnt) - 1, grants[..k])
      invariant width > 0 && da.thrCnt == width + 1
      decreases |chain| - k
    {
      var got := ReserveOne(dq, top, width, chain, root, k, grants);
      NarrowestGrows(old(da.thrCnt) - 1, grants, k);
      k := k + 1;
      if width > got {
        var excess := width - got;
        width := got;
        if width == 0 {
          HoldingNothing(chain, k);
          NarrowestZero(old(da.thrCnt) - 1, grants, k);
          return width, dq;
        }
        da.thrCnt := da.thrCnt - excess;
      }
      dq := dq.target;
      if dq.target == null {
        break;
      }
    }
    assert grants[..k] == grants;
    last := dq;
  }

  lemma OffersLength(chain: seq<Queue>, k: nat, grants: seq<nat>)
    requires Offers(chain, k, grants)
    ensures |grants| == |chain|
  {
  }

  lemma HoldingNothing(chain: seq<Queue>, k: nat)
    requires Holding(chain, k, 0)
    ensures Holding(chain, 0, 0)
  {
  }

  lemma HoldingYet(chain: seq<Queue>, w: nat)
    requires Holding(chain, 0, 0)
    ensures Holding(chain, 0, w)
  {
  }

  lemma NarrowestOfNone(wanted: nat)
    ensures Narrowest(wanted, []) == wanted
  {
  }

  lemma NarrowestGrows(wanted: nat, grants: seq<nat>, k: nat)
    requires k < |grants|
    ensures Narrowest(wanted, grants[..k + 1]) == Min(Narrowest(wanted, grants[..k]), grants[k])
  {
    assert grants[..k + 1][..k] == grants[..k];
  }

  /** A queue without width decides for the whole chain. */
  lemma NarrowestZero(wanted: nat, grants: seq<nat>, k: nat)
    requires k <= |grants| && Narrowest(wanted, grants[..k]) == 0 < wanted
    ensures Narrowest(wanted, grants) == 0 && 0 in grants
  {
    assert 0 in grants[..k];
  }

  datatype Outcome = Serial | Parallel(threads: nat)

  /** _dispatch_apply_redirect. The work is run once: on one thread when some queue of the
      chain has no width to offer, otherwise on one thread more than the narrowest offer,
      with that width reserved on every queue. Afterwards every dq_state is what the other
      threads alone made of it. */
  method Redirect(da: Apply, top: Queue, ghost chain: seq<Queue>, ghost root: Queue, ghost grants: seq<nat>)
      returns (outcome: Outcome)
    requires Linked(chain, root) && chain != [] && top == chain[0] && da.thrCnt >= 2
    requires AllSound(chain) && Holding(chain, 0, 0) && Offers(chain, 0, grants)
    modifies da, chain
    ensures AllSound(chain) && Holding(chain, 0, 0) && Untouched(chain)
    ensures outcome == if 0 in grants then Serial else Parallel(Narrowest(old(da.thrCnt) - 1, grants) + 1)
    ensures outcome.Parallel? ==> 2 <= outcome.threads <= old(da.thrCnt)
    ensures da.ran == old(da.ran) + [if outcome.Serial? then 1 else outcome.threads]
  {
    hide WidthBits, AvailableWidth, OtherBits, With, AllSound, Offers, Untouched;
    var width, last := ReserveChain(da, top, chain, root, grants);
    if width == 0 {
      da.RunSerially(chain);
      HoldingNothingIsUntouched(chain);
      return Serial;
    }
    da.RunParallel(chain);
    outcome := Parallel(da.thrCnt);
    Relinquish(top, last, width, chain, root, |chain|, width);
    HoldingNothingIsUntouched(chain);
  }
}
