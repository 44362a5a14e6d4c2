/** The sandbox box pool: box ids are taken from a queue by requests and put back by a callback
    that runs when the sandbox thread has finished, whatever became of the request. */
module BoxPool {
  import opened Wrappers

  datatype Request =
    | Queued                  // waiting for a box
    | Running(box: nat)       // awaiting its shielded sandbox task
    | Answered                // the response was sent
    | Cancelled               // client gone or timed out

  /** The sandbox side of one request. */
  datatype Thread =
    | NotStarted
    | Live(box: nat)          // run_in_isolate is using the box
    | Finished(box: nat)      // the thread is done, its callback has not run yet
    | Released

  datatype State = State(free: seq<nat>, requests: seq<Request>, threads: seq<Thread>)

  datatype Step =
    | Arrive
    | Acquire(r: nat)         // a queued request gets the first free box and starts its thread
    | Cancel(r: nat)
    | Finish(r: nat)
    | Callback(r: nat)        // the done-callback puts the box back
    | Answer(r: nat)

  function Init(poolSize: nat): State
  {
    State(seq(poolSize, i => i), [], [])
  }

  function Apply(s: State, step: Step): State
    requires |s.requests| == |s.threads|
  {
    match step
    case Arrive => s.(requests := s.requests + [Queued], threads := s.threads + [NotStarted])
    case Acquire(r) =>
      if r < |s.requests| && s.requests[r] == Queued && s.threads[r] == NotStarted && s.free != [] then
        State(s.free[1..], s.requests[r := Running(s.free[0])], s.threads[r := Live(s.free[0])])
      else s
    case Cancel(r) =>
      if r < |s.requests| && (s.requests[r] == Queued || s.requests[r].Running?)
      then s.(requests := s.requests[r := Cancelled]) else s
    case Finish(r) =>
      if r < |s.threads| && s.threads[r].Live?
      then s.(threads := s.threads[r := Finished(s.threads[r].box)]) else s
    case Callback(r) =>
      if r < |s.threads| && s.threads[r].Finished?
      then s.(free := s.free + [s.threads[r].box], threads := s.threads[r := Released]) else s
    case Answer(r) =>
      if r < |s.requests| && s.requests[r].Running? && !s.threads[r].Live?
      then s.(requests := s.requests[r := Answered]) else s
  }

  function Run(poolSize: nat, steps: seq<Step>): (s: State)
    ensures |s.requests| == |s.threads|
  {
    if steps == [] then Init(poolSize)
    else Apply(Run(poolSize, steps[..|steps| - 1]), steps[|steps| - 1])
  }

  // -------------------------------------------------------------------------
  // Partition of the box ids
  // -------------------------------------------------------------------------

  function HeldBy(t: Thread): seq<nat>
  {
    match t case Live(b) => [b] case Finished(b) => [b] case _ => []
  }

  function Held(ts: seq<Thread>): seq<nat>
  {
    if ts == [] then [] else HeldBy(ts[0]) + Held(ts[1..])
  }

  function Occurs(s: seq<nat>, b: nat): nat
  {
    if s == [] then 0 else (if s[0] == b then 1 else 0) + Occurs(s[1..], b)
  }

  /** Every box id is exactly once in the queue or with one unreleased thread; nothing else is. */
  ghost predicate Partition(poolSize: nat, s: State)
  {
    forall b: nat :: Occurs(s.free, b) + Occurs(Held(s.threads), b) == if b < poolSize then 1 else 0
  }

  ghost predicate Inv(poolSize: nat, s: State)
  {
    && |s.requests| == |s.threads|
    && Partition(poolSize, s)
    && |s.free| + |Held(s.threads)| == poolSize
    && (forall r :: 0 <= r < |s.requests| ==>
        && (s.requests[r] == Queued ==> s.threads[r] == NotStarted)
        && (s.requests[r].Running? ==> s.threads[r] in {Live(s.requests[r].box), Finished(s.requests[r].box), Released}))
  }

  lemma {:induction false} OccursAppend(a: seq<nat>, c: seq<nat>, b: nat)
    ensures Occurs(a + c, b) == Occurs(a, b) + Occurs(c, b)
  {
    if a == [] {
      assert a + c == c;
    } else {
      assert (a + c)[1..] == a[1..] + c;
      OccursAppend(a[1..], c, b);
    }
  }

  lemma {:induction false} HeldUpdate(ts: seq<Thread>, r: nat, t: Thread, b: nat)
    requires r < |ts|
    ensures Occurs(Held(ts[r := t]), b) + Occurs(HeldBy(ts[r]), b) == Occurs(Held(ts), b) + Occurs(HeldBy(t), b)
    ensures |Held(ts[r := t])| + |HeldBy(ts[r])| == |Held(ts)| + |HeldBy(t)|
  {
    OccursAppend(HeldBy(ts[0]), Held(ts[1..]), b);
    if r > 0 {
      assert ts[r := t][1..] == ts[1..][r - 1 := t];
      OccursAppend(HeldBy(ts[0]), Held(ts[r := t][1..]), b);
      HeldUpdate(ts[1..], r - 1, t, b);
    } else {
      assert ts[r := t][1..] == ts[1..];
      OccursAppend(HeldBy(t), Held(ts[1..]), b);
    }
  }

  lemma {:induction false} HeldAppend(ts: seq<Thread>)
    ensures Held(ts + [NotStarted]) == Held(ts)
  {
    if ts != [] {
      assert (ts + [NotStarted])[1..] == ts[1..] + [NotStarted];
      HeldAppend(ts[1..]);
    }
  }

  lemma OccursOne(b: nat)
    ensures forall c: nat :: Occurs([c], b) == if c == b then 1 else 0
    ensures Occurs([], b) == 0
  {
  }

  // How one step moves one box id between the queue and the threads
  lemma BoxMoves(s: State, step: Step, b: nat)
    requires |s.requests| == |s.threads|
    ensures
      var t := Apply(s, step);
      && Occurs(t.free, b) + Occurs(Held(t.threads), b) == Occurs(s.free, b) + Occurs(Held(s.threads), b)
      && |t.free| + |Held(t.threads)| == |s.free| + |Held(s.threads)|
  {
    OccursOne(b);
    hide Occurs, Held;
    match step
    case Arrive => HeldAppend(s.threads);
    case Acquire(r) =>
      if r < |s.threads| && s.free != [] {
        HeldUpdate(s.threads, r, Live(s.free[0]), b);
        OccursAppend([s.free[0]], s.free[1..], b);
        assert [s.free[0]] + s.free[1..] == s.free;
      }
    case Finish(r) =>
      if r < |s.threads| && s.threads[r].Live? {
        HeldUpdate(s.threads, r, Finished(s.threads[r].box), b);
      }
    case Callback(r) =>
      if r < |s.threads| && s.threads[r].Finished? {
        HeldUpdate(s.threads, r, Released, b);
        OccursAppend(s.free, [s.threads[r].box], b);
      }
    case _ =>
  }

  lemma StepKeepsInv(poolSize: nat, s: State, step: Step)
    requires Inv(poolSize, s)
    ensures Inv(poolSize, Apply(s, step))
  {
    hide Held, Occurs;
    forall b: nat
      ensures Occurs(Apply(s, step).free, b) + Occurs(Held(Apply(s, step).threads), b) == if b < poolSize then 1 else 0
    {
      BoxMoves(s, step, b);
    }
    BoxMoves(s, step, 0);
  }

  lemma {:induction false} FreshIds(n: nat, b: nat)
    ensures Occurs(seq(n, i => i), b) == if b < n then 1 else 0
  {
    var s := seq(n, i => i);
    if n > 0 {
      assert s == seq(n - 1, i => i) + [n - 1];
      OccursAppend(seq(n - 1, i => i), [n - 1], b);
      FreshIds(n - 1, b);
    }
  }

  /** Under any interleaving of requests, cancellations and completions, the free ids and the ids
      of unreleased threads partition {0, ..., poolSize - 1}. */
  lemma {:induction false} PoolSafe(poolSize: nat, steps: seq<Step>)
    ensures Inv(poolSize, Run(poolSize, steps))
  {
    if steps == [] {
      forall b: nat ensures Occurs(Init(poolSize).free, b) + Occurs(Held([]), b) == if b < poolSize then 1 else 0 {
        FreshIds(poolSize, b);
      }
    } else {
      PoolSafe(poolSize, steps[..|steps| - 1]);
      StepKeepsInv(poolSize, Run(poolSize, steps[..|steps| - 1]), steps[|steps| - 1]);
    }
  }

  // -------------------------------------------------------------------------
  // Consequences
  // -------------------------------------------------------------------------

  lemma {:induction false} HeldOnce(ts: seq<Thread>, r: nat, b: nat)
    requires r < |ts| && HeldBy(ts[r]) == [b]
    ensures Occurs(Held(ts), b) >= 1
  {
    OccursAppend(HeldBy(ts[0]), Held(ts[1..]), b);
    if r > 0 {
      HeldOnce(ts[1..], r - 1, b);
    }
  }

  lemma {:induction false} HeldTwice(ts: seq<Thread>, q: nat, r: nat, b: nat)
    requires q < r < |ts| && HeldBy(ts[q]) == [b] && HeldBy(ts[r]) == [b]
    ensures Occurs(Held(ts), b) >= 2
  {
    OccursAppend(HeldBy(ts[0]), Held(ts[1..]), b);
    if q > 0 {
      HeldTwice(ts[1..], q - 1, r - 1, b);
    } else {
      HeldOnce(ts[1..], r - 1, b);
    }
  }

  lemma {:induction false} OccursIn(s: seq<nat>, b: nat)
    ensures b in s <==> Occurs(s, b) > 0
  {
    if s != [] {
      OccursIn(s[1..], b);
    }
  }

  /** No two unreleased threads use one box, and a box in use is not in the queue, so no later
      request can be handed it; this holds for threads of cancelled requests too. */
  lemma NoSharedBox(poolSize: nat, steps: seq<Step>, q: nat, r: nat)
    requires
      var s := Run(poolSize, steps);
      q < |s.threads| && r < |s.threads| && q != r && HeldBy(s.threads[q]) != []
    ensures
      var s := Run(poolSize, steps);
      && HeldBy(s.threads[q]) != HeldBy(s.threads[r])
      && HeldBy(s.threads[q])[0] !in s.free
      && HeldBy(s.threads[q])[0] < poolSize
  {
    PoolSafe(poolSize, steps);
    var s := Run(poolSize, steps);
    var b := HeldBy(s.threads[q])[0];
    assert Occurs(s.free, b) + Occurs(Held(s.threads), b) == if b < poolSize then 1 else 0;
    HeldOnce(s.threads, q, b);
    OccursIn(s.free, b);
    if HeldBy(s.threads[q]) == HeldBy(s.threads[r]) {
      if q < r { HeldTwice(s.threads, q, r, b); } else { HeldTwice(s.threads, r, q, b); }
    }
  }

  /** A box leaves its thread only when that thread has finished: while a thread is live, no step
      but its own completion ends its hold, and cancelling its request changes nothing. */
  lemma {:induction false} HeldUntilFinished(poolSize: nat, before: seq<Step>, after: seq<Step>, r: nat)
    requires
      var s := Run(poolSize, before);
      r < |s.threads| && s.threads[r].Live?
    requires Finish(r) !in after
    ensures
      var s, t := Run(poolSize, before), Run(poolSize, before + after);
      && r < |t.threads| && t.threads[r] == s.threads[r]
      && s.threads[r].box !in t.free
    decreases |after|
  {
    if after == [] {
      assert before + after == before;
    } else {
      var front := after[..|after| - 1];
      assert (before + after)[..|before + after| - 1] == before + front;
      HeldUntilFinished(poolSize, before, front, r);
    }
    PoolSafe(poolSize, before + after);
    var t := Run(poolSize, before + after);
    assert HeldBy(t.threads[r]) == [t.threads[r].box];
    HeldOnce(t.threads, r, t.threads[r].box);
    OccursIn(t.free, t.threads[r].box);
    assert Occurs(t.free, t.threads[r].box) + Occurs(Held(t.threads), t.threads[r].box) <= 1;
  }

  // How a request and its thread may change in one step
  lemma RequestStep(s: State, step: Step, r: nat)
    requires |s.requests| == |s.threads| && r < |s.requests|
    ensures
      var t := Apply(s, step);
      && |t.requests| == |t.threads| >= |s.requests|
      && (s.requests[r] in {Answered, Cancelled} ==> t.requests[r] == s.requests[r])
      && (s.requests[r] != Queued && s.threads[r] == NotStarted ==> t.threads[r] == NotStarted)
      && (t.requests[r] == Answered && s.requests[r] != Answered ==> s.requests[r].Running? && !t.threads[r].Live?)
      && (!s.threads[r].Live? && s.threads[r] != NotStarted ==> !t.threads[r].Live? && t.threads[r] != NotStarted)
  {
  }

  lemma {:induction false} AnsweredAreDone(poolSize: nat, steps: seq<Step>, r: nat)
    ensures
      var s := Run(poolSize, steps);
      r < |s.requests| && s.requests[r] == Answered ==> s.threads[r].Finished? || s.threads[r] == Released
  {
    if steps != [] {
      var front, step := steps[..|steps| - 1], steps[|steps| - 1];
      var s := Run(poolSize, front);
      AnsweredAreDone(poolSize, front, r);
      PoolSafe(poolSize, front);
      if r < |s.requests| {
        RequestStep(s, step, r);
      }
    }
  }

  /** Answered and cancelled requests stay so. A request is answered only once its thread is done with
      the box, and one that was cancelled while it waited never gets a box. */
  lemma {:induction false} RequestLife(poolSize: nat, before: seq<Step>, after: seq<Step>, r: nat)
    requires r < |Run(poolSize, before).requests|
    ensures
      var s, t := Run(poolSize, before), Run(poolSize, before + after);
      && r < |t.requests|
      && (s.requests[r] in {Answered, Cancelled} ==> t.requests[r] == s.requests[r])
      && (s.requests[r] == Cancelled && s.threads[r] == NotStarted ==> t.threads[r] == NotStarted)
      && (t.requests[r] == Answered ==> t.threads[r].Finished? || t.threads[r] == Released)
    decreases |after|
  {
    AnsweredAreDone(poolSize, before + after, r);
    if after == [] {
      assert before + after == before;
    } else {
      var front := after[..|after| - 1];
      assert (before + after)[..|before + after| - 1] == before + front;
      RequestLife(poolSize, before, front, r);
      RequestStep(Run(poolSize, before + front), after[|after| - 1], r);
      hide Apply;
    }
  }

  /** A request whose thread is done can be answered, and a waiting one gets the first free box. */
  lemma RequestsProgress(s: State, r: nat)
    requires |s.requests| == |s.threads| && r < |s.requests|
    ensures s.requests[r].Running? && s.threads[r].Finished? ==> Apply(s, Answer(r)).requests[r] == Answered
    ensures s.requests[r] == Queued && s.threads[r] == NotStarted && s.free != [] ==>
      var t := Apply(s, Acquire(r));
      t.requests[r] == Running(s.free[0]) && t.threads[r] == Live(s.free[0]) && t.free == s.free[1..]
  {
  }

  /** A cancellation only ever concerns a request that is waiting or running. It frees no box and stops
      no thread; answered and cancelled requests stay what they are. */
  lemma CancelOnlyRequest(s: State, r: nat)
    requires |s.requests| == |s.threads|
    ensures
      var t := Apply(s, Cancel(r));
      && t.free == s.free && t.threads == s.threads && |t.requests| == |s.requests|
      && (forall q :: 0 <= q < |s.requests| && (q != r || s.requests[q] in {Answered, Cancelled}) ==>
          t.requests[q] == s.requests[q])
      && (r < |s.requests| && s.requests[r] != Answered ==> t.requests[r] == Cancelled)
  {
  }

  lemma {:induction false} NoneHeld(ts: seq<Thread>)
    requires forall t :: t in ts ==> HeldBy(t) == []
    ensures Held(ts) == []
  {
    if ts != [] {
      NoneHeld(ts[1..]);
    }
  }

  /** Once every thread has been released, all boxes are free again. */
  lemma AllBoxesReturn(poolSize: nat, steps: seq<Step>)
    requires forall t :: t in Run(poolSize, steps).threads ==> HeldBy(t) == []
    ensures |Run(poolSize, steps).free| == poolSize
  {
    PoolSafe(poolSize, steps);
    NoneHeld(Run(poolSize, steps).threads);
  }

  // -------------------------------------------------------------------------
  // Why the release is tied to the thread
  // -------------------------------------------------------------------------

  // The same pool with the box put back as soon as its request is cancelled
  function ApplyEager(s: State, step: Step): State
    requires |s.requests| == |s.threads|
  {
    match step
    case Cancel(r) =>
      if r < |s.requests| && s.requests[r].Running?
      then s.(requests := s.requests[r := Cancelled], free := s.free + [s.requests[r].box])
      else Apply(s, step)
    case _ => Apply(s, step)
  }

  /** Releasing at cancellation instead would let a second request run in a box that is still in use. */
  lemma EagerReleaseShares()
    ensures
      var s := ApplyEager(ApplyEager(ApplyEager(ApplyEager(ApplyEager(Init(1), Arrive), Arrive), Acquire(0)), Cancel(0)), Acquire(1));
      s.threads == [Live(0), Live(0)]
  {
    var s := ApplyEager(ApplyEager(ApplyEager(Init(1), Arrive), Arrive), Acquire(0));
    assert s.threads == [Live(0), NotStarted] && s.requests == [Running(0), Queued] && s.free == [];
    var t := ApplyEager(s, Cancel(0));
    assert t.threads == [Live(0), NotStarted] && t.free == [0];
  }

  // -------------------------------------------------------------------------
  // The module-level queue
  // -------------------------------------------------------------------------

  class Pool {
    var free: seq<nat>

    constructor (poolSize: nat)
      ensures free == Init(poolSize).free
    {
      free := [];
      new;
      for i := 0 to poolSize
        invariant free == seq(i, j => j)
      {
        free := free + [i];
      }
    }

    /** A waiting request takes the first box; None while the queue is empty. */
    method Get() returns (box: Option<nat>)
      modifies this
      ensures box == if old(free) == [] then None else Some(old(free)[0])
      ensures free == if old(free) == [] then [] else old(free)[1..]
    {
      if free == [] {
        return None;
      }
      box := Some(free[0]);
      free := free[1..];
    }

    method Put(box: nat)
      modifies this
      ensures free == old(free) + [box]
    {
      free := free + [box];
    }

    /** The acquiring part of `run`, as a step of the pool. */
    method Start(ghost s: State, r: nat) returns (box: Option<nat>, ghost t: State)
      requires |s.requests| == |s.threads| && r < |s.requests|
      requires s.requests[r] == Queued && s.threads[r] == NotStarted && s.free == free
      modifies this
      ensures t == Apply(s, Acquire(r)) && free == t.free
      ensures box.Some? ==> t.threads[r] == Live(box.value)
      ensures box.None? ==> t == s
    {
      box := Get();
      t := Apply(s, Acquire(r));
    }

    /** The done-callback, as a step of the pool. */
    method Done(ghost s: State, r: nat, box: nat) returns (ghost t: State)
      requires |s.requests| == |s.threads| && r < |s.threads|
      requires s.threads[r] == Finished(box) && s.free == free
      modifies this
      ensures t == Apply(s, Callback(r)) && free == t.free
    {
      Put(box);
      t := Apply(s, Callback(r));
    }
  }
}
