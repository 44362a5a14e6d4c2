/** Client event delivery: a bounded drop-oldest queue with many producers, one uploader with a
    retry budget, and a drop counter that is reported when the server is reachable again.

    Every step below runs without interruption; the theorems hold for any interleaving. */
module EventDelivery {
  import opened Wrappers

  const QUEUE_SIZE: nat := 500
  const MAX_RETRIES: nat := 5

  /** `call` numbers the log_event calls, `ticket` the successful puts on the queue. */
  datatype Event = Event(call: nat, ticket: nat)

  // Where a producer is inside log_event
  datatype Producer =
    | Idle
    | Refused(call: nat)     // put_nowait raised Full
    | Removed(call: nat)     // the oldest event is out, the new one not yet in
    | Counting               // about to add one to the drop counter

  type Positive = n: nat | n > 0 witness 1

  // Where the uploader is in its loop
  datatype Uploader =
    | Waiting
    | Posting(event: Event)
    | Losing                 // about to add one to the drop counter
    | Collecting             // about to take the drop counter
    | Reporting(n: Positive) // posting a report of n drops

  datatype Reply = Accepted | ClientError | Transient

  datatype State = State(
    queue: seq<Event>,
    pending: Option<Event>,
    tries: nat,
    failures: nat,
    dropped: nat,
    uploader: Uploader,
    producers: seq<Producer>,
    // history
    calls: nat,
    tickets: nat,
    acked: seq<Event>,
    lost: multiset<nat>,
    posts: multiset<nat>,
    reported: nat,           // drops in reports that were posted without an exception
    delivered: nat,          // drops in reports that the server has stored
    uncounted: nat)

  datatype Step =
    | Call(p: nat)
    | RemoveOldest(p: nat)
    | PutNew(p: nat)
    | CountDrop(p: nat)
    | LogWhole(p: nat)       // the four steps above without interruption
    | Take
    | Answer(reply: Reply)
    | CountLoss
    | Collect
    | ReportDone(raised: bool, stored: bool)   // the reply may be lost, or refuse the report

  function Init(n: nat): State
  {
    State([], None, 0, 0, 0, Waiting, seq(n, _ => Idle), 0, 0, [], multiset{}, multiset{}, 0, 0, 0)
  }

  function Enqueue(s: State, call: nat): State
  {
    s.(queue := s.queue + [Event(call, s.tickets)], tickets := s.tickets + 1)
  }

  function Call1(s: State, p: nat): State
    requires p < |s.producers|
  {
    if s.producers[p] != Idle then s else
    var s1 := s.(calls := s.calls + 1);
    if |s.queue| < QUEUE_SIZE then Enqueue(s1, s.calls)
    else s1.(producers := s.producers[p := Refused(s.calls)])
  }

  function RemoveOldest1(s: State, p: nat): State
    requires p < |s.producers|
  {
    if !s.producers[p].Refused? then s else
    var call := s.producers[p].call;
    if s.queue == [] then
      s.(lost := s.lost + multiset{call}, producers := s.producers[p := Counting])
    else
      s.(queue := s.queue[1..], lost := s.lost + multiset{s.queue[0].call}, producers := s.producers[p := Removed(call)])
  }

  function PutNew1(s: State, p: nat): State
    requires p < |s.producers|
  {
    if !s.producers[p].Removed? then s else
    var call := s.producers[p].call;
    var s1 := s.(producers := s.producers[p := Counting]);
    if |s.queue| < QUEUE_SIZE then Enqueue(s1, call)
    // another producer refilled the queue: two events are gone, one will be counted
    else s1.(lost := s.lost + multiset{call}, uncounted := s.uncounted + 1)
  }

  function CountDrop1(s: State, p: nat): State
    requires p < |s.producers|
  {
    if s.producers[p] != Counting then s
    else s.(dropped := s.dropped + 1, producers := s.producers[p := Idle])
  }

  function Take1(s: State): State
  {
    if s.uploader != Waiting then s
    else if s.pending.Some? then
      s.(uploader := Posting(s.pending.value), posts := s.posts + multiset{s.pending.value.call})
    else if s.queue == [] then s
    else s.(queue := s.queue[1..], uploader := Posting(s.queue[0]), posts := s.posts + multiset{s.queue[0].call})
  }

  function Answer1(s: State, reply: Reply): State
  {
    if !s.uploader.Posting? then s else
    var e := s.uploader.event;
    match reply
    case Accepted =>
      s.(acked := s.acked + [e], pending := None, tries := 0, failures := 0, uploader := Collecting)
    case ClientError =>
      s.(pending := None, tries := 0, lost := s.lost + multiset{e.call}, uploader := Losing)
    case Transient =>
      if s.tries + 1 <= MAX_RETRIES then
        s.(failures := s.failures + 1, tries := s.tries + 1, pending := Some(e), uploader := Waiting)
      else
        s.(failures := s.failures + 1, tries := 0, pending := None, lost := s.lost + multiset{e.call}, uploader := Losing)
  }

  function Apply(s: State, step: Step): State
  {
    match step
    case Call(p) => if p < |s.producers| then Call1(s, p) else s
    case RemoveOldest(p) => if p < |s.producers| then RemoveOldest1(s, p) else s
    case PutNew(p) => if p < |s.producers| then PutNew1(s, p) else s
    case CountDrop(p) => if p < |s.producers| then CountDrop1(s, p) else s
    case LogWhole(p) =>
      if p < |s.producers| && s.producers[p] == Idle
      then CountDrop1(PutNew1(RemoveOldest1(Call1(s, p), p), p), p) else s
    case Take => Take1(s)
    case Answer(reply) => Answer1(s, reply)
    case CountLoss => if s.uploader == Losing then s.(dropped := s.dropped + 1, uploader := Waiting) else s
    case Collect =>
      if s.uploader != Collecting then s
      else s.(dropped := 0, uploader := if s.dropped > 0 then Reporting(s.dropped) else Waiting)
    case ReportDone(raised, stored) =>
      if !s.uploader.Reporting? then s else
      var t := s.(delivered := s.delivered + if stored then s.uploader.n else 0, uploader := Waiting);
      if raised then t.(dropped := s.dropped + s.uploader.n) else t.(reported := s.reported + s.uploader.n)
  }

  function Run(s: State, steps: seq<Step>): State
  {
    if steps == [] then s else Apply(Run(s, steps[..|steps| - 1]), steps[|steps| - 1])
  }

  // -------------------------------------------------------------------------
  // The invariant
  // -------------------------------------------------------------------------

  // The event that has left the queue and is neither acknowledged nor lost
  function InHand(s: State): seq<Event>
  {
    if s.uploader.Posting? then [s.uploader.event]
    else if s.pending.Some? then [s.pending.value]
    else []
  }

  function Count(es: seq<Event>, call: nat): nat
  {
    if es == [] then 0 else (if es[0].call == call then 1 else 0) + Count(es[1..], call)
  }

  function HeldBy(p: Producer, call: nat): nat
  {
    match p
    case Refused(c) => if c == call then 1 else 0
    case Removed(c) => if c == call then 1 else 0
    case _ => 0
  }

  function Held(ps: seq<Producer>, call: nat): nat
  {
    if ps == [] then 0 else HeldBy(ps[0], call) + Held(ps[1..], call)
  }

  // Drops that a producer still has to add to the counter
  function OwedBy(p: Producer): nat { if p.Removed? || p.Counting? then 1 else 0 }

  function Owed(ps: seq<Producer>): nat
  {
    if ps == [] then 0 else OwedBy(ps[0]) + Owed(ps[1..])
  }

  function OwedByUploader(u: Uploader): nat
  {
    match u case Losing => 1 case Reporting(n) => n case _ => 0
  }

  /** The events that may still be, or already were, acknowledged, in delivery order. */
  function Chain(s: State): seq<Event> { s.acked + InHand(s) + s.queue }

  /** In how many places the event of one log_event call is: acknowledged, in the uploader's hand,
      queued, lost, or held by the producer that is still logging it. */
  function Places(s: State, call: nat): nat
  {
    Count(s.acked, call) + Count(InHand(s), call) + Count(s.queue, call) + s.lost[call] + Held(s.producers, call)
  }

  ghost predicate Ordered(es: seq<Event>, bound: nat)
  {
    && (forall i :: 0 <= i < |es| ==> es[i].ticket < bound)
    && (forall i, j :: 0 <= i < j < |es| ==> es[i].ticket < es[j].ticket)
  }

  // The exact account of losses
  ghost predicate Accounted(s: State)
  {
    |s.lost| == s.dropped + s.reported + OwedByUploader(s.uploader) + Owed(s.producers) + s.uncounted
  }

  // The uploader's local variables fit together
  ghost predicate Consistent(s: State)
  {
    && |s.queue| <= QUEUE_SIZE
    && s.tries <= MAX_RETRIES
    && (s.uploader.Posting? && s.pending.Some? ==> s.pending.value == s.uploader.event)
    && (s.pending.None? ==> s.tries == 0)
    && (s.pending.Some? ==> s.uploader == Waiting || s.uploader.Posting?)
  }

  // How often the event of one call has been posted
  ghost predicate PostsOf(s: State, call: nat)
  {
    && s.posts[call] <= MAX_RETRIES + 1
    && (Count(InHand(s), call) > 0 ==> s.posts[call] == s.tries + if s.uploader.Posting? then 1 else 0)
    && (Count(s.queue, call) > 0 || Held(s.producers, call) > 0 || call >= s.calls ==> s.posts[call] == 0)
  }

  ghost predicate CallOk(s: State, call: nat)
  {
    Places(s, call) == (if call < s.calls then 1 else 0) && PostsOf(s, call)
  }

  ghost predicate Inv(s: State)
  {
    && Consistent(s)
    && Ordered(Chain(s), s.tickets)
    && Accounted(s)
    && forall call: nat :: CallOk(s, call)
  }

  lemma {:induction false} HeldUpdate(ps: seq<Producer>, p: nat, x: Producer, call: nat)
    requires p < |ps|
    ensures Held(ps[p := x], call) + HeldBy(ps[p], call) == Held(ps, call) + HeldBy(x, call)
    ensures Owed(ps[p := x]) + OwedBy(ps[p]) == Owed(ps) + OwedBy(x)
  {
    if p > 0 {
      assert ps[p := x][1..] == ps[1..][p - 1 := x];
      HeldUpdate(ps[1..], p - 1, x, call);
    } else {
      assert ps[p := x][1..] == ps[1..];
    }
  }

  lemma {:induction false} CountAppend(a: seq<Event>, b: seq<Event>, call: nat)
    ensures Count(a + b, call) == Count(a, call) + Count(b, call)
  {
    if a == [] {
      assert a + b == b;
    } else {
      assert (a + b)[1..] == a[1..] + b;
      CountAppend(a[1..], b, call);
    }
  }

  lemma CountEnds(q: seq<Event>, e: Event, call: nat)
    ensures Count([], call) == 0 && Count([e], call) == if e.call == call then 1 else 0
    ensures Count(q + [e], call) == Count(q, call) + Count([e], call)
  {
    CountAppend(q, [e], call);
  }

  // -- conservation and posts, one call at a time -----------------------------

  lemma CallStep(s: State, p: nat, call: nat)
    requires p < |s.producers| && Consistent(s) && CallOk(s, call)
    ensures Consistent(Call1(s, p)) && CallOk(Call1(s, p), call)
  {
    hide Count, Held;
    HeldUpdate(s.producers, p, Refused(s.calls), call);
    CountEnds(s.queue, Event(s.calls, s.tickets), call);
  }

  lemma QueueFront(q: seq<Event>, call: nat)
    requires q != []
    ensures Count(q, call) == Count([q[0]], call) + Count(q[1..], call)
    ensures Count([q[0]], call) == if q[0].call == call then 1 else 0
  {
    CountEnds([], q[0], call);
  }

  lemma RemoveOldestStep(s: State, p: nat, call: nat)
    requires p < |s.producers| && Consistent(s) && CallOk(s, call)
    ensures Consistent(RemoveOldest1(s, p)) && CallOk(RemoveOldest1(s, p), call)
  {
    hide Count, Held;
    HeldUpdate(s.producers, p, RemoveOldest1(s, p).producers[p], call);
    if s.queue != [] {
      QueueFront(s.queue, call);
    }
  }

  lemma PutNewStep(s: State, p: nat, call: nat)
    requires p < |s.producers| && Consistent(s) && CallOk(s, call)
    ensures Consistent(PutNew1(s, p)) && CallOk(PutNew1(s, p), call)
  {
    hide Count, Held;
    if s.producers[p].Removed? {
      HeldUpdate(s.producers, p, Counting, call);
      CountEnds(s.queue, Event(s.producers[p].call, s.tickets), call);
    }
  }

  lemma CountDropStep(s: State, p: nat, call: nat)
    requires p < |s.producers| && Consistent(s) && CallOk(s, call)
    ensures Consistent(CountDrop1(s, p)) && CallOk(CountDrop1(s, p), call)
  {
    hide Count, Held;
    HeldUpdate(s.producers, p, Idle, call);
  }

  lemma TakeStep(s: State, call: nat)
    requires Consistent(s) && CallOk(s, call)
    ensures Consistent(Take1(s)) && CallOk(Take1(s), call)
  {
    hide Count, Held;
    CountEnds([], Event(0, 0), call);
    if s.queue != [] {
      QueueFront(s.queue, call);
    }
    if s.pending.Some? {
      CountEnds([], s.pending.value, call);
    }
  }

  lemma AnswerStep(s: State, reply: Reply, call: nat)
    requires Consistent(s) && CallOk(s, call)
    ensures Consistent(Answer1(s, reply)) && CallOk(Answer1(s, reply), call)
  {
    hide Count, Held;
    if s.uploader.Posting? {
      CountEnds(s.acked, s.uploader.event, call);
    }
  }

  // -- order ----------------------------------------------------------------

  lemma OrderedLess(es: seq<Event>, bound: nat, i: nat)
    requires Ordered(es, bound) && i < |es|
    ensures Ordered(es[..i] + es[i + 1..], bound)
  {
  }

  lemma TakeChain(s: State)
    requires Consistent(s)
    ensures Chain(Take1(s)) == Chain(s)
  {
  }

  // An answer moves the event in hand to the acknowledged ones, keeps it, or takes it out
  lemma AnswerChain(s: State, reply: Reply)
    requires Consistent(s)
    ensures
      var t := Answer1(s, reply);
      var a := |s.acked|;
      Chain(t) == Chain(s) || (a < |Chain(s)| && Chain(t) == Chain(s)[..a] + Chain(s)[a + 1..])
  {
    if s.uploader.Posting? {
      var t := Answer1(s, reply);
      var c := s.acked + [s.uploader.event] + s.queue;
      assert Chain(s) == c;
      assert c[..|s.acked|] == s.acked && c[|s.acked| + 1..] == s.queue;
      assert reply.Accepted? ==> Chain(t) == (s.acked + [s.uploader.event]) + [] + s.queue;
      assert reply.ClientError? ==> Chain(t) == s.acked + [] + s.queue;
    }
  }

  // The uploader's steps leave the chain alone, or take the event in hand out of it
  lemma UploaderChain(s: State, step: Step)
    requires Consistent(s)
    requires step.Take? || step.Answer? || step.CountLoss? || step.Collect? || step.ReportDone?
    ensures
      var t := Apply(s, step);
      var a := |s.acked|;
      && t.producers == s.producers && t.calls == s.calls && t.tickets == s.tickets && t.uncounted == s.uncounted
      && (Chain(t) == Chain(s) || (a < |Chain(s)| && Chain(t) == Chain(s)[..a] + Chain(s)[a + 1..]))
  {
    hide Call1, RemoveOldest1, PutNew1, CountDrop1;
    if step.Answer? {
      AnswerChain(s, step.reply);
      hide Chain;
    } else if step.Take? {
      TakeChain(s);
      hide Chain;
    }
  }

  lemma AnswerOrdered(s: State, step: Step)
    requires Consistent(s) && Ordered(Chain(s), s.tickets)
    requires !step.LogWhole? && !step.RemoveOldest? && Apply(s, step).tickets == s.tickets
    ensures Ordered(Chain(Apply(s, step)), s.tickets)
  {
    hide Ordered;
    var a := |s.acked|;
    var c, d := Chain(s), Chain(Apply(s, step));
    if step.Answer? || step.Take? || step.CountLoss? || step.Collect? || step.ReportDone? {
      UploaderChain(s, step);
      hide Apply, Chain;
      if d != c {
        OrderedLess(c, s.tickets, a);
      }
    } else {
      assert d == c;
    }
  }

  lemma OrderedMore(es: seq<Event>, bound: nat, call: nat)
    requires Ordered(es, bound)
    ensures Ordered(es + [Event(call, bound)], bound + 1)
  {
  }

  // A put appends to the chain
  lemma EnqueueOrdered(s: State, step: Step)
    requires Ordered(Chain(s), s.tickets) && (step.Call? || step.PutNew?) && Apply(s, step).tickets > s.tickets
    ensures Ordered(Chain(Apply(s, step)), Apply(s, step).tickets)
  {
    hide Ordered, Take1, Answer1, RemoveOldest1, CountDrop1;
    var t := Apply(s, step);
    assert Chain(t) == Chain(s) + [t.queue[|t.queue| - 1]];
    OrderedMore(Chain(s), s.tickets, t.queue[|t.queue| - 1].call);
  }

  // Dropping the oldest queued event takes one event out of the chain
  lemma RemoveOrdered(s: State, p: nat)
    requires Ordered(Chain(s), s.tickets) && p < |s.producers|
    ensures Ordered(Chain(RemoveOldest1(s, p)), s.tickets)
  {
    hide Ordered;
    var c, d := Chain(s), Chain(RemoveOldest1(s, p));
    var a := |s.acked| + |InHand(s)|;
    assert d == c || d == c[..a] + c[a + 1..];
    if d != c {
      OrderedLess(c, s.tickets, a);
    }
  }

  lemma OrderedStep(s: State, step: Step)
    requires Consistent(s) && Ordered(Chain(s), s.tickets) && !step.LogWhole?
    ensures Ordered(Chain(Apply(s, step)), Apply(s, step).tickets)
  {
    hide Ordered, Chain, Consistent;
    if Apply(s, step).tickets > s.tickets {
      EnqueueOrdered(s, step);
    } else if step.RemoveOldest? {
      if step.p < |s.producers| {
        RemoveOrdered(s, step.p);
      }
    } else {
      AnswerOrdered(s, step);
    }
  }

  // -- losses ---------------------------------------------------------------

  lemma ProducerAccounted(s: State, step: Step)
    requires Accounted(s) && (step.Call? || step.RemoveOldest? || step.PutNew? || step.CountDrop?)
    requires step.p < |s.producers|
    ensures Accounted(Apply(s, step))
  {
    hide Owed, Held;
    var t := Apply(s, step);
    HeldUpdate(s.producers, step.p, t.producers[step.p], 0);
    assert t.producers == s.producers[step.p := t.producers[step.p]];
  }

  lemma AccountedStep(s: State, step: Step)
    requires Accounted(s) && !step.LogWhole?
    ensures Accounted(Apply(s, step))
  {
    hide Owed, Held, Call1, RemoveOldest1, PutNew1, CountDrop1;
    if step.Call? || step.RemoveOldest? || step.PutNew? || step.CountDrop? {
      if step.p < |s.producers| {
        hide Accounted;
        ProducerAccounted(s, step);
      }
    }
  }

  // -- the invariant over every run --------------------------------------------

  lemma OtherStep(s: State, step: Step, call: nat)
    requires step.CountLoss? || step.Collect? || step.ReportDone?
    requires Consistent(s) && CallOk(s, call)
    ensures Consistent(Apply(s, step)) && CallOk(Apply(s, step), call)
  {
    hide Count, Held;
  }

  lemma OneCallStep(s: State, step: Step, call: nat)
    requires !step.LogWhole?
    requires Consistent(s) && CallOk(s, call)
    ensures Consistent(Apply(s, step)) && CallOk(Apply(s, step), call)
  {
    hide CallOk, Consistent, Call1, RemoveOldest1, PutNew1, CountDrop1, Take1, Answer1;
    match step
    case Call(p) => if p < |s.producers| { CallStep(s, p, call); }
    case RemoveOldest(p) => if p < |s.producers| { RemoveOldestStep(s, p, call); }
    case PutNew(p) => if p < |s.producers| { PutNewStep(s, p, call); }
    case CountDrop(p) => if p < |s.producers| { CountDropStep(s, p, call); }
    case Take => TakeStep(s, call);
    case Answer(reply) => AnswerStep(s, reply, call);
    case _ => OtherStep(s, step, call);
  }

  lemma AtomicStepKeepsInv(s: State, step: Step)
    requires Inv(s) && !step.LogWhole?
    ensures Inv(Apply(s, step))
  {
    hide CallOk, Consistent, Ordered, Accounted, Apply;
    OrderedStep(s, step);
    AccountedStep(s, step);
    forall call: nat ensures Consistent(Apply(s, step)) && CallOk(Apply(s, step), call) {
      OneCallStep(s, step, call);
    }
    OneCallStep(s, step, 0);
  }

  // No step changes the number of producers
  lemma WholeIsFourSteps(s: State, p: nat)
    requires p < |s.producers|
    ensures |Call1(s, p).producers| == |s.producers|
    ensures |RemoveOldest1(Call1(s, p), p).producers| == |s.producers|
    ensures |PutNew1(RemoveOldest1(Call1(s, p), p), p).producers| == |s.producers|
  {
  }

  lemma StepKeepsInv(s: State, step: Step)
    requires Inv(s)
    ensures Inv(Apply(s, step))
  {
    hide Inv, Call1, RemoveOldest1, PutNew1, CountDrop1;
    if step.LogWhole? && step.p < |s.producers| && s.producers[step.p] == Idle {
      WholeIsFourSteps(s, step.p);
      AtomicStepKeepsInv(s, Call(step.p));
      AtomicStepKeepsInv(Call1(s, step.p), RemoveOldest(step.p));
      AtomicStepKeepsInv(RemoveOldest1(Call1(s, step.p), step.p), PutNew(step.p));
      AtomicStepKeepsInv(PutNew1(RemoveOldest1(Call1(s, step.p), step.p), step.p), CountDrop(step.p));
    } else if !step.LogWhole? {
      AtomicStepKeepsInv(s, step);
    }
  }

  lemma {:induction false} NobodyOwes(n: nat, call: nat)
    ensures Held(seq(n, _ => Idle), call) == 0 && Owed(seq(n, _ => Idle)) == 0
  {
    if n > 0 {
      assert seq(n, _ => Idle)[1..] == seq(n - 1, _ => Idle);
      NobodyOwes(n - 1, call);
    }
  }

  lemma {:induction false} InvAlways(n: nat, steps: seq<Step>)
    ensures Inv(Run(Init(n), steps))
  {
    if steps == [] {
      forall call: nat ensures CallOk(Init(n), call) {
        NobodyOwes(n, call);
      }
      NobodyOwes(n, 0);
    } else {
      InvAlways(n, steps[..|steps| - 1]);
      StepKeepsInv(Run(Init(n), steps[..|steps| - 1]), steps[|steps| - 1]);
    }
  }

  // -------------------------------------------------------------------------
  // What it means for users of the protocol
  // -------------------------------------------------------------------------

  /** In every reachable state each logged event is in exactly one place, and no event was
      posted more than six times. */
  lemma EveryEventInOnePlace(n: nat, steps: seq<Step>, call: nat)
    ensures
      var s := Run(Init(n), steps);
      && Places(s, call) == (if call < s.calls then 1 else 0)
      && s.posts[call] <= 6
  {
    InvAlways(n, steps);
    assert CallOk(Run(Init(n), steps), call);
  }

  lemma {:induction false} CountOne(es: seq<Event>, i: nat)
    requires i < |es|
    ensures Count(es, es[i].call) >= 1
  {
    if i > 0 {
      CountOne(es[1..], i - 1);
    }
  }

  lemma {:induction false} CountTwo(es: seq<Event>, i: nat, j: nat)
    requires i < j < |es| && es[i].call == es[j].call
    ensures Count(es, es[i].call) >= 2
  {
    assert es == es[..j] + es[j..];
    CountAppend(es[..j], es[j..], es[i].call);
    CountOne(es[..j], i);
    CountOne(es[j..], 0);
  }

  /** Events are acknowledged in the order in which they entered the queue, each at most once,
      and before everything that is still in hand or queued. */
  lemma AcknowledgedInOrder(n: nat, steps: seq<Step>)
    ensures
      var s := Run(Init(n), steps);
      && (forall i, j :: 0 <= i < j < |Chain(s)| ==> Chain(s)[i].ticket < Chain(s)[j].ticket)
      && s.acked <= Chain(s)
      && (forall i, j :: 0 <= i < j < |s.acked| ==> s.acked[i].call != s.acked[j].call)
  {
    InvAlways(n, steps);
    var s := Run(Init(n), steps);
    forall i, j | 0 <= i < j < |s.acked| ensures s.acked[i].call != s.acked[j].call {
      assert CallOk(s, s.acked[i].call);
      if s.acked[i].call == s.acked[j].call {
        CountTwo(s.acked, i, j);
      }
    }
  }

  /** Losses are never over-counted; what is counted or reported falls short only by drops that
      are still being added or reported, and by events lost to a refilled queue. */
  lemma LossesNeverOvercounted(n: nat, steps: seq<Step>)
    ensures
      var s := Run(Init(n), steps);
      && |s.lost| == s.dropped + s.reported + OwedByUploader(s.uploader) + Owed(s.producers) + s.uncounted
      && s.dropped + s.reported <= |s.lost|
  {
    InvAlways(n, steps);
  }

  // How many puts met a queue that had been refilled since the get before them
  function RefilledPuts(s: State, steps: seq<Step>): nat
  {
    if steps == [] then 0 else
    var front, step := steps[..|steps| - 1], steps[|steps| - 1];
    var t := Run(s, front);
    RefilledPuts(s, front) +
      if step.PutNew? && step.p < |t.producers| && t.producers[step.p].Removed? && |t.queue| >= QUEUE_SIZE then 1 else 0
  }

  lemma LogWholeEffect(s: State, p: nat)
    requires p < |s.producers| && s.producers[p] == Idle && |s.queue| <= QUEUE_SIZE
    ensures
      var t := Apply(s, LogWhole(p));
      var e := Event(s.calls, s.tickets);
      t == if |s.queue| < QUEUE_SIZE
           then s.(queue := s.queue + [e], calls := s.calls + 1, tickets := s.tickets + 1)
           else s.(queue := s.queue[1..] + [e], calls := s.calls + 1, tickets := s.tickets + 1,
                   lost := s.lost + multiset{s.queue[0].call}, dropped := s.dropped + 1)
  {
    assert s.producers[p := Refused(s.calls)][p := Removed(s.calls)][p := Counting][p := Idle] == s.producers;
  }

  lemma UncountedStep(s: State, step: Step)
    requires |s.queue| <= QUEUE_SIZE
    ensures Apply(s, step).uncounted == s.uncounted +
      if step.PutNew? && step.p < |s.producers| && s.producers[step.p].Removed? && |s.queue| >= QUEUE_SIZE then 1 else 0
  {
    if step.LogWhole? && step.p < |s.producers| && s.producers[step.p] == Idle {
      LogWholeEffect(s, step.p);
    }
  }

  lemma InvIsConsistent(s: State)
    requires Inv(s)
    ensures Consistent(s)
  {
  }

  lemma {:induction false} UncountedAre(n: nat, steps: seq<Step>)
    ensures Run(Init(n), steps).uncounted == RefilledPuts(Init(n), steps)
  {
    if steps != [] {
      var front := steps[..|steps| - 1];
      UncountedAre(n, front);
      InvAlways(n, front);
      InvIsConsistent(Run(Init(n), front));
      UncountedStep(Run(Init(n), front), steps[|steps| - 1]);
      hide Apply;
    }
  }

  lemma InvIsAccounted(s: State)
    requires Inv(s)
    ensures Accounted(s)
  {
  }

  /** Every loss is counted, reported or about to be counted if and only if no put of log_event met
      a queue that another producer had refilled since its get; each such put hides one loss. */
  lemma {:induction false} LossesExactIff(n: nat, steps: seq<Step>)
    ensures
      var s := Run(Init(n), steps);
      var known := s.dropped + s.reported + OwedByUploader(s.uploader) + Owed(s.producers);
      && |s.lost| == known + RefilledPuts(Init(n), steps)
      && (|s.lost| == known <==> RefilledPuts(Init(n), steps) == 0)
  {
    hide Inv, Run, RefilledPuts, Owed;
    InvAlways(n, steps);
    UncountedAre(n, steps);
    InvIsAccounted(Run(Init(n), steps));
  }

  // -- retries ---------------------------------------------------------------

  lemma PostedTries(s: State)
    requires Inv(s) && s.uploader.Posting?
    ensures s.posts[s.uploader.event.call] == s.tries + 1 && s.tries <= 5
  {
    assert CallOk(s, s.uploader.event.call);
    CountOne(InHand(s), 0);
  }

  /** In every reachable state: an event whose POST fails transiently is kept for another try if it
      has been posted at most five times, and given up, as a loss, if it has been posted six times. */
  lemma {:induction false} GivenUpAfterSixPosts(n: nat, steps: seq<Step>)
    requires Run(Init(n), steps).uploader.Posting?
    ensures
      var s := Run(Init(n), steps);
      var e, t := s.uploader.event, Apply(s, Answer(Transient));
      && 1 <= s.posts[e.call] <= 6
      && (s.posts[e.call] <= 5 <==> t.pending == Some(e) && t.lost == s.lost)
      && (s.posts[e.call] == 6 <==> t.pending == None && t.lost == s.lost + multiset{e.call})
  {
    var s := Run(Init(n), steps);
    InvAlways(n, steps);
    PostedTries(s);
  }

  // So many times an event is taken and its POST fails transiently
  function Failures(k: nat): seq<Step>
  {
    if k == 0 then [] else Failures(k - 1) + [Take, Answer(Transient)]
  }

  // The uploader waits, and the next event has not been tried yet
  predicate Fresh(s: State)
  {
    s.uploader == Waiting && s.pending.None? && s.tries == 0 && s.queue != []
  }

  lemma RunPair(s: State, a: Step, b: Step)
    ensures Run(s, [a, b]) == Apply(Apply(s, a), b)
  {
    hide Apply;
    assert [a, b][..1] == [a] && [a][..0] == [];
    assert Run(s, [a]) == Apply(s, a);
  }

  lemma {:induction false} RunAppend(s: State, a: seq<Step>, b: seq<Step>)
    ensures Run(s, a + b) == Run(Run(s, a), b)
    decreases |b|
  {
    hide Apply;
    if b == [] {
      assert a + b == a;
    } else {
      assert (a + b)[..|a + b| - 1] == a + b[..|b| - 1];
      RunAppend(s, a, b[..|b| - 1]);
    }
  }

  lemma {:induction false} AfterFailures(s: State, k: nat)
    requires Fresh(s) && 1 <= k <= 5
    ensures
      var t := Run(s, Failures(k));
      && t.uploader == Waiting && t.pending == Some(s.queue[0]) && t.tries == k
      && t.queue == s.queue[1..] && t.acked == s.acked && t.lost == s.lost
  {
    RunAppend(s, Failures(k - 1), [Take, Answer(Transient)]);
    if k == 1 {
      assert Run(s, Failures(0)) == s;
    } else {
      AfterFailures(s, k - 1);
    }
    var u := Run(s, Failures(k - 1));
    hide Run;
    RunPair(u, Take, Answer(Transient));
  }

  /** A new event survives five transient failures: the sixth POST, when accepted, acknowledges it,
      and when it fails as well, the event is lost. */
  lemma {:induction false} FiveRetries(s: State)
    requires Fresh(s)
    ensures Run(s, Failures(5) + [Take, Answer(Accepted)]).acked == s.acked + [s.queue[0]]
    ensures Run(s, Failures(5) + [Take, Answer(Accepted)]).lost == s.lost
    ensures Run(s, Failures(6)).lost == s.lost + multiset{s.queue[0].call}
    ensures Run(s, Failures(6)).acked == s.acked && Run(s, Failures(6)).pending.None?
  {
    var u := Run(s, Failures(5));
    AfterFailures(s, 5);
    RunAppend(s, Failures(5), [Take, Answer(Accepted)]);
    RunAppend(s, Failures(5), [Take, Answer(Transient)]);
    RunPair(u, Take, Answer(Accepted));
    RunPair(u, Take, Answer(Transient));
    hide Run;
  }

  /** The queue never holds more than 500 events, and log_event finds it full at exactly 500. */
  lemma {:induction false} QueueBound(n: nat, steps: seq<Step>, p: nat)
    requires p < |Run(Init(n), steps).producers| && Run(Init(n), steps).producers[p] == Idle
    ensures
      var s := Run(Init(n), steps);
      && |s.queue| <= 500
      && (|s.queue| == 500 <==> Apply(s, Call(p)).queue == s.queue)
      && (|s.queue| == 500 <==> Apply(s, LogWhole(p)).lost != s.lost)
  {
    var s := Run(Init(n), steps);
    InvAlways(n, steps);
    InvIsConsistent(s);
    LogWholeEffect(s, p);
    hide Run, Inv;
    if |s.queue| == 500 {
      assert (s.lost + multiset{s.queue[0].call})[s.queue[0].call] > s.lost[s.queue[0].call];
    }
  }

  // -- what the server knows about drops ---------------------------------------

  // The drops in a report that this step ends, for one kind of outcome
  function Ended(s: State, step: Step, raised: bool, stored: bool): nat
  {
    if s.uploader.Reporting? && step == ReportDone(raised, stored) then s.uploader.n else 0
  }

  /** Drops in reports that the server stored although posting them raised: they are folded back
      and reported again. */
  function Repeated(s: State, steps: seq<Step>): nat
  {
    if steps == [] then 0 else
    var front := steps[..|steps| - 1];
    Repeated(s, front) + Ended(Run(s, front), steps[|steps| - 1], true, true)
  }

  /** Drops in reports that the server refused without an exception: they are forgotten. */
  function Vanished(s: State, steps: seq<Step>): nat
  {
    if steps == [] then 0 else
    var front := steps[..|steps| - 1];
    Vanished(s, front) + Ended(Run(s, front), steps[|steps| - 1], false, false)
  }

  lemma OthersReportNothing(s: State, step: Step)
    requires !step.ReportDone?
    ensures Apply(s, step).delivered == s.delivered && Apply(s, step).reported == s.reported
  {
    if step.LogWhole? && step.p < |s.producers| && s.producers[step.p] == Idle {
      hide Take1, Answer1;
    }
  }

  lemma DeliveredStep(s: State, step: Step)
    ensures
      var t := Apply(s, step);
      t.delivered - s.delivered + Ended(s, step, false, false) == t.reported - s.reported + Ended(s, step, true, true)
  {
    if step.ReportDone? {
      hide Call1, RemoveOldest1, PutNew1, CountDrop1, Take1, Answer1;
    } else {
      OthersReportNothing(s, step);
      hide Apply;
    }
  }

  lemma {:induction false} DeliveredIs(n: nat, steps: seq<Step>)
    ensures
      var s := Run(Init(n), steps);
      s.delivered + Vanished(Init(n), steps) == s.reported + Repeated(Init(n), steps)
  {
    if steps != [] {
      var front, step := steps[..|steps| - 1], steps[|steps| - 1];
      DeliveredIs(n, front);
      DeliveredStep(Run(Init(n), front), step);
      hide Apply, Ended;
    }
  }

  // What the server was told, what it will be told, and what it will never be told
  function Known(s: State): nat
  {
    s.delivered + s.dropped + OwedByUploader(s.uploader) + Owed(s.producers) + s.uncounted
  }

  /** The server's account in every reachable state: it exceeds the losses by the drops that were
      stored and folded back all the same, and falls short by the drops that were refused. */
  lemma {:induction false} ServerAccount(n: nat, steps: seq<Step>)
    ensures
      var s := Run(Init(n), steps);
      Known(s) + Vanished(Init(n), steps) == |s.lost| + Repeated(Init(n), steps)
  {
    InvAlways(n, steps);
    DeliveredIs(n, steps);
  }

  // Every report that ended raised exactly when it was not stored
  ghost predicate HonestReports(s: State, steps: seq<Step>)
  {
    forall k :: 0 <= k < |steps| && steps[k].ReportDone? && Run(s, steps[..k]).uploader.Reporting? ==>
      (steps[k].stored <==> !steps[k].raised)
  }

  // At every moment of the run the server's account equals the losses
  ghost predicate ExactThroughout(s: State, steps: seq<Step>)
  {
    forall k :: 0 <= k <= |steps| ==> Known(Run(s, steps[..k])) == |Run(s, steps[..k]).lost|
  }

  lemma ExactAtEnd(s: State, steps: seq<Step>)
    requires ExactThroughout(s, steps)
    ensures Known(Run(s, steps)) == |Run(s, steps).lost|
  {
    assert steps[..|steps|] == steps;
  }

  lemma ExactMore(s: State, front: seq<Step>, step: Step)
    ensures
      var steps := front + [step];
      ExactThroughout(s, steps) <==> ExactThroughout(s, front) && Known(Run(s, steps)) == |Run(s, steps).lost|
  {
    hide Known, Run;
    var steps := front + [step];
    assert forall k :: 0 <= k <= |front| ==> steps[..k] == front[..k];
    assert steps[..|steps|] == steps;
  }

  lemma HonestMore(s: State, front: seq<Step>, step: Step)
    ensures
      HonestReports(s, front + [step]) <==>
        HonestReports(s, front)
        && (step.ReportDone? && Run(s, front).uploader.Reporting? ==> (step.stored <==> !step.raised))
  {
    hide Run;
    var steps := front + [step];
    assert forall k :: 0 <= k <= |front| ==> steps[..k] == front[..k];
    assert front[..|front|] == front;
    assert forall k :: 0 <= k < |front| ==> steps[k] == front[k];
    assert steps[|front|] == step;
  }

  // How the surplus and the deficit grow with one more step
  lemma OneMoreEnded(s: State, front: seq<Step>, step: Step)
    ensures
      var steps := front + [step];
      && Repeated(s, steps) == Repeated(s, front) + Ended(Run(s, front), step, true, true)
      && Vanished(s, steps) == Vanished(s, front) + Ended(Run(s, front), step, false, false)
  {
    hide Ended, Run;
    assert (front + [step])[..|front|] == front;
  }

  lemma EndedWhenDishonest(s: State, step: Step)
    ensures
      (Ended(s, step, true, true) == Ended(s, step, false, false)) <==>
      (step.ReportDone? && s.uploader.Reporting? ==> (step.stored <==> !step.raised))
  {
  }

  /** Every drop is reported exactly once, at every moment of the run, if and only if each report
      that is posted raises exactly when the server does not store it. */
  lemma {:induction false} ReportedExactlyOnce(n: nat, steps: seq<Step>)
    ensures ExactThroughout(Init(n), steps) <==> HonestReports(Init(n), steps)
  {
    var s := Init(n);
    if steps == [] {
      hide Known;
      ServerAccount(n, steps);
      assert forall k :: 0 <= k <= |steps| ==> steps[..k] == [];
    } else {
      hide *;
      var front, step := steps[..|steps| - 1], steps[|steps| - 1];
      assert front + [step] == steps;
      ReportedExactlyOnce(n, front);
      ServerAccount(n, front);
      ServerAccount(n, steps);
      OneMoreEnded(s, front, step);
      EndedWhenDishonest(Run(s, front), step);
      ExactMore(s, front, step);
      HonestMore(s, front, step);
      if ExactThroughout(s, front) {
        ExactAtEnd(s, front);
      }
    }
  }

  lemma RunFive(s: State, a: Step, b: Step, c: Step, d: Step, e: Step)
    ensures Run(s, [a, b, c, d, e]) == Apply(Apply(Apply(Apply(Apply(s, a), b), c), d), e)
  {
    hide Apply;
    assert [a, b, c, d, e][..4] == [a, b, c, d];
    assert [a, b, c, d][..3] == [a, b, c];
    assert [a, b, c][..2] == [a, b];
    assert [a, b][..1] == [a];
    assert [a][..0] == [];
    assert Run(s, []) == s;
    assert Run(s, [a]) == Apply(s, a);
    assert Run(s, [a, b]) == Apply(Run(s, [a]), b);
    assert Run(s, [a, b, c]) == Apply(Run(s, [a, b]), c);
    assert Run(s, [a, b, c, d]) == Apply(Run(s, [a, b, c]), d);
  }

  /** A stored report whose reply is lost is reported again with the next success: the server then
      counts its drops twice. */
  lemma LostReplyReportsTwice(s: State)
    requires s.uploader.Reporting? && s.queue != [] && s.pending.None?
    ensures
      var t := Run(s, [ReportDone(true, true), Take, Answer(Accepted), Collect, ReportDone(false, true)]);
      t.delivered == s.delivered + 2 * s.uploader.n + s.dropped && t.lost == s.lost && t.dropped == 0
  {
    RunFive(s, ReportDone(true, true), Take, Answer(Accepted), Collect, ReportDone(false, true));
    hide Run;
    var s2 := Apply(Apply(s, ReportDone(true, true)), Take);
    assert s2.uploader.Posting? && s2.dropped == s.dropped + s.uploader.n && s2.delivered == s.delivered + s.uploader.n;
    hide Take1;
  }

  /** A report that the server refuses vanishes: its drops are neither stored nor counted. */
  lemma RefusedReportVanishes(s: State)
    requires s.uploader.Reporting?
    ensures
      var t := Apply(s, ReportDone(false, false));
      Known(t) == Known(s) - s.uploader.n && t.lost == s.lost
  {
  }

  // The shortest run to a report: one event is refused, the next one accepted, a third one waits
  function FirstLoss(): seq<Step> { [LogWhole(0), Take, Answer(ClientError), CountLoss, LogWhole(0)] }
  function FirstReport(): seq<Step> { [Take, Answer(Accepted), LogWhole(0), Collect, Collect] }

  lemma LogWhenRoom(s: State)
    requires s.producers == [Idle] && |s.queue| < QUEUE_SIZE
    ensures Apply(s, LogWhole(0)) ==
      s.(queue := s.queue + [Event(s.calls, s.tickets)], calls := s.calls + 1, tickets := s.tickets + 1)
  {
    LogWholeEffect(s, 0);
  }

  lemma AfterFirstLoss(s: State)
    requires s.uploader == Waiting && s.pending.None? && s.queue == [] && s.producers == [Idle]
    ensures
      var t := Run(s, FirstLoss());
      && t.lost == s.lost + multiset{s.calls} && t.dropped == s.dropped + 1
      && |t.queue| == 1 && t.uploader == Waiting && t.pending.None? && t.producers == [Idle]
      && t.delivered == s.delivered && t.uncounted == s.uncounted
  {
    RunFive(s, LogWhole(0), Take, Answer(ClientError), CountLoss, LogWhole(0));
    hide Run;
    LogWhenRoom(s);
    var s1 := Apply(s, LogWhole(0));
    hide Call1, RemoveOldest1, PutNew1, CountDrop1;
    var s2 := Apply(s1, Take);
    assert s2.uploader == Posting(Event(s.calls, s.tickets)) && s2.queue == [];
    var s3 := Apply(s2, Answer(ClientError));
    assert s3.lost == s.lost + multiset{s.calls} && s3.queue == [] && s3.uploader == Losing;
    hide Take1, Answer1;
    var s4 := Apply(s3, CountLoss);
    LogWhenRoom(s4);
  }

  lemma AfterFirstReport(s: State)
    requires s.uploader == Waiting && s.pending.None? && |s.queue| == 1 && s.producers == [Idle] && s.dropped > 0
    ensures
      var t := Run(s, FirstReport());
      && t.uploader == Reporting(s.dropped) && t.lost == s.lost && t.dropped == 0
      && |t.queue| == 1 && t.pending.None? && t.producers == [Idle]
      && t.delivered == s.delivered && t.uncounted == s.uncounted
  {
    RunFive(s, Take, Answer(Accepted), LogWhole(0), Collect, Collect);
    hide Run, Call1, RemoveOldest1, PutNew1, CountDrop1;
    var s1 := Apply(s, Take);
    assert s1.uploader.Posting? && s1.queue == [];
    var s2 := Apply(s1, Answer(Accepted));
    assert s2.queue == [] && s2.uploader == Collecting && s2.dropped == s.dropped;
    hide Take1, Answer1;
    LogWhenRoom(s2);
  }

  lemma FirstReportPosted()
    ensures
      var s := Run(Init(1), FirstLoss() + FirstReport());
      && s.uploader == Reporting(1) && |s.lost| == 1 && s.delivered == 0
      && s.dropped == 0 && s.uncounted == 0 && s.producers == [Idle] && |s.queue| == 1 && s.pending.None?
  {
    RunAppend(Init(1), FirstLoss(), FirstReport());
    hide Run, FirstLoss, FirstReport;
    assert Init(1).producers == [Idle];
    AfterFirstLoss(Init(1));
    AfterFirstReport(Run(Init(1), FirstLoss()));
  }

  lemma NothingElseKnown(s: State)
    requires s.uploader == Reporting(1) && s.delivered == 0 && s.dropped == 0 && s.uncounted == 0 && s.producers == [Idle]
    ensures Known(s) == 1
  {
    assert Owed([Idle]) == 0;
  }

  lemma RunOne(s: State, step: Step)
    ensures Run(s, [step]) == Apply(s, step)
  {
    hide Apply;
    assert [step][..0] == [];
  }

  /** Both ways of missing `exactly once` are reachable: two drops stored for one loss, and one
      loss of which nothing is left to tell the server. */
  lemma ReportsCanMiss()
    ensures exists steps :: Run(Init(1), steps).delivered == 2 && |Run(Init(1), steps).lost| == 1
    ensures exists steps :: Known(Run(Init(1), steps)) == 0 && |Run(Init(1), steps).lost| == 1
  {
    hide *;
    var start := FirstLoss() + FirstReport();
    var s := Run(Init(1), start);
    FirstReportPosted();
    LostReplyReportsTwice(s);
    RunAppend(Init(1), start, [ReportDone(true, true), Take, Answer(Accepted), Collect, ReportDone(false, true)]);
    NothingElseKnown(s);
    RefusedReportVanishes(s);
    RunAppend(Init(1), start, [ReportDone(false, false)]);
    RunOne(s, ReportDone(false, false));
  }

  // Runs in which log_event is never interrupted
  predicate Whole(step: Step)
  {
    !step.Call? && !step.RemoveOldest? && !step.PutNew? && !step.CountDrop?
  }

  // Nobody is inside log_event, and calls enter the queue as they are made
  ghost predicate Quiet(s: State)
  {
    && (forall p :: 0 <= p < |s.producers| ==> s.producers[p] == Idle)
    && s.uncounted == 0
    && s.tickets == s.calls
    && (forall i :: 0 <= i < |Chain(s)| ==> Chain(s)[i].ticket == Chain(s)[i].call)
  }

  lemma QuietLog(s: State, p: nat)
    requires Quiet(s) && Consistent(s) && p < |s.producers|
    ensures Quiet(Apply(s, LogWhole(p)))
  {
    LogWholeEffect(s, p);
    hide Apply;
    var t := Apply(s, LogWhole(p));
    var c, d := Chain(s), Chain(t);
    var a := |s.acked| + |InHand(s)|;
    var e := Event(s.calls, s.tickets);
    assert d == c + [e] || d == c[..a] + c[a + 1..] + [e];
  }

  lemma QuietStep(s: State, step: Step)
    requires Quiet(s) && Consistent(s) && Whole(step)
    ensures Quiet(Apply(s, step))
  {
    if step.LogWhole? {
      if step.p < |s.producers| {
        QuietLog(s, step.p);
      }
    } else {
      UploaderChain(s, step);
      hide Apply, Chain;
    }
  }

  lemma {:induction false} QuietAlways(n: nat, steps: seq<Step>)
    requires forall i :: 0 <= i < |steps| ==> Whole(steps[i])
    ensures Quiet(Run(Init(n), steps))
  {
    if steps != [] {
      var front := steps[..|steps| - 1];
      assert forall i :: 0 <= i < |front| ==> front[i] == steps[i];
      QuietAlways(n, front);
      InvAlways(n, front);
      hide Quiet, Consistent, Apply;
      QuietStep(Run(Init(n), front), steps[|steps| - 1]);
    }
  }

  lemma {:induction false} NoneOwed(ps: seq<Producer>)
    requires forall p :: 0 <= p < |ps| ==> ps[p] == Idle
    ensures Owed(ps) == 0
  {
    if ps != [] {
      NoneOwed(ps[1..]);
    }
  }

  /** When log_event is one step, losses equal the drop counter plus what was or is being
      reported, and events are acknowledged in the order in which they were logged. With reports
      that raise exactly when they are not stored, what was reported is what the server stored. */
  lemma {:induction false} ExactWhenWhole(n: nat, steps: seq<Step>)
    requires forall i :: 0 <= i < |steps| ==> Whole(steps[i])
    ensures
      var s := Run(Init(n), steps);
      && |s.lost| == s.dropped + s.reported + OwedByUploader(s.uploader)
      && (HonestReports(Init(n), steps) ==> s.delivered == s.reported)
      && forall i, j :: 0 <= i < j < |s.acked| ==> s.acked[i].call < s.acked[j].call
  {
    QuietAlways(n, steps);
    InvAlways(n, steps);
    var s := Run(Init(n), steps);
    NoneOwed(s.producers);
    if HonestReports(Init(n), steps) {
      ReportedExactlyOnce(n, steps);
      hide HonestReports;
      ExactAtEnd(Init(n), steps);
    }
    assert forall i :: 0 <= i < |s.acked| ==> s.acked[i] == Chain(s)[i];
  }

  lemma FullQueueGetsOne(s: State, p: nat, q: nat)
    requires p < |s.producers| && q < |s.producers| && p != q
    requires s.producers[p] == Idle && s.producers[q] == Idle && |s.queue| == QUEUE_SIZE
    ensures
      var t := RemoveOldest1(Call1(s, p), p);
      && |Call1(s, p).producers| == |s.producers|
      && |t.queue| == QUEUE_SIZE - 1 && t.lost == s.lost + multiset{s.queue[0].call}
      && |t.producers| == |s.producers| && t.producers[p] == Removed(s.calls) && t.producers[q] == Idle
      && t.calls == s.calls + 1 && t.dropped == s.dropped
  {
  }

  lemma Refilled(s: State, q: nat)
    requires q < |s.producers| && s.producers[q] == Idle && |s.queue| == QUEUE_SIZE - 1
    ensures
      var t := Call1(s, q);
      && |t.queue| == QUEUE_SIZE && t.producers == s.producers && t.lost == s.lost
      && t.calls == s.calls + 1 && t.dropped == s.dropped
  {
  }

  lemma RefusedAndCounted(s: State, p: nat)
    requires p < |s.producers| && s.producers[p].Removed? && |s.queue| == QUEUE_SIZE
    ensures
      var t := CountDrop1(PutNew1(s, p), p);
      && |PutNew1(s, p).producers| == |s.producers|
      && t.lost == s.lost + multiset{s.producers[p].call} && t.dropped == s.dropped + 1 && t.calls == s.calls
  {
  }

  /** The uncounted loss is real: whenever the queue is full and two producers are free, one of
      them refilling the queue between the other's get and put loses two events and counts one. */
  lemma RefillLosesTwo(s: State, p: nat, q: nat)
    requires p < |s.producers| && q < |s.producers| && p != q
    requires s.producers[p] == Idle && s.producers[q] == Idle && |s.queue| == QUEUE_SIZE
    ensures
      var t := Run(s, [Call(p), RemoveOldest(p), Call(q), PutNew(p), CountDrop(p)]);
      && t.lost == s.lost + multiset{s.queue[0].call, s.calls}
      && t.dropped == s.dropped + 1
      && t.calls == s.calls + 2
  {
    RunFive(s, Call(p), RemoveOldest(p), Call(q), PutNew(p), CountDrop(p));
    hide Run, Call1, RemoveOldest1, PutNew1, CountDrop1, Take1, Answer1;
    FullQueueGetsOne(s, p, q);
    var s2 := RemoveOldest1(Call1(s, p), p);
    Refilled(s2, q);
    RefusedAndCounted(Call1(s2, q), p);
  }

  // -------------------------------------------------------------------------
  // The client's own variables
  // -------------------------------------------------------------------------

  lemma StartsValid(s: State)
    requires s == Init(1)
    ensures Inv(s) && Quiet(s) && |s.producers| == 1
  {
    hide Inv, Quiet;
    assert Run(s, []) == s;
    InvAlways(1, []);
    QuietAlways(1, []);
  }

  lemma BothKept(s: State, step: Step)
    requires Inv(s) && Quiet(s) && Whole(step)
    ensures Inv(Apply(s, step)) && Quiet(Apply(s, step))
  {
    hide Inv, Quiet, Apply, Consistent;
    InvIsConsistent(s);
    StepKeepsInv(s, step);
    QuietStep(s, step);
  }

  // One turn of the upload loop keeps the invariant
  lemma TurnKeepsInv(s: State, reply: Reply, raised: bool, stored: bool)
    requires Inv(s) && Quiet(s)
    ensures
      var t := Run(s, [Take, Answer(reply), CountLoss, Collect, ReportDone(raised, stored)]);
      Inv(t) && Quiet(t)
  {
    hide Inv, Apply, Quiet;
    RunFive(s, Take, Answer(reply), CountLoss, Collect, ReportDone(raised, stored));
    var s1, s2 := Apply(s, Take), Apply(Apply(s, Take), Answer(reply));
    var s3, s4 := Apply(s2, CountLoss), Apply(Apply(s2, CountLoss), Collect);
    BothKept(s, Take);
    BothKept(s1, Answer(reply));
    BothKept(s2, CountLoss);
    BothKept(s3, Collect);
    BothKept(s4, ReportDone(raised, stored));
  }

  // ... and gives every variable its new value
  lemma TurnEffect(s: State, reply: Reply, raised: bool, stored: bool)
    requires Inv(s) && s.uploader == Waiting
    ensures
      var t := Run(s, [Take, Answer(reply), CountLoss, Collect, ReportDone(raised, stored)]);
      var idle := s.pending.None? && s.queue == [];
      var e := if s.pending.Some? then s.pending.value else if s.queue != [] then s.queue[0] else Event(0, 0);
      && t.uploader == Waiting && |t.producers| == |s.producers| && t.calls == s.calls
      && (idle ==> t == s)
      && (!idle ==>
        && t.queue == (if s.pending.Some? then s.queue else s.queue[1..])
        && (reply.Accepted? ==>
          t.pending == None && t.tries == 0 && t.failures == 0 && t.dropped == if raised then s.dropped else 0)
        && (reply.ClientError? ==>
          t.pending == None && t.tries == 0 && t.failures == s.failures && t.dropped == s.dropped + 1)
        && (reply.Transient? && s.tries + 1 <= MAX_RETRIES ==>
          t.pending == Some(e) && t.tries == s.tries + 1 && t.failures == s.failures + 1 && t.dropped == s.dropped)
        && (reply.Transient? && s.tries + 1 > MAX_RETRIES ==>
          t.pending == None && t.tries == 0 && t.failures == s.failures + 1 && t.dropped == s.dropped + 1))
  {
    RunFive(s, Take, Answer(reply), CountLoss, Collect, ReportDone(raised, stored));
    hide Run, Inv;
    var s1 := Apply(s, Take);
    var s2 := Apply(s1, Answer(reply));
    if s.pending.None? && s.queue == [] {
      assert s2 == s;
    } else {
      assert s1.uploader.Posting? && s1.tries == s.tries && s1.dropped == s.dropped && s1.failures == s.failures;
      assert s2.queue == s1.queue && s2.dropped == s.dropped;
      hide Take1, Answer1;
    }
  }

  /** The module state of the client, with its history as a ghost. */
  class Client {
    var queue: seq<Event>
    var dropped: nat
    var pending: Option<Event>
    var pendingTries: nat
    var consecutiveFailures: nat
    var logged: nat            // numbers the payloads
    ghost var model: State

    // Between two turns of the upload loop, the variables are those of the model
    ghost predicate Valid()
      reads this
    {
      && Inv(model) && Quiet(model) && |model.producers| == 1 && model.uploader == Waiting
      && logged == model.calls
      && queue == model.queue && dropped == model.dropped && pending == model.pending
      && pendingTries == model.tries && consecutiveFailures == model.failures
    }

    constructor ()
      ensures Valid() && model == Init(1)
    {
      hide Inv, Quiet;
      StartsValid(Init(1));
      queue, dropped, pending, pendingTries, consecutiveFailures, logged := [], 0, None, 0, 0, 0;
      model := Init(1);
    }

    /** log_event, uninterrupted. */
    method LogEvent()
      requires Valid()
      modifies this
      ensures Valid() && model == Apply(old(model), LogWhole(0))
    {
      ghost var m := model;
      var event := Event(logged, logged);
      logged := logged + 1;
      if |queue| < QUEUE_SIZE {
        queue := queue + [event];
      } else {
        queue := queue[1..];
        queue := queue + [event];
        dropped := dropped + 1;
      }
      LogWholeEffect(m, 0);
      hide Inv, Quiet;
      StepKeepsInv(m, LogWhole(0));
      InvIsConsistent(m);
      QuietStep(m, LogWhole(0));
      model := Apply(m, LogWhole(0));
    }

    /** One turn of the upload loop; `reply` answers the POST, `raised` says whether posting a
        drop report raises, and `stored` whether the server kept it. */
    method UploadTurn(reply: Reply, raised: bool, ghost stored: bool)
      requires Valid()
      modifies this
      ensures Valid()
      ensures model == Run(old(model), [Take, Answer(reply), CountLoss, Collect, ReportDone(raised, stored)])
    {
      ghost var m := model;
      hide Inv, Quiet, Run, Apply;
      TurnKeepsInv(m, reply, raised, stored);
      TurnEffect(m, reply, raised, stored);
      model := Run(m, [Take, Answer(reply), CountLoss, Collect, ReportDone(raised, stored)]);
      var payload: Event;
      if pending.Some? {
        payload := pending.value;
      } else if queue == [] {
        return;
      } else {
        payload := queue[0];
        queue := queue[1..];
      }
      match reply
      case Accepted =>
        pending := None;
        pendingTries := 0;
        consecutiveFailures := 0;
        var n := dropped;
        dropped := 0;
        if n > 0 && raised {
          dropped := dropped + n;
        }
      case ClientError =>
        pending := None;
        pendingTries := 0;
        dropped := dropped + 1;
      case Transient =>
        consecutiveFailures := consecutiveFailures + 1;
        pendingTries := pendingTries + 1;
        if pendingTries <= MAX_RETRIES {
          pending := Some(payload);
        } else {
          pending := None;
          pendingTries := 0;
          dropped := dropped + 1;
        }
    }
  }
}
