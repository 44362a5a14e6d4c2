/** The lobby's event poller: deduplication by the highest event id, a one-shot force submit,
    and exponential back-off in skipped ticks. */
module Polling {

  datatype Event = Event(id: int, etype: string, severity: string)

  datatype Reply = HttpError | NetworkError | BadJson | Events(events: seq<Event>)

  const IGNORED: seq<string> :=
    ["screenshot", "enrollment", "started", "submitted", "resumed", "complete", "session_ended", "answer_selected"]

  // s.includes(x)
  predicate Includes(s: string, x: string)
  {
    |x| <= |s| && (s[..|x|] == x || (s != "" && Includes(s[1..], x)))
  }

  predicate Ignored(etype: string)
  {
    exists i :: 0 <= i < |IGNORED| && Includes(etype, IGNORED[i])
  }

  predicate Qualifies(e: Event)
  {
    (e.severity == "high" || e.severity == "medium") && !Ignored(e.etype)
  }

  // The word stands somewhere in the text
  ghost predicate Mentions(s: string, word: string)
  {
    exists a: string, b: string :: s == a + word + b
  }

  lemma AtFront(s: string, a: string, x: string, b: string)
    requires s == a + x + b
    ensures a == "" ==> |x| <= |s| && s[..|x|] == x
  {
  }

  lemma {:induction false} IncludesIs(s: string, x: string)
    ensures Includes(s, x) <==> Mentions(s, x)
  {
    forall a: string, b: string | s == a + x + b ensures a == "" ==> |x| <= |s| && s[..|x|] == x {
      AtFront(s, a, x, b);
    }
    if |x| <= |s| && s[..|x|] == x {
      assert s == "" + x + s[|x|..];
    } else if s != "" && |x| <= |s| {
      IncludesIs(s[1..], x);
      if a: string, b: string :| s[1..] == a + x + b {
        assert s == ([s[0]] + a) + x + b;
      }
      forall a: string, b: string | s == a + x + b ensures Mentions(s[1..], x) {
        assert s[1..] == a[1..] + x + b;
      }
    }
  }

  /** The events worth a callback: of high or medium severity, with a type that mentions none of the
      eight ignored words. */
  lemma {:induction false} QualifiesIs(e: Event)
    ensures Qualifies(e) <==>
      && e.severity in {"high", "medium"}
      && !Mentions(e.etype, "screenshot") && !Mentions(e.etype, "enrollment")
      && !Mentions(e.etype, "started") && !Mentions(e.etype, "submitted")
      && !Mentions(e.etype, "resumed") && !Mentions(e.etype, "complete")
      && !Mentions(e.etype, "session_ended") && !Mentions(e.etype, "answer_selected")
  {
    hide Includes, Mentions;
    forall i | 0 <= i < 8 ensures Includes(e.etype, IGNORED[i]) <==> Mentions(e.etype, IGNORED[i]) {
      IncludesIs(e.etype, IGNORED[i]);
    }
    assert Ignored(e.etype) <==>
      || Includes(e.etype, IGNORED[0]) || Includes(e.etype, IGNORED[1]) || Includes(e.etype, IGNORED[2])
      || Includes(e.etype, IGNORED[3]) || Includes(e.etype, IGNORED[4]) || Includes(e.etype, IGNORED[5])
      || Includes(e.etype, IGNORED[6]) || Includes(e.etype, IGNORED[7]);
  }

  predicate HasSubmit(events: seq<Event>)
  {
    exists i :: 0 <= i < |events| && events[i].etype == "exam_submitted"
  }

  /** The events of one response that are dispatched when ids up to `last` were seen. */
  function News(events: seq<Event>, last: int): seq<Event>
  {
    if events == [] then [] else
    var e := events[|events| - 1];
    News(events[..|events| - 1], last) + if e.id > last && Qualifies(e) then [e] else []
  }

  // Math.max over the ids, at least `from`
  function MaxId(events: seq<Event>, from: int): (m: int)
    ensures m >= from
  {
    if events == [] then from else
    var m := MaxId(events[..|events| - 1], from);
    if events[|events| - 1].id > m then events[|events| - 1].id else m
  }

  function Pow2(n: nat): nat { if n == 0 then 1 else 2 * Pow2(n - 1) }

  function Backoff(streak: nat): nat { if Pow2(streak) < 30 then Pow2(streak) else 30 }

  datatype State = State(
    lastEventId: int, forceSubmitSent: bool, inFlight: bool, failStreak: nat, skipTicks: nat,
    dispatched: seq<Event>, forced: nat, requests: nat)

  datatype Step = Tick | Answer(reply: Reply)

  function Init(): State { State(0, false, false, 0, 0, [], 0, 0) }

  function Apply(s: State, step: Step): State
  {
    match step
    case Tick =>
      if s.inFlight then s
      else if s.skipTicks > 0 then s.(skipTicks := s.skipTicks - 1)
      else s.(inFlight := true, requests := s.requests + 1)
    case Answer(reply) =>
      if !s.inFlight then s else
      match reply
      case Events(events) =>
        var force := !s.forceSubmitSent && HasSubmit(events);
        var news := News(events, s.lastEventId);
        s.(inFlight := false, failStreak := 0,
           forceSubmitSent := s.forceSubmitSent || force, forced := s.forced + if force then 1 else 0,
           lastEventId := MaxId(news, s.lastEventId), dispatched := s.dispatched + news)
      case BadJson => s.(inFlight := false, failStreak := 1, skipTicks := Backoff(1))
      case _ => s.(inFlight := false, failStreak := s.failStreak + 1, skipTicks := Backoff(s.failStreak + 1))
  }

  function Run(steps: seq<Step>): State
  {
    if steps == [] then Init() else Apply(Run(steps[..|steps| - 1]), steps[|steps| - 1])
  }

  // -------------------------------------------------------------------------
  // The interval callback
  // -------------------------------------------------------------------------

  lemma EmptyNews(last: int)
    ensures MaxId([], last) == last
  {
  }

  lemma {:induction false} NewsAbove(events: seq<Event>, last: int)
    ensures forall i :: 0 <= i < |News(events, last)| ==> News(events, last)[i].id > last
  {
    if events != [] {
      NewsAbove(events[..|events| - 1], last);
    }
  }

  class Poller {
    var lastEventId: int
    var forceSubmitSent: bool
    var pollInFlight: bool
    var failStreak: nat
    var skipTicks: nat
    var dispatched: seq<Event>     // calls of violationCallback
    var forced: nat                // calls of forceSubmitCallback
    ghost var requests: nat

    ghost function View(): State
      reads this
    {
      State(lastEventId, forceSubmitSent, pollInFlight, failStreak, skipTicks, dispatched, forced, requests)
    }

    constructor ()
      ensures View() == Init()
    {
      lastEventId, forceSubmitSent, pollInFlight, failStreak, skipTicks := 0, false, false, 0, 0;
      dispatched, forced, requests := [], 0, 0;
    }

    /** The part of a tick before the fetch; true when a request goes out. */
    method OnTick() returns (fetching: bool)
      modifies this
      ensures View() == Apply(old(View()), Tick)
      ensures fetching <==> requests == old(requests) + 1
    {
      if pollInFlight {
        return false;
      }
      if skipTicks > 0 {
        skipTicks := skipTicks - 1;
        return false;
      }
      pollInFlight := true;
      requests := requests + 1;
      fetching := true;
    }

    /** The part of a tick after the fetch. */
    method OnReply(reply: Reply)
      requires pollInFlight
      modifies this
      ensures View() == Apply(old(View()), Answer(reply))
    {
      hide Qualifies, Pow2;
      match reply {
        case Events(events) =>
          failStreak := 0;
          Deliver(events);
        case BadJson =>
          failStreak := 0;
          failStreak := failStreak + 1;
          skipTicks := Backoff(failStreak);
        case _ =>
          failStreak := failStreak + 1;
          skipTicks := Backoff(failStreak);
      }
      pollInFlight := false;
    }

    method Deliver(events: seq<Event>)
      modifies this`forceSubmitSent, this`forced, this`lastEventId, this`dispatched
      ensures
        var force := !old(forceSubmitSent) && HasSubmit(events);
        && forceSubmitSent == (old(forceSubmitSent) || force)
        && forced == old(forced) + if force then 1 else 0
      ensures lastEventId == MaxId(News(events, old(lastEventId)), old(lastEventId))
      ensures dispatched == old(dispatched) + News(events, old(lastEventId))
    {
      hide *;
      var submitted := SomeSubmit(events);
      if !forceSubmitSent && submitted {
        forceSubmitSent := true;
        forced := forced + 1;
      }
      var newV := NewViolations(events, lastEventId);
      EmptyNews(lastEventId);
      if |newV| > 0 {
        var m := HighestOf(newV, lastEventId);
        lastEventId := m;
        ghost var was := dispatched;
        for i := 0 to |newV|
          invariant dispatched == was + newV[..i]
          modifies this`dispatched
        {
          dispatched := dispatched + [newV[i]];
        }
        assert newV[..|newV|] == newV;
      }
    }

    // events.some(e => e.type === 'exam_submitted')
    static method SomeSubmit(events: seq<Event>) returns (some: bool)
      ensures some <==> HasSubmit(events)
    {
      for i := 0 to |events|
        invariant forall k :: 0 <= k < i ==> events[k].etype != "exam_submitted"
      {
        if events[i].etype == "exam_submitted" {
          return true;
        }
      }
      some := false;
    }

    // The filter for new high or medium violations
    static method NewViolations(events: seq<Event>, last: int) returns (newV: seq<Event>)
      ensures newV == News(events, last)
      ensures forall i :: 0 <= i < |newV| ==> newV[i].id > last
    {
      hide Qualifies;
      newV := [];
      for i := 0 to |events|
        invariant newV == News(events[..i], last)
      {
        assert events[..i + 1][..i] == events[..i];
        if events[i].id > last && Qualifies(events[i]) {
          newV := newV + [events[i]];
        }
      }
      assert events[..|events|] == events;
      NewsAbove(events, last);
    }

    // Math.max(...newV.map(e => e.id)) for ids above `last`
    static method HighestOf(newV: seq<Event>, ghost last: int) returns (m: int)
      requires newV != [] && forall i :: 0 <= i < |newV| ==> newV[i].id > last
      ensures m == MaxId(newV, last)
    {
      m := newV[0].id;
      assert newV[..1][..0] == [];
      for i := 1 to |newV|
        invariant m == MaxId(newV[..i], last)
      {
        assert newV[..i + 1][..i] == newV[..i];
        if newV[i].id > m {
          m := newV[i].id;
        }
      }
      assert newV[..|newV|] == newV;
    }
  }

  // -------------------------------------------------------------------------
  // Exactly-once dispatch
  // -------------------------------------------------------------------------

  // The successful responses of a run, in order
  function Responses(steps: seq<Step>): seq<seq<Event>>
  {
    if steps == [] then [] else
    var front, step := steps[..|steps| - 1], steps[|steps| - 1];
    Responses(front) + if Run(front).inFlight && step.Answer? && step.reply.Events? then [step.reply.events] else []
  }

  // Id `q` belongs to a qualifying event of one response
  predicate Shows(events: seq<Event>, q: int)
  {
    exists i :: 0 <= i < |events| && events[i].id == q && Qualifies(events[i])
  }

  /** The highest qualifying id in some responses, 0 when there is none above it. */
  function Highest(rs: seq<seq<Event>>): (h: int)
    ensures h >= 0
  {
    if rs == [] then 0 else
    var h := Highest(rs[..|rs| - 1]);
    MaxId(News(rs[|rs| - 1], h), h)
  }

  // What the responses dispatch
  function Dispatched(rs: seq<seq<Event>>): seq<Event>
  {
    if rs == [] then [] else Dispatched(rs[..|rs| - 1]) + News(rs[|rs| - 1], Highest(rs[..|rs| - 1]))
  }

  lemma {:induction false} RunDispatches(steps: seq<Step>)
    ensures Run(steps).lastEventId == Highest(Responses(steps))
    ensures Run(steps).dispatched == Dispatched(Responses(steps))
  {
    hide News, MaxId, HasSubmit, Backoff;
    if steps != [] {
      var front, step := steps[..|steps| - 1], steps[|steps| - 1];
      RunDispatches(front);
      if Run(front).inFlight && step.Answer? && step.reply.Events? {
        assert Responses(steps)[..|Responses(front)|] == Responses(front);
      } else {
        assert Responses(steps) == Responses(front);
      }
    }
  }

  function Count(events: seq<Event>, q: int): nat
  {
    if events == [] then 0 else Count(events[..|events| - 1], q) + if events[|events| - 1].id == q then 1 else 0
  }

  lemma {:induction false} CountAppend(a: seq<Event>, b: seq<Event>, q: int)
    ensures Count(a + b, q) == Count(a, q) + Count(b, q)
  {
    if b == [] {
      assert a + b == a;
    } else {
      assert (a + b)[..|a + b| - 1] == a + b[..|b| - 1];
      CountAppend(a, b[..|b| - 1], q);
    }
  }

  // No response lists two qualifying events with one id
  ghost predicate Distinct(events: seq<Event>)
  {
    forall i, j :: 0 <= i < j < |events| && Qualifies(events[i]) && Qualifies(events[j]) ==> events[i].id != events[j].id
  }

  lemma DistinctLast(front: seq<Event>, e: Event)
    requires Distinct(front + [e]) && Qualifies(e)
    ensures Distinct(front) && !Shows(front, e.id)
  {
    hide Qualifies;
    var all := front + [e];
    forall i, j | 0 <= i < j < |front| && Qualifies(front[i]) && Qualifies(front[j]) ensures front[i].id != front[j].id {
      assert all[i] == front[i] && all[j] == front[j];
    }
    forall i | 0 <= i < |front| ensures !(front[i].id == e.id && Qualifies(front[i])) {
      assert all[i] == front[i] && all[|front|] == e;
    }
  }

  lemma DistinctFront(events: seq<Event>)
    requires Distinct(events) && events != []
    ensures Distinct(events[..|events| - 1])
  {
    hide Qualifies;
    var front := events[..|events| - 1];
    assert forall i :: 0 <= i < |front| ==> front[i] == events[i];
  }

  lemma ShowsAppend(front: seq<Event>, e: Event, q: int)
    ensures Shows(front + [e], q) <==> Shows(front, q) || (e.id == q && Qualifies(e))
  {
    hide Qualifies;
    var all := front + [e];
    if Shows(front, q) {
      var i :| 0 <= i < |front| && front[i].id == q && Qualifies(front[i]);
      assert all[i].id == q;
    }
    if e.id == q && Qualifies(e) {
      assert all[|front|].id == q;
    }
    if Shows(all, q) {
      var i :| 0 <= i < |all| && all[i].id == q && Qualifies(all[i]);
      assert i < |front| ==> front[i] == all[i];
    }
  }

  lemma {:induction false} NewsCount(events: seq<Event>, last: int, q: int)
    requires Distinct(events)
    ensures Count(News(events, last), q) == if Shows(events, q) && q > last then 1 else 0
  {
    if events != [] {
      DistinctFront(events);
      hide Qualifies, Shows, Distinct;
      var front, e := events[..|events| - 1], events[|events| - 1];
      NewsCount(front, last, q);
      ShowsAppend(front, e, q);
      assert front + [e] == events;
      CountAppend(News(front, last), [e], q);
      assert Count([e], q) == if e.id == q then 1 else 0;
      if Qualifies(e) {
        DistinctLast(front, e);
      }
      assert News(events, last) == if e.id > last && Qualifies(e) then News(front, last) + [e] else News(front, last);
      hide News, Count;
    }
  }

  lemma {:induction false} HighestBounds(events: seq<Event>, last: int, q: int)
    ensures Shows(events, q) ==> q <= MaxId(News(events, last), last)
  {
    hide Qualifies;
    if events != [] {
      var front, e := events[..|events| - 1], events[|events| - 1];
      HighestBounds(front, last, q);
      ShowsAppend(front, e, q);
      assert front + [e] == events;
      if e.id > last && Qualifies(e) {
        assert News(events, last)[..|News(front, last)|] == News(front, last);
      } else {
        assert News(events, last) == News(front, last);
      }
    }
  }

  // Response i is the one that dispatches id q
  ghost predicate DispatchedAt(rs: seq<seq<Event>>, i: nat, q: int)
    requires i < |rs|
  {
    Shows(rs[i], q) && q > Highest(rs[..i])
  }

  lemma {:induction false} HighestCovers(rs: seq<seq<Event>>, i: nat, q: int)
    requires i < |rs| && Shows(rs[i], q)
    ensures q <= Highest(rs)
  {
    var last := |rs| - 1;
    if i < last {
      HighestCovers(rs[..last], i, q);
    } else {
      HighestBounds(rs[last], Highest(rs[..last]), q);
    }
  }

  lemma {:induction false} HighestGrows(rs: seq<seq<Event>>, i: nat)
    requires i <= |rs|
    ensures Highest(rs[..i]) <= Highest(rs)
  {
    if i == |rs| {
      assert rs[..i] == rs;
    } else {
      assert rs[..|rs| - 1][..i] == rs[..i];
      HighestGrows(rs[..|rs| - 1], i);
    }
  }

  /** An id is dispatched at most once over a run, and it is dispatched exactly when some response
      shows it above every qualifying id of the earlier responses. */
  lemma {:induction false} DispatchCount(rs: seq<seq<Event>>, q: int)
    requires forall r :: r in rs ==> Distinct(r)
    ensures Count(Dispatched(rs), q) == if exists i :: 0 <= i < |rs| && DispatchedAt(rs, i, q) then 1 else 0
  {
    hide Shows, News, Distinct;
    if rs != [] {
      var last := |rs| - 1;
      var front := rs[..last];
      DispatchCount(front, q);
      CountAppend(Dispatched(front), News(rs[last], Highest(front)), q);
      NewsCount(rs[last], Highest(front), q);
      forall i | 0 <= i < last ensures DispatchedAt(front, i, q) <==> DispatchedAt(rs, i, q) {
        assert front[..i] == rs[..i];
      }
      assert DispatchedAt(rs, last, q) <==> Shows(rs[last], q) && q > Highest(front);
      if i :| 0 <= i < last && DispatchedAt(front, i, q) {
        HighestCovers(front, i, q);
        assert !DispatchedAt(rs, last, q);
      }
    }
  }

  // Qualifying ids are positive, and a new one is above all that came before
  ghost predicate IncreasingIds(rs: seq<seq<Event>>)
  {
    forall j, q :: 0 <= j < |rs| && Shows(rs[j], q) ==>
      q > Highest(rs[..j]) || exists i :: 0 <= i < j && Shows(rs[i], q)
  }

  lemma {:induction false} FirstShown(rs: seq<seq<Event>>, j: nat, q: int)
    requires j < |rs| && Shows(rs[j], q) && IncreasingIds(rs)
    ensures exists i :: 0 <= i < |rs| && DispatchedAt(rs, i, q)
    decreases j
  {
    hide Shows;
    if q > Highest(rs[..j]) {
      assert DispatchedAt(rs, j, q);
    } else {
      var i :| 0 <= i < j && Shows(rs[i], q);
      FirstShown(rs, i, q);
    }
  }

  // Every qualifying id that some response shows was dispatched exactly once
  ghost predicate OnceEach(rs: seq<seq<Event>>, dispatched: seq<Event>)
  {
    forall j, q :: 0 <= j < |rs| && Shows(rs[j], q) ==> Count(dispatched, q) == 1
  }

  lemma IncreasingMeansOnce(rs: seq<seq<Event>>)
    requires (forall r :: r in rs ==> Distinct(r)) && IncreasingIds(rs)
    ensures OnceEach(rs, Dispatched(rs))
  {
    hide Shows, Distinct, Dispatched, Count, IncreasingIds;
    forall j, q | 0 <= j < |rs| && Shows(rs[j], q) ensures Count(Dispatched(rs), q) == 1 {
      FirstShown(rs, j, q);
      DispatchCount(rs, q);
    }
  }

  lemma OnceMeansIncreasing(rs: seq<seq<Event>>)
    requires forall r :: r in rs ==> Distinct(r)
    requires OnceEach(rs, Dispatched(rs))
    ensures IncreasingIds(rs)
  {
    hide Shows, Distinct, Dispatched, Count;
    forall j, q | 0 <= j < |rs| && Shows(rs[j], q)
      ensures q > Highest(rs[..j]) || exists i :: 0 <= i < j && Shows(rs[i], q)
    {
      DispatchCount(rs, q);
      var i :| 0 <= i < |rs| && DispatchedAt(rs, i, q);
      if i > j {
        assert rs[..i][j] == rs[j];
        HighestCovers(rs[..i], j, q);
      }
    }
  }

  /** Every qualifying event of a successful response is dispatched exactly once if and only if
      new qualifying ids always appear above all earlier ones. */
  lemma {:induction false} ExactlyOnce(steps: seq<Step>)
    requires forall r :: r in Responses(steps) ==> Distinct(r)
    ensures OnceEach(Responses(steps), Run(steps).dispatched) <==> IncreasingIds(Responses(steps))
  {
    hide *;
    RunDispatches(steps);
    var rs := Responses(steps);
    if IncreasingIds(rs) {
      IncreasingMeansOnce(rs);
    }
    if OnceEach(rs, Dispatched(rs)) {
      OnceMeansIncreasing(rs);
    }
  }

  predicate AnySubmit(rs: seq<seq<Event>>)
  {
    exists i :: 0 <= i < |rs| && HasSubmit(rs[i])
  }

  lemma AnySubmitAppend(rs: seq<seq<Event>>, r: seq<Event>)
    ensures
      AnySubmit(rs + [r]) <==> AnySubmit(rs) || HasSubmit(r)
  {
    hide HasSubmit;
    var all := rs + [r];
    if HasSubmit(r) {
      assert all[|rs|] == r;
    }
    if i :| 0 <= i < |rs| && HasSubmit(rs[i]) {
      assert all[i] == rs[i];
    }
    if i :| 0 <= i < |all| && HasSubmit(all[i]) {
      assert i < |rs| ==> rs[i] == all[i];
    }
  }

  /** The force-submit callback fires at most once, and it has fired exactly when some successful
      response announced a submitted exam. */
  lemma {:induction false} ForceSubmitOnce(steps: seq<Step>)
    ensures Run(steps).forced == if Run(steps).forceSubmitSent then 1 else 0
    ensures Run(steps).forceSubmitSent
      <==> AnySubmit(Responses(steps))
  {
    if steps != [] {
      hide HasSubmit, News, MaxId, Backoff, AnySubmit;
      var front, step := steps[..|steps| - 1], steps[|steps| - 1];
      ForceSubmitOnce(front);
      var rs, all := Responses(front), Responses(steps);
      if Run(front).inFlight && step.Answer? && step.reply.Events? {
        assert all == rs + [step.reply.events];
        AnySubmitAppend(rs, step.reply.events);
      } else {
        assert all == rs;
      }
    }
  }

  // -------------------------------------------------------------------------
  // Outages
  // -------------------------------------------------------------------------

  // Requests in n ticks when every reply is a failure that arrives before the next tick
  function Attempts(streak: nat, skip: nat, n: nat): nat
    decreases n
  {
    if n == 0 then 0
    else if skip > 0 then Attempts(streak, skip - 1, n - 1)
    else 1 + Attempts(streak + 1, Backoff(streak + 1), n - 1)
  }

  lemma {:induction false} AttemptsMonotone(streak: nat, skip: nat, n: nat)
    ensures Attempts(streak, skip, n) <= Attempts(streak, skip, n + 1)
    decreases n
  {
    hide Backoff;
    if n > 0 {
      if skip > 0 {
        AttemptsMonotone(streak, skip - 1, n - 1);
      } else {
        AttemptsMonotone(streak + 1, Backoff(streak + 1), n - 1);
      }
    }
  }

  // The most requests that a state can still make in n ticks of outage
  function Allowance(s: State, n: nat): nat
  {
    if s.inFlight then Attempts(s.failStreak + 1, Backoff(s.failStreak + 1), n)
    else Attempts(s.failStreak, s.skipTicks, n)
  }

  predicate Failing(step: Step)
  {
    step.Tick? || step.reply.HttpError? || step.reply.NetworkError?
  }

  function Ticks(steps: seq<Step>): nat
  {
    if steps == [] then 0 else (if steps[0].Tick? then 1 else 0) + Ticks(steps[1..])
  }

  function RunFrom(s: State, steps: seq<Step>): State
    decreases |steps|
  {
    if steps == [] then s else RunFrom(Apply(s, steps[0]), steps[1..])
  }

  // However late the replies are, an outage makes no more requests than with immediate replies
  lemma {:induction false} OutageWithin(s: State, steps: seq<Step>)
    requires forall i :: 0 <= i < |steps| ==> Failing(steps[i])
    ensures RunFrom(s, steps).requests <= s.requests + Allowance(s, Ticks(steps))
    decreases |steps|
  {
    hide Backoff;
    if steps != [] {
      OutageWithin(Apply(s, steps[0]), steps[1..]);
      assert Failing(steps[0]);
      if steps[0].Tick? && s.inFlight {
        AttemptsMonotone(s.failStreak + 1, Backoff(s.failStreak + 1), Ticks(steps[1..]));
      }
    }
  }

  lemma {:induction false} SkipFirst(streak: nat, skip: nat, n: nat)
    ensures Attempts(streak, skip, n) == if n <= skip then 0 else Attempts(streak, 0, n - skip)
    decreases skip
  {
    if skip > 0 && n > 0 {
      SkipFirst(streak, skip - 1, n - 1);
    }
  }

  lemma {:induction false} Pow2AtLeast(n: nat)
    requires n >= 5
    ensures Pow2(n) >= 32
  {
    if n == 5 {
      assert Pow2(1) == 2 && Pow2(2) == 4 && Pow2(3) == 8 && Pow2(4) == 16 && Pow2(5) == 32;
    } else {
      Pow2AtLeast(n - 1);
    }
  }

  // From the fifth failure on there is one request in 31 ticks
  lemma {:induction false} SteadyAttempts(streak: nat, n: nat)
    requires streak >= 4
    ensures Attempts(streak, 0, n) == (n + 30) / 31
    decreases n
  {
    if n > 0 {
      Pow2AtLeast(streak + 1);
      SkipFirst(streak + 1, 30, n - 1);
      if n - 1 > 30 {
        SteadyAttempts(streak + 1, n - 31);
      }
    }
  }

  /** The exact number of requests in n ticks of an outage that meets a healthy poller. */
  function OutageRequests(n: nat): nat
  {
    if n == 0 then 0 else if n <= 3 then 1 else if n <= 8 then 2 else if n <= 17 then 3
    else if n <= 34 then 4 else 5 + (n - 35) / 31
  }

  lemma AttemptsClosedForm(n: nat)
    ensures Attempts(0, 0, n) == OutageRequests(n)
  {
    assert Pow2(1) == 2 && Pow2(2) == 4 && Pow2(3) == 8 && Pow2(4) == 16;
    if n > 0 { SkipFirst(1, 2, n - 1); }
    if n > 3 { SkipFirst(2, 4, n - 4); }
    if n > 8 { SkipFirst(3, 8, n - 9); }
    if n > 17 { SkipFirst(4, 16, n - 18); }
    if n > 34 { SteadyAttempts(4, n - 34); }
  }

  // n ticks, each reply arriving before the next tick; a reply that nothing asked for is ignored
  function Alternate(n: nat, reply: Reply): seq<Step>
  {
    if n == 0 then [] else [Tick, Answer(reply)] + Alternate(n - 1, reply)
  }

  lemma {:induction false} AlternateTicks(n: nat, reply: Reply)
    ensures Ticks(Alternate(n, reply)) == n
    ensures forall i :: 0 <= i < |Alternate(n, reply)| ==> Alternate(n, reply)[i] in {Tick, Answer(reply)}
  {
    if n > 0 {
      AlternateTicks(n - 1, reply);
      var rest := Alternate(n - 1, reply);
      assert ([Tick, Answer(reply)] + rest)[1..] == [Answer(reply)] + rest;
      assert ([Answer(reply)] + rest)[1..] == rest;
    }
  }

  lemma RunTwo(s: State, a: Step, b: Step, rest: seq<Step>)
    ensures RunFrom(s, [a, b] + rest) == RunFrom(Apply(Apply(s, a), b), rest)
  {
    hide Apply;
    assert ([a, b] + rest)[1..] == [b] + rest;
    assert ([b] + rest)[1..] == rest;
  }

  lemma {:induction false} AlternateRequests(s: State, n: nat, reply: Reply)
    requires !s.inFlight && (reply.HttpError? || reply.NetworkError?)
    ensures RunFrom(s, Alternate(n, reply)).requests == s.requests + Attempts(s.failStreak, s.skipTicks, n)
    decreases n
  {
    hide Backoff;
    if n > 0 {
      RunTwo(s, Tick, Answer(reply), Alternate(n - 1, reply));
      AlternateRequests(Apply(Apply(s, Tick), Answer(reply)), n - 1, reply);
    }
  }

  /** An outage of N ticks in which every reply is an HTTP or a network error makes at most
      5 + N/31 requests, whenever the replies arrive; the exact maximum is reached when each
      failure arrives before the next tick. */
  lemma {:induction false} OutageBound(s: State, steps: seq<Step>)
    requires s.failStreak == 0 && s.skipTicks == 0 && !s.inFlight
    requires forall i :: 0 <= i < |steps| ==> Failing(steps[i])
    ensures RunFrom(s, steps).requests - s.requests <= OutageRequests(Ticks(steps)) <= 5 + Ticks(steps) / 31
    ensures forall n: nat :: RunFrom(s, Alternate(n, HttpError)).requests - s.requests == OutageRequests(n)
  {
    OutageWithin(s, steps);
    AttemptsClosedForm(Ticks(steps));
    forall n: nat ensures RunFrom(s, Alternate(n, HttpError)).requests - s.requests == OutageRequests(n) {
      AlternateRequests(s, n, HttpError);
      AttemptsClosedForm(n);
    }
  }

  // -------------------------------------------------------------------------
  // Replies that are not JSON
  // -------------------------------------------------------------------------

  /** A reply that is not JSON clears the streak first, so it never backs off beyond two ticks. */
  lemma BadJsonBackoff(s: State)
    requires s.inFlight
    ensures Apply(s, Answer(BadJson)) == s.(inFlight := false, failStreak := 1, skipTicks := 2)
  {
    assert Pow2(1) == 2;
  }

  lemma {:induction false} BackoffAtLeastTwo(streak: nat)
    requires streak > 0
    ensures Backoff(streak) >= 2
  {
    if streak == 1 {
      assert Pow2(1) == 2;
    } else {
      BackoffAtLeastTwo(streak - 1);
    }
  }

  // The most requests in n ticks when every failure costs only two ticks
  function EveryThird(skip: nat, n: nat): nat
  {
    if n <= skip then 0 else (n - skip + 2) / 3
  }

  lemma {:induction false} AnyOutageWithin(s: State, steps: seq<Step>)
    requires forall i :: 0 <= i < |steps| ==> steps[i].Tick? || !steps[i].reply.Events?
    ensures RunFrom(s, steps).requests
      <= s.requests + EveryThird(if s.inFlight then 2 else s.skipTicks, Ticks(steps))
    decreases |steps|
  {
    hide Backoff;
    if steps != [] {
      AnyOutageWithin(Apply(s, steps[0]), steps[1..]);
      if steps[0].Answer? {
        BackoffAtLeastTwo(1);
        BackoffAtLeastTwo(s.failStreak + 1);
      }
    }
  }

  lemma {:induction false} BadJsonRequests(s: State, n: nat)
    requires !s.inFlight && s.skipTicks <= 2
    ensures RunFrom(s, Alternate(n, BadJson)).requests == s.requests + EveryThird(s.skipTicks, n)
    decreases n
  {
    hide Backoff;
    if n > 0 {
      RunTwo(s, Tick, Answer(BadJson), Alternate(n - 1, BadJson));
      if s.skipTicks == 0 {
        BadJsonBackoff(Apply(s, Tick));
      }
      BadJsonRequests(Apply(Apply(s, Tick), Answer(BadJson)), n - 1);
    }
  }

  /** With failures of every kind, N ticks make at most (N + 2) / 3 requests, and exactly as many
      when every reply is not JSON and arrives before the next tick. */
  lemma {:induction false} AnyOutageBound(s: State, steps: seq<Step>)
    requires s.skipTicks == 0 && !s.inFlight
    requires forall i :: 0 <= i < |steps| ==> steps[i].Tick? || !steps[i].reply.Events?
    ensures RunFrom(s, steps).requests - s.requests <= (Ticks(steps) + 2) / 3
    ensures forall n: nat :: RunFrom(s, Alternate(n, BadJson)).requests - s.requests == (n + 2) / 3
  {
    AnyOutageWithin(s, steps);
    forall n: nat ensures RunFrom(s, Alternate(n, BadJson)).requests - s.requests == (n + 2) / 3 {
      BadJsonRequests(s, n);
    }
  }

  /** Thirty ticks of replies that are not JSON make ten requests, where the exponential back-off
      would make four. */
  lemma BadJsonOutage()
    ensures Ticks(Alternate(30, BadJson)) == 30
    ensures RunFrom(Init(), Alternate(30, BadJson)).requests == 10 && OutageRequests(30) == 4
  {
    hide RunFrom, Alternate, Ticks;
    AlternateTicks(30, BadJson);
    BadJsonRequests(Init(), 30);
  }

  // The replies of a run, in order
  function Replies(steps: seq<Step>): seq<Reply>
  {
    if steps == [] then [] else
    var front, step := steps[..|steps| - 1], steps[|steps| - 1];
    Replies(front) + if Run(front).inFlight && step.Answer? then [step.reply] else []
  }

  /** The failures since the last success. */
  function FailuresInARow(rs: seq<Reply>): (n: nat)
    ensures n <= |rs|
    ensures forall i :: |rs| - n <= i < |rs| ==> !rs[i].Events?
    ensures n < |rs| ==> rs[|rs| - n - 1].Events?
  {
    if rs == [] || rs[|rs| - 1].Events? then 0 else FailuresInARow(rs[..|rs| - 1]) + 1
  }

  // The streak that the poller has after these replies
  function StreakAfter(rs: seq<Reply>): nat
  {
    if rs == [] || rs[|rs| - 1].Events? then 0
    else if rs[|rs| - 1].BadJson? then 1
    else StreakAfter(rs[..|rs| - 1]) + 1
  }

  lemma {:induction false} RunStreak(steps: seq<Step>)
    ensures Run(steps).failStreak == StreakAfter(Replies(steps))
  {
    hide News, MaxId, HasSubmit, Backoff;
    if steps != [] {
      var front, step := steps[..|steps| - 1], steps[|steps| - 1];
      RunStreak(front);
      if Run(front).inFlight && step.Answer? {
        assert Replies(steps)[..|Replies(front)|] == Replies(front);
      } else {
        assert Replies(steps) == Replies(front);
      }
    }
  }

  // The last n replies, at most, do not contain one that is not JSON, the first failure apart
  ghost predicate NoBadJson(rs: seq<Reply>, n: nat)
  {
    forall i :: 0 <= i < |rs| && |rs| - FailuresInARow(rs) < i && |rs| - n <= i ==> !rs[i].BadJson?
  }

  lemma NoBadJsonStep(front: seq<Reply>, r: Reply, n: nat)
    requires !r.Events?
    ensures FailuresInARow(front + [r]) == FailuresInARow(front) + 1
    ensures NoBadJson(front + [r], n + 1) <==>
      NoBadJson(front, n) && (r.BadJson? ==> FailuresInARow(front) == 0)
  {
    var rs := front + [r];
    assert rs[..|front|] == front;
    if NoBadJson(rs, n + 1) {
      forall i | 0 <= i < |front| && |front| - FailuresInARow(front) < i && |front| - n <= i ensures !front[i].BadJson? {
        assert !rs[i].BadJson?;
      }
      assert FailuresInARow(front) > 0 ==> !rs[|front|].BadJson?;
    }
  }

  // How many failures the streak covers
  lemma {:induction false} StreakExact(rs: seq<Reply>, n: nat)
    ensures StreakAfter(rs) <= FailuresInARow(rs)
    ensures NoBadJson(rs, n) <==> StreakAfter(rs) == FailuresInARow(rs) || StreakAfter(rs) > n
    decreases |rs|
  {
    if rs != [] && !rs[|rs| - 1].Events? {
      var front, r := rs[..|rs| - 1], rs[|rs| - 1];
      assert rs == front + [r];
      StreakExact(front, 0);
      if n > 0 {
        NoBadJsonStep(front, r, n - 1);
        StreakExact(front, n - 1);
        hide NoBadJson;
      }
    }
  }

  lemma BackoffGrows(a: nat, b: nat)
    requires a <= b
    ensures Backoff(a) == Backoff(b) <==> a == b || a >= 5
  {
    assert Pow2(0) == 1 && Pow2(1) == 2 && Pow2(2) == 4 && Pow2(3) == 8 && Pow2(4) == 16;
    if a >= 5 {
      Pow2AtLeast(a);
    }
    if b >= 5 {
      Pow2AtLeast(b);
    }
  }

  /** The streak counts every failure since the last success if and only if none of them but the
      first was a reply that is not JSON. */
  lemma {:induction false} StreakCountsFailures(steps: seq<Step>)
    ensures
      var rs := Replies(steps);
      (Run(steps).failStreak == FailuresInARow(rs)) <==>
      (forall i :: |rs| - FailuresInARow(rs) < i < |rs| ==> !rs[i].BadJson?)
  {
    var rs := Replies(steps);
    RunStreak(steps);
    StreakExact(rs, |rs|);
  }

  /** A failure backs off exponentially in the failures since the last success, up to the cap, if
      and only if none of the last four of them, the first one apart, was a reply that is not JSON. */
  lemma BackoffExponential(steps: seq<Step>, reply: Reply)
    requires Run(steps).inFlight && !reply.Events?
    ensures
      var rs := Replies(steps + [Answer(reply)]);
      (Run(steps + [Answer(reply)]).skipTicks == Backoff(FailuresInARow(rs))) <==>
      (forall i :: 0 <= i < |rs| && |rs| - FailuresInARow(rs) < i && |rs| - 4 <= i ==> !rs[i].BadJson?)
  {
    var all := steps + [Answer(reply)];
    assert all[..|steps|] == steps;
    var rs := Replies(all);
    RunStreak(all);
    StreakExact(rs, 4);
    assert Run(all).skipTicks == Backoff(Run(all).failStreak);
    BackoffGrows(StreakAfter(rs), FailuresInARow(rs));
  }
}
