/** Exam reminders: any number of workers claim an invite's reminder column, send, and give the
    claim back when the send fails. Each database statement is one atomic step. */
module Reminders {
  import opened SqlSyntax
  import opened FilterCompiler
  import Statements

  datatype Bucket = OneHour | OneDay

  /** The column of one invite for one bucket. */
  datatype Slot = Slot(token: string, bucket: Bucket)

  // Where a worker is for the invite it is handling
  datatype Worker =
    | Idle
    | Checking(slot: Slot)     // has a candidate, perhaps a stale one
    | Skipping(slot: Slot)     // the student switched reminders off
    | Claiming(slot: Slot)
    | Owner(slot: Slot)        // its claim matched a row; the send is under way
    | Undoing(slot: Slot)      // the send was reported as failed

  datatype State = State(
    marked: map<Slot, int>,       // reminder columns that are not NULL
    workers: seq<Worker>,
    sent: seq<Slot>,              // sends reported as successful
    skipped: seq<Slot>,
    left: seq<Slot>)              // marked by a worker that crashed or raised before the outcome

  datatype Step =
    | Pick(w: nat, slot: Slot)            // a row of the candidate list, whatever has happened since
    | Prefer(w: nat, allowed: bool)
    | Skip(w: nat, now: int)
    | Claim(w: nat, now: int, raises: bool)
    | Sent(w: nat, ok: bool)
    | Unclaim(w: nat, raises: bool)
    | Crash(w: nat)                       // the worker dies, or an exception ends this invite

  function Init(workers: nat): State
  {
    State(map[], seq(workers, _ => Idle), [], [], [])
  }

  function Apply(s: State, step: Step): State
  {
    var w := step.w;
    if w >= |s.workers| then s else
    match (step, s.workers[w])
    case (Pick(_, slot), Idle) => s.(workers := s.workers[w := Checking(slot)])
    case (Prefer(_, allowed), Checking(slot)) =>
      s.(workers := s.workers[w := if allowed then Claiming(slot) else Skipping(slot)])
    case (Skip(_, now), Skipping(slot)) =>
      if slot in s.marked then s.(workers := s.workers[w := Idle])
      else s.(marked := s.marked[slot := now], workers := s.workers[w := Idle], skipped := s.skipped + [slot])
    case (Claim(_, now, raises), Claiming(slot)) =>
      if slot in s.marked then s.(workers := s.workers[w := Idle])
      else s.(marked := s.marked[slot := now],
              workers := s.workers[w := if raises then Idle else Owner(slot)],
              left := s.left + if raises then [slot] else [])
    case (Sent(_, ok), Owner(slot)) =>
      if ok then s.(workers := s.workers[w := Idle], sent := s.sent + [slot])
      else s.(workers := s.workers[w := Undoing(slot)])
    case (Unclaim(_, raises), Undoing(slot)) =>
      s.(marked := if raises then s.marked else s.marked - {slot}, workers := s.workers[w := Idle],
         left := s.left + if raises then [slot] else [])
    case (Crash(_), worker) =>
      s.(workers := s.workers[w := Idle],
         left := s.left + if worker.Owner? || worker.Undoing? then [worker.slot] else [])
    case _ => s
  }

  function Run(workers: nat, steps: seq<Step>): State
  {
    if steps == [] then Init(workers)
    else Apply(Run(workers, steps[..|steps| - 1]), steps[|steps| - 1])
  }

  // -------------------------------------------------------------------------
  // Every marked slot is in one place
  // -------------------------------------------------------------------------

  // The worker holds the claim on the slot: between claim and outcome, or about to undo it
  predicate Holds(w: Worker, slot: Slot)
  {
    w == Owner(slot) || w == Undoing(slot)
  }

  // How many workers hold the claim on the slot
  function Holders(ws: seq<Worker>, slot: Slot): nat
  {
    if ws == [] then 0 else (if Holds(ws[0], slot) then 1 else 0) + Holders(ws[1..], slot)
  }

  /** In how many places a slot is: sent, skipped, left behind, or held by a worker. */
  function Places(s: State, slot: Slot): nat
  {
    multiset(s.sent)[slot] + multiset(s.skipped)[slot] + multiset(s.left)[slot] + Holders(s.workers, slot)
  }

  ghost predicate Accounted(s: State, slot: Slot)
  {
    Places(s, slot) == if slot in s.marked then 1 else 0
  }

  lemma {:induction false} HoldersUpdate(ws: seq<Worker>, w: nat, x: Worker, slot: Slot)
    requires w < |ws|
    ensures Holders(ws[w := x], slot) + (if Holds(ws[w], slot) then 1 else 0)
      == Holders(ws, slot) + if Holds(x, slot) then 1 else 0
  {
    if w > 0 {
      assert ws[w := x][1..] == ws[1..][w - 1 := x];
      HoldersUpdate(ws[1..], w - 1, x, slot);
    } else {
      assert ws[w := x][1..] == ws[1..];
    }
  }

  lemma {:induction false} NoHolders(n: nat, slot: Slot)
    ensures Holders(seq(n, _ => Idle), slot) == 0
  {
    if n > 0 {
      assert seq(n, _ => Idle)[1..] == seq(n - 1, _ => Idle);
      NoHolders(n - 1, slot);
    }
  }

  lemma {:induction false} HolderCounts(ws: seq<Worker>, v: nat, slot: Slot)
    requires v < |ws| && Holds(ws[v], slot)
    ensures Holders(ws, slot) >= 1
    ensures forall w :: 0 <= w < |ws| && w != v && Holds(ws[w], slot) ==> Holders(ws, slot) >= 2
  {
    if v > 0 {
      HolderCounts(ws[1..], v - 1, slot);
    }
    forall w | 0 < w < |ws| && w != v && Holds(ws[w], slot) ensures Holders(ws, slot) >= 2 {
      if v == 0 {
        HolderCounts(ws[1..], w - 1, slot);
      } else {
        assert ws[1..][w - 1] == ws[w];
      }
    }
  }

  lemma OneMoreOf(slots: seq<Slot>, x: Slot, slot: Slot)
    ensures multiset(slots + [x])[slot] == multiset(slots)[slot] + if x == slot then 1 else 0
    ensures slots + [] == slots
  {
  }

  lemma OneMoved(ws: seq<Worker>, w: nat, x: Worker, slot: Slot)
    requires w < |ws|
    ensures |ws[w := x]| == |ws|
    ensures Holders(ws[w := x], slot) + (if Holds(ws[w], slot) then 1 else 0)
      == Holders(ws, slot) + if Holds(x, slot) then 1 else 0
    ensures Holds(ws[w], slot) ==> Holders(ws, slot) >= 1
  {
    HoldersUpdate(ws, w, x, slot);
    if Holds(ws[w], slot) {
      HolderCounts(ws, w, slot);
    }
  }

  lemma StartAccount(s: State, step: Step, slot: Slot)
    requires Accounted(s, slot) && (step.Pick? || step.Prefer?) && step.w < |s.workers|
    ensures Accounted(Apply(s, step), slot)
  {
    hide Holders;
    OneMoved(s.workers, step.w, Apply(s, step).workers[step.w], slot);
  }

  lemma SkipAccount(s: State, step: Step, slot: Slot)
    requires Accounted(s, slot) && step.Skip? && step.w < |s.workers|
    ensures Accounted(Apply(s, step), slot)
  {
    hide Holders;
    OneMoved(s.workers, step.w, Apply(s, step).workers[step.w], slot);
    if s.workers[step.w].Skipping? {
      OneMoreOf(s.skipped, s.workers[step.w].slot, slot);
    }
  }

  lemma ClaimAccount(s: State, step: Step, slot: Slot)
    requires Accounted(s, slot) && step.Claim? && step.w < |s.workers|
    ensures Accounted(Apply(s, step), slot)
  {
    var w := step.w;
    if s.workers[w].Claiming? && s.workers[w].slot !in s.marked {
      var x := s.workers[w].slot;
      hide Holders;
      OneMoved(s.workers, w, if step.raises then Idle else Owner(x), slot);
      OneMoreOf(s.left, x, slot);
    } else {
      OneMoved(s.workers, w, Idle, slot);
    }
  }

  lemma SentAccount(s: State, step: Step, slot: Slot)
    requires Accounted(s, slot) && step.Sent? && step.w < |s.workers|
    ensures Accounted(Apply(s, step), slot)
  {
    hide Holders;
    OneMoved(s.workers, step.w, Apply(s, step).workers[step.w], slot);
    if s.workers[step.w].Owner? {
      OneMoreOf(s.sent, s.workers[step.w].slot, slot);
    }
  }

  lemma UnclaimAccount(s: State, step: Step, slot: Slot)
    requires Accounted(s, slot) && step.Unclaim? && step.w < |s.workers|
    ensures Accounted(Apply(s, step), slot)
  {
    hide Holders;
    OneMoved(s.workers, step.w, Apply(s, step).workers[step.w], slot);
    if s.workers[step.w].Undoing? {
      OneMoreOf(s.left, s.workers[step.w].slot, slot);
    }
  }

  lemma CrashAccount(s: State, step: Step, slot: Slot)
    requires Accounted(s, slot) && step.Crash? && step.w < |s.workers|
    ensures Accounted(Apply(s, step), slot)
  {
    hide Holders;
    OneMoved(s.workers, step.w, Apply(s, step).workers[step.w], slot);
    if s.workers[step.w].Owner? || s.workers[step.w].Undoing? {
      OneMoreOf(s.left, s.workers[step.w].slot, slot);
    }
  }

  lemma StepKeepsAccount(s: State, step: Step, slot: Slot)
    requires Accounted(s, slot)
    ensures Accounted(Apply(s, step), slot)
  {
    hide Accounted;
    if step.w < |s.workers| {
      match step
      case Skip(_, _) => SkipAccount(s, step, slot);
      case Claim(_, _, _) => ClaimAccount(s, step, slot);
      case Sent(_, _) => SentAccount(s, step, slot);
      case Unclaim(_, _) => UnclaimAccount(s, step, slot);
      case Crash(_) => CrashAccount(s, step, slot);
      case _ => StartAccount(s, step, slot);
    }
  }

  /** In every reachable state, whatever lists the workers start from, a slot is marked exactly when
      it is in one place: sent, skipped, held by one worker, or left by a worker that crashed or
      raised between its claim and its outcome; and it is never in two. */
  lemma {:induction false} EverySlotInOnePlace(workers: nat, steps: seq<Step>, slot: Slot)
    ensures Places(Run(workers, steps), slot) == if slot in Run(workers, steps).marked then 1 else 0
  {
    if steps == [] {
      NoHolders(workers, slot);
    } else {
      EverySlotInOnePlace(workers, steps[..|steps| - 1], slot);
      hide Apply, Places;
      StepKeepsAccount(Run(workers, steps[..|steps| - 1]), steps[|steps| - 1], slot);
    }
  }

  // -------------------------------------------------------------------------
  // What the protocol guarantees
  // -------------------------------------------------------------------------

  /** However many workers run, from whatever stale lists, each invite and bucket gets at most one
      successful send; and while one worker holds a claim, nobody else does. */
  lemma AtMostOneReminder(workers: nat, steps: seq<Step>, slot: Slot)
    ensures
      var s := Run(workers, steps);
      && multiset(s.sent)[slot] <= 1
      && (forall v, w :: 0 <= v < |s.workers| && 0 <= w < |s.workers| && v != w ==>
          !(Holds(s.workers[v], slot) && Holds(s.workers[w], slot)))
  {
    var s := Run(workers, steps);
    EverySlotInOnePlace(workers, steps, slot);
    forall v, w | 0 <= v < |s.workers| && 0 <= w < |s.workers| && v != w && Holds(s.workers[v], slot)
      ensures !Holds(s.workers[w], slot)
    {
      HolderCounts(s.workers, v, slot);
    }
  }

  /** The unconditional unclaim is safe: the row it resets is its own claim, never that of another
      worker, and never one that was sent, skipped or left. */
  lemma UnclaimOnlyOwn(workers: nat, steps: seq<Step>, w: nat)
    requires
      var s := Run(workers, steps);
      w < |s.workers| && s.workers[w].Undoing?
    ensures
      var s := Run(workers, steps);
      var slot := s.workers[w].slot;
      && slot in s.marked && slot !in s.sent && slot !in s.skipped && slot !in s.left
      && forall v :: 0 <= v < |s.workers| && v != w ==> !Holds(s.workers[v], slot)
  {
    var s := Run(workers, steps);
    var slot := s.workers[w].slot;
    EverySlotInOnePlace(workers, steps, slot);
    HolderCounts(s.workers, w, slot);
  }

  // Nothing raised or crashed during these steps
  predicate Smooth(step: Step)
  {
    !step.Crash? && !(step.Claim? && step.raises) && !(step.Unclaim? && step.raises)
  }

  lemma {:induction false} NothingLeft(workers: nat, steps: seq<Step>)
    requires forall i :: 0 <= i < |steps| ==> Smooth(steps[i])
    ensures Run(workers, steps).left == []
  {
    if steps != [] {
      NothingLeft(workers, steps[..|steps| - 1]);
    }
  }

  lemma {:induction false} NobodyHolds(ws: seq<Worker>, slot: Slot)
    requires forall w :: 0 <= w < |ws| ==> !Holds(ws[w], slot)
    ensures Holders(ws, slot) == 0
  {
    if ws != [] {
      NobodyHolds(ws[1..], slot);
    }
  }

  /** A reminder is lost, that is, marked although it was neither sent nor skipped and no worker is
      still at it, exactly when its slot was left behind; without a crash or an exception none is. */
  lemma LostExactlyWhenLeft(workers: nat, steps: seq<Step>, slot: Slot)
    ensures
      var s := Run(workers, steps);
      (slot in s.left) <==>
        (slot in s.marked && slot !in s.sent && slot !in s.skipped
          && forall w :: 0 <= w < |s.workers| ==> !Holds(s.workers[w], slot))
    ensures (forall i :: 0 <= i < |steps| ==> Smooth(steps[i])) ==> slot !in Run(workers, steps).left
  {
    var s := Run(workers, steps);
    EverySlotInOnePlace(workers, steps, slot);
    forall w | 0 <= w < |s.workers| && Holds(s.workers[w], slot) ensures slot !in s.left {
      HolderCounts(s.workers, w, slot);
    }
    if forall w :: 0 <= w < |s.workers| ==> !Holds(s.workers[w], slot) {
      NobodyHolds(s.workers, slot);
    }
    if forall i :: 0 <= i < |steps| ==> Smooth(steps[i]) {
      NothingLeft(workers, steps);
    }
  }

  /** After a reported failure and its unclaim the row can be claimed again, by anybody. */
  lemma FailureIsRetried(s: State, w: nat, v: nat, now: int)
    requires w < |s.workers| && v < |s.workers| && v != w
    requires s.workers[w].Owner? && s.workers[v] == Claiming(s.workers[w].slot)
    ensures
      var t := Apply(Apply(s, Sent(w, false)), Unclaim(w, false));
      && s.workers[w].slot !in t.marked
      && Apply(t, Claim(v, now, false)).workers[v] == Owner(s.workers[w].slot)
  {
  }

  lemma SentGrows(s: State, step: Step)
    ensures s.sent <= Apply(s, step).sent
  {
  }

  /** Once a slot has been sent it stays marked, so no later claim can match it. */
  lemma {:induction false} SentStaysMarked(workers: nat, before: seq<Step>, after: seq<Step>, slot: Slot)
    requires slot in Run(workers, before).sent
    ensures slot in Run(workers, before + after).sent && slot in Run(workers, before + after).marked
    decreases |after|
  {
    if after == [] {
      assert before + after == before;
    } else {
      var front := after[..|after| - 1];
      assert (before + after)[..|before + after| - 1] == before + front;
      SentStaysMarked(workers, before, front, slot);
      SentGrows(Run(workers, before + front), after[|after| - 1]);
    }
    EverySlotInOnePlace(workers, before + after, slot);
  }

  // -------------------------------------------------------------------------
  // The loop body of one worker
  // -------------------------------------------------------------------------

  // Where handling a candidate raises; `applied` tells whether the statement took effect all the same
  datatype Fault =
    | NoFault
    | PreferenceRaises
    | MarkRaises(applied: bool)
    | SendRaises
    | UnclaimRaises(applied: bool)

  /** One row of a candidate list, with what the checks and the send will say about it. */
  datatype Candidate = Candidate(slot: Slot, hasEmail: bool, allowed: bool, now: int, ok: bool, fault: Fault)

  // One worker handling one candidate without interruption
  function TurnSteps(c: Candidate): seq<Step>
  {
    if !c.hasEmail then [] else
    [Pick(0, c.slot),
     if c.fault.PreferenceRaises? then Crash(0) else Prefer(0, c.allowed),
     if c.fault == MarkRaises(false) then Crash(0) else Skip(0, c.now),
     Claim(0, c.now, c.fault == MarkRaises(true)),
     if c.fault.SendRaises? then Crash(0) else Sent(0, c.ok),
     Unclaim(0, c.fault == UnclaimRaises(false))]
  }

  function ApplyAll(s: State, steps: seq<Step>): State
    decreases |steps|
  {
    if steps == [] then s else ApplyAll(Apply(s, steps[0]), steps[1..])
  }

  function Turn(s: State, c: Candidate): State
  {
    ApplyAll(s, TurnSteps(c))
  }

  function Turns(s: State, cs: seq<Candidate>): State
  {
    if cs == [] then s else Turn(Turns(s, cs[..|cs| - 1]), cs[|cs| - 1])
  }

  lemma ApplyFirst(s: State, step: Step, rest: seq<Step>)
    ensures ApplyAll(s, [step] + rest) == ApplyAll(Apply(s, step), rest)
  {
  }

  lemma NoSteps(s: State)
    ensures ApplyAll(s, []) == s
  {
  }

  lemma SixSteps(s: State, a: Step, b: Step, c: Step, d: Step, e: Step, f: Step)
    ensures ApplyAll(s, [a, b, c, d, e, f]) == Apply(Apply(Apply(Apply(Apply(Apply(s, a), b), c), d), e), f)
  {
    hide Apply;
    var s1, s2, s3 := Apply(s, a), Apply(Apply(s, a), b), Apply(Apply(Apply(s, a), b), c);
    ApplyFirst(s, a, [b, c, d, e, f]);
    ApplyFirst(s1, b, [c, d, e, f]);
    ApplyFirst(s2, c, [d, e, f]);
    ApplyFirst(s3, d, [e, f]);
    ApplyFirst(Apply(s3, d), e, [f]);
    ApplyFirst(Apply(Apply(s3, d), e), f, []);
    hide ApplyAll;
    assert [a] + [b, c, d, e, f] == [a, b, c, d, e, f] && [b] + [c, d, e, f] == [b, c, d, e, f];
    assert [c] + [d, e, f] == [c, d, e, f] && [d] + [e, f] == [d, e, f] && [e] + [f] == [e, f] && [f] + [] == [f];
    NoSteps(Apply(Apply(Apply(s3, d), e), f));
  }

  // From the claim on
  lemma ClaimEffect(s: State, c: Candidate)
    requires s.workers == [Claiming(c.slot)]
    ensures
      var t := Apply(Apply(Apply(s, Claim(0, c.now, c.fault == MarkRaises(true))),
        if c.fault.SendRaises? then Crash(0) else Sent(0, c.ok)), Unclaim(0, c.fault == UnclaimRaises(false)));
      var free := c.slot !in s.marked;
      var tried := free && c.fault != MarkRaises(true) && !c.fault.SendRaises?;
      && t.workers == [Idle]
      && t.sent == (if tried && c.ok then s.sent + [c.slot] else s.sent)
      && t.marked ==
        if free && !(tried && !c.ok && c.fault != UnclaimRaises(false)) then s.marked[c.slot := c.now] else s.marked
  {
    if c.slot !in s.marked {
      assert s.marked[c.slot := c.now] - {c.slot} == s.marked;
    }
  }

  // A worker without a candidate does nothing in these steps
  lemma IdleEffect(s: State, c: Candidate, raised: bool, ok: bool, undo: bool)
    requires s.workers == [Idle]
    ensures
      Apply(Apply(Apply(s, Claim(0, c.now, raised)), if c.fault.SendRaises? then Crash(0) else Sent(0, ok)),
        Unclaim(0, undo)) == s
  {
  }

  // Up to the claim
  lemma ChecksEffect(s: State, c: Candidate)
    requires s.workers == [Idle]
    ensures
      var s3 := Apply(Apply(Apply(s, Pick(0, c.slot)), if c.fault.PreferenceRaises? then Crash(0) else Prefer(0, c.allowed)),
        if c.fault == MarkRaises(false) then Crash(0) else Skip(0, c.now));
      if c.fault.PreferenceRaises? || c.fault == MarkRaises(false) then s3 == s
      else if c.allowed then s3 == s.(workers := [Claiming(c.slot)])
      else
        && s3.workers == [Idle] && s3.sent == s.sent
        && s3.marked == if c.slot in s.marked then s.marked else s.marked[c.slot := c.now]
  {
  }

  // What handling one candidate does to the table
  lemma TurnEffect(s: State, c: Candidate)
    requires s.workers == [Idle]
    ensures
      var t := Turn(s, c);
      var free := c.hasEmail && !c.fault.PreferenceRaises? && c.fault != MarkRaises(false) && c.slot !in s.marked;
      var tried := free && c.allowed && c.fault != MarkRaises(true) && !c.fault.SendRaises?;
      && t.workers == [Idle]
      && t.sent == (if tried && c.ok then s.sent + [c.slot] else s.sent)
      && t.marked ==
        if free && !(tried && !c.ok && c.fault != UnclaimRaises(false)) then s.marked[c.slot := c.now] else s.marked
  {
    hide Apply, ApplyAll;
    if c.hasEmail {
      var steps := TurnSteps(c);
      SixSteps(s, steps[0], steps[1], steps[2], steps[3], steps[4], steps[5]);
      var s3 := Apply(Apply(Apply(s, steps[0]), steps[1]), steps[2]);
      ChecksEffect(s, c);
      if s3.workers == [Idle] {
        IdleEffect(s3, c, c.fault == MarkRaises(true), c.ok, c.fault == UnclaimRaises(false));
      } else {
        ClaimEffect(s3, c);
      }
    } else {
      NoSteps(s);
    }
  }

  class InviteTable {
    var marked: map<Slot, int>
    var sent: seq<Slot>

    /** UPDATE ... SET col = now WHERE token = ... AND col IS NULL */
    method MarkIfNull(slot: Slot, now: int) returns (matched: bool)
      modifies this`marked
      ensures matched == (slot !in old(marked))
      ensures marked == if matched then old(marked)[slot := now] else old(marked)
    {
      matched := slot !in marked;
      if matched {
        marked := marked[slot := now];
      }
    }

    /** The inner loop of `_reminder_tick`, run by one worker alone; an exception ends the turn of
        its candidate and the loop goes on. */
    method Tick(cs: seq<Candidate>, ghost s: State)
      requires s.workers == [Idle] && s.marked == marked && s.sent == sent
      modifies this
      ensures marked == Turns(s, cs).marked && sent == Turns(s, cs).sent && Turns(s, cs).workers == [Idle]
    {
      for i := 0 to |cs|
        invariant marked == Turns(s, cs[..i]).marked && sent == Turns(s, cs[..i]).sent
        invariant Turns(s, cs[..i]).workers == [Idle]
      {
        hide Turn;
        assert cs[..i + 1][..i] == cs[..i];
        TurnEffect(Turns(s, cs[..i]), cs[i]);
        HandleInvite(cs[i]);
      }
      assert cs[..|cs|] == cs;
    }

    // One turn of that loop
    method HandleInvite(c: Candidate)
      modifies this
      ensures
        var free := c.hasEmail && !c.fault.PreferenceRaises? && c.fault != MarkRaises(false) && c.slot !in old(marked);
        var tried := free && c.allowed && c.fault != MarkRaises(true) && !c.fault.SendRaises?;
        && sent == (if tried && c.ok then old(sent) + [c.slot] else old(sent))
        && marked ==
          if free && !(tried && !c.ok && c.fault != UnclaimRaises(false)) then old(marked)[c.slot := c.now] else old(marked)
    {
      if !c.hasEmail {
        return;
      }
      if c.fault.PreferenceRaises? {
        return;
      }
      if c.fault == MarkRaises(false) {
        return;
      }
      if !c.allowed {
        var _ := MarkIfNull(c.slot, c.now);
        return;
      }
      var claimed := MarkIfNull(c.slot, c.now);
      if c.fault.MarkRaises? || !claimed {
        return;
      }
      if c.fault.SendRaises? {
        return;
      }
      if c.ok {
        sent := sent + [c.slot];
      } else if c.fault != UnclaimRaises(false) {
        marked := marked - {c.slot};
        assert marked == old(marked);
      }
    }
  }

  // -------------------------------------------------------------------------
  // The claim statement
  // -------------------------------------------------------------------------

  function ColumnOf(b: Bucket): string { if b == OneHour then "reminder_1h_at" else "reminder_24h_at" }

  function ClaimFilters(slot: Slot): seq<Filter>
  {
    [Plain("token", FCmp(Eq), Text(slot.token)), Plain(ColumnOf(slot.bucket), FIs, Text("null"))]
  }

  lemma TwoFilters(db: Db, iso: IsoParser, f: Filter, g: Filter, row: Row)
    ensures Statements.Holds(db, iso, [f, g], row)
      <==> FilterTv(db, iso, row, f) == True && FilterTv(db, iso, row, g) == True
  {
    hide FilterTv;
    assert [f, g][0] == f && [f, g][1] == g;
  }

  /** The filters of the claim select exactly the rows with the invite's token and no reminder yet,
      which is what makes a claim a test-and-set. */
  lemma ClaimSelects(db: Db, iso: IsoParser, row: Row, slot: Slot)
    requires !LooksIso(slot.token)
    requires forall a, b :: db.equal(a, b) <==> a == b
    ensures
      var column := if slot.bucket == OneHour then "reminder_1h_at" else "reminder_24h_at";
      Statements.Holds(db, iso, ClaimFilters(slot), row) <==>
      Column(row, "token") == Text(slot.token) && Column(row, column) == Null
  {
    var fs := ClaimFilters(slot);
    TwoFilters(db, iso, fs[0], fs[1], row);
    assert fs == [fs[0], fs[1]];
    assert MeansNull(Text("null"));
  }
}
