/** Violation logging: an 8-second cooldown per event type and escalation by how often the type
    was logged in a sliding 5-minute window. Clock readings are a non-decreasing input. */
module Escalation {
  import opened Wrappers

  const COOLDOWN: real := 8.0
  const WINDOW: real := 300.0

  datatype Severity = Low | Medium | High | Critical | Other(name: string)

  /** ESCALATION_TIERS.get(base, base) */
  function NextTier(base: Severity): Severity
  {
    match base
    case Low => Medium
    case Medium => High
    case High => Critical
    case _ => base
  }

  function Escalate(base: Severity, repeats: nat): Severity
  {
    if repeats >= 3 then Critical else if repeats == 2 then NextTier(base) else base
  }

  /** One logged event: its type, the clock when it passed the cooldown, when it entered the
      history and when its severity was read, and what was emitted. */
  datatype Logged = Logged(
    etype: string, gate: real, at: real, read: real, base: Severity, severity: Severity, repeats: nat)

  type History = seq<(real, Severity)>

  datatype State = State(lastLogged: map<string, real>, history: map<string, History>, log: seq<Logged>)

  function LastLogged(s: State, etype: string): real
  {
    if etype in s.lastLogged then s.lastLogged[etype] else 0.0
  }

  function HistoryOf(s: State, etype: string): History
  {
    if etype in s.history then s.history[etype] else []
  }

  // The entries later than the cutoff
  function Recent(h: History, cutoff: real): History
  {
    if h == [] then [] else Recent(h[..|h| - 1], cutoff) + if h[|h| - 1].0 > cutoff then [h[|h| - 1]] else []
  }

  datatype Op =
    | CanLog(etype: string, now: real)
    | LogIfAllowed(etype: string, base: Severity, now: real, trackNow: real, readNow: real)

  function Apply(s: State, op: Op): State
  {
    if op.now - LastLogged(s, op.etype) < COOLDOWN then s else
    var stamped := s.(lastLogged := s.lastLogged[op.etype := op.now]);
    match op
    case CanLog(_, _) => stamped
    case LogIfAllowed(etype, base, now, trackNow, readNow) =>
      var h := Recent(HistoryOf(s, etype), trackNow - WINDOW) + [(trackNow, base)];
      var repeats := |Recent(h, readNow - WINDOW)|;
      stamped.(history := s.history[etype := h],
        log := s.log + [Logged(etype, now, trackNow, readNow, base, Escalate(base, repeats), repeats)])
  }

  function Run(ops: seq<Op>): State
  {
    if ops == [] then State(map[], map[], []) else Apply(Run(ops[..|ops| - 1]), ops[|ops| - 1])
  }

  // The last clock reading of an operation
  function End(op: Op): real
  {
    match op case CanLog(_, now) => now case LogIfAllowed(_, _, _, _, readNow) => readNow
  }

  predicate Ordered(op: Op)
  {
    op.LogIfAllowed? ==> op.now <= op.trackNow <= op.readNow
  }

  /** The clock never runs backwards. */
  predicate Monotone(ops: seq<Op>)
  {
    && (forall i :: 0 <= i < |ops| ==> Ordered(ops[i]))
    && (forall i, j :: 0 <= i < j < |ops| ==> End(ops[i]) <= ops[j].now)
  }

  // -------------------------------------------------------------------------
  // The closures over the shared state
  // -------------------------------------------------------------------------

  class Proctor {
    var lastLogged: map<string, real>
    var violationHistory: map<string, History>
    ghost var log: seq<Logged>

    ghost function View(): State
      reads this
    {
      State(lastLogged, violationHistory, log)
    }

    constructor ()
      ensures View() == Run([])
    {
      lastLogged, violationHistory, log := map[], map[], [];
    }

    method CanLogNow(etype: string, now: real) returns (ok: bool)
      modifies this
      ensures View() == Apply(old(View()), CanLog(etype, now))
      ensures ok == (now - LastLogged(old(View()), etype) >= 8.0)
    {
      var last := if etype in lastLogged then lastLogged[etype] else 0.0;
      if now - last >= COOLDOWN {
        lastLogged := lastLogged[etype := now];
        return true;
      }
      ok := false;
    }

    method Filter(h: History, cutoff: real) returns (kept: History)
      ensures kept == Recent(h, cutoff)
    {
      kept := [];
      for i := 0 to |h|
        invariant kept == Recent(h[..i], cutoff)
      {
        assert h[..i + 1][..i] == h[..i];
        if h[i].0 > cutoff {
          kept := kept + [h[i]];
        }
      }
      assert h[..|h|] == h;
    }

    method TrackViolation(etype: string, severity: Severity, now: real)
      modifies this`violationHistory
      ensures violationHistory == old(violationHistory)[etype :=
        Recent(HistoryOf(old(View()), etype), now - WINDOW) + [(now, severity)]]
    {
      var history := if etype in violationHistory then violationHistory[etype] else [];
      history := Filter(history, now - WINDOW);
      history := history + [(now, severity)];
      violationHistory := violationHistory[etype := history];
    }

    method GetEscalatedSeverity(etype: string, base: Severity, now: real) returns (severity: Severity, repeats: nat)
      ensures repeats == |Recent(HistoryOf(View(), etype), now - WINDOW)|
      ensures severity == Escalate(base, repeats)
    {
      var history := if etype in violationHistory then violationHistory[etype] else [];
      history := Filter(history, now - WINDOW);
      repeats := |history|;
      if repeats >= 3 {
        severity := Critical;
      } else if repeats == 2 {
        severity := NextTier(base);
      } else {
        severity := base;
      }
    }

    /** `log_if_allowed`; `emitted` is what is handed to log_event. */
    method LogIfAllowedNow(etype: string, base: Severity, now: real, trackNow: real, readNow: real)
      returns (emitted: Option<(Severity, nat)>)
      modifies this
      ensures View() == Apply(old(View()), LogIfAllowed(etype, base, now, trackNow, readNow))
      ensures emitted == if |log| == |old(log)| then None else Some((log[|log| - 1].severity, log[|log| - 1].repeats))
    {
      hide Recent, Escalate;
      var last := if etype in lastLogged then lastLogged[etype] else 0.0;
      if now - last < COOLDOWN {
        return None;
      }
      lastLogged := lastLogged[etype := now];
      TrackViolation(etype, base, trackNow);
      var severity, repeats := GetEscalatedSeverity(etype, base, readNow);
      log := log + [Logged(etype, now, trackNow, readNow, base, severity, repeats)];
      emitted := Some((severity, repeats));
    }
  }

  // -------------------------------------------------------------------------
  // What the history remembers
  // -------------------------------------------------------------------------

  // Everything of one type that was ever logged, as history entries
  function Past(log: seq<Logged>, etype: string): History
  {
    if log == [] then [] else
    var last := log[|log| - 1];
    Past(log[..|log| - 1], etype) + if last.etype == etype then [(last.at, last.base)] else []
  }

  lemma {:induction false} RecentAppend(h: History, x: (real, Severity), cutoff: real)
    ensures Recent(h + [x], cutoff) == Recent(h, cutoff) + if x.0 > cutoff then [x] else []
  {
    assert (h + [x])[..|h|] == h;
  }

  // Pruning with an earlier cutoff does not matter
  lemma {:induction false} RecentTwice(h: History, early: real, late: real)
    requires early <= late
    ensures Recent(Recent(h, early), late) == Recent(h, late)
  {
    if h != [] {
      RecentTwice(h[..|h| - 1], early, late);
      if h[|h| - 1].0 > early {
        RecentAppend(Recent(h[..|h| - 1], early), h[|h| - 1], late);
      } else {
        assert Recent(h, early) == Recent(h[..|h| - 1], early);
        assert Recent(h, late) == Recent(h[..|h| - 1], late);
      }
    }
  }

  // The history agrees with the full log on everything the window can still see
  ghost predicate Remembers(s: State, clock: real)
  {
    forall etype, cutoff :: clock - WINDOW <= cutoff ==>
      Recent(HistoryOf(s, etype), cutoff) == Recent(Past(s.log, etype), cutoff)
  }

  lemma PastAppend(log: seq<Logged>, e: Logged, etype: string)
    ensures Past(log + [e], etype) == if e.etype == etype then Past(log, etype) + [(e.at, e.base)] else Past(log, etype)
  {
    assert (log + [e])[..|log|] == log;
  }

  // One logged event, seen by any later cutoff
  lemma TrackedAndPast(h: History, past: History, x: (real, Severity), early: real, cutoff: real)
    requires early <= cutoff && Recent(h, cutoff) == Recent(past, cutoff)
    ensures Recent(Recent(h, early) + [x], cutoff) == Recent(past + [x], cutoff)
  {
    RecentTwice(h, early, cutoff);
    RecentAppend(Recent(h, early), x, cutoff);
    RecentAppend(past, x, cutoff);
  }

  lemma RemembersStep(s: State, op: Op, clock: real)
    requires Remembers(s, clock) && clock <= op.now && Ordered(op)
    ensures Remembers(Apply(s, op), End(op))
  {
    hide Recent, Past;
    var t := Apply(s, op);
    forall etype, cutoff | End(op) - WINDOW <= cutoff
      ensures Recent(HistoryOf(t, etype), cutoff) == Recent(Past(t.log, etype), cutoff)
    {
      assert Recent(HistoryOf(s, etype), cutoff) == Recent(Past(s.log, etype), cutoff);
      if t.log != s.log {
        PastAppend(s.log, t.log[|s.log|], etype);
        TrackedAndPast(HistoryOf(s, etype), Past(s.log, etype), (op.trackNow, op.base), op.trackNow - WINDOW, cutoff);
      }
    }
  }

  // How many events of a type were logged after the cutoff
  function LoggedAfter(log: seq<Logged>, etype: string, cutoff: real): nat
  {
    if log == [] then 0 else
    var last := log[|log| - 1];
    LoggedAfter(log[..|log| - 1], etype, cutoff) + if last.etype == etype && last.at > cutoff then 1 else 0
  }

  lemma {:induction false} RecentPastCounts(log: seq<Logged>, etype: string, cutoff: real)
    ensures |Recent(Past(log, etype), cutoff)| == LoggedAfter(log, etype, cutoff)
  {
    if log != [] {
      var front, last := log[..|log| - 1], log[|log| - 1];
      RecentPastCounts(front, etype, cutoff);
      if last.etype == etype {
        RecentAppend(Past(front, etype), (last.at, last.base), cutoff);
      } else {
        assert Past(log, etype) == Past(front, etype);
      }
    }
  }

  // -------------------------------------------------------------------------
  // Every run
  // -------------------------------------------------------------------------

  /** What was emitted for the i-th logged event depends only on its base severity and on how many
      events of its type were logged in the window that ends when it is read. */
  ghost predicate SeverityByWindow(log: seq<Logged>, i: nat)
    requires i < |log|
  {
    && log[i].repeats == LoggedAfter(log[..i + 1], log[i].etype, log[i].read - WINDOW)
    && log[i].severity == Escalate(log[i].base, log[i].repeats)
  }

  ghost predicate Spaced(log: seq<Logged>)
  {
    forall i, j :: 0 <= i < j < |log| && log[i].etype == log[j].etype ==> log[j].gate - log[i].gate >= COOLDOWN
  }

  ghost predicate Inv(s: State, clock: real)
  {
    && Remembers(s, clock)
    && Spaced(s.log)
    && (forall i :: 0 <= i < |s.log| ==> s.log[i].gate <= LastLogged(s, s.log[i].etype))
    && (forall i :: 0 <= i < |s.log| ==> SeverityByWindow(s.log, i))
  }

  lemma SeverityStep(s: State, op: Op, clock: real)
    requires Remembers(Apply(s, op), End(op))
    requires forall i :: 0 <= i < |s.log| ==> SeverityByWindow(s.log, i)
    ensures forall i :: 0 <= i < |Apply(s, op).log| ==> SeverityByWindow(Apply(s, op).log, i)
  {
    hide Recent, Past, LoggedAfter;
    var t := Apply(s, op);
    forall i | 0 <= i < |t.log| ensures SeverityByWindow(t.log, i) {
      if i < |s.log| {
        assert t.log[..i + 1] == s.log[..i + 1];
        assert SeverityByWindow(s.log, i);
      } else {
        var cutoff := op.readNow - WINDOW;
        assert t.log[..i + 1] == t.log;
        assert Recent(HistoryOf(t, op.etype), cutoff) == Recent(Past(t.log, op.etype), cutoff);
        RecentPastCounts(t.log, op.etype, cutoff);
      }
    }
  }

  lemma InvStep(s: State, op: Op, clock: real)
    requires Inv(s, clock) && clock <= op.now && Ordered(op)
    ensures Inv(Apply(s, op), End(op))
  {
    RemembersStep(s, op, clock);
    SeverityStep(s, op, clock);
    hide Remembers, SeverityByWindow, Recent;
  }

  // A clock reading that is not after the next operation
  function Clock(ops: seq<Op>, next: real): real
  {
    if ops == [] then next else End(ops[|ops| - 1])
  }

  lemma {:induction false} InvAlways(ops: seq<Op>, next: real)
    requires Monotone(ops)
    ensures Inv(Run(ops), Clock(ops, next))
  {
    if ops != [] {
      var front, op := ops[..|ops| - 1], ops[|ops| - 1];
      InvAlways(front, op.now);
      hide Inv, Apply;
      InvStep(Run(front), op, Clock(front, op.now));
    }
  }

  /** The events of one type, up to the i-th one, in the 300 seconds before its severity was read. */
  ghost function InWindow(log: seq<Logged>, i: nat): set<nat>
    requires i < |log|
  {
    set j: nat | j <= i && log[j].etype == log[i].etype && log[j].at > log[i].read - 300.0
  }

  // The positions at which an event of the type was tracked after the cutoff
  ghost function After(log: seq<Logged>, etype: string, cutoff: real): set<nat>
  {
    set j: nat | j < |log| && log[j].etype == etype && log[j].at > cutoff
  }

  lemma AfterGrows(front: seq<Logged>, e: Logged, etype: string, cutoff: real)
    ensures |After(front + [e], etype, cutoff)|
      == |After(front, etype, cutoff)| + if e.etype == etype && e.at > cutoff then 1 else 0
  {
    var n, before := |front|, After(front, etype, cutoff);
    assert After(front + [e], etype, cutoff) == if e.etype == etype && e.at > cutoff then before + {n} else before;
  }

  lemma {:induction false} LoggedAfterIs(log: seq<Logged>, etype: string, cutoff: real)
    ensures LoggedAfter(log, etype, cutoff) == |After(log, etype, cutoff)|
  {
    if log == [] {
      assert After(log, etype, cutoff) == {};
    } else {
      var front, last := log[..|log| - 1], log[|log| - 1];
      LoggedAfterIs(front, etype, cutoff);
      AfterGrows(front, last, etype, cutoff);
      assert log == front + [last];
      hide After;
    }
  }

  lemma RepeatsAre(log: seq<Logged>, i: nat)
    requires i < |log| && SeverityByWindow(log, i)
    ensures log[i].repeats == |InWindow(log, i)|
  {
    var upTo := log[..i + 1];
    var cutoff := log[i].read - 300.0;
    LoggedAfterIs(upTo, log[i].etype, cutoff);
    assert InWindow(log, i) == After(upTo, log[i].etype, cutoff);
  }

  /** In every run two logged events of one type are at least 8 seconds apart. The emitted severity
      is decided by the base and by how many events of the type lie in the
      trailing 300 seconds: three give critical, two one tier more than the base, fewer the base. */
  lemma LogSpacedAndEscalated(ops: seq<Op>)
    requires Monotone(ops)
    ensures
      var log := Run(ops).log;
      && (forall i, j :: 0 <= i < j < |log| && log[i].etype == log[j].etype ==> log[j].gate - log[i].gate >= 8.0)
      && forall i :: 0 <= i < |log| ==>
          var repeats, base, severity := |InWindow(log, i)|, log[i].base, log[i].severity;
          && log[i].repeats == repeats
          && (repeats >= 3 ==> severity == Critical)
          && (repeats == 2 && base == Low ==> severity == Medium)
          && (repeats == 2 && base == Medium ==> severity == High)
          && (repeats == 2 && base == High ==> severity == Critical)
          && (repeats <= 1 || (repeats == 2 && base !in {Low, Medium, High}) ==> severity == base)
  {
    InvAlways(ops, 0.0);
    var log := Run(ops).log;
    forall i | 0 <= i < |log| ensures SeverityByWindow(log, i) && log[i].repeats == |InWindow(log, i)| {
      assert SeverityByWindow(log, i);
      RepeatsAre(log, i);
    }
    hide InWindow, LoggedAfter;
  }

  /** So no severity is ever below its base. */
  lemma NeverBelowBase(ops: seq<Op>, i: nat)
    requires Monotone(ops) && i < |Run(ops).log|
    ensures
      var base, severity := Run(ops).log[i].base, Run(ops).log[i].severity;
      && (base == Low ==> severity in {Low, Medium, Critical})
      && (base == Medium ==> severity in {Medium, High, Critical})
      && (base == High ==> severity in {High, Critical})
      && (base == Critical ==> severity == Critical)
      && (base.Other? ==> severity in {base, Critical})
  {
    LogSpacedAndEscalated(ops);
    hide Run, InWindow;
  }

  // How many events of a type passed the cooldown within [from, to]
  function LoggedWithin(log: seq<Logged>, etype: string, from: real, to: real): nat
  {
    if log == [] then 0 else
    var last := log[|log| - 1];
    LoggedWithin(log[..|log| - 1], etype, from, to) + if last.etype == etype && from <= last.gate <= to then 1 else 0
  }

  // Shrinking the interval past the last event loses nothing
  lemma {:induction false} NothingLater(log: seq<Logged>, etype: string, from: real, to: real, to': real)
    requires to' <= to
    requires forall i :: 0 <= i < |log| && log[i].etype == etype ==> log[i].gate <= to'
    ensures LoggedWithin(log, etype, from, to') == LoggedWithin(log, etype, from, to)
  {
    if log != [] {
      NothingLater(log[..|log| - 1], etype, from, to, to');
    }
  }

  lemma {:induction false} SpacedCount(log: seq<Logged>, etype: string, from: real, to: real)
    requires Spaced(log)
    ensures LoggedWithin(log, etype, from, to) > 0 ==>
      8.0 * (LoggedWithin(log, etype, from, to) - 1) as real <= to - from
    decreases |log|
  {
    if log != [] {
      var front, last := log[..|log| - 1], log[|log| - 1];
      assert Spaced(front) by {
        assert forall i :: 0 <= i < |front| ==> front[i] == log[i];
      }
      if last.etype == etype && from <= last.gate <= to {
        NothingLater(front, etype, from, to, last.gate - COOLDOWN);
        SpacedCount(front, etype, from, last.gate - COOLDOWN);
      } else {
        SpacedCount(front, etype, from, to);
      }
    }
  }

  // The positions of the events of the type that passed the cooldown within [from, to]
  ghost function Within(log: seq<Logged>, etype: string, from: real, to: real): set<nat>
  {
    set j: nat | j < |log| && log[j].etype == etype && from <= log[j].gate <= to
  }

  lemma WithinGrows(front: seq<Logged>, e: Logged, etype: string, from: real, to: real)
    ensures |Within(front + [e], etype, from, to)|
      == |Within(front, etype, from, to)| + if e.etype == etype && from <= e.gate <= to then 1 else 0
  {
    var n, before := |front|, Within(front, etype, from, to);
    assert Within(front + [e], etype, from, to) == if e.etype == etype && from <= e.gate <= to then before + {n} else before;
  }

  lemma {:induction false} LoggedWithinIs(log: seq<Logged>, etype: string, from: real, to: real)
    ensures LoggedWithin(log, etype, from, to) == |Within(log, etype, from, to)|
  {
    if log == [] {
      assert Within(log, etype, from, to) == {};
    } else {
      var front, last := log[..|log| - 1], log[|log| - 1];
      LoggedWithinIs(front, etype, from, to);
      WithinGrows(front, last, etype, from, to);
      assert log == front + [last];
      hide Within;
    }
  }

  /** No 300-second window holds more than 38 logged events of one type. */
  lemma AtMost38(ops: seq<Op>, etype: string, from: real)
    requires Monotone(ops)
    ensures
      var log := Run(ops).log;
      |set j: nat | j < |log| && log[j].etype == etype && from <= log[j].gate <= from + 300.0| <= 38
  {
    InvAlways(ops, 0.0);
    SpacedCount(Run(ops).log, etype, from, from + 300.0);
    LoggedWithinIs(Run(ops).log, etype, from, from + 300.0);
  }

  /** A site written `if can_log(x): log_if_allowed(x, ...)` emits nothing for 8 seconds:
      passing can_log is itself what refuses the nested call. */
  lemma CanLogSilencesLog(s: State, etype: string, now: real, op: Op)
    requires now - LastLogged(s, etype) >= 8.0
    requires op.LogIfAllowed? && op.etype == etype
    ensures Apply(Apply(s, CanLog(etype, now)), op).log == s.log <==> op.now - now < 8.0
  {
    var t := Apply(s, CanLog(etype, now));
    if op.now - now >= COOLDOWN {
      assert |Apply(t, op).log| == |s.log| + 1;
    }
  }
}
