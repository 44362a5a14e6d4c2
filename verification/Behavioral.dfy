/** The temporal pattern scanners, the sliding signal buffer that feeds them, and the engine that
    reports at most one pattern at a time. Timestamps are reals. */
module Behavioral {
  import opened Wrappers

  datatype Signal = Signal(
    t: real, gazeAway: bool, gazeDown: bool, gazeCentered: bool, headTurned: bool, voiceActive: bool)

  // -------------------------------------------------------------------------
  // note_reading: fifteen entries in a row
  // -------------------------------------------------------------------------

  predicate Reading(e: Signal) { e.gazeAway && e.headTurned && !e.voiceActive }

  /** The fifteen entries that end at index e are all away, turned and silent. */
  ghost predicate ReadingRun(s: seq<Signal>, e: nat)
  {
    14 <= e < |s| && forall i :: e - 14 <= i <= e ==> Reading(s[i])
  }

  /** Reports the span of the first such run, if there is one. */
  method MatchNoteReading(s: seq<Signal>) returns (span: Option<real>)
    ensures span.None? <==> forall e: nat :: !ReadingRun(s, e)
    ensures span.Some? ==> exists e: nat ::
      ReadingRun(s, e) && (forall d: nat :: d < e ==> !ReadingRun(s, d)) && span.value == s[e].t - s[e - 14].t
  {
    var count := 0;
    var start: Option<real> := None;
    for i := 0 to |s|
      invariant 0 <= count <= i && count <= 14
      invariant count < i ==> !Reading(s[i - count - 1])
      invariant forall k :: i - count <= k < i ==> Reading(s[k])
      invariant start == if count == 0 then None else Some(s[i - count].t)
      invariant forall e: nat :: e < i ==> !ReadingRun(s, e)
    {
      if s[i].gazeAway && s[i].headTurned && !s[i].voiceActive {
        count := count + 1;
        if start.None? {
          start := Some(s[i].t);
        }
      } else {
        count := 0;
        start := None;
      }
      if count >= 15 {
        assert ReadingRun(s, i);
        return Some(s[i].t - start.value);
      }
      if count <= i {
        assert !Reading(s[i - count]);
      }
    }
    span := None;
  }

  // -------------------------------------------------------------------------
  // nervous_evasion: short maximal runs of looking away
  // -------------------------------------------------------------------------

  // Index of the first entry from i on that does not look away, or |s|
  function RunEnd(s: seq<Signal>, i: nat): (j: nat)
    requires i <= |s|
    ensures i <= j <= |s|
    ensures forall k :: i <= k < j ==> s[k].gazeAway
    ensures j < |s| ==> !s[j].gazeAway
    decreases |s| - i
  {
    if i == |s| || !s[i].gazeAway then i else RunEnd(s, i + 1)
  }

  // A maximal run of looking away starts here
  predicate RunStart(s: seq<Signal>, i: nat)
  {
    i < |s| && s[i].gazeAway && (i == 0 || !s[i - 1].gazeAway)
  }

  // A run lasts until the entry that ends it; an open last run until the last entry
  function RunSecs(s: seq<Signal>, i: nat): real
    requires i < |s|
  {
    var j := RunEnd(s, i);
    (if j < |s| then s[j].t else s[|s| - 1].t) - s[i].t
  }

  /** The maximal away-runs that start before `upTo` and last less than two seconds. */
  ghost function MicroGlances(s: seq<Signal>, upTo: nat): set<nat>
    requires upTo <= |s|
  {
    set i | 0 <= i < upTo && RunStart(s, i) && RunSecs(s, i) < 2.0
  }

  // Indices where no run starts add nothing
  lemma NoStart(s: seq<Signal>, m: nat, n: nat)
    requires m <= n <= |s|
    requires forall i :: m <= i < n ==> !RunStart(s, i)
    ensures MicroGlances(s, n) == MicroGlances(s, m)
  {
    hide RunSecs;
  }

  lemma NoGlances(s: seq<Signal>)
    ensures MicroGlances(s, 0) == {}
  {
  }

  lemma OneStart(s: seq<Signal>, i: nat)
    requires RunStart(s, i)
    ensures |MicroGlances(s, i + 1)| == |MicroGlances(s, i)| + if RunSecs(s, i) < 2.0 then 1 else 0
  {
    hide RunSecs;
    var before, after := MicroGlances(s, i), MicroGlances(s, i + 1);
    assert after == if RunSecs(s, i) < 2.0 then before + {i} else before;
  }

  lemma {:induction false} RunEndIs(s: seq<Signal>, from: nat, end: nat)
    requires from <= end <= |s|
    requires forall k :: from <= k < end ==> s[k].gazeAway
    requires end < |s| ==> !s[end].gazeAway
    ensures RunEnd(s, from) == end
    decreases end - from
  {
    if from < end {
      RunEndIs(s, from + 1, end);
    }
  }

  // A run from `from` to `end` adds itself when it is short, and nothing else
  lemma RunClosed(s: seq<Signal>, from: nat, end: nat)
    requires RunStart(s, from) && from < end <= |s|
    requires forall k :: from <= k < end ==> s[k].gazeAway
    requires end < |s| ==> !s[end].gazeAway
    ensures RunEnd(s, from) == end
    ensures |MicroGlances(s, end)| == |MicroGlances(s, from)| + if RunSecs(s, from) < 2.0 then 1 else 0
  {
    hide MicroGlances, RunEnd, RunSecs;
    RunEndIs(s, from, end);
    OneStart(s, from);
    NoStart(s, from + 1, end);
  }

  /** Counts exactly the maximal away-runs shorter than two seconds, the open last one included,
      and fires on five of them. */
  method MatchNervousEvasion(s: seq<Signal>) returns (glances: Option<nat>)
    ensures glances == if |s| >= 3 && |MicroGlances(s, |s|)| >= 5 then Some(|MicroGlances(s, |s|)|) else None
  {
    if |s| < 3 {
      return None;
    }
    var count := 0;
    var inGlance := false;
    var start := 0.0;
    hide MicroGlances;
    NoGlances(s);
    ghost var from := 0;     // where the open run started
    for i := 0 to |s|
      invariant inGlance <==> i > 0 && s[i - 1].gazeAway
      invariant inGlance ==> from < i && RunStart(s, from) && start == s[from].t && forall k :: from <= k < i ==> s[k].gazeAway
      invariant count == |MicroGlances(s, if inGlance then from else i)|
    {
      if !RunStart(s, i) {
        NoStart(s, i, i + 1);
      }
      if s[i].gazeAway && !inGlance {
        inGlance := true;
        start := s[i].t;
        from := i;
      } else if !s[i].gazeAway && inGlance {
        inGlance := false;
        RunClosed(s, from, i);
        if s[i].t - start < 2.0 {
          count := count + 1;
        }
      }
    }
    if inGlance {
      RunClosed(s, from, |s|);
      if s[|s| - 1].t - start < 2.0 {
        count := count + 1;
      }
    }
    glances := if count >= 5 then Some(count) else None;
  }

  // -------------------------------------------------------------------------
  // answer_memo: away, down, centred
  // -------------------------------------------------------------------------

  predicate Away(e: Signal) { e.gazeAway && !e.gazeDown }
  predicate Neutral(e: Signal) { !e.gazeAway && !e.gazeDown && !e.gazeCentered }

  /** Between i and n there is a look down after the last look away. */
  ghost predicate Armed(s: seq<Signal>, i: nat, n: nat)
    requires n <= |s|
  {
    exists j :: i < j < n && s[j].gazeDown && forall m :: j < m < n ==> !Away(s[m])
  }

  /** Entry k completes a sequence that starts at i: it is centred, after a look down with no look
      away in between. */
  ghost predicate Completes(s: seq<Signal>, i: nat, k: nat)
  {
    i < k < |s| && s[k].gazeCentered && Armed(s, i, k)
  }

  // Entry k is neutral or completes what starts at i
  ghost predicate Stops(s: seq<Signal>, i: nat, k: nat)
  {
    i < k < |s| && (Neutral(s[k]) || Completes(s, i, k))
  }

  /** What starts at i ends at its first neutral entry or its first completion. */
  ghost predicate Ends(s: seq<Signal>, i: nat, k: nat)
  {
    Stops(s, i, k) && forall m :: i < m < k ==> !Stops(s, i, m)
  }

  // What starts at h has ended before n
  ghost predicate Over(s: seq<Signal>, h: nat, n: nat)
  {
    exists e :: h < e < n && Ends(s, h, e)
  }

  /** An attempt starts at an entry that looks away outside every earlier attempt. */
  ghost predicate Attempt(s: seq<Signal>, i: nat)
    decreases i
  {
    i < |s| && Away(s[i]) && forall h :: 0 <= h < i && Attempt(s, h) ==> Over(s, h, i)
  }

  /** An attempt whose end is a completion three to twelve seconds after its start; a start at time
      zero counts as no start. */
  ghost predicate Memo(s: seq<Signal>, i: nat, k: nat)
  {
    && Attempt(s, i) && Ends(s, i, k) && Completes(s, i, k)
    && s[i].t != 0.0 && 3.0 <= s[k].t - s[i].t <= 12.0
  }

  lemma EndsBefore(s: seq<Signal>, i: nat, n: nat, k: nat)
    requires Over(s, i, n) && Ends(s, i, k)
    ensures k < n
  {
    hide Neutral, Completes;
  }

  // While an attempt lasts no other one starts
  lemma OneAtATime(s: seq<Signal>, i: nat, h: nat, k: nat)
    requires i < h <= k && Attempt(s, i)
    requires forall m :: i < m < k ==> !Stops(s, i, m)
    ensures !Attempt(s, h)
  {
    hide Neutral, Completes;
  }

  // Every attempt that starts before n has ended before n
  ghost predicate NoneOpen(s: seq<Signal>, n: nat)
  {
    forall h :: 0 <= h < n && Attempt(s, h) ==> Over(s, h, n)
  }

  // The attempt that starts at i is still going on before entry n
  ghost predicate Open(s: seq<Signal>, i: nat, n: nat)
  {
    i < n && Attempt(s, i) && forall m :: i < m < n ==> !Stops(s, i, m)
  }

  // No match is completed before n
  ghost predicate NoMemo(s: seq<Signal>, n: nat)
  {
    forall i: nat, k: nat :: k < n ==> !Memo(s, i, k)
  }

  lemma OverLater(s: seq<Signal>, h: nat, n: nat)
    requires Over(s, h, n)
    ensures Over(s, h, n + 1)
  {
    hide Ends;
  }

  // Outside every attempt an entry neither completes anything nor, unless it looks away, starts anything
  lemma OutsideStep(s: seq<Signal>, n: nat)
    requires n < |s| && NoneOpen(s, n) && NoMemo(s, n)
    ensures NoMemo(s, n + 1)
    ensures Away(s[n]) ==> Open(s, n, n + 1)
    ensures !Away(s[n]) ==> NoneOpen(s, n + 1)
  {
    forall i: nat ensures !Memo(s, i, n) {
      hide Completes, Neutral;
      if Ends(s, i, n) && Over(s, i, n) {
        EndsBefore(s, i, n, n);
      }
    }
    if Away(s[n]) {
      assert Attempt(s, n);
    } else {
      forall h: nat | h < n + 1 && Attempt(s, h) ensures Over(s, h, n + 1) {
        hide Over;
        OverLater(s, h, n);
      }
    }
  }

  // The attempts before the open one are over
  lemma EarlierDone(s: seq<Signal>, h: nat, i: nat, n: nat, k: nat)
    requires h < i < n && Attempt(s, i) && NoMemo(s, n)
    ensures !Memo(s, h, k)
  {
    hide Over, Ends;
    if Attempt(s, h) && Ends(s, h, k) {
      EndsBefore(s, h, i, k);
    }
  }

  // Within an attempt an entry can only complete that attempt
  lemma InsideStep(s: seq<Signal>, i: nat, n: nat)
    requires n < |s| && Open(s, i, n) && NoMemo(s, n)
    ensures forall h: nat :: Memo(s, h, n) ==> h == i
    ensures !Memo(s, i, n) ==> NoMemo(s, n + 1)
    ensures !Stops(s, i, n) ==> Open(s, i, n + 1)
    ensures Stops(s, i, n) ==> NoneOpen(s, n + 1)
    ensures forall h: nat, k: nat :: h < i ==> !Memo(s, h, k)
  {
    hide Neutral, Completes;
    forall h: nat, k: nat | (h < i || k == n) && Memo(s, h, k) ensures h == i {
      if h < i {
        EarlierDone(s, h, i, n, k);
      } else if h > i {
        OneAtATime(s, i, h, n);
      }
    }
    if Stops(s, i, n) {
      assert Ends(s, i, n);
      forall h: nat | h < n + 1 && Attempt(s, h) ensures Over(s, h, n + 1) {
        if h < i {
          var e :| h < e < i && Ends(s, h, e);
        } else if h > i {
          OneAtATime(s, i, h, n);
        }
      }
    }
  }

  // How one entry arms or disarms an attempt
  lemma ArmedStep(s: seq<Signal>, i: nat, n: nat)
    requires i < n < |s|
    ensures Armed(s, i, n + 1) <==> s[n].gazeDown || (Armed(s, i, n) && !Away(s[n]))
  {
    if Armed(s, i, n) && !Away(s[n]) {
      var j :| i < j < n && s[j].gazeDown && forall m :: j < m < n ==> !Away(s[m]);
      assert forall m :: j < m < n + 1 ==> !Away(s[m]);
    }
  }

  // What the next entry does to the open attempt
  lemma NextEntry(s: seq<Signal>, i: nat, n: nat)
    requires n < |s| && Open(s, i, n)
    ensures Stops(s, i, n) <==> Neutral(s[n]) || (s[n].gazeCentered && Armed(s, i, n))
    ensures Memo(s, i, n) <==>
      s[n].gazeCentered && Armed(s, i, n) && s[i].t != 0.0 && 3.0 <= s[n].t - s[i].t <= 12.0
  {
    hide Armed;
  }

  lemma NothingOpen(s: seq<Signal>)
    ensures NoneOpen(s, 0) && NoMemo(s, 0)
  {
  }

  lemma JustOpened(s: seq<Signal>, i: nat)
    requires i < |s|
    ensures !Armed(s, i, i + 1)
  {
  }

  lemma NoneAtAll(s: seq<Signal>)
    requires NoMemo(s, |s|)
    ensures forall i: nat, k: nat :: !Memo(s, i, k)
  {
    hide Attempt, Stops;
  }

  /** Fires if and only if some attempt ends in a completion in time, and its span is that of the
      first such attempt. */
  method MatchAnswerMemo(s: seq<Signal>) returns (span: Option<real>)
    ensures span.Some? <==> |s| >= 5 && exists i: nat, k: nat :: Memo(s, i, k)
    ensures span.Some? ==> exists i: nat, k: nat ::
      Memo(s, i, k) && (forall h: nat, m: nat :: h < i ==> !Memo(s, h, m)) && span.value == s[k].t - s[i].t
  {
    hide Armed, Stops, Memo, NoneOpen, Open, NoMemo;
    if |s| < 5 {
      return None;
    }
    var state := 0;
    var start: Option<real> := None;
    ghost var i: nat := 0;    // where the open attempt started
    NothingOpen(s);
    for n := 0 to |s|
      invariant state in {0, 1, 2} && NoMemo(s, n)
      invariant state == 0 ==> NoneOpen(s, n)
      invariant state != 0 ==> i < n && Open(s, i, n) && start == Some(s[i].t) && (state == 2 <==> Armed(s, i, n))
    {
      var e := s[n];
      if state == 0 {
        OutsideStep(s, n);
        JustOpened(s, n);
      } else {
        InsideStep(s, i, n);
        ArmedStep(s, i, n);
        NextEntry(s, i, n);
      }
      if state == 0 && e.gazeAway && !e.gazeDown {
        state := 1;
        start := Some(e.t);
        i := n;
      } else if state == 1 && e.gazeDown {
        state := 2;
      } else if state == 2 && e.gazeCentered {
        // a start at time zero counts as no start
        var dur := if start.Some? && start.value != 0.0 then e.t - start.value else 0.0;
        if 3.0 <= dur <= 12.0 {
          return Some(dur);
        }
        state := 0;
        start := None;
      } else if state == 2 && e.gazeAway && !e.gazeDown {
        state := 1;
      } else if !e.gazeAway && !e.gazeDown && !e.gazeCentered {
        state := 0;
        start := None;
      }
    }
    NoneAtAll(s);
    span := None;
  }

  /** Entries i < j < k look away, down and centred, with nothing neutral in between and no look
      away between j and k, and span three to twelve seconds. */
  ghost predicate Witnesses(s: seq<Signal>, i: nat, j: nat, k: nat)
  {
    && i < j < k < |s|
    && Away(s[i]) && s[j].gazeDown && s[k].gazeCentered
    && (forall m :: i < m < k ==> !Neutral(s[m]))
    && (forall m :: j < m < k ==> !Away(s[m]))
    && 3.0 <= s[k].t - s[i].t <= 12.0
  }

  lemma CompletesBy(s: seq<Signal>, i: nat, k: nat)
    ensures Completes(s, i, k) <==>
      i < k < |s| && s[k].gazeCentered
      && exists j: nat :: i < j < k && s[j].gazeDown && forall m :: j < m < k ==> !Away(s[m])
  {
  }

  /** Every match has three witnesses. They give a match exactly when the first of them starts an
      attempt, not at time zero, that nothing completes earlier. */
  lemma MemoWitnesses(s: seq<Signal>, i: nat, k: nat)
    ensures Memo(s, i, k) <==>
      && (exists j: nat :: Witnesses(s, i, j, k))
      && Attempt(s, i) && s[i].t != 0.0 && forall m :: i < m < k ==> !Completes(s, i, m)
  {
    hide Over, Neutral, Away, Completes;
    CompletesBy(s, i, k);
    if Memo(s, i, k) {
      forall m | i < m < k ensures !Neutral(s[m]) && !Completes(s, i, m) {
        assert !Stops(s, i, m);
      }
      var j: nat :| i < j < k && s[j].gazeDown && forall m :: j < m < k ==> !Away(s[m]);
      assert Witnesses(s, i, j, k);
    }
  }

  /** So witnesses can be missed: a first glance back that comes too early ends the attempt. */
  lemma MemoCanBeMissed()
    ensures exists s: seq<Signal> :: |s| >= 5 && Witnesses(s, 0, 1, 4) && forall i: nat, k: nat :: !Memo(s, i, k)
  {
    var away := Signal(1.0, true, false, false, false, false);
    var down := Signal(2.0, false, true, false, false, false);
    var back := Signal(3.0, false, false, true, false, false);
    var s := [away, down, back, down.(t := 4.0), back.(t := 5.0)];
    assert Witnesses(s, 0, 1, 4);
    forall i: nat, k: nat ensures !Memo(s, i, k) {
      MemoWitnesses(s, i, k);
      CompletesBy(s, 0, 2);
      hide Memo, Completes;
    }
  }

  // -------------------------------------------------------------------------
  // The sliding buffer
  // -------------------------------------------------------------------------

  predicate InOrder(s: seq<Signal>)
  {
    forall i, j :: 0 <= i < j < |s| ==> s[i].t <= s[j].t
  }

  /** The entries not older than the cutoff. */
  function Since(s: seq<Signal>, cutoff: real): seq<Signal>
  {
    if s == [] then [] else Since(s[..|s| - 1], cutoff) + if s[|s| - 1].t >= cutoff then [s[|s| - 1]] else []
  }

  lemma {:induction false} SinceAppend(a: seq<Signal>, b: seq<Signal>, cutoff: real)
    ensures Since(a + b, cutoff) == Since(a, cutoff) + Since(b, cutoff)
  {
    if b == [] {
      assert a + b == a;
    } else {
      assert (a + b)[..|a + b| - 1] == a + b[..|b| - 1];
      SinceAppend(a, b[..|b| - 1], cutoff);
    }
  }

  lemma {:induction false} SinceNone(s: seq<Signal>, cutoff: real)
    requires forall i :: 0 <= i < |s| ==> s[i].t < cutoff
    ensures Since(s, cutoff) == []
  {
    if s != [] {
      SinceNone(s[..|s| - 1], cutoff);
    }
  }

  // Older entries at the front make no difference
  lemma NothingPruned(all: seq<Signal>, kept: seq<Signal>, cutoff: real)
    requires |kept| <= |all| && kept == all[|all| - |kept|..]
    requires forall i :: 0 <= i < |all| - |kept| ==> all[i].t < cutoff
    ensures Since(kept, cutoff) == Since(all, cutoff)
  {
    var pruned := all[..|all| - |kept|];
    assert all == pruned + kept;
    SinceNone(pruned, cutoff);
    SinceAppend(pruned, kept, cutoff);
  }

  // Entries that are all late enough are all found
  lemma {:induction false} SinceAll(s: seq<Signal>, cutoff: real)
    requires forall i :: 0 <= i < |s| ==> s[i].t >= cutoff
    ensures Since(s, cutoff) == s
  {
    if s != [] {
      SinceAll(s[..|s| - 1], cutoff);
      assert s == s[..|s| - 1] + [s[|s| - 1]];
    }
  }

  // What a pruned buffer holds
  lemma EntriesAre(all: seq<Signal>, kept: seq<Signal>, cutoff: real)
    requires InOrder(all) && |kept| <= |all| && kept == all[|all| - |kept|..]
    requires forall i :: 0 <= i < |all| - |kept| ==> all[i].t < cutoff
    requires kept == [] || kept[0].t >= cutoff
    ensures forall i :: 0 <= i < |kept| ==> kept[i].t >= cutoff
    ensures Since(all, cutoff) == kept
  {
    hide Since;
    NothingPruned(all, kept, cutoff);
    SinceAll(kept, cutoff);
  }

  class SignalBuffer {
    const window: real
    var entries: seq<Signal>
    ghost var pushed: seq<Signal>     // everything that was ever pushed
    ghost var clock: real             // the latest clock reading

    /** What was pruned is older than the window, and what is kept is the end of the history. */
    ghost predicate Valid()
      reads this
    {
      && InOrder(pushed)
      && |entries| <= |pushed| && entries == pushed[|pushed| - |entries|..]
      && forall i :: 0 <= i < |pushed| - |entries| ==> pushed[i].t < clock - window
    }

    constructor (window: real)
      ensures Valid() && pushed == [] && this.window == window && clock == 0.0
    {
      this.window := window;
      entries, pushed, clock := [], [], 0.0;
    }

    method Prune(now: real)
      requires Valid() && clock <= now
      modifies this`entries, this`clock
      ensures Valid() && clock == now
      ensures entries == [] || entries[0].t >= now - window
    {
      clock := now;
      var cutoff := now - window;
      while entries != [] && entries[0].t < cutoff
        invariant Valid() && clock == now
        modifies this`entries
        decreases |entries|
      {
        hide InOrder;
        assert entries[1..] == pushed[|pushed| - (|entries| - 1)..];
        assert pushed[|pushed| - |entries|] == entries[0];
        entries := entries[1..];
      }
    }

    method Push(e: Signal, now: real)
      requires Valid() && clock <= now
      requires forall i :: 0 <= i < |pushed| ==> pushed[i].t <= e.t
      modifies this
      ensures Valid() && clock == now && pushed == old(pushed) + [e]
    {
      entries := entries + [e];
      pushed := pushed + [e];
      Prune(now);
    }

    /** For entries pushed in time order: exactly the entries of the whole history that are within
        the lookback and within the window. */
    method GetEntries(lookback: Option<real>, now: real) returns (found: seq<Signal>)
      requires Valid() && clock <= now
      modifies this`entries, this`clock
      ensures Valid() && clock == now
      ensures found == Since(pushed,
        now - if lookback.Some? && lookback.value < window then lookback.value else window)
    {
      hide InOrder, Since;
      Prune(now);
      EntriesAre(pushed, entries, now - window);
      if lookback.None? {
        return entries;
      }
      found := Recent(entries, now - lookback.value);
      if lookback.value < window {
        NothingPruned(pushed, entries, now - lookback.value);
      } else {
        SinceAll(entries, now - lookback.value);
      }
    }

    static method Recent(s: seq<Signal>, cutoff: real) returns (found: seq<Signal>)
      ensures found == Since(s, cutoff)
    {
      found := [];
      for i := 0 to |s|
        invariant found == Since(s[..i], cutoff)
      {
        assert s[..i + 1][..i] == s[..i];
        if s[i].t >= cutoff {
          found := found + [s[i]];
        }
      }
      assert s[..|s|] == s;
    }
  }

  // -------------------------------------------------------------------------
  // The engine
  // -------------------------------------------------------------------------

  const COOLDOWN: real := 30.0

  datatype Match = Match(pattern: string, confidence: real)

  // When a pattern was last reported
  function LastReport(last: map<string, real>, pattern: string): real
  {
    if pattern in last then last[pattern] else 0.0
  }

  // The matches whose pattern is not cooling down, in matcher order
  function Eligible(results: seq<Option<Match>>, last: map<string, real>, now: real): seq<Match>
  {
    if results == [] then [] else
    var r := results[|results| - 1];
    Eligible(results[..|results| - 1], last, now)
      + if r.Some? && now - LastReport(last, r.value.pattern) >= COOLDOWN then [r.value] else []
  }

  /** The first of the matches with the highest confidence. */
  ghost predicate IsBest(ms: seq<Match>, i: nat)
  {
    && i < |ms|
    && (forall j :: 0 <= j < |ms| ==> ms[j].confidence <= ms[i].confidence)
    && (forall j :: 0 <= j < i ==> ms[j].confidence < ms[i].confidence)
  }

  lemma {:induction false} EligibleCooled(results: seq<Option<Match>>, last: map<string, real>, now: real, i: nat)
    requires i < |Eligible(results, last, now)|
    ensures now - LastReport(last, Eligible(results, last, now)[i].pattern) >= COOLDOWN
  {
    var front := Eligible(results[..|results| - 1], last, now);
    if i < |front| {
      EligibleCooled(results[..|results| - 1], last, now, i);
    }
  }

  // Whether a matcher's result may be reported now
  ghost predicate MayReport(r: Option<Match>, last: map<string, real>, now: real)
  {
    r.Some? && (if r.value.pattern in last then now - last[r.value.pattern] >= 30.0 else now >= 30.0)
  }

  // Where the eligible matches stand
  function EligibleAt(results: seq<Option<Match>>, last: map<string, real>, now: real): seq<nat>
  {
    if results == [] then [] else
    var r := results[|results| - 1];
    EligibleAt(results[..|results| - 1], last, now)
      + if r.Some? && now - LastReport(last, r.value.pattern) >= COOLDOWN then [|results| - 1] else []
  }

  lemma CooledDown(r: Option<Match>, last: map<string, real>, now: real)
    ensures MayReport(r, last, now) <==> r.Some? && now - LastReport(last, r.value.pattern) >= COOLDOWN
  {
  }

  lemma EligibleLast(front: seq<Option<Match>>, r: Option<Match>, last: map<string, real>, now: real)
    ensures
      var all := front + [r];
      && Eligible(all, last, now) == Eligible(front, last, now) + (if MayReport(r, last, now) then [r.value] else [])
      && EligibleAt(all, last, now) == EligibleAt(front, last, now) + (if MayReport(r, last, now) then [|front|] else [])
  {
    CooledDown(r, last, now);
    hide MayReport, LastReport;
    assert (front + [r])[..|front|] == front;
  }

  /** The candidates for a report are exactly the results whose pattern was last reported at least
      30 seconds ago, in matcher order; a pattern never reported counts as reported at clock zero. */
  lemma {:induction false} EligibleIs(results: seq<Option<Match>>, last: map<string, real>, now: real)
    ensures
      var ms, at := Eligible(results, last, now), EligibleAt(results, last, now);
      && |ms| == |at|
      && (forall k, l :: 0 <= k < l < |at| ==> at[k] < at[l])
      && (forall k :: 0 <= k < |at| ==> at[k] < |results| && results[at[k]] == Some(ms[k]))
      && (forall i :: 0 <= i < |results| ==> (i in at <==> MayReport(results[i], last, now)))
  {
    if results != [] {
      var front, r := results[..|results| - 1], results[|results| - 1];
      EligibleIs(front, last, now);
      EligibleLast(front, r, last, now);
      assert results == front + [r];
      hide Eligible, EligibleAt, MayReport;
    }
  }

  class Engine {
    const interval: nat
    var frameCount: nat
    var lastMatch: map<string, real>
    ghost var reports: seq<(string, real)>

    /** Reports of one pattern are at least 30 seconds apart. */
    ghost predicate Valid()
      reads this
    {
      && interval > 0
      && (forall i, j :: 0 <= i < j < |reports| && reports[i].0 == reports[j].0 ==> reports[j].1 - reports[i].1 >= 30.0)
      && (forall i :: 0 <= i < |reports| ==> reports[i].0 in lastMatch && reports[i].1 <= lastMatch[reports[i].0])
    }

    constructor (interval: nat)
      requires interval > 0
      ensures Valid() && reports == [] && frameCount == 0 && lastMatch == map[]
    {
      this.interval := interval;
      frameCount, lastMatch, reports := 0, map[], [];
    }

    /** `check`: every interval-th call reports the best match that is not cooling down. */
    method Check(results: seq<Option<Match>>, now: real) returns (best: Option<Match>)
      requires Valid()
      modifies this
      ensures Valid() && frameCount == old(frameCount) + 1
      ensures
        var ms := Eligible(results, old(lastMatch), now);
        if frameCount % interval != 0 || ms == [] then
          best == None && lastMatch == old(lastMatch) && reports == old(reports)
        else
          && best.Some? && (exists i: nat :: IsBest(ms, i) && best.value == ms[i])
          && lastMatch == old(lastMatch)[best.value.pattern := now]
          && reports == old(reports) + [(best.value.pattern, now)]
    {
      frameCount := frameCount + 1;
      if frameCount % interval != 0 {
        return None;
      }
      var ms: seq<Match> := [];
      for i := 0 to |results|
        invariant ms == Eligible(results[..i], lastMatch, now)
      {
        assert results[..i + 1][..i] == results[..i];
        if results[i].Some? {
          var last := if results[i].value.pattern in lastMatch then lastMatch[results[i].value.pattern] else 0.0;
          if now - last < COOLDOWN {
            continue;
          }
          ms := ms + [results[i].value];
        }
      }
      assert results[..|results|] == results;
      if ms == [] {
        return None;
      }
      var i := FirstHighest(ms);
      EligibleCooled(results, lastMatch, now, i);
      lastMatch := lastMatch[ms[i].pattern := now];
      reports := reports + [(ms[i].pattern, now)];
      best := Some(ms[i]);
    }

    // The head of the list sorted by confidence, highest first; the sort is stable
    static method FirstHighest(ms: seq<Match>) returns (i: nat)
      requires ms != []
      ensures IsBest(ms, i)
    {
      i := 0;
      for k := 1 to |ms|
        invariant i < k
        invariant forall j :: 0 <= j < k ==> ms[j].confidence <= ms[i].confidence
        invariant forall j :: 0 <= j < i ==> ms[j].confidence < ms[i].confidence
      {
        if ms[k].confidence > ms[i].confidence {
          i := k;
        }
      }
    }
  }
}
