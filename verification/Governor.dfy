/** The adaptive frame-rate governor: a ladder controller with hysteresis, a forced floor and an
    fps floor. Rates, percentages and clock readings are reals. */
module Governor {
  import opened Wrappers

  datatype Config = Config(
    targetFps: int, lowFps: real,
    engagePct: real, releasePct: real, sampleSecs: real,
    batteryEngageDrop: real, batteryForceFloorPct: real, maxRssMb: real,
    psutilOk: bool)

  /** What one call of `maybe_update` reads. */
  datatype Sample = Sample(
    now: real, cpu: Option<real>, thermalReading: Option<real>,
    onBattery: bool, batteryPct: Option<real>, rssMb: Option<real>)

  datatype Notice = Notice(throttled: bool, fps: real, cpu: Option<real>)

  function Max(a: real, b: real): (m: real)
    ensures m >= a && m >= b && (m == a || m == b)
  {
    if a >= b then a else b
  }

  function Min(a: real, b: real): (m: real)
    ensures m <= a && m <= b && (m == a || m == b)
  {
    if a <= b then a else b
  }

  // -------------------------------------------------------------------------
  // The ladder
  // -------------------------------------------------------------------------

  /** Python's round(): halves go to the even neighbour. */
  function Round(x: real): int
  {
    var f := x.Floor;
    var d := x - f as real;
    if d < 0.5 || (d == 0.5 && f % 2 == 0) then f else f + 1
  }

  /** The nearest integer; of two equally near ones the even one. */
  lemma RoundIs(x: real)
    ensures -0.5 <= Round(x) as real - x <= 0.5
    ensures Round(x) as real - x in {-0.5, 0.5} ==> Round(x) % 2 == 0
  {
  }

  function Raw(cfg: Config): seq<real>
  {
    [cfg.targetFps as real, Round(cfg.targetFps as real * 0.7) as real,
     Round(cfg.targetFps as real * 0.5) as real, cfg.lowFps]
  }

  function Clamp(cfg: Config, t: real): real
  {
    Max(cfg.lowFps, Min(cfg.targetFps as real, t))
  }

  ghost predicate Descends(tiers: seq<real>)
  {
    forall i, j :: 0 <= i < j < |tiers| ==> tiers[i] > tiers[j]
  }

  /** The rungs are the clamped rates in strictly descending order: they start at the target
      (or at the low rate when that is higher) and end at the low rate. */
  ghost predicate IsLadder(cfg: Config, tiers: seq<real>)
  {
    && 1 <= |tiers| <= 4
    && (forall i, j :: 0 <= i < j < |tiers| ==> tiers[i] > tiers[j])
    && tiers[0] == Max(cfg.lowFps, cfg.targetFps as real)
    && tiers[|tiers| - 1] == cfg.lowFps
    && (forall t :: t in tiers <==>
        t in {Max(cfg.lowFps, cfg.targetFps as real), Clamp(cfg, Round(cfg.targetFps as real * 0.7) as real),
              Clamp(cfg, Round(cfg.targetFps as real * 0.5) as real), cfg.lowFps})
  }

  lemma RoundMonotone(x: real, y: real)
    requires x <= y
    ensures Round(x) <= Round(y)
  {
  }

  lemma RoundInt(n: int)
    ensures Round(n as real) == n
  {
  }

  lemma FourRungs(tiers: seq<real>)
    requires |tiers| <= 4 && forall i, j :: 0 <= i < j < |tiers| ==> tiers[i] > tiers[j]
    requires forall t :: t in tiers <==> t in {7.0, 5.0, 4.0, 3.0}
    ensures tiers == [7.0, 5.0, 4.0, 3.0]
  {
    assert 7.0 in tiers && 5.0 in tiers && 4.0 in tiers && 3.0 in tiers;
    var a :| 0 <= a < |tiers| && tiers[a] == 7.0;
    var b :| 0 <= b < |tiers| && tiers[b] == 5.0;
    var c :| 0 <= c < |tiers| && tiers[c] == 4.0;
    var d :| 0 <= d < |tiers| && tiers[d] == 3.0;
    assert a < b < c < d;
  }

  /** At the shipped rates, seven frames a second and three when throttled, the rungs are 7, 5, 4 and 3. */
  lemma ShippedLadder(cfg: Config, tiers: seq<real>)
    requires cfg.targetFps == 7 && cfg.lowFps == 3.0 && IsLadder(cfg, tiers)
    ensures tiers == [7.0, 5.0, 4.0, 3.0]
  {
    assert Round(4.9) == 5 && Round(3.5) == 4;
    forall t ensures t in tiers <==> t in {7.0, 5.0, 4.0, 3.0} {
    }
    FourRungs(tiers);
  }

  // Before clamping the rates already descend, unless clamping makes them all equal
  lemma ClampedDescend(cfg: Config)
    ensures forall i, j :: 0 <= i < j < 4 ==> Clamp(cfg, Raw(cfg)[i]) >= Clamp(cfg, Raw(cfg)[j])
    ensures Clamp(cfg, Raw(cfg)[0]) == Max(cfg.lowFps, cfg.targetFps as real)
    ensures Clamp(cfg, Raw(cfg)[3]) == cfg.lowFps
  {
    var t := cfg.targetFps as real;
    RoundInt(cfg.targetFps);
    hide Round;
    if t >= 0.0 {
      RoundMonotone(t * 0.7, t);
      RoundMonotone(t * 0.5, t * 0.7);
    } else {
      RoundMonotone(t, t * 0.7);
      RoundMonotone(t, t * 0.5);
    }
  }

  lemma ClampIs(cfg: Config, t: real)
    ensures Clamp(cfg, t) == Max(cfg.lowFps, Min(cfg.targetFps as real, t))
  {
  }

  // The clamped rates, strictly descending from the first to the last, are the ladder
  lemma LadderOf(cfg: Config, tiers: seq<real>)
    requires tiers != [] && |tiers| <= 4 && Descends(tiers)
    requires forall t :: t in tiers <==> exists k :: 0 <= k < 4 && t == Clamp(cfg, Raw(cfg)[k])
    requires tiers[0] == Clamp(cfg, Raw(cfg)[0]) && tiers[|tiers| - 1] == Clamp(cfg, Raw(cfg)[3])
    ensures IsLadder(cfg, tiers)
  {
    ClampedDescend(cfg);
    hide Round, Clamp;
    var raw := Raw(cfg);
    assert raw[0] == cfg.targetFps as real && raw[3] == cfg.lowFps;
    assert raw[1] == Round(cfg.targetFps as real * 0.7) as real && raw[2] == Round(cfg.targetFps as real * 0.5) as real;
  }

  method BuildTiers(cfg: Config) returns (tiers: seq<real>)
    ensures IsLadder(cfg, tiers)
  {
    hide Round, Clamp, IsLadder;
    var target := cfg.targetFps as real;
    var raw := [target, Round(target * 0.7) as real, Round(target * 0.5) as real, cfg.lowFps];
    assert Raw(cfg) == raw;
    tiers := [];
    ClampedDescend(cfg);
    for i := 0 to 4
      invariant |tiers| <= i && (i > 0 ==> tiers != [])
      invariant Descends(tiers)
      invariant forall t :: t in tiers <==> exists k :: 0 <= k < i && t == Clamp(cfg, raw[k])
      invariant i > 0 ==> tiers[0] == Clamp(cfg, raw[0]) && tiers[|tiers| - 1] == Clamp(cfg, raw[i - 1])
    {
      var t := Max(cfg.lowFps, Min(target, raw[i]));
      assert t == Clamp(cfg, raw[i]) by { ClampIs(cfg, raw[i]); }
      if t !in tiers {
        tiers := tiers + [t];
      }
    }
    LadderOf(cfg, tiers);
  }

  // -------------------------------------------------------------------------
  // One sample, as a function
  // -------------------------------------------------------------------------

  datatype State = State(
    idx: nat, floor: real, fps: real, hi: nat, lo: nat,
    lastSampleAt: real, lastThermalCheck: real,
    throttled: bool, thermal: Option<real>, notices: seq<Notice>)

  datatype Signal = Skipped | Forced | High | Low | Band

  function ThermalAfter(cfg: Config, s: State, m: Sample): Option<real>
  {
    if m.now - s.lastThermalCheck >= cfg.sampleSecs && m.thermalReading.Some? then m.thermalReading else s.thermal
  }

  /** What a sample says, given what is remembered. */
  function Classify(cfg: Config, s: State, m: Sample): Signal
  {
    if !cfg.psutilOk || cfg.engagePct >= 100.0 || m.now - s.lastSampleAt < cfg.sampleSecs then Skipped else
    var thermal := ThermalAfter(cfg, s, m);
    var engage := if m.onBattery then cfg.engagePct - cfg.batteryEngageDrop else cfg.engagePct;
    if (cfg.maxRssMb > 0.0 && m.rssMb.Some? && m.rssMb.value >= cfg.maxRssMb)
       || (m.onBattery && m.batteryPct.Some? && m.batteryPct.value <= cfg.batteryForceFloorPct) then Forced
    else if (m.cpu.Some? && m.cpu.value >= engage) || (thermal.Some? && thermal.value >= 0.75) then High
    else if (m.cpu.Some? && m.cpu.value <= cfg.releasePct) || (thermal.Some? && thermal.value < 0.5) then Low
    else Band
  }

  function MoveTo(tiers: seq<real>, s: State, idx: nat, cpu: Option<real>): State
    requires idx < |tiers|
  {
    if idx == s.idx then s else
    var fps := Max(tiers[idx], s.floor);
    s.(idx := idx, fps := fps, throttled := idx > 0, notices := s.notices + [Notice(idx > 0, fps, cpu)])
  }

  // The streaks and the rung after an unforced sample
  function Stride(tiers: seq<real>, t: State, signal: Signal, cpu: Option<real>): State
    requires t.idx < |tiers|
  {
    match signal
    case High =>
      var u := t.(hi := t.hi + 1, lo := 0);
      MoveTo(tiers, u, if u.hi >= 2 && t.idx < |tiers| - 1 then t.idx + 1 else t.idx, cpu)
    case Low =>
      var u := t.(lo := t.lo + 1, hi := 0);
      MoveTo(tiers, u, if u.lo >= 2 && t.idx > 0 then t.idx - 1 else t.idx, cpu)
    case _ => t
  }

  function Update(cfg: Config, tiers: seq<real>, s: State, m: Sample): State
    requires s.idx < |tiers|
  {
    var signal := Classify(cfg, s, m);
    if signal == Skipped then s else
    var t := s.(lastSampleAt := m.now, thermal := ThermalAfter(cfg, s, m),
      lastThermalCheck := if m.now - s.lastThermalCheck >= cfg.sampleSecs then m.now else s.lastThermalCheck);
    if signal == Forced then MoveTo(tiers, t, |tiers| - 1, m.cpu) else Stride(tiers, t, signal, m.cpu)
  }

  function SetFloor(tiers: seq<real>, s: State, fps: real): State
    requires s.idx < |tiers|
  {
    s.(floor := fps, fps := Max(tiers[s.idx], fps))
  }

  function Start(tiers: seq<real>): State
    requires tiers != []
  {
    State(0, 0.0, tiers[0], 0, 0, 0.0, 0.0, false, None, [])
  }

  // -------------------------------------------------------------------------
  // The governor object
  // -------------------------------------------------------------------------

  ghost predicate Inv(tiers: seq<real>, s: State)
  {
    && s.idx < |tiers|
    && s.fps == Max(tiers[s.idx], s.floor)
    && (s.throttled <==> s.idx > 0)
    && (s.hi == 0 || s.lo == 0)
  }

  lemma InvBasics(tiers: seq<real>, s: State)
    requires Inv(tiers, s)
    ensures s.idx < |tiers| && (s.hi == 0 || s.lo == 0)
  {
  }

  lemma LadderNotEmpty(cfg: Config, tiers: seq<real>)
    requires IsLadder(cfg, tiers)
    ensures tiers != []
  {
  }

  /** One sample keeps the invariant, moves at most one rung unless forced, and notifies exactly
      when the rung changes, with the new rate. */
  lemma UpdateKeepsInv(cfg: Config, tiers: seq<real>, s: State, m: Sample)
    requires Inv(tiers, s)
    ensures
      var t := Update(cfg, tiers, s, m);
      && Inv(tiers, t)
      && (Classify(cfg, s, m) != Forced ==> s.idx - 1 <= t.idx <= s.idx + 1)
      && (Classify(cfg, s, m) == Forced ==> t.idx == |tiers| - 1)
      && t.notices == if t.idx == s.idx then s.notices else s.notices + [Notice(t.idx > 0, t.fps, m.cpu)]
  {
  }

  class HardwareGovernor {
    const cfg: Config
    const tiers: seq<real>
    var effectiveFps: real
    var hiStreak: nat
    var loStreak: nat
    var lastSampleAt: real
    var lastThermalCheck: real
    var throttled: bool
    var thermalPressure: Option<real>
    var tierIdx: nat
    var minFpsFloor: real
    var notices: seq<Notice>     // what the transition callback has received

    ghost predicate Valid()
      reads this
    {
      IsLadder(cfg, tiers) && Inv(tiers, View())
    }

    function View(): State
      reads this
    {
      State(tierIdx, minFpsFloor, effectiveFps, hiStreak, loStreak, lastSampleAt, lastThermalCheck,
            throttled, thermalPressure, notices)
    }

    constructor (cfg: Config)
      ensures this.cfg == cfg && IsLadder(cfg, tiers) && View() == Start(tiers)
      ensures Valid() <==> tiers[0] >= 0.0
    {
      var ladder := BuildTiers(cfg);
      this.cfg := cfg;
      tiers := ladder;
      tierIdx, minFpsFloor, effectiveFps := 0, 0.0, ladder[0];
      hiStreak, loStreak, lastSampleAt, lastThermalCheck := 0, 0, 0.0, 0.0;
      throttled, thermalPressure, notices := false, None, [];
    }

    method ApplyTier()
      requires tierIdx < |tiers|
      modifies this`effectiveFps
      ensures effectiveFps == Max(tiers[tierIdx], minFpsFloor)
    {
      effectiveFps := Max(tiers[tierIdx], minFpsFloor);
    }

    method Notify(cpu: Option<real>)
      modifies this`notices
      ensures notices == old(notices) + [Notice(throttled, effectiveFps, cpu)]
    {
      notices := notices + [Notice(throttled, effectiveFps, cpu)];
    }

    method SetMinFpsFloor(fps: real)
      requires Valid()
      modifies this
      ensures Valid() && View() == SetFloor(tiers, old(View()), fps)
    {
      minFpsFloor := fps;
      ApplyTier();
    }

    method MaybeUpdate(m: Sample)
      requires Valid()
      modifies this
      ensures Valid() && View() == Update(cfg, tiers, old(View()), m)
    {
      hide IsLadder, Stride, MoveTo, Inv;
      LadderNotEmpty(cfg, tiers);
      InvBasics(tiers, View());
      UpdateKeepsInv(cfg, tiers, View(), m);
      if !cfg.psutilOk || cfg.engagePct >= 100.0 {
        return;
      }
      if m.now - lastSampleAt < cfg.sampleSecs {
        return;
      }
      lastSampleAt := m.now;
      if m.now - lastThermalCheck >= cfg.sampleSecs {
        lastThermalCheck := m.now;
        if m.thermalReading.Some? {
          thermalPressure := m.thermalReading;
        }
      }
      var thermalStressed := thermalPressure.Some? && thermalPressure.value >= 0.75;
      var thermalCool := thermalPressure.Some? && thermalPressure.value < 0.5;
      var memForce := cfg.maxRssMb > 0.0 && m.rssMb.Some? && m.rssMb.value >= cfg.maxRssMb;
      var battForce := m.onBattery && m.batteryPct.Some? && m.batteryPct.value <= cfg.batteryForceFloorPct;
      if memForce || battForce {
        assert Classify(cfg, old(View()), m) == Forced;
        ForceFloor(m.cpu);
        return;
      }
      var engage := cfg.engagePct - (if m.onBattery then cfg.batteryEngageDrop else 0.0);
      var hiSignal := (m.cpu.Some? && m.cpu.value >= engage) || thermalStressed;
      var loSignal := (m.cpu.Some? && m.cpu.value <= cfg.releasePct) || thermalCool;
      ghost var signal := if hiSignal then High else if loSignal then Low else Band;
      assert Classify(cfg, old(View()), m) == signal;
      TakeStride(hiSignal, loSignal, m.cpu);
    }

    method ForceFloor(cpu: Option<real>)
      requires tierIdx < |tiers|
      modifies this
      ensures View() == MoveTo(tiers, old(View()), |tiers| - 1, cpu)
    {
      if tierIdx < |tiers| - 1 {
        tierIdx := |tiers| - 1;
        ApplyTier();
        throttled := true;
        Notify(cpu);
      }
    }

    // The end of `maybe_update`: streaks and at most one rung
    method TakeStride(hiSignal: bool, loSignal: bool, cpu: Option<real>)
      requires tierIdx < |tiers| && (hiStreak == 0 || loStreak == 0)
      modifies this
      ensures View() == Stride(tiers, old(View()), if hiSignal then High else if loSignal then Low else Band, cpu)
    {
      if hiSignal {
        hiStreak := hiStreak + 1;
        loStreak := 0;
      } else if loSignal {
        loStreak := loStreak + 1;
        hiStreak := 0;
      } else {
        return;
      }
      var moved := false;
      if hiStreak >= 2 && tierIdx < |tiers| - 1 {
        tierIdx := tierIdx + 1;
        moved := true;
      } else if loStreak >= 2 && tierIdx > 0 {
        tierIdx := tierIdx - 1;
        moved := true;
      }
      if moved {
        ApplyTier();
        throttled := tierIdx > 0;
        Notify(cpu);
      }
    }
  }

  // -------------------------------------------------------------------------
  // Every run
  // -------------------------------------------------------------------------

  datatype Op = Floor(fps: real) | Take(sample: Sample)

  function Apply(cfg: Config, tiers: seq<real>, s: State, op: Op): State
    requires s.idx < |tiers|
  {
    match op case Floor(fps) => SetFloor(tiers, s, fps) case Take(m) => Update(cfg, tiers, s, m)
  }

  function Run(cfg: Config, tiers: seq<real>, s: State, ops: seq<Op>): (t: State)
    requires s.idx < |tiers|
    ensures t.idx < |tiers|
  {
    if ops == [] then s
    else Apply(cfg, tiers, Run(cfg, tiers, s, ops[..|ops| - 1]), ops[|ops| - 1])
  }

  // How often the rung changes during a run
  function RungChanges(cfg: Config, tiers: seq<real>, s: State, ops: seq<Op>): nat
    requires s.idx < |tiers|
  {
    if ops == [] then 0 else
    var front := ops[..|ops| - 1];
    RungChanges(cfg, tiers, s, front)
      + if Run(cfg, tiers, s, ops).idx == Run(cfg, tiers, s, front).idx then 0 else 1
  }

  /** After any run: effective_fps = max(rung, floor), throttled iff below the top rung, at most
      one streak is running, and there was one notice per change of rung. */
  lemma {:induction false} RunKeepsInv(cfg: Config, tiers: seq<real>, s: State, ops: seq<Op>)
    requires Inv(tiers, s)
    ensures Inv(tiers, Run(cfg, tiers, s, ops))
    ensures |Run(cfg, tiers, s, ops).notices| == |s.notices| + RungChanges(cfg, tiers, s, ops)
  {
    if ops != [] {
      var front, op := ops[..|ops| - 1], ops[|ops| - 1];
      RunKeepsInv(cfg, tiers, s, front);
      hide Update;
      if op.Take? {
        UpdateKeepsInv(cfg, tiers, Run(cfg, tiers, s, front), op.sample);
      }
    }
  }

  /** What each reading decides. Memory and battery force the floor; load or heat makes a sample high,
      earlier on battery; otherwise a low load or a cool machine makes it low. */
  lemma SignalTable(cfg: Config, s: State, m: Sample)
    requires cfg.psutilOk && cfg.engagePct < 100.0 && m.now - s.lastSampleAt >= cfg.sampleSecs
    ensures
      var signal, thermal := Classify(cfg, s, m), ThermalAfter(cfg, s, m);
      var tooMuchMemory := cfg.maxRssMb > 0.0 && m.rssMb.Some? && cfg.maxRssMb <= m.rssMb.value;
      var batteryLow := m.onBattery && m.batteryPct.Some? && m.batteryPct.value <= cfg.batteryForceFloorPct;
      var loaded := m.cpu.Some? && m.cpu.value + (if m.onBattery then cfg.batteryEngageDrop else 0.0) >= cfg.engagePct;
      var idle := m.cpu.Some? && m.cpu.value <= cfg.releasePct;
      && (signal == Forced <==> tooMuchMemory || batteryLow)
      && (signal == High <==> !tooMuchMemory && !batteryLow && (loaded || (thermal.Some? && thermal.value >= 0.75)))
      && (signal == Low <==> signal != Forced && signal != High && (idle || (thermal.Some? && thermal.value < 0.5)))
      && signal != Skipped
  {
  }

  // Every sample of the run carries the given signal when it is taken
  ghost predicate AllSignal(cfg: Config, tiers: seq<real>, s: State, samples: seq<Sample>, signal: Signal)
    requires s.idx < |tiers|
    decreases |samples|
  {
    samples == [] ||
    (Classify(cfg, s, samples[0]) == signal
     && Inv(tiers, s)
     && (UpdateKeepsInv(cfg, tiers, s, samples[0]);
         AllSignal(cfg, tiers, Update(cfg, tiers, s, samples[0]), samples[1..], signal)))
  }

  function Takes(samples: seq<Sample>): seq<Op>
  {
    seq(|samples|, i requires 0 <= i < |samples| => Take(samples[i]))
  }

  lemma {:induction false} RunFront(cfg: Config, tiers: seq<real>, s: State, op: Op, ops: seq<Op>)
    requires Inv(tiers, s)
    ensures
      var t := Apply(cfg, tiers, s, op);
      t.idx < |tiers| && Run(cfg, tiers, s, [op] + ops) == Run(cfg, tiers, t, ops)
    decreases |ops|
  {
    if op.Take? {
      UpdateKeepsInv(cfg, tiers, s, op.sample);
    }
    hide Apply, Inv;
    var all := [op] + ops;
    if ops == [] {
      assert all[..0] == [];
      assert Run(cfg, tiers, s, all[..0]) == s;
    } else {
      var front := ops[..|ops| - 1];
      assert all[..|all| - 1] == [op] + front;
      RunFront(cfg, tiers, s, op, front);
    }
  }

  /** A run of k high samples lowers the ladder by exactly k rungs, one fewer when no high streak
      was running, and never past the bottom. */
  lemma {:induction false} HighRun(cfg: Config, tiers: seq<real>, s: State, samples: seq<Sample>)
    requires Inv(tiers, s) && samples != [] && AllSignal(cfg, tiers, s, samples, High)
    ensures
      var down := s.idx + |samples| - (if s.hi >= 1 then 0 else 1);
      Run(cfg, tiers, s, Takes(samples)).idx == if down < |tiers| then down else |tiers| - 1
    decreases |samples|
  {
    var t := Update(cfg, tiers, s, samples[0]);
    UpdateKeepsInv(cfg, tiers, s, samples[0]);
    assert Takes(samples) == [Take(samples[0])] + Takes(samples[1..]);
    RunFront(cfg, tiers, s, Take(samples[0]), Takes(samples[1..]));
    if |samples| == 1 {
      assert Takes(samples[1..]) == [];
    } else {
      HighRun(cfg, tiers, t, samples[1..]);
    }
  }

  /** The same on the way up. */
  lemma {:induction false} LowRun(cfg: Config, tiers: seq<real>, s: State, samples: seq<Sample>)
    requires Inv(tiers, s) && samples != [] && AllSignal(cfg, tiers, s, samples, Low)
    ensures
      var up := s.idx - |samples| + (if s.lo >= 1 then 0 else 1);
      Run(cfg, tiers, s, Takes(samples)).idx == if up > 0 then up else 0
    decreases |samples|
  {
    var t := Update(cfg, tiers, s, samples[0]);
    UpdateKeepsInv(cfg, tiers, s, samples[0]);
    assert Takes(samples) == [Take(samples[0])] + Takes(samples[1..]);
    RunFront(cfg, tiers, s, Take(samples[0]), Takes(samples[1..]));
    if |samples| == 1 {
      assert Takes(samples[1..]) == [];
    } else {
      LowRun(cfg, tiers, t, samples[1..]);
    }
  }

  /** As many high (low) samples in a row as there are rungs reach the bottom (the top). */
  lemma LadderReached(cfg: Config, tiers: seq<real>, s: State, samples: seq<Sample>)
    requires Inv(tiers, s) && |samples| == |tiers|
    ensures AllSignal(cfg, tiers, s, samples, High) ==> Run(cfg, tiers, s, Takes(samples)).idx == |tiers| - 1
    ensures AllSignal(cfg, tiers, s, samples, Low) ==> Run(cfg, tiers, s, Takes(samples)).idx == 0
  {
    hide AllSignal;
    if AllSignal(cfg, tiers, s, samples, High) {
      HighRun(cfg, tiers, s, samples);
    }
    if AllSignal(cfg, tiers, s, samples, Low) {
      LowRun(cfg, tiers, s, samples);
    }
  }

  /** A step down is undone by the very next sample only in one case: it was forced while a low
      streak was already running, and the next sample is low. A step up is undone exactly when the
      next sample is forced. */
  lemma ImmediateReversal(cfg: Config, tiers: seq<real>, s: State, m: Sample, m': Sample)
    requires Inv(tiers, s)
    ensures
      var t := Update(cfg, tiers, s, m);
      && (t.idx > s.idx ==>
        (Update(cfg, tiers, t, m').idx < t.idx
         <==> Classify(cfg, s, m) == Forced && s.lo >= 1 && Classify(cfg, t, m') == Low))
      && (t.idx < s.idx ==>
        (Update(cfg, tiers, t, m').idx > t.idx <==> Classify(cfg, t, m') == Forced))
  {
  }

  // -------------------------------------------------------------------------
  // Parking in the band
  // -------------------------------------------------------------------------

  // A sample that is taken and not forced, with the CPU strictly between release and engage
  predicate BandCpu(cfg: Config, s: State, m: Sample)
  {
    && Classify(cfg, s, m) != Skipped && Classify(cfg, s, m) != Forced
    && m.cpu.Some? && cfg.releasePct < m.cpu.value
    && m.cpu.value < if m.onBattery then cfg.engagePct - cfg.batteryEngageDrop else cfg.engagePct
  }

  // The temperature that counts for the sample is unknown or in its own band
  predicate MildHeat(cfg: Config, s: State, m: Sample)
  {
    var thermal := ThermalAfter(cfg, s, m);
    thermal.None? || 0.5 <= thermal.value < 0.75
  }

  // Whether two states agree on the rung and on both streaks
  predicate SameStand(s: State, t: State) { t.idx == s.idx && t.hi == s.hi && t.lo == s.lo && t.fps == s.fps }

  ghost predicate AllBandCpu(cfg: Config, tiers: seq<real>, s: State, samples: seq<Sample>)
    requires Inv(tiers, s)
    decreases |samples|
  {
    samples == [] ||
    (BandCpu(cfg, s, samples[0])
     && (UpdateKeepsInv(cfg, tiers, s, samples[0]);
         AllBandCpu(cfg, tiers, Update(cfg, tiers, s, samples[0]), samples[1..])))
  }

  ghost predicate AllMild(cfg: Config, tiers: seq<real>, s: State, samples: seq<Sample>)
    requires Inv(tiers, s)
    decreases |samples|
  {
    samples == [] ||
    (MildHeat(cfg, s, samples[0])
     && (UpdateKeepsInv(cfg, tiers, s, samples[0]);
         AllMild(cfg, tiers, Update(cfg, tiers, s, samples[0]), samples[1..])))
  }

  // The rung, the rate and the streaks never change during the run
  ghost predicate Parked(cfg: Config, tiers: seq<real>, s: State, samples: seq<Sample>)
    requires Inv(tiers, s)
    decreases |samples|
  {
    samples == [] ||
    (SameStand(s, Update(cfg, tiers, s, samples[0]))
     && (UpdateKeepsInv(cfg, tiers, s, samples[0]);
         Parked(cfg, tiers, Update(cfg, tiers, s, samples[0]), samples[1..])))
  }

  // A cool sample in the band counts as low, a hot one as high
  lemma BandStep(cfg: Config, tiers: seq<real>, s: State, m: Sample)
    requires Inv(tiers, s) && BandCpu(cfg, s, m)
    ensures SameStand(s, Update(cfg, tiers, s, m)) <==> MildHeat(cfg, s, m)
  {
  }

  /** With the CPU in the hysteresis band the governor parks, rung, rate and streaks alike, if and
      only if the temperature of every sample is unknown or in its own band as well. */
  lemma {:induction false} BandParks(cfg: Config, tiers: seq<real>, s: State, samples: seq<Sample>)
    requires Inv(tiers, s) && AllBandCpu(cfg, tiers, s, samples)
    ensures Parked(cfg, tiers, s, samples) <==> AllMild(cfg, tiers, s, samples)
    decreases |samples|
  {
    if samples != [] {
      var t := Update(cfg, tiers, s, samples[0]);
      UpdateKeepsInv(cfg, tiers, s, samples[0]);
      BandStep(cfg, tiers, s, samples[0]);
      hide Update, Inv, MildHeat, BandCpu;
      BandParks(cfg, tiers, t, samples[1..]);
    }
  }

  // The temperature that counts for the sample is hot, or cool
  predicate Heat(cfg: Config, s: State, m: Sample, hot: bool)
  {
    var thermal := ThermalAfter(cfg, s, m);
    thermal.Some? && if hot then thermal.value >= 0.75 else thermal.value < 0.5
  }

  /** Every temperature is hot, cool or mild, and only one of these. */
  lemma HeatKinds(cfg: Config, s: State, m: Sample)
    ensures MildHeat(cfg, s, m) <==> !Heat(cfg, s, m, true) && !Heat(cfg, s, m, false)
    ensures !(Heat(cfg, s, m, true) && Heat(cfg, s, m, false))
  {
  }

  // The temperature that counts is hot, or cool, for every sample
  ghost predicate AllHeat(cfg: Config, tiers: seq<real>, s: State, samples: seq<Sample>, hot: bool)
    requires Inv(tiers, s)
    decreases |samples|
  {
    samples == [] ||
    (Heat(cfg, s, samples[0], hot)
     && (UpdateKeepsInv(cfg, tiers, s, samples[0]);
         AllHeat(cfg, tiers, Update(cfg, tiers, s, samples[0]), samples[1..], hot)))
  }

  lemma {:induction false} HeatDecides(cfg: Config, tiers: seq<real>, s: State, samples: seq<Sample>, hot: bool)
    requires Inv(tiers, s) && AllBandCpu(cfg, tiers, s, samples) && AllHeat(cfg, tiers, s, samples, hot)
    ensures AllSignal(cfg, tiers, s, samples, if hot then High else Low)
    decreases |samples|
  {
    if samples != [] {
      UpdateKeepsInv(cfg, tiers, s, samples[0]);
      assert Classify(cfg, s, samples[0]) == if hot then High else Low;
      hide Update, Classify;
      HeatDecides(cfg, tiers, Update(cfg, tiers, s, samples[0]), samples[1..], hot);
    }
  }

  /** So the CPU being low is not needed to climb: as many samples as there are rungs, all with the
      CPU in the band and all cool, end at the top; all hot, they end at the bottom. */
  lemma BandLeaves(cfg: Config, tiers: seq<real>, s: State, samples: seq<Sample>)
    requires Inv(tiers, s) && |samples| == |tiers| && AllBandCpu(cfg, tiers, s, samples)
    ensures AllHeat(cfg, tiers, s, samples, false) ==> Run(cfg, tiers, s, Takes(samples)).idx == 0
    ensures AllHeat(cfg, tiers, s, samples, true) ==> Run(cfg, tiers, s, Takes(samples)).idx == |tiers| - 1
  {
    LadderReached(cfg, tiers, s, samples);
    hide AllHeat, AllBandCpu, AllSignal, Run, Update;
    if AllHeat(cfg, tiers, s, samples, false) {
      HeatDecides(cfg, tiers, s, samples, false);
    }
    if AllHeat(cfg, tiers, s, samples, true) {
      HeatDecides(cfg, tiers, s, samples, true);
    }
  }
}
