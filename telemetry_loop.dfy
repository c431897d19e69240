/**
  The telemetry loop: every iteration samples the machine, records and
  publishes the snapshot, advances a saturating tick counter, prunes the
  speed-test history on every 180th tick, and sleeps for the interval of the
  current mode.  The collaborators the loop calls (the sampler, the history,
  the event bus, the shared mode and settings) are outside this model: their
  answers for an iteration are given as an `IterationInputs` value, and what
  the loop does with them is written to a trace of effects.
*/
module TelemetryLoop {
  import opened Wrappers
  import opened Numeric
  import opened Types
  import opened Collectors

  /** The answers of the collaborators for one iteration: the snapshot
      collected, whether publishing it succeeded, how a prune would end, and
      the mode and settings read at the end of the iteration. */
  datatype IterationInputs = IterationInputs(
    snapshot: TelemetrySnapshot,
    publishOk: bool,
    pruneOutcome: Outcome<string>,
    mode: Mode,
    settings: AppSettings)

  /** A warning event for the interface: the error text and where it came from. */
  datatype WarningEvent = WarningEvent(message: string, source: string)

  /** What an iteration does, in order. */
  datatype Effect =
    | Collected(snapshot: TelemetrySnapshot)
    | Recorded(snapshot: TelemetrySnapshot)
    | Published(snapshot: TelemetrySnapshot)
    | PublishFailureLogged
    | PruneRequested
    | Warned(event: WarningEvent)
    | ConfigRead(mode: Mode, settings: AppSettings)
    | Slept(ms: int)

  const PruneEveryTicks := 180
  const MinIntervalMs := 100
  const MaxIntervalMs := 10_000
  const PruneSource := "history_prune"

  /** `tick_count.saturating_add(1)`. */
  function NextTick(tick: U64): (next: U64)
    ensures tick < U64_MAX ==> next == tick + 1
    ensures tick == U64_MAX ==> next == U64_MAX
  {
    SaturatingAdd(tick, 1)
  }

  /** The counter value after which the history is pruned. */
  predicate PruneDue(tick: U64)
  {
    tick % PruneEveryTicks == 0
  }

  /** The sleep of the mode: its period from the settings, clamped to [100, 10000] ms. */
  function IntervalMs(mode: Mode, settings: AppSettings): (ms: int)
    ensures MinIntervalMs <= ms <= MaxIntervalMs
    ensures mode == Normal && MinIntervalMs <= settings.refreshRateMs <= MaxIntervalMs ==> ms == settings.refreshRateMs
    ensures mode == LowPower && MinIntervalMs <= settings.lowPowerRateMs <= MaxIntervalMs ==> ms == settings.lowPowerRateMs
  {
    var chosen := match mode
      case Normal => settings.refreshRateMs
      case LowPower => settings.lowPowerRateMs;
    Clamp(chosen, MinIntervalMs, MaxIntervalMs)
  }

  /** The prune step of an iteration whose new counter is `tick`. */
  function PruneEffects(tick: U64, outcome: Outcome<string>): seq<Effect>
  {
    if !PruneDue(tick) then []
    else match outcome
      case Pass => [PruneRequested]
      case Fail(message) => [PruneRequested, Warned(WarningEvent(message, PruneSource))]
  }

  /** Sampling, recording and publishing one snapshot; a failed publish is logged. */
  function PublishEffects(snapshot: TelemetrySnapshot, publishOk: bool): seq<Effect>
  {
    [Collected(snapshot), Recorded(snapshot), Published(snapshot)] + (if publishOk then [] else [PublishFailureLogged])
  }

  /** Reading the mode and settings, then sleeping for the interval they select. */
  function ConfigEffects(mode: Mode, settings: AppSettings): seq<Effect>
  {
    [ConfigRead(mode, settings), Slept(IntervalMs(mode, settings))]
  }

  /** The effects of one iteration that starts with the counter at `tick`. */
  function IterationEffects(tick: U64, inputs: IterationInputs): (e: seq<Effect>)
    ensures |e| >= 5 && e[|e| - 1] == Slept(IntervalMs(inputs.mode, inputs.settings))
  {
    PublishEffects(inputs.snapshot, inputs.publishOk)
    + PruneEffects(NextTick(tick), inputs.pruneOutcome)
    + ConfigEffects(inputs.mode, inputs.settings)
  }

  /** The order inside one iteration: the snapshot is recorded before it is
      published; a failed publish is only logged; the prune, if any, comes
      after publishing and before mode and settings are read; the iteration
      always ends with the sleep of the current mode, whatever failed. */
  lemma IterationOrder(tick: U64, inputs: IterationInputs)
    ensures var e := IterationEffects(tick, inputs);
      && |e| >= 5
      && e[0] == Collected(inputs.snapshot)
      && e[1] == Recorded(inputs.snapshot)
      && e[2] == Published(inputs.snapshot)
      && e[|e| - 2] == ConfigRead(inputs.mode, inputs.settings)
      && e[|e| - 1] == Slept(IntervalMs(inputs.mode, inputs.settings))
      && (forall i :: 0 <= i < |e| && (e[i] == PruneRequested || e[i].Warned?) ==> 3 <= i < |e| - 2)
      && (PublishFailureLogged in e <==> !inputs.publishOk)
  {
  }

  /** A prune is requested exactly when the new counter is a multiple of 180,
      and a warning from "history_prune" carrying the error text is raised
      exactly when that prune fails. */
  lemma PruneOnSchedule(tick: U64, inputs: IterationInputs)
    ensures var e := IterationEffects(tick, inputs);
      && (PruneRequested in e <==> PruneDue(NextTick(tick)))
      && (forall w :: Warned(w) in e <==>
            PruneDue(NextTick(tick)) && inputs.pruneOutcome == Fail(w.message) && w.source == PruneSource)
  {
    var e := IterationEffects(tick, inputs);
    var head := PublishEffects(inputs.snapshot, inputs.publishOk);
    var tail := ConfigEffects(inputs.mode, inputs.settings);
    assert e == head + PruneEffects(NextTick(tick), inputs.pruneOutcome) + tail;
    assert PruneRequested !in head && PruneRequested !in tail;
    forall w ensures Warned(w) in e <==> Warned(w) in PruneEffects(NextTick(tick), inputs.pruneOutcome) {
      assert Warned(w) !in head && Warned(w) !in tail;
    }
  }

  /** The number of prune requests in a trace. */
  function PruneRequests(trace: seq<Effect>): nat
  {
    if trace == [] then 0
    else PruneRequests(trace[..|trace| - 1]) + (if trace[|trace| - 1] == PruneRequested then 1 else 0)
  }

  lemma {:induction false} PruneRequestsAppend(a: seq<Effect>, b: seq<Effect>)
    ensures PruneRequests(a + b) == PruneRequests(a) + PruneRequests(b)
    decreases |b|
  {
    if b != [] {
      assert (a + b)[..|a + b| - 1] == a + b[..|b| - 1];
      PruneRequestsAppend(a, b[..|b| - 1]);
    } else {
      assert a + b == a;
    }
  }

  lemma {:induction false} PruneRequestsAbsent(trace: seq<Effect>)
    requires PruneRequested !in trace
    ensures PruneRequests(trace) == 0
    decreases |trace|
  {
    if trace != [] {
      assert trace[|trace| - 1] in trace;
      PruneRequestsAbsent(trace[..|trace| - 1]);
    }
  }

  /** One iteration requests at most one prune: one when due, none otherwise. */
  lemma IterationPrunes(tick: U64, inputs: IterationInputs)
    ensures PruneRequests(IterationEffects(tick, inputs)) == if PruneDue(NextTick(tick)) then 1 else 0
  {
    var head := PublishEffects(inputs.snapshot, inputs.publishOk);
    var prune := PruneEffects(NextTick(tick), inputs.pruneOutcome);
    var tail := ConfigEffects(inputs.mode, inputs.settings);
    assert IterationEffects(tick, inputs) == (head + prune) + tail;
    PruneRequestsAppend(head + prune, tail);
    PruneRequestsAppend(head, prune);
    PruneRequestsAbsent(head);
    PruneRequestsAbsent(tail);
    if PruneDue(NextTick(tick)) {
      assert prune[..1] == [PruneRequested];
      assert [PruneRequested][..0] == [];
      if inputs.pruneOutcome.Fail? {
        assert PruneRequests(prune) == PruneRequests(prune[..1]);
      }
    }
  }

  /** The counter after `n` iterations that start at `start`. */
  function TickAfter(start: U64, n: nat): U64
  {
    if n == 0 then start else NextTick(TickAfter(start, n - 1))
  }

  /** The counter counts iterations and stops at u64::MAX instead of wrapping. */
  lemma {:induction false} TickAfterIsCapped(start: U64, n: nat)
    ensures TickAfter(start, n) == Min(start + n, U64_MAX)
  {
    if n > 0 {
      TickAfterIsCapped(start, n - 1);
    }
  }

  /** The effects of the iterations that consume `inputs` in order, the
      counter starting at `start`. */
  function RunEffects(start: U64, inputs: seq<IterationInputs>): seq<Effect>
  {
    if |inputs| == 0 then []
    else RunEffects(start, inputs[..|inputs| - 1]) + IterationEffects(TickAfter(start, |inputs| - 1), inputs[|inputs| - 1])
  }

  /** The number of prunes requested by `n` iterations that start at `start`. */
  function PrunesOver(start: U64, n: nat): nat
  {
    if n == 0 then 0 else PrunesOver(start, n - 1) + (if PruneDue(TickAfter(start, n)) then 1 else 0)
  }

  /** From a fresh counter, the first `n` iterations prune `n / 180` times:
      on iterations 180, 360, 540 and so on. */
  lemma {:induction false} PrunesEvery180th(n: nat)
    requires n <= U64_MAX
    ensures PrunesOver(0, n) == n / PruneEveryTicks
  {
    if n > 0 {
      PrunesEvery180th(n - 1);
      TickAfterIsCapped(0, n);
      assert n / PruneEveryTicks == (n - 1) / PruneEveryTicks + (if n % PruneEveryTicks == 0 then 1 else 0);
    }
  }

  /** One more iteration appends its effects, with the counter the run has reached. */
  lemma RunEffectsStep(start: U64, inputs: seq<IterationInputs>, i: nat)
    requires i < |inputs|
    ensures RunEffects(start, inputs[..i + 1]) == RunEffects(start, inputs[..i]) + IterationEffects(TickAfter(start, i), inputs[i])
  {
    assert inputs[..i + 1][..i] == inputs[..i];
  }

  /** Appending `step` to a trace that is `before` followed by `done`. */
  lemma TraceGrows(before: seq<Effect>, done: seq<Effect>, step: seq<Effect>, t0: seq<Effect>, t: seq<Effect>)
    requires t0 == before + done && t == t0 + step
    ensures t == before + (done + step)
  {
  }

  /** A run of iterations requests exactly the prunes its counter values call for. */
  lemma {:induction false} RunPrunes(start: U64, inputs: seq<IterationInputs>)
    ensures PruneRequests(RunEffects(start, inputs)) == PrunesOver(start, |inputs|)
  {
    if |inputs| > 0 {
      var n := |inputs|;
      RunPrunes(start, inputs[..n - 1]);
      PruneRequestsAppend(RunEffects(start, inputs[..n - 1]), IterationEffects(TickAfter(start, n - 1), inputs[n - 1]));
      IterationPrunes(TickAfter(start, n - 1), inputs[n - 1]);
    }
  }

  /** Once the counter has saturated it stays at u64::MAX, which is not a
      multiple of 180, so no later iteration prunes. */
  lemma SaturatedCounterNeverPrunes(n: nat)
    ensures TickAfter(U64_MAX, n) == U64_MAX
    ensures PrunesOver(U64_MAX, n) == 0
  {
    TickAfterIsCapped(U64_MAX, n);
    assert !PruneDue(U64_MAX);
    if n > 0 {
      SaturatedCounterNeverPrunes(n - 1);
    }
  }

  /** The loop's state: the tick counter and what it has done so far. */
  class TelemetryLoop {
    var tickCount: U64
    var trace: seq<Effect>

    constructor ()
      ensures tickCount == 0 && trace == []
    {
      tickCount := 0;
      trace := [];
    }

    /** One pass of the loop body. */
    method Iterate(inputs: IterationInputs)
      modifies this
      ensures tickCount == NextTick(old(tickCount))
      ensures trace == old(trace) + IterationEffects(old(tickCount), inputs)
    {
      var snapshot := inputs.snapshot;
      var effects := [Collected(snapshot), Recorded(snapshot), Published(snapshot)];
      if !inputs.publishOk {
        effects := effects + [PublishFailureLogged];
      }
      assert effects == PublishEffects(snapshot, inputs.publishOk);

      var prevTick := tickCount;
      tickCount := SaturatingAdd(tickCount, 1);
      if tickCount % PruneEveryTicks == 0 {
        effects := effects + [PruneRequested];
        if inputs.pruneOutcome.Fail? {
          effects := effects + [Warned(WarningEvent(inputs.pruneOutcome.error, PruneSource))];
        }
      }
      assert effects == PublishEffects(snapshot, inputs.publishOk) + PruneEffects(tickCount, inputs.pruneOutcome);

      var intervalMs := IntervalMs(inputs.mode, inputs.settings);
      effects := effects + [ConfigRead(inputs.mode, inputs.settings), Slept(intervalMs)];
      trace := trace + effects;
    }

    /** The first `|inputs|` passes of the loop, which never ends on its own. */
    method Run(inputs: seq<IterationInputs>)
      modifies this
      ensures tickCount == TickAfter(old(tickCount), |inputs|)
      ensures trace == old(trace) + RunEffects(old(tickCount), inputs)
      ensures PruneRequests(trace) == PruneRequests(old(trace)) + PrunesOver(old(tickCount), |inputs|)
    {
      ghost var start := tickCount;
      ghost var before := trace;
      for i := 0 to |inputs|
        invariant tickCount == TickAfter(start, i)
        invariant trace == before + RunEffects(start, inputs[..i])
      {
        ghost var t0 := trace;
        Iterate(inputs[i]);
        TraceGrows(before, RunEffects(start, inputs[..i]), IterationEffects(TickAfter(start, i), inputs[i]), t0, trace);
        RunEffectsStep(start, inputs, i);
      }
      assert inputs[..|inputs|] == inputs;
      PruneRequestsAppend(before, RunEffects(start, inputs));
      RunPrunes(start, inputs);
    }
  }
}
