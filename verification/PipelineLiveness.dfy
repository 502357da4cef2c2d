/** The pipeline comes to rest, and at rest every dispatched event is finished. */
module PipelineLiveness {
  import opened Text
  import opened Events
  import opened Pipeline
  import opened PipelineSafety
  import Backoff

  // ---------------------------------------------------------------------------
  // How many moves an activity has left
  // ---------------------------------------------------------------------------

  function Left(n: nat, attempt: nat): nat {
    if attempt <= n then n - attempt else 0
  }

  /** An upper bound on the moves an activity can still make with `n` attempts per loop. */
  function Moves(n: nat, act: Activity): nat {
    match act
    case Failing(_, _, _, _) => 1
    case Recording(_, _, _, _, _) => 2
    case Confirming(_, _, _, _, attempt) => 3 + Left(n, attempt)
    case Submitting(_, _, _, attempt) => 4 + n + Left(n, attempt)
    case Job(_, _, _) => 5 + 2 * n
    case Enqueuing(_, _, _) => 6 + 2 * n
    case Processing(_, _, _) => 7 + 2 * n
    case Created(_, _, _) => 8 + 2 * n
    case Creating(_) => 9 + 2 * n
    case Looking(_) => 10 + 2 * n
  }

  /** The moves left over all activities. */
  ghost function Measure(n: nat, acts: map<nat, Activity>): nat {
    if acts == map[] then 0
    else
      var a :| a in acts;
      Moves(n, acts[a]) + Measure(n, acts - {a})
  }

  /** The measure does not depend on the order of summation. */
  lemma {:induction false} MeasureSplits(n: nat, acts: map<nat, Activity>, a: nat)
    requires a in acts
    ensures Measure(n, acts) == Moves(n, acts[a]) + Measure(n, acts - {a})
    decreases |acts|
  {
    var b :| b in acts && Measure(n, acts) == Moves(n, acts[b]) + Measure(n, acts - {b});
    if a != b {
      MeasureSplits(n, acts - {b}, a);
      MeasureSplits(n, acts - {a}, b);
      assert acts - {a} - {b} == acts - {b} - {a};
    }
  }

  lemma MeasureReplaces(n: nat, acts: map<nat, Activity>, a: nat, act: Activity)
    ensures a in acts ==> Measure(n, acts[a := act]) + Moves(n, acts[a]) == Measure(n, acts) + Moves(n, act)
    ensures a !in acts ==> Measure(n, acts[a := act]) == Measure(n, acts) + Moves(n, act)
  {
    var after := acts[a := act];
    MeasureSplits(n, after, a);
    assert after - {a} == acts - {a};
    if a in acts {
      MeasureSplits(n, acts, a);
    } else {
      assert acts - {a} == acts;
    }
  }

  /** Steps the environment takes on its own account. */
  predicate IsExternal(step: Step) {
    step.Arrive? || step.SetService? || step.Reorder?
  }

  lemma EventStepLowers(env: Env, act: Activity, service: bool, records: map<Text, Record>, step: Step)
    requires EnabledFor(env, act, records, step)
    ensures var stage := StageAfter(env, act, service, records, step);
            stage.Some? ==> Moves(env.maxAttempts, stage.value) < Moves(env.maxAttempts, act)
  {
  }

  lemma EventStepLowersMeasure(env: Env, s: State, a: nat, step: Step)
    requires a in s.activities && EnabledFor(env, s.activities[a], s.records, step)
    ensures Measure(env.maxAttempts, EventStep(env, s, a, step).activities) < Measure(env.maxAttempts, s.activities)
  {
    var act, n := s.activities[a], env.maxAttempts;
    var stage := StageAfter(env, act, s.service, s.records, step);
    EventStepLowers(env, act, s.service, s.records, step);
    MeasureSplits(n, s.activities, a);
    if stage.Some? {
      MeasureReplaces(n, s.activities, a, stage.value);
    }
  }

  lemma EarlyStepMeasure(env: Env, s: State, step: Step)
    requires Enabled(env, s, step) && !IsEventStep(step)
    ensures var before, after := Measure(env.maxAttempts, s.activities),
                                 Measure(env.maxAttempts, Next(env, s, step).activities);
            && (!IsExternal(step) ==> after < before)
            && (step.SetService? || step.Reorder? ==> after == before)
            && (step.Arrive? ==> after <= before + 10 + 2 * env.maxAttempts)
  {
    var n, acts := env.maxAttempts, s.activities;
    match step
    case SetService(_) =>
    case Reorder(_, _) =>
    case Arrive(a, input) =>
      MeasureReplaces(n, acts, a, if HasTruthyKey(input) then Looking(input) else Creating(input));
    case Lookup(a, found) =>
      MeasureSplits(n, acts, a);
      MeasureReplaces(n, acts, a, Creating(acts[a].input));
    case Insert(a, id, _) =>
      MeasureReplaces(n, acts, a, Created(acts[a].input, id, env.instantOf(acts[a].input.event.timestamp).value));
    case InsertThrows(a) => MeasureSplits(n, acts, a);
  }

  /** Every step of the pipeline lowers the measure; only an arrival raises it, by a fixed amount. */
  lemma StepLowersMeasure(env: Env, s: State, step: Step)
    requires Enabled(env, s, step)
    ensures var before, after := Measure(env.maxAttempts, s.activities),
                                 Measure(env.maxAttempts, Next(env, s, step).activities);
            && (!IsExternal(step) ==> after < before)
            && (step.SetService? || step.Reorder? ==> after == before)
            && (step.Arrive? ==> after <= before + 10 + 2 * env.maxAttempts)
  {
    if IsEventStep(step) {
      NextOfEventStep(env, s, step);
      EventStepLowersMeasure(env, s, step.a, step);
    } else {
      EarlyStepMeasure(env, s, step);
    }
  }

  // ---------------------------------------------------------------------------
  // Whole runs
  // ---------------------------------------------------------------------------

  function Arrivals(steps: seq<Step>): nat {
    if steps == [] then 0
    else Arrivals(steps[..|steps| - 1]) + (if steps[|steps| - 1].Arrive? then 1 else 0)
  }

  function OwnSteps(steps: seq<Step>): nat {
    if steps == [] then 0
    else OwnSteps(steps[..|steps| - 1]) + (if IsExternal(steps[|steps| - 1]) then 0 else 1)
  }

  lemma PrefixIsRun(env: Env, states: seq<State>, steps: seq<Step>, k: nat)
    requires IsRun(env, states, steps) && k <= |steps|
    ensures IsRun(env, states[..k + 1], steps[..k])
  {
  }

  lemma RunStepMeasure(env: Env, states: seq<State>, steps: seq<Step>, k: nat)
    requires IsRun(env, states, steps) && k < |steps|
    ensures var before, after := Measure(env.maxAttempts, states[k].activities),
                                 Measure(env.maxAttempts, states[k + 1].activities);
            && (!IsExternal(steps[k]) ==> after < before)
            && (steps[k].SetService? || steps[k].Reorder? ==> after == before)
            && (steps[k].Arrive? ==> after <= before + 10 + 2 * env.maxAttempts)
  {
    assert Enabled(env, states[k], steps[k]) && states[k + 1] == Next(env, states[k], steps[k]);
    StepLowersMeasure(env, states[k], steps[k]);
  }

  lemma CountsGrow(steps: seq<Step>)
    requires steps != []
    ensures var k := |steps| - 1;
            && OwnSteps(steps) == OwnSteps(steps[..k]) + (if IsExternal(steps[k]) then 0 else 1)
            && Arrivals(steps) == Arrivals(steps[..k]) + (if steps[k].Arrive? then 1 else 0)
  {
  }

  /** However its steps interleave, a run makes at most 10 + 2n own steps per arrival. */
  lemma {:induction false} RunIsBounded(env: Env, states: seq<State>, steps: seq<Step>)
    requires IsRun(env, states, steps)
    ensures OwnSteps(steps) + Measure(env.maxAttempts, states[|steps|].activities)
            <= Arrivals(steps) * (10 + 2 * env.maxAttempts)
  {
    if steps != [] {
      var k := |steps| - 1;
      assert OwnSteps(steps[..k]) + Measure(env.maxAttempts, states[k].activities)
             <= Arrivals(steps[..k]) * (10 + 2 * env.maxAttempts) by {
        PrefixIsRun(env, states, steps, k);
        RunIsBounded(env, states[..k + 1], steps[..k]);
      }
      CountsGrow(steps);
      BoundGrows(env, states, steps, k, OwnSteps(steps[..k]), Arrivals(steps[..k]));
    }
  }

  lemma BoundGrows(env: Env, states: seq<State>, steps: seq<Step>, k: nat, own: nat, arrived: nat)
    requires IsRun(env, states, steps) && k < |steps|
    requires own + Measure(env.maxAttempts, states[k].activities) <= arrived * (10 + 2 * env.maxAttempts)
    ensures own + (if IsExternal(steps[k]) then 0 else 1) + Measure(env.maxAttempts, states[k + 1].activities)
            <= (arrived + (if steps[k].Arrive? then 1 else 0)) * (10 + 2 * env.maxAttempts)
  {
    RunStepMeasure(env, states, steps, k);
    var cost := 10 + 2 * env.maxAttempts;
    assert (arrived + 1) * cost == arrived * cost + cost;
  }

  // ---------------------------------------------------------------------------
  // At rest
  // ---------------------------------------------------------------------------

  /** No own step is possible. */
  ghost predicate AtRest(env: Env, s: State) {
    forall step :: !IsExternal(step) ==> !Enabled(env, s, step)
  }

  /** Some step of an activity is always possible, whatever the world answers. */
  ghost function SomeStep(env: Env, s: State, a: nat): (step: Step)
    requires a in s.activities
    requires s.activities[a].Looking? ==> s.activities[a].input.idempotencyKey.Some?
    ensures !IsExternal(step) && Enabled(env, s, step)
  {
    match s.activities[a]
    case Looking(input) =>
      if KeyTaken(s.rows, input)
      then
        var i :| i in s.rows && HasKey(s.rows[i], input.orgId, input.idempotencyKey.value);
        Lookup(a, Some(i))
      else Lookup(a, None)
    case Creating(_) => InsertThrows(a)
    case Created(_, _, _) => Respond(a)
    case Processing(_, _, _) => WriteAnchoringThrows(a)
    case Enqueuing(_, _, _) => Enqueue(a)
    case Job(_, _, _) => Deliver(a)
    case Submitting(_, _, _, n) =>
      if n < env.maxAttempts then SubmitThrows(a, Backoff.Other([]), None) else Exhaust(a)
    case Confirming(_, _, _, _, n) =>
      if n < env.maxAttempts then ConfirmThrows(a, Backoff.Other([])) else Exhaust(a)
    case Recording(_, _, _, _, _) => RecordAnchoredThrows(a, [])
    case Failing(_, _, _, _) => RecordFailed(a)
  }

  /** Calls look a key up only when there is one. */
  ghost predicate LookupsHaveKeys(s: State) {
    forall a | a in s.activities :: s.activities[a].Looking? ==> s.activities[a].input.idempotencyKey.Some?
  }

  lemma EventStageIsNotEarly(env: Env, act: Activity, service: bool, records: map<Text, Record>, step: Step)
    requires EnabledFor(env, act, records, step)
    ensures var stage := StageAfter(env, act, service, records, step); stage.Some? ==> !stage.value.Looking?
  {
  }

  lemma StepKeepsLookups(env: Env, s: State, step: Step)
    requires LookupsHaveKeys(s) && Enabled(env, s, step)
    ensures LookupsHaveKeys(Next(env, s, step))
  {
    if IsEventStep(step) {
      NextOfEventStep(env, s, step);
      EventStageIsNotEarly(env, s.activities[step.a], s.service, s.records, step);
    }
  }

  lemma {:induction false} RunKeepsLookups(env: Env, states: seq<State>, steps: seq<Step>, i: nat)
    requires IsRun(env, states, steps) && i < |states|
    ensures LookupsHaveKeys(states[i])
  {
    if i > 0 {
      RunKeepsLookups(env, states, steps, i - 1);
      assert states[i - 1 + 1] == Next(env, states[i - 1], steps[i - 1]);
      StepKeepsLookups(env, states[i - 1], steps[i - 1]);
    }
  }

  lemma BusyHasStep(env: Env, s: State, a: nat)
    requires LookupsHaveKeys(s) && a in s.activities
    ensures !AtRest(env, s)
  {
    var step := SomeStep(env, s, a);
  }

  /** The system is at rest exactly when no activity is left. */
  lemma RestIsEmpty(env: Env, s: State)
    requires LookupsHaveKeys(s)
    ensures AtRest(env, s) <==> s.activities == map[]
  {
    if s.activities != map[] {
      assert s.activities.Keys != {};
      var a :| a in s.activities;
      BusyHasStep(env, s, a);
    }
  }

  /**
   Where a run comes to rest, every dispatched event is ANCHORED or
   ANCHOR_FAILED unless a write of its own was lost on the way.
   */
  lemma RestFinishesEvents(env: Env, states: seq<State>, steps: seq<Step>, i: nat, id: Text)
    requires Lawful(env) && IsRun(env, states, steps) && i < |states|
    requires AtRest(env, states[i]) && id in states[i].dispatched - states[i].lost
    ensures id in states[i].rows && Terminal(states[i].rows[id].status)
  {
    RunKeepsInv(env, states, steps, i);
    RunKeepsLookups(env, states, steps, i);
    RestIsEmpty(env, states[i]);
  }
}
