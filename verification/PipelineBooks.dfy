/** The books kept beside the system agree with its run: jobs, submissions, dispatched events and lost writes. */
module PipelineBooks {
  import opened Text
  import opened Events
  import opened Pipeline
  import opened PipelineSafety

  /** The step is one of an activity working on the event. */
  predicate IsOn(s: State, step: Step, id: Text) {
    IsEventStep(step) && step.a in s.activities && Subject(s.activities[step.a]) == Some(id)
  }

  /** What a step from `s` to `s'` enters for one event. */
  predicate Enters(s: State, step: Step, s': State, id: Text) {
    && (IsOn(s, step, id) ==> id in s.history)
    && (id in s.history ==>
          && id in s'.history
          && s'.history[id].jobs == s.history[id].jobs + (if IsOn(s, step, id) && step.Enqueue? then 1 else 0)
          && s'.history[id].submissions == s.history[id].submissions
             + (if IsOn(s, step, id) && (step.SubmitReturns? || step.SubmitThrows?) then 1 else 0))
    && (id !in s.history && id in s'.history ==> s'.history[id].jobs == s'.history[id].submissions == 0)
    && (id in s'.dispatched <==> id in s.dispatched || (IsOn(s, step, id) && step.Respond? && s.service))
    && (id in s'.lost <==> id in s.lost || (IsOn(s, step, id) && LosesWrite(step)))
  }

  lemma OwnStepBooks(env: Env, s: State, step: Step, id: Text)
    requires IsEventStep(step) && step.a in s.activities && EnabledFor(env, s.activities[step.a], s.records, step)
    requires IsOn(s, step, id) ==> id in s.history
    ensures Enters(s, step, EventStep(env, s, step.a, step), id)
  {
  }

  lemma EarlyStepBooks(env: Env, s: State, step: Step, id: Text)
    requires Enabled(env, s, step) && !IsEventStep(step) && s.rows.Keys == s.history.Keys
    ensures Enters(s, step, Next(env, s, step), id)
  {
  }

  lemma StepBooks(env: Env, s: State, step: Step, id: Text)
    requires Inv(env, s) && Enabled(env, s, step)
    ensures Enters(s, step, Next(env, s, step), id)
  {
    if IsEventStep(step) {
      NextOfEventStep(env, s, step);
      if IsOn(s, step, id) {
        OwnerFacts(env, s, step.a, id);
      }
      OwnStepBooks(env, s, step, id);
    } else {
      EarlyStepBooks(env, s, step, id);
    }
  }

  // ---------------------------------------------------------------------------
  // Over a run
  // ---------------------------------------------------------------------------

  /** How many of the first `i` steps put the event's job into the queue. */
  ghost function JobsAdded(states: seq<State>, steps: seq<Step>, i: nat, id: Text): nat
    requires i <= |steps| < |states|
  {
    if i == 0 then 0
    else JobsAdded(states, steps, i - 1, id)
         + (if IsOn(states[i - 1], steps[i - 1], id) && steps[i - 1].Enqueue? then 1 else 0)
  }

  /** How many of them call the contract for the event, whether the call returns or throws. */
  ghost function CallsMade(states: seq<State>, steps: seq<Step>, i: nat, id: Text): nat
    requires i <= |steps| < |states|
  {
    if i == 0 then 0
    else CallsMade(states, steps, i - 1, id)
         + (if IsOn(states[i - 1], steps[i - 1], id) && (steps[i - 1].SubmitReturns? || steps[i - 1].SubmitThrows?)
            then 1 else 0)
  }

  /** One of the first `i` steps hands the event over. */
  ghost predicate WasHandedOver(states: seq<State>, steps: seq<Step>, i: nat, id: Text)
    requires i <= |steps| < |states|
  {
    exists k :: 0 <= k < i && IsOn(states[k], steps[k], id) && steps[k].Respond? && states[k].service
  }

  /** One of them loses a write of the event. */
  ghost predicate LostAWrite(states: seq<State>, steps: seq<Step>, i: nat, id: Text)
    requires i <= |steps| < |states|
  {
    exists k :: 0 <= k < i && IsOn(states[k], steps[k], id) && LosesWrite(steps[k])
  }

  lemma RunStepBooks(env: Env, states: seq<State>, steps: seq<Step>, k: nat, id: Text)
    requires Lawful(env) && IsRun(env, states, steps) && k < |steps|
    ensures Enters(states[k], steps[k], states[k + 1], id)
  {
    RunKeepsInv(env, states, steps, k);
    assert states[k + 1] == Next(env, states[k], steps[k]);
    StepBooks(env, states[k], steps[k], id);
  }

  /** The counts of an event are the steps that were made for it; without a row there were none. */
  lemma {:induction false} BooksCount(env: Env, states: seq<State>, steps: seq<Step>, i: nat, id: Text)
    requires Lawful(env) && IsRun(env, states, steps) && i < |states|
    ensures id in states[i].history ==>
              && states[i].history[id].jobs == JobsAdded(states, steps, i, id)
              && states[i].history[id].submissions == CallsMade(states, steps, i, id)
    ensures id !in states[i].history ==>
              JobsAdded(states, steps, i, id) == CallsMade(states, steps, i, id) == 0
  {
    if i > 0 {
      BooksCount(env, states, steps, i - 1, id);
      RunStepBooks(env, states, steps, i - 1, id);
    }
  }

  /** The dispatched events are those handed over, the lost ones those whose write was lost. */
  ghost predicate Named(states: seq<State>, steps: seq<Step>, i: nat, id: Text)
    requires i <= |steps| < |states|
  {
    && (id in states[i].dispatched <==> WasHandedOver(states, steps, i, id))
    && (id in states[i].lost <==> LostAWrite(states, steps, i, id))
  }

  lemma NamesGrow(states: seq<State>, steps: seq<Step>, i: nat, id: Text)
    requires 0 < i <= |steps| < |states|
    requires Named(states, steps, i - 1, id) && Enters(states[i - 1], steps[i - 1], states[i], id)
    ensures Named(states, steps, i, id)
  {
    var s, step := states[i - 1], steps[i - 1];
    assert WasHandedOver(states, steps, i, id) <==>
           WasHandedOver(states, steps, i - 1, id) || (IsOn(s, step, id) && step.Respond? && s.service);
    assert LostAWrite(states, steps, i, id) <==>
           LostAWrite(states, steps, i - 1, id) || (IsOn(s, step, id) && LosesWrite(step));
  }

  lemma {:induction false} BooksName(env: Env, states: seq<State>, steps: seq<Step>, i: nat, id: Text)
    requires Lawful(env) && IsRun(env, states, steps) && i < |states|
    ensures Named(states, steps, i, id)
  {
    if i > 0 {
      BooksName(env, states, steps, i - 1, id);
      RunStepBooks(env, states, steps, i - 1, id);
      NamesGrow(states, steps, i, id);
    }
  }
}
