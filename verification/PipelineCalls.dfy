/**
 The whole calls of `Services` are paths of the interleaved system: what
 `ingest`, `process` and `anchorEvent` do without interruption to the table and
 to the work still to be done, consecutive steps of one activity do too.
 */
module PipelineCalls {
  import opened Text
  import opened Instant
  import opened Canonical
  import opened Events
  import opened Pipeline
  import opened Services
  import Backoff
  import Encryption

  // ---------------------------------------------------------------------------
  // Paths
  // ---------------------------------------------------------------------------

  /** A step of the activity `a`. */
  predicate IsStepOf(a: nat, step: Step) {
    !step.SetService? && !step.Reorder? && step.a == a
  }

  ghost predicate IsPath(env: Env, a: nat, states: seq<State>, steps: seq<Step>) {
    && |states| == |steps| + 1
    && forall i :: 0 <= i < |steps| ==>
         IsStepOf(a, steps[i]) && Enabled(env, states[i], steps[i]) && states[i + 1] == Next(env, states[i], steps[i])
  }

  /** Consecutive steps of the activity `a` lead from `s` to `s'`. */
  ghost predicate Leads(env: Env, a: nat, s: State, s': State) {
    exists states, steps :: IsPath(env, a, states, steps) && states[0] == s && states[|steps|] == s'
  }

  lemma Steps(env: Env, a: nat, s: State, step: Step)
    requires Enabled(env, s, step) && IsStepOf(a, step)
    ensures Leads(env, a, s, Next(env, s, step))
  {
    var states, steps := [s, Next(env, s, step)], [step];
    assert IsPath(env, a, states, steps);
    assert states[|steps|] == Next(env, s, step);
  }

  lemma Joins(env: Env, a: nat, s: State, s': State, s'': State)
    requires Leads(env, a, s, s') && Leads(env, a, s', s'')
    ensures Leads(env, a, s, s'')
  {
    var xs, p :| IsPath(env, a, xs, p) && xs[0] == s && xs[|p|] == s';
    var ys, q :| IsPath(env, a, ys, q) && ys[0] == s' && ys[|q|] == s'';
    JoinsPaths(env, a, xs, p, ys, q);
    assert (xs + ys[1..])[|p + q|] == s'';
  }

  lemma JoinsPaths(env: Env, a: nat, xs: seq<State>, p: seq<Step>, ys: seq<State>, q: seq<Step>)
    requires IsPath(env, a, xs, p) && IsPath(env, a, ys, q) && xs[|p|] == ys[0]
    ensures IsPath(env, a, xs + ys[1..], p + q)
  {
    var states, steps := xs + ys[1..], p + q;
    forall i | 0 <= i < |steps|
      ensures IsStepOf(a, steps[i]) && Enabled(env, states[i], steps[i])
      ensures states[i + 1] == Next(env, states[i], steps[i])
    {
      if i < |p| {
        assert states[i] == xs[i] && states[i + 1] == xs[i + 1] && steps[i] == p[i];
      } else {
        assert states[i] == ys[i - |p|] && states[i + 1] == ys[i - |p| + 1] && steps[i] == q[i - |p|];
      }
    }
  }

  /** One step of an activity whose event has a row, with what it changes. */
  lemma Moves(env: Env, s: State, a: nat, step: Step) returns (s': State)
    requires a in s.activities && IsEventStep(step) && step.a == a && EnabledFor(env, s.activities[a], s.records, step)
    ensures Leads(env, a, s, s') && s' == EventStep(env, s, a, step)
  {
    s' := Next(env, s, step);
    Steps(env, a, s, step);
  }

  /** A step that leaves the row alone and brings the activity to a next stage. */
  lemma Advances(env: Env, s: State, a: nat, step: Step, stage: Activity) returns (s': State)
    requires a in s.activities && IsEventStep(step) && step.a == a && EnabledFor(env, s.activities[a], s.records, step)
    requires !step.WriteAnchoring? && !step.RecordAnchored? && !step.RecordFailed?
    requires StageAfter(env, s.activities[a], s.service, s.records, step) == Some(stage)
    ensures Leads(env, a, s, s') && s'.rows == s.rows && s'.activities == s.activities[a := stage]
    ensures s'.records == RecordsAfter(env, s.activities[a], s.records, step)
  {
    s' := Moves(env, s, a, step);
  }

  // ---------------------------------------------------------------------------
  // Ingestion
  // ---------------------------------------------------------------------------

  /** The processing calls that the activity `a` stands for. */
  function HandedBy(s: State, a: nat): seq<Deferred> {
    if a in s.activities && s.activities[a].Processing?
    then [Deferred(s.activities[a].eventId, s.activities[a].orgId, s.activities[a].event)] else []
  }

  /** Nothing but the activity `a` differs among the activities. */
  ghost predicate OthersStay(s: State, s': State, a: nat) {
    s'.activities - {a} == s.activities - {a}
  }

  /** What a caller is told. */
  function ResponsesOf(input: Input, r: IngestResult): set<Response> {
    match r
    case Accepted(id, replay) => {Response(input.orgId, input.idempotencyKey, id, replay)}
    case Failed => {}
  }

  lemma Arrives(env: Env, s: State, a: nat, input: Input) returns (s': State)
    requires a !in s.activities && ValidEvent(input.event)
    ensures Leads(env, a, s, s')
    ensures s' == s.(activities := s.activities[a := if HasTruthyKey(input) then Looking(input) else Creating(input)])
  {
    s' := Next(env, s, Arrive(a, input));
    Steps(env, a, s, Arrive(a, input));
  }

  /** A truthy key that nobody has is looked up in vain. */
  lemma BeginsCreating(env: Env, s: State, a: nat, input: Input) returns (s': State)
    requires a !in s.activities && ValidEvent(input.event) && (HasTruthyKey(input) ==> !KeyTaken(s.rows, input))
    ensures Leads(env, a, s, s') && s' == s.(activities := s.activities[a := Creating(input)])
  {
    s' := Arrives(env, s, a, input);
    if HasTruthyKey(input) {
      var looking := s';
      var step := Lookup(a, None);
      s' := Next(env, looking, step);
      Steps(env, a, looking, step);
      Joins(env, a, s, looking, s');
      assert s'.activities == s.activities[a := Creating(input)];
    }
  }

  lemma Replays(env: Env, s: State, a: nat, input: Input, id: Text) returns (s': State)
    requires a !in s.activities && ValidEvent(input.event) && HasTruthyKey(input)
    requires id in s.rows && HasKey(s.rows[id], input.orgId, input.idempotencyKey.value)
    ensures Leads(env, a, s, s') && s'.rows == s.rows && s'.activities == s.activities
    ensures s'.responses == s.responses + {Response(input.orgId, input.idempotencyKey, id, true)}
  {
    var looking := Arrives(env, s, a, input);
    var step := Lookup(a, Some(id));
    s' := Next(env, looking, step);
    Steps(env, a, looking, step);
    Joins(env, a, s, looking, s');
  }

  lemma Refuses(env: Env, s: State, a: nat, input: Input) returns (s': State)
    requires a !in s.activities && ValidEvent(input.event) && (HasTruthyKey(input) ==> !KeyTaken(s.rows, input))
    ensures Leads(env, a, s, s') && s'.rows == s.rows && s'.activities == s.activities && s'.responses == s.responses
  {
    var creating := BeginsCreating(env, s, a, input);
    s' := Next(env, creating, InsertThrows(a));
    Steps(env, a, creating, InsertThrows(a));
    Joins(env, a, s, creating, s');
  }

  lemma InsertsRow(env: Env, s: State, a: nat, input: Input, id: Text, t: Instant, now: Instant) returns (s': State)
    requires a in s.activities && s.activities[a] == Creating(input) && !KeyTaken(s.rows, input)
    requires IsUuid(id) && id !in s.rows && env.instantOf(input.event.timestamp) == Some(t)
    ensures Leads(env, a, s, s') && s'.rows == s.rows[id := NewRow(input, t, now)]
    ensures s'.activities == s.activities[a := Created(input, id, t)]
    ensures s'.responses == s.responses && s'.service == s.service && s'.records == s.records
  {
    s' := Next(env, s, Insert(a, id, now));
    Steps(env, a, s, Insert(a, id, now));
  }

  lemma Inserts(env: Env, s: State, a: nat, input: Input, id: Text, t: Instant, now: Instant) returns (s': State)
    requires a !in s.activities && ValidEvent(input.event) && !KeyTaken(s.rows, input)
    requires IsUuid(id) && id !in s.rows && env.instantOf(input.event.timestamp) == Some(t)
    ensures Leads(env, a, s, s') && s'.rows == s.rows[id := NewRow(input, t, now)]
    ensures s'.activities == s.activities[a := Created(input, id, t)]
    ensures s'.responses == s.responses && s'.service == s.service && s'.records == s.records
  {
    var creating := BeginsCreating(env, s, a, input);
    s' := InsertsRow(env, creating, a, input, id, t, now);
    Joins(env, a, s, creating, s');
  }

  lemma Responds(env: Env, s: State, a: nat) returns (s': State)
    requires a in s.activities && s.activities[a].Created?
    ensures Leads(env, a, s, s') && s'.rows == s.rows && s'.records == s.records
    ensures var act := s.activities[a];
            && s'.responses == s.responses + {Response(act.input.orgId, act.input.idempotencyKey, act.eventId, false)}
            && s'.activities ==
               if s.service
               then s.activities[a := Processing(act.eventId, act.input.orgId,
                                                 ProcessArgument(env, act.input.event, act.instant))]
               else s.activities - {a}
  {
    s' := Moves(env, s, a, Respond(a));
  }

  /** Whatever `ingest` may answer, steps of one activity answer, with the same table and the same call handed over. */
  lemma IngestIsPath(env: Env, s: State, a: nat, input: Input, id: Text, now: Instant,
                     r: IngestResult, rows: Rows, handed: seq<Deferred>) returns (s': State)
    requires a !in s.activities && ValidEvent(input.event) && IsUuid(id) && id !in s.rows
    requires Ingests(env, s.rows, s.service, input, id, now, r, rows, handed)
    ensures Leads(env, a, s, s') && s'.rows == rows && HandedBy(s', a) == handed && OthersStay(s, s', a)
    ensures s'.responses == s.responses + ResponsesOf(input, r)
  {
    match r
    case Accepted(i, true) => s' := Replays(env, s, a, input, i);
    case Failed => s' := Refuses(env, s, a, input);
    case Accepted(_, false) =>
      var t := env.instantOf(input.event.timestamp).value;
      var created := Inserts(env, s, a, input, id, t, now);
      s' := Responds(env, created, a);
      Joins(env, a, s, created, s');
  }

  // ---------------------------------------------------------------------------
  // Processing
  // ---------------------------------------------------------------------------

  lemma WritesAnchoring(env: Env, s: State, a: nat, iv: Bytes, iv': Bytes) returns (s': State)
    requires a in s.activities && s.activities[a].Processing? && |iv| == |iv'| == Encryption.IV_LENGTH
    requires env.instantOf(s.activities[a].event.timestamp).Some?
    ensures Leads(env, a, s, s') && s'.records == s.records
    ensures var act := s.activities[a];
            && s'.rows == ProcessedRows(env, s.rows, act.eventId, act.orgId, act.event, iv, iv')
            && s'.activities == s.activities[a := Enqueuing(act.eventId, act.orgId, env.digest(act.event))]
  {
    s' := Moves(env, s, a, WriteAnchoring(a, iv, iv'));
  }

  /** `process` as a path: it writes the row and leaves a job, or throws and leaves nothing. */
  lemma ProcessIsPath(env: Env, s: State, a: nat, iv: Bytes, iv': Bytes) returns (s': State)
    requires a in s.activities && s.activities[a].Processing? && |iv| == |iv'| == Encryption.IV_LENGTH
    ensures Leads(env, a, s, s') && s'.records == s.records
    ensures var act := s.activities[a];
            && s'.rows == ProcessedRows(env, s.rows, act.eventId, act.orgId, act.event, iv, iv')
            && s'.activities == if env.instantOf(act.event.timestamp).Some?
                                then s.activities[a := Job(act.eventId, act.orgId, env.digest(act.event))]
                                else s.activities - {a}
  {
    var act := s.activities[a];
    if env.instantOf(act.event.timestamp).Some? {
      var written := WritesAnchoring(env, s, a, iv, iv');
      s' := Advances(env, written, a, Enqueue(a), Job(act.eventId, act.orgId, env.digest(act.event)));
      Joins(env, a, s, written, s');
      assert s'.activities == s.activities[a := Job(act.eventId, act.orgId, env.digest(act.event))];
    } else {
      s' := Moves(env, s, a, WriteAnchoringThrows(a));
    }
  }

  // ---------------------------------------------------------------------------
  // Anchoring
  // ---------------------------------------------------------------------------

  /** One call of the contract. */
  lemma SubmitsOnce(env: Env, s: State, a: nat, outcome: Backoff.Outcome<Text>) returns (s': State)
    requires a in s.activities && s.activities[a].Submitting? && s.activities[a].attempt < env.maxAttempts
    requires var act := s.activities[a];
             outcome.Returned? ==> CanLand(s.records, outcome.value, RecordFor(act.hash, act.eventId))
    ensures Leads(env, a, s, s') && s'.rows == s.rows && (outcome.Threw? ==> s'.records == s.records)
    ensures var act := s.activities[a];
            s'.activities == s.activities[a :=
              match outcome
              case Returned(tx) => Confirming(act.eventId, act.orgId, act.hash, tx, 0)
              case Threw(e) =>
                if Retries(env, act.attempt, e)
                then Submitting(act.eventId, act.orgId, act.hash, act.attempt + 1)
                else Failing(act.eventId, act.orgId, act.hash, MessageOf(e))]
  {
    var act := s.activities[a];
    match outcome
    case Returned(tx) =>
      s' := Advances(env, s, a, SubmitReturns(a, tx), Confirming(act.eventId, act.orgId, act.hash, tx, 0));
    case Threw(e) =>
      var stage := if Retries(env, act.attempt, e)
                then Submitting(act.eventId, act.orgId, act.hash, act.attempt + 1)
                   else Failing(act.eventId, act.orgId, act.hash, MessageOf(e));
      s' := Advances(env, s, a, SubmitThrows(a, e, None), stage);
  }

  /** One wait for the receipt. */
  lemma ConfirmsOnce(env: Env, s: State, a: nat, outcome: Backoff.Outcome<nat>) returns (s': State)
    requires a in s.activities && s.activities[a].Confirming? && s.activities[a].attempt < env.maxAttempts
    ensures Leads(env, a, s, s') && s'.rows == s.rows
    ensures var act := s.activities[a];
            s'.activities == s.activities[a :=
              match outcome
              case Returned(block) => Recording(act.eventId, act.orgId, act.hash, act.tx, block)
              case Threw(e) =>
                if Retries(env, act.attempt, e)
                then Confirming(act.eventId, act.orgId, act.hash, act.tx, act.attempt + 1)
                else Failing(act.eventId, act.orgId, act.hash, MessageOf(e))]
  {
    var act := s.activities[a];
    match outcome
    case Returned(block) =>
      s' := Advances(env, s, a, ConfirmReturns(a, block), Recording(act.eventId, act.orgId, act.hash, act.tx, block));
    case Threw(e) =>
      var stage := if Retries(env, act.attempt, e)
                then Confirming(act.eventId, act.orgId, act.hash, act.tx, act.attempt + 1)
                   else Failing(act.eventId, act.orgId, act.hash, MessageOf(e));
      s' := Advances(env, s, a, ConfirmThrows(a, e), stage);
  }

  /** Whether the loop goes on after its call `k`, of which the `n`-th is the last. */
  lemma GoesOn<T(!new)>(env: Env, fn: nat -> Backoff.Outcome<T>, n: nat, k: nat)
    requires Backoff.StopsAfter(fn, env.maxAttempts, env.isRetryable, n) && k < n
    ensures k < env.maxAttempts
    ensures k < n - 1 <==> fn(k).Threw? && Retries(env, k, fn(k).error)
  {
    assert k < n - 1 ==> Backoff.Retried(fn, env.isRetryable, k);
  }

  /** The calls of the first loop from attempt `k` on, of which the `n`-th is the last. */
  lemma {:induction false} SubmitsUntil(env: Env, s: State, a: nat, submit: nat -> Backoff.Outcome<Text>,
                                        n: nat, k: nat)
    returns (s': State)
    requires a in s.activities && s.activities[a].Submitting? && s.activities[a].attempt == k < n
    requires Backoff.StopsAfter(submit, env.maxAttempts, env.isRetryable, n)
    requires var act := s.activities[a];
             submit(n - 1).Returned? ==> CanLand(s.records, submit(n - 1).value, RecordFor(act.hash, act.eventId))
    ensures Leads(env, a, s, s') && s'.rows == s.rows
    ensures var act := s.activities[a];
            s'.activities == s.activities[a :=
              match submit(n - 1)
              case Returned(tx) => Confirming(act.eventId, act.orgId, act.hash, tx, 0)
              case Threw(e) => Failing(act.eventId, act.orgId, act.hash, MessageOf(e))]
    decreases n - k
  {
    GoesOn(env, submit, n, k);
    s' := SubmitsOnce(env, s, a, submit(k));
    if k < n - 1 {
      var again := s';
      s' := SubmitsUntil(env, again, a, submit, n, k + 1);
      Joins(env, a, s, again, s');
    }
  }

  /** The calls of the second loop. */
  lemma {:induction false} ConfirmsUntil(env: Env, s: State, a: nat, confirm: nat -> Backoff.Outcome<nat>,
                                         n: nat, k: nat)
    returns (s': State)
    requires a in s.activities && s.activities[a].Confirming? && s.activities[a].attempt == k < n
    requires Backoff.StopsAfter(confirm, env.maxAttempts, env.isRetryable, n)
    ensures Leads(env, a, s, s') && s'.rows == s.rows
    ensures var act := s.activities[a];
            s'.activities == s.activities[a :=
              match confirm(n - 1)
              case Returned(block) => Recording(act.eventId, act.orgId, act.hash, act.tx, block)
              case Threw(e) => Failing(act.eventId, act.orgId, act.hash, MessageOf(e))]
    decreases n - k
  {
    GoesOn(env, confirm, n, k);
    s' := ConfirmsOnce(env, s, a, confirm(k));
    if k < n - 1 {
      var again := s';
      s' := ConfirmsUntil(env, again, a, confirm, n, k + 1);
      Joins(env, a, s, again, s');
    }
  }

  /** The first loop, which makes no call at all when none is allowed. */
  lemma SubmitLoop(env: Env, s: State, a: nat, submit: nat -> Backoff.Outcome<Text>, end: Backoff.Outcome<Text>)
    returns (s': State)
    requires a in s.activities && s.activities[a].Submitting? && s.activities[a].attempt == 0
    requires Backoff.EndsWith(submit, env.maxAttempts, env.isRetryable, end)
    requires var act := s.activities[a];
             end.Returned? ==> CanLand(s.records, end.value, RecordFor(act.hash, act.eventId))
    ensures Leads(env, a, s, s') && s'.rows == s.rows
    ensures var act := s.activities[a];
            s'.activities == s.activities[a :=
              match end
              case Returned(tx) => Confirming(act.eventId, act.orgId, act.hash, tx, 0)
              case Threw(e) => Failing(act.eventId, act.orgId, act.hash, MessageOf(e))]
  {
    var act := s.activities[a];
    if env.maxAttempts == 0 {
      s' := Advances(env, s, a, Exhaust(a), Failing(act.eventId, act.orgId, act.hash, MessageOf(Backoff.UNREACHABLE)));
    } else {
      var n: nat :| Backoff.StopsAfter(submit, env.maxAttempts, env.isRetryable, n) && end == submit(n - 1);
      s' := SubmitsUntil(env, s, a, submit, n, 0);
    }
  }

  lemma ConfirmLoop(env: Env, s: State, a: nat, confirm: nat -> Backoff.Outcome<nat>, end: Backoff.Outcome<nat>)
    returns (s': State)
    requires a in s.activities && s.activities[a].Confirming? && s.activities[a].attempt == 0
    requires Backoff.EndsWith(confirm, env.maxAttempts, env.isRetryable, end)
    ensures Leads(env, a, s, s') && s'.rows == s.rows
    ensures var act := s.activities[a];
            s'.activities == s.activities[a :=
              match end
              case Returned(block) => Recording(act.eventId, act.orgId, act.hash, act.tx, block)
              case Threw(e) => Failing(act.eventId, act.orgId, act.hash, MessageOf(e))]
  {
    var act := s.activities[a];
    if env.maxAttempts == 0 {
      s' := Advances(env, s, a, Exhaust(a), Failing(act.eventId, act.orgId, act.hash, MessageOf(Backoff.UNREACHABLE)));
    } else {
      var n: nat :| Backoff.StopsAfter(confirm, env.maxAttempts, env.isRetryable, n) && end == confirm(n - 1);
      s' := ConfirmsUntil(env, s, a, confirm, n, 0);
    }
  }

  /** The catch block. */
  lemma Fails(env: Env, s: State, a: nat, e: Backoff.Thrown) returns (s': State)
    requires a in s.activities && s.activities[a].Failing? && s.activities[a].message == MessageOf(e)
    ensures Leads(env, a, s, s') && s'.activities == s.activities - {a}
    ensures var act := s.activities[a];
            s'.rows == AnchoredRows(env, s.rows, act.eventId, act.orgId, Backoff.Threw(e))
  {
    s' := Moves(env, s, a, RecordFailed(a));
  }

  /** The success update, or the catch block when it throws. */
  lemma Records(env: Env, s: State, a: nat, write: Backoff.Outcome<Instant>) returns (s': State)
    requires a in s.activities && s.activities[a].Recording?
    ensures Leads(env, a, s, s') && s'.activities == s.activities - {a}
    ensures var act := s.activities[a];
            s'.rows == AnchoredRows(env, s.rows, act.eventId, act.orgId,
                                    AfterConfirm(act.tx, Backoff.Returned(act.block), write))
  {
    var act := s.activities[a];
    match write
    case Returned(now) => s' := Moves(env, s, a, RecordAnchored(a, now));
    case Threw(e) =>
      var failing := Advances(env, s, a, RecordAnchoredThrows(a, MessageOf(e)),
                              Failing(act.eventId, act.orgId, act.hash, MessageOf(e)));
      s' := Fails(env, failing, a, e);
      Joins(env, a, s, failing, s');
      assert s'.activities == s.activities - {a};
  }

  /** From the receipt on. */
  lemma ConfirmsAndRecords(env: Env, s: State, a: nat, confirm: nat -> Backoff.Outcome<nat>,
                           write: Backoff.Outcome<Instant>, result: Backoff.Outcome<Receipt>) returns (s': State)
    requires a in s.activities && s.activities[a].Confirming? && s.activities[a].attempt == 0
    requires ConfirmEnds(env, s.activities[a].tx, confirm, write, result)
    ensures Leads(env, a, s, s') && s'.activities == s.activities - {a}
    ensures s'.rows == AnchoredRows(env, s.rows, s.activities[a].eventId, s.activities[a].orgId, result)
  {
    var end :| Backoff.EndsWith(confirm, env.maxAttempts, env.isRetryable, end)
               && result == AfterConfirm(s.activities[a].tx, end, write);
    var confirmed := ConfirmLoop(env, s, a, confirm, end);
    if end.Threw? {
      s' := Fails(env, confirmed, a, end.error);
    } else {
      s' := Records(env, confirmed, a, write);
    }
    Joins(env, a, s, confirmed, s');
    assert s'.activities == s.activities - {a};
  }

  /** From the end of the first loop on. */
  lemma FinishesAfterSubmit(env: Env, s: State, a: nat, act: Activity, end: Backoff.Outcome<Text>,
                            confirm: nat -> Backoff.Outcome<nat>, write: Backoff.Outcome<Instant>,
                            result: Backoff.Outcome<Receipt>) returns (s': State)
    requires act.Job? && a in s.activities
    requires s.activities[a] == match end
                                case Returned(tx) => Confirming(act.eventId, act.orgId, act.hash, tx, 0)
                                case Threw(e) => Failing(act.eventId, act.orgId, act.hash, MessageOf(e))
    requires match end
             case Threw(e) => result == Backoff.Threw(e)
             case Returned(tx) => ConfirmEnds(env, tx, confirm, write, result)
    ensures Leads(env, a, s, s') && s'.activities == s.activities - {a}
    ensures s'.rows == AnchoredRows(env, s.rows, act.eventId, act.orgId, result)
  {
    if end.Threw? {
      s' := Fails(env, s, a, end.error);
    } else {
      s' := ConfirmsAndRecords(env, s, a, confirm, write, result);
    }
  }

  /** From the job to the end of the first loop. */
  lemma TakesAndSubmits(env: Env, s: State, a: nat, submit: nat -> Backoff.Outcome<Text>, end: Backoff.Outcome<Text>)
    returns (s': State)
    requires a in s.activities && s.activities[a].Job?
    requires Backoff.EndsWith(submit, env.maxAttempts, env.isRetryable, end)
    requires var act := s.activities[a];
             end.Returned? ==> CanLand(s.records, end.value, RecordFor(act.hash, act.eventId))
    ensures Leads(env, a, s, s') && s'.rows == s.rows
    ensures var act := s.activities[a];
            s'.activities == s.activities[a :=
              match end
              case Returned(tx) => Confirming(act.eventId, act.orgId, act.hash, tx, 0)
              case Threw(e) => Failing(act.eventId, act.orgId, act.hash, MessageOf(e))]
  {
    var act := s.activities[a];
    var taken := Advances(env, s, a, Deliver(a), Submitting(act.eventId, act.orgId, act.hash, 0));
    s' := SubmitLoop(env, taken, a, submit, end);
    Joins(env, a, s, taken, s');
  }

  /** `anchorEvent` as a path from the job: the row it leaves is the row the call leaves. */
  lemma AnchorEventIsPath(env: Env, s: State, a: nat, submit: nat -> Backoff.Outcome<Text>,
                          confirm: nat -> Backoff.Outcome<nat>, write: Backoff.Outcome<Instant>,
                          result: Backoff.Outcome<Receipt>) returns (s': State)
    requires a in s.activities && s.activities[a].Job? && TryEnds(env, submit, confirm, write, result)
    requires var act := s.activities[a];
             forall tx :: Backoff.EndsWith(submit, env.maxAttempts, env.isRetryable, Backoff.Returned(tx)) ==>
               CanLand(s.records, tx, RecordFor(act.hash, act.eventId))
    ensures Leads(env, a, s, s') && s'.activities == s.activities - {a}
    ensures s'.rows == AnchoredRows(env, s.rows, s.activities[a].eventId, s.activities[a].orgId, result)
  {
    var end: Backoff.Outcome<Text> :|
      && Backoff.EndsWith(submit, env.maxAttempts, env.isRetryable, end)
      && match end
         case Threw(e) => result == Backoff.Threw(e)
         case Returned(tx) => ConfirmEnds(env, tx, confirm, write, result);
    var submitted := TakesAndSubmits(env, s, a, submit, end);
    s' := FinishesAfterSubmit(env, submitted, a, s.activities[a], end, confirm, write, result);
    Joins(env, a, s, submitted, s');
    assert s'.activities == s.activities - {a};
  }

  // ---------------------------------------------------------------------------
  // From ingestion to the chain
  // ---------------------------------------------------------------------------

  /** A path prolongs a run. */
  lemma Prolongs(env: Env, a: nat, states: seq<State>, steps: seq<Step>, s': State)
    returns (states': seq<State>, steps': seq<Step>)
    requires IsRun(env, states, steps) && Leads(env, a, states[|steps|], s')
    ensures IsRun(env, states', steps') && steps <= steps' && states'[|steps'|] == s'
  {
    var ys, q :| IsPath(env, a, ys, q) && ys[0] == states[|steps|] && ys[|q|] == s';
    states', steps' := states + ys[1..], steps + q;
    forall i | 0 <= i < |steps'|
      ensures Enabled(env, states'[i], steps'[i]) && states'[i + 1] == Next(env, states'[i], steps'[i])
    {
      if i < |steps| {
        assert states'[i] == states[i] && states'[i + 1] == states[i + 1] && steps'[i] == steps[i];
      } else {
        var j := i - |steps|;
        assert states'[i] == ys[j] && states'[i + 1] == ys[j + 1] && steps'[i] == q[j];
      }
    }
  }

  /** `ingest` of a new event. */
  lemma HandsOver(env: Env, s: State, a: nat, input: Input, id: Text, t: Instant, now: Instant) returns (s': State)
    requires s.service && a !in s.activities && ValidEvent(input.event) && !KeyTaken(s.rows, input)
    requires IsUuid(id) && id !in s.rows && env.instantOf(input.event.timestamp) == Some(t)
    ensures Leads(env, a, s, s') && s'.records == s.records && s'.rows == s.rows[id := NewRow(input, t, now)]
    ensures s'.activities == s.activities[a := Processing(id, input.orgId, ProcessArgument(env, input.event, t))]
  {
    var created := Inserts(env, s, a, input, id, t, now);
    s' := Responds(env, created, a);
    Joins(env, a, s, created, s');
  }

  /** `ingest` of a new event and the processing call it puts off. */
  lemma IngestsAndProcesses(env: Env, s: State, a: nat, input: Input, id: Text, t: Instant, now: Instant,
                            iv: Bytes, iv': Bytes) returns (s': State)
    requires s.service && a !in s.activities && ValidEvent(input.event) && !KeyTaken(s.rows, input)
    requires env.digest(ProcessArgument(env, input.event, t)) == env.digest(input.event)
    requires IsUuid(id) && id !in s.rows && env.instantOf(input.event.timestamp) == Some(t)
    requires env.instantOf(env.isoString(t)).Some? && |iv| == |iv'| == Encryption.IV_LENGTH
    ensures Leads(env, a, s, s') && s'.records == s.records
    ensures s'.activities == s.activities[a := Job(id, input.orgId, env.digest(input.event))]
    ensures id in s'.rows && s'.rows[id].orgId == input.orgId
    ensures s'.rows[id].canonicalHash == Some(env.digest(input.event)) && s'.rows[id].status == ANCHORING
  {
    var handed := HandsOver(env, s, a, input, id, t, now);
    s' := ProcessIsPath(env, handed, a, iv, iv');
    Joins(env, a, s, handed, s');
    assert s'.activities == s.activities[a := Job(id, input.orgId, env.digest(input.event))];
  }

  lemma PrintedIsValid(env: Env, cipher: Encryption.Cipher, sha256: Text -> Text, t: Instant)
    requires Genuine(env, cipher, sha256)
    ensures env.instantOf(env.isoString(t)).Some?
  {
    assert env.isoString(t) == ToIsoString(t);
    ParsesTimestamp(t, Utc);
  }

  /**
   Whatever run the system has behind it, an event that arrives can be carried
   to ANCHORED with its hash: it is enough that the writes succeed and that the
   loops end with a transaction and its receipt.
   */
  lemma EventCanBeAnchored(env: Env, cipher: Encryption.Cipher, sha256: Text -> Text,
                           states: seq<State>, steps: seq<Step>, a: nat,
                           input: Input, id: Text, t: Instant, now: Instant, iv: Bytes, iv': Bytes,
                           submit: nat -> Backoff.Outcome<Text>, confirm: nat -> Backoff.Outcome<nat>, receipt: Receipt)
    returns (states': seq<State>, steps': seq<Step>)
    requires Genuine(env, cipher, sha256) && IsRun(env, states, steps)
    requires var s := states[|steps|];
             && s.service && a !in s.activities && ValidEvent(input.event) && !KeyTaken(s.rows, input)
             && IsUuid(id) && id !in s.rows
             && forall tx :: Backoff.EndsWith(submit, env.maxAttempts, env.isRetryable, Backoff.Returned(tx)) ==>
                  CanLand(s.records, tx, RecordFor(env.digest(input.event), id))
    requires env.instantOf(input.event.timestamp) == Some(t) && |iv| == |iv'| == Encryption.IV_LENGTH
    requires TryEnds(env, submit, confirm, Backoff.Returned(receipt.now), Backoff.Returned(receipt))
    ensures IsRun(env, states', steps') && steps <= steps'
    ensures var rows := states'[|steps'|].rows;
            && id in rows && rows[id].status == ANCHORED && rows[id].txHash == Some(receipt.tx)
            && rows[id].canonicalHash == Some(env.digest(input.event))
            && rows[id].blockNumber == Some(receipt.block) && rows[id].anchoredAt == Some(receipt.now)
            && rows[id].chainId == Some(env.chainId)
  {
    var s := states[|steps|];
    GenuineIsLawful(env, cipher, sha256);
    PrintedIsValid(env, cipher, sha256, t);
    var queued := IngestsAndProcesses(env, s, a, input, id, t, now, iv, iv');
    var write := Backoff.Returned(receipt.now);
    var done := AnchorEventIsPath(env, queued, a, submit, confirm, write, Backoff.Returned(receipt));
    Joins(env, a, s, queued, done);
    states', steps' := Prolongs(env, a, states, steps, done);
  }
}
