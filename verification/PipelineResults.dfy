/** What holds in every state the pipeline reaches, read off its invariant. */
module PipelineResults {
  import opened Text
  import opened Events
  import opened Pipeline
  import opened PipelineSafety
  import Encryption

  // ---------------------------------------------------------------------------
  // Statuses
  // ---------------------------------------------------------------------------

  /** The moves a status makes in one step. */
  predicate StatusStep(a: Status, b: Status) {
    a == b || (a == PROCESSING && b == ANCHORING) || (a == ANCHORING && Terminal(b))
  }

  /** The moves a status makes over any number of steps. */
  predicate StatusLater(a: Status, b: Status) {
    a == b || a == PROCESSING || (a == ANCHORING && Terminal(b))
  }

  /** What a step may do to a row that exists. */
  predicate RowStep(row: Row, row': Row) {
    && StatusStep(row.status, row'.status)
    && (Terminal(row.status) ==> row'.(metadata := row.metadata) == row)
    && (row.canonicalHash.Some? && row.status != PROCESSING ==> row'.canonicalHash == row.canonicalHash)
    && row'.orgId == row.orgId && row'.idempotencyKey == row.idempotencyKey
  }

  lemma RowAfterStep(env: Env, act: Activity, row: Row, h: History, records: map<Text, Record>, step: Step)
    requires ActivityOk(env, act, row, h, records) && EnabledFor(env, act, records, step)
    ensures RowStep(row, RowAfter(env, act, records, row, step))
  {
  }

  lemma EventStepRows(env: Env, s: State, a: nat, i: Text, step: Step, id: Text)
    requires a in s.activities && EnabledFor(env, s.activities[a], s.records, step)
    requires Subject(s.activities[a]) == Some(i) && i in s.rows && id in s.rows
    ensures id in EventStep(env, s, a, step).rows
    ensures EventStep(env, s, a, step).rows[id] in
            {s.rows[id], RowAfter(env, s.activities[a], s.records, s.rows[i], step)}
    ensures id != i ==> EventStep(env, s, a, step).rows[id] == s.rows[id]
  {
  }

  lemma OwnerStepMovesRows(env: Env, s: State, a: nat, i: Text, step: Step, id: Text)
    requires a in s.activities && EnabledFor(env, s.activities[a], s.records, step)
    requires Subject(s.activities[a]) == Some(i) && i in s.rows && i in s.history && id in s.rows
    requires ActivityOk(env, s.activities[a], s.rows[i], s.history[i], s.records)
    ensures id in EventStep(env, s, a, step).rows
    ensures RowStep(s.rows[id], EventStep(env, s, a, step).rows[id])
  {
    EventStepRows(env, s, a, i, step, id);
    RowAfterStep(env, s.activities[a], s.rows[i], s.history[i], s.records, step);
  }

  lemma EventStepMovesRows(env: Env, s: State, a: nat, step: Step, id: Text)
    requires Inv(env, s) && a in s.activities && EnabledFor(env, s.activities[a], s.records, step) && id in s.rows
    ensures id in EventStep(env, s, a, step).rows
    ensures RowStep(s.rows[id], EventStep(env, s, a, step).rows[id])
  {
    var i := Subject(s.activities[a]).value;
    OwnerFacts(env, s, a, i);
    OwnerStepMovesRows(env, s, a, i, step, id);
  }

  lemma EarlyStepMovesRows(env: Env, s: State, step: Step, id: Text)
    requires Enabled(env, s, step) && !IsEventStep(step) && id in s.rows
    ensures id in Next(env, s, step).rows
    ensures RowStep(s.rows[id], Next(env, s, step).rows[id])
  {
  }

  /**
   A row's status only moves PROCESSING, ANCHORING, then ANCHORED or
   ANCHOR_FAILED; a finished row is never overwritten, though no update checks
   the status it replaces.
   */
  lemma StepMovesRows(env: Env, s: State, step: Step, id: Text)
    requires Inv(env, s) && Enabled(env, s, step) && id in s.rows
    ensures id in Next(env, s, step).rows
    ensures RowStep(s.rows[id], Next(env, s, step).rows[id])
  {
    if IsEventStep(step) {
      NextOfEventStep(env, s, step);
      EventStepMovesRows(env, s, step.a, step, id);
    } else {
      EarlyStepMovesRows(env, s, step, id);
    }
  }

  lemma RunStepMovesStatus(env: Env, states: seq<State>, steps: seq<Step>, k: nat, id: Text)
    requires Lawful(env) && IsRun(env, states, steps) && k < |steps| && id in states[k].rows
    ensures id in states[k + 1].rows && StatusStep(states[k].rows[id].status, states[k + 1].rows[id].status)
  {
    assert states[k + 1] == Next(env, states[k], steps[k]);
    RunKeepsInv(env, states, steps, k);
    StepMovesRows(env, states[k], steps[k], id);
  }

  lemma {:induction false} RunMovesStatus(env: Env, states: seq<State>, steps: seq<Step>, i: nat, j: nat, id: Text)
    requires Lawful(env) && IsRun(env, states, steps) && i <= j < |states| && id in states[i].rows
    ensures id in states[j].rows && StatusLater(states[i].rows[id].status, states[j].rows[id].status)
    decreases j
  {
    if i < j {
      RunMovesStatus(env, states, steps, i, j - 1, id);
      RunStepMovesStatus(env, states, steps, j - 1, id);
    }
  }

  // ---------------------------------------------------------------------------
  // The chain
  // ---------------------------------------------------------------------------

  lemma StateRegisters(env: Env, s: State, id: Text, other: Text)
    requires Inv(env, s) && id in s.rows && s.rows[id].status == ANCHORED
    ensures var row := s.rows[id];
            row.txHash.Some? && row.canonicalHash.Some? && row.txHash.value in s.records
            && s.records[row.txHash.value] ==
               Record(EncodeCanonicalHash(row.canonicalHash.value), EncodeEventId(id))
    ensures other in s.rows && other != id && s.rows[other].status == ANCHORED ==>
              s.rows[other].txHash != s.rows[id].txHash && s.rows[other].canonicalHash != s.rows[id].canonicalHash
  {
    assert RowOk(env, id, s.rows[id], s.history[id], s.records);
    if other in s.rows && other != id && s.rows[other].status == ANCHORED {
      assert RowOk(env, other, s.rows[other], s.history[other], s.records);
      if EncodeEventId(id) == EncodeEventId(other) {
        EncodeEventIdInjective(id, other);
      }
    }
  }

  /**
   In every state of every run the transaction stored on an ANCHORED row is a
   contract call with the encodings of that row's own hash and identifier, and
   no other ANCHORED row stores it or has its canonical hash.
   */
  lemma AnchoredRowRegistered(env: Env, cipher: Encryption.Cipher, sha256: Text -> Text,
                              states: seq<State>, steps: seq<Step>, i: nat, id: Text, other: Text)
    requires Genuine(env, cipher, sha256) && IsRun(env, states, steps) && i < |states|
    ensures var s := states[i];
            id in s.rows && s.rows[id].status == ANCHORED ==>
              var row := s.rows[id];
              && row.txHash.Some? && row.canonicalHash.Some? && row.txHash.value in s.records
              && s.records[row.txHash.value] ==
                 Record(EncodeCanonicalHash(row.canonicalHash.value), EncodeEventId(id))
              && (other in s.rows && other != id && s.rows[other].status == ANCHORED ==>
                    s.rows[other].txHash != row.txHash && s.rows[other].canonicalHash != row.canonicalHash)
  {
    GenuineRunKeepsInv(env, cipher, sha256, states, steps, i);
    if id in states[i].rows && states[i].rows[id].status == ANCHORED {
      StateRegisters(env, states[i], id, other);
    }
  }

  ghost predicate RegistersEvent(s: State, id: Text, tx: Text) {
    tx in s.records && s.records[tx].eventId == EncodeEventId(id)
  }

  /**
   In every state of every run an event has caused at most one job,
   `maxAttempts` submissions and one registration.
   */
  lemma EventEffectsBounded(env: Env, cipher: Encryption.Cipher, sha256: Text -> Text,
                            states: seq<State>, steps: seq<Step>, i: nat, id: Text, tx: Text, tx': Text)
    requires Genuine(env, cipher, sha256) && IsRun(env, states, steps) && i < |states|
    ensures var s := states[i];
            id in s.rows ==>
              && id in s.history && s.history[id].jobs <= 1 && s.history[id].submissions <= env.maxAttempts
              && (RegistersEvent(s, id, tx) && RegistersEvent(s, id, tx') ==> tx == tx')
  {
    GenuineRunKeepsInv(env, cipher, sha256, states, steps, i);
    var s := states[i];
    if id in s.rows {
      assert RowOk(env, id, s.rows[id], s.history[id], s.records);
    }
  }

  // ---------------------------------------------------------------------------
  // Idempotency
  // ---------------------------------------------------------------------------

  /** The jobs created for the rows of a key. */
  ghost predicate JobsForKey(s: State, org: Text, key: Text, id: Text) {
    id in s.rows && id in s.history && HasKey(s.rows[id], org, key) && s.history[id].jobs > 0
  }

  /** A response for a key. */
  ghost predicate Answers(s: State, org: Text, key: Text, r: Response) {
    r in s.responses && r.orgId == org && r.idempotencyKey == Some(key)
  }

  lemma StateNamesOneEvent(env: Env, s: State, org: Text, key: Text, r: Response, r': Response, i: Text, j: Text)
    requires Inv(env, s)
    ensures i in s.rows && j in s.rows && HasKey(s.rows[i], org, key) && HasKey(s.rows[j], org, key) ==> i == j
    ensures JobsForKey(s, org, key, i) && JobsForKey(s, org, key, j) ==> i == j && s.history[i].jobs == 1
    ensures Answers(s, org, key, r) && Answers(s, org, key, r') ==> r.eventId == r'.eventId
  {
    if JobsForKey(s, org, key, i) {
      assert RowOk(env, i, s.rows[i], s.history[i], s.records);
    }
    if r in s.responses && r' in s.responses {
      assert ResponseOk(s.rows, r) && ResponseOk(s.rows, r');
    }
  }

  /**
   In every state of every run a key stands for at most one row, at most one
   anchor job was created for it, and every response for it names the same event.
   */
  lemma KeyNamesOneEvent(env: Env, cipher: Encryption.Cipher, sha256: Text -> Text,
                         states: seq<State>, steps: seq<Step>, n: nat,
                         org: Text, key: Text, r: Response, r': Response, i: Text, j: Text)
    requires Genuine(env, cipher, sha256) && IsRun(env, states, steps) && n < |states|
    ensures var s := states[n];
            && (i in s.rows && j in s.rows && HasKey(s.rows[i], org, key) && HasKey(s.rows[j], org, key) ==> i == j)
            && (JobsForKey(s, org, key, i) && JobsForKey(s, org, key, j) ==> i == j && s.history[i].jobs == 1)
            && (Answers(s, org, key, r) && Answers(s, org, key, r') ==> r.eventId == r'.eventId)
  {
    GenuineRunKeepsInv(env, cipher, sha256, states, steps, n);
    StateNamesOneEvent(env, states[n], org, key, r, r', i, j);
  }
}
