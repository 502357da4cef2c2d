/** What every step of the pipeline keeps. */
module PipelineSafety {
  import opened Text
  import opened Json
  import opened Instant
  import opened Canonical
  import opened Events
  import opened Pipeline
  import Encryption
  import Utf8

  /** No two activities work on one event. */
  ghost predicate Owners(s: State) {
    forall a, b | a in s.activities && b in s.activities && Subject(s.activities[a]).Some? ::
      Subject(s.activities[a]) == Subject(s.activities[b]) ==> a == b
  }

  predicate InputOk(act: Activity) {
    (act.Looking? || act.Creating? || act.Created?) ==> ValidEvent(act.input.event)
  }

  /** The stage of an activity agrees with the row and the history of its event. */
  predicate ActivityOk(env: Env, act: Activity, row: Row, h: History, records: map<Text, Record>) {
    && OrgOf(act) == row.orgId
    && match act
       case Looking(_) => true
       case Creating(_) => true
       case Created(input, _, t) =>
         && row.status == PROCESSING && h.jobs == h.submissions == 0
         && row.idempotencyKey == input.idempotencyKey && h.original == input.event && t == row.timestamp
       case Processing(_, _, event) =>
         && row.status == PROCESSING && h.jobs == h.submissions == 0
         && event == ProcessArgument(env, h.original, row.timestamp)
       case Enqueuing(_, _, hash) => IsAnchoring(row, hash) && h.jobs == h.submissions == 0
       case Job(_, _, hash) => IsAnchoring(row, hash) && h.submissions == 0
       case Submitting(_, _, hash, n) => IsAnchoring(row, hash) && h.submissions == n
       case Confirming(id, _, hash, tx, _) => IsAnchoring(row, hash) && Registered(records, tx, hash, id)
       case Recording(id, _, hash, tx, _) => IsAnchoring(row, hash) && Registered(records, tx, hash, id)
       case Failing(_, _, hash, _) => IsAnchoring(row, hash)
  }

  predicate IsAnchoring(row: Row, hash: Text) {
    row.status == ANCHORING && row.canonicalHash == Some(hash)
  }

  /** `tx` is a call of the contract with the encodings of this hash and this event. */
  predicate Registered(records: map<Text, Record>, tx: Text, hash: Text, id: Text) {
    tx != [] && tx in records && records[tx] == RecordFor(hash, id)
  }

  /** The columns that no update touches still describe the ingested event. */
  predicate DescribesOriginal(env: Env, row: Row, e: Event) {
    && ValidEvent(e)
    && env.instantOf(e.timestamp) == Some(row.timestamp)
    && row.modelId == Utf8.ToWellFormed(e.modelId)
    && row.workflowId == StoredOption(e.workflowId.Known())
    && row.metadata.Some? == e.metadata.Present?
    && (row.metadata.Some? ==>
          && row.metadata.value.Object? && Valid(row.metadata.value)
          && SortKeys(row.metadata.value) == SortKeys(e.metadata.value))
  }

  predicate RowOk(env: Env, id: Text, row: Row, h: History, records: map<Text, Record>) {
    && IsUuid(id)
    && DescribesOriginal(env, row, h.original)
    && h.jobs <= 1
    && h.submissions <= env.maxAttempts
    && (row.status == PROCESSING ==>
          && row.prompt == Utf8.ToWellFormed(h.original.prompt)
          && row.output == Utf8.ToWellFormed(h.original.output))
    && (row.status != PROCESSING ==>
          && row.canonicalHash == Some(env.digest(h.original))
          && env.decrypt(row.prompt) == Some(Utf8.ToWellFormed(h.original.prompt))
          && env.decrypt(row.output) == Some(Utf8.ToWellFormed(h.original.output)))
    && (row.status == ANCHORED ==>
          && row.canonicalHash.Some? && row.txHash.Some? && row.blockNumber.Some? && row.anchoredAt.Some?
          && row.chainId == Some(env.chainId)
          && Registered(records, row.txHash.value, row.canonicalHash.value, id))
  }

  ghost predicate ActivitiesOk(env: Env, s: State) {
    forall a | a in s.activities ::
      && InputOk(s.activities[a])
      && (Subject(s.activities[a]).Some? ==>
            var id := Subject(s.activities[a]).value;
            id in s.rows && id in s.history && ActivityOk(env, s.activities[a], s.rows[id], s.history[id], s.records))
  }

  ghost predicate RowsOk(env: Env, s: State) {
    && s.rows.Keys == s.history.Keys
    && forall id | id in s.rows :: RowOk(env, id, s.rows[id], s.history[id], s.records)
  }

  predicate ResponseOk(rows: Rows, r: Response) {
    && r.eventId in rows
    && rows[r.eventId].orgId == r.orgId
    && rows[r.eventId].idempotencyKey == r.idempotencyKey
  }

  ghost predicate ResponsesOk(s: State) {
    forall r | r in s.responses :: ResponseOk(s.rows, r)
  }

  /** No hash and no event id is registered twice. */
  ghost predicate RegistryOk(records: map<Text, Record>) {
    forall x, y | x in records && y in records ::
      (records[x].hash == records[y].hash || records[x].eventId == records[y].eventId) ==> x == y
  }

  predicate Terminal(status: Status) {
    status == ANCHORED || status == ANCHOR_FAILED
  }

  ghost predicate Owned(s: State, id: Text) {
    exists a :: a in s.activities && Subject(s.activities[a]) == Some(id)
  }

  /** A dispatched event none of whose writes was lost is finished or still worked on. */
  ghost predicate Tracked(s: State) {
    && s.dispatched <= s.rows.Keys
    && (forall a | a in s.activities && s.activities[a].Created? :: s.activities[a].eventId !in s.dispatched)
    && forall id | id in s.dispatched :: id !in s.lost && !Terminal(s.rows[id].status) ==> Owned(s, id)
  }

  ghost predicate Inv(env: Env, s: State) {
    && Owners(s)
    && ActivitiesOk(env, s)
    && RowsOk(env, s)
    && UniqueKeys(s.rows)
    && ResponsesOk(s)
    && RegistryOk(s.records)
    && Tracked(s)
  }

  lemma InitialInv(env: Env)
    ensures Inv(env, INITIAL)
  {
  }

  // ---------------------------------------------------------------------------
  // One activity moves
  // ---------------------------------------------------------------------------

  ghost predicate Extends(before: map<Text, Record>, after: map<Text, Record>) {
    forall tx :: tx in before ==> tx in after && after[tx] == before[tx]
  }

  /** Only the activity `a` and the event `id` it works on differ. */
  ghost predicate OnlyChanges(s: State, s': State, a: nat, id: Text) {
    && (forall b | b != a :: (b in s'.activities <==> b in s.activities)
                             && (b in s.activities ==> s'.activities[b] == s.activities[b]))
    && s'.rows.Keys == s.rows.Keys + {id}
    && s'.history.Keys == s.history.Keys + {id}
    && (forall i | i in s.rows && i != id :: s'.rows[i] == s.rows[i])
    && (forall i | i in s.history && i != id :: s'.history[i] == s.history[i])
    && Extends(s.records, s'.records)
    && s.dispatched <= s'.dispatched <= s.dispatched + {id}
    && s.responses <= s'.responses
    && s.lost <= s'.lost
  }

  /** The new stage, row and history fit together. */
  ghost predicate Fits(env: Env, s': State, a: nat, id: Text) {
    && id in s'.rows && id in s'.history
    && RowOk(env, id, s'.rows[id], s'.history[id], s'.records)
    && (a in s'.activities ==>
          && Subject(s'.activities[a]) == Some(id)
          && (s'.activities[a].Created? ==> id !in s'.dispatched)
          && InputOk(s'.activities[a])
          && ActivityOk(env, s'.activities[a], s'.rows[id], s'.history[id], s'.records))
    && (a !in s'.activities ==> id !in s'.dispatched || Terminal(s'.rows[id].status) || id in s'.lost)
  }

  lemma ActivitySurvives(env: Env, act: Activity, row: Row, h: History, before: map<Text, Record>,
                         after: map<Text, Record>)
    requires ActivityOk(env, act, row, h, before) && Extends(before, after)
    ensures ActivityOk(env, act, row, h, after)
  {
  }

  lemma MoveKeepsOwners(s: State, s': State, a: nat, id: Text)
    requires Owners(s) && OnlyChanges(s, s', a, id)
    requires forall b | b in s.activities && b != a :: Subject(s.activities[b]) != Some(id)
    requires a in s'.activities ==> Subject(s'.activities[a]) == Some(id)
    ensures Owners(s')
  {
  }

  lemma MoveKeepsActivities(env: Env, s: State, s': State, a: nat, id: Text)
    requires ActivitiesOk(env, s) && OnlyChanges(s, s', a, id) && Fits(env, s', a, id)
    requires forall b | b in s.activities && b != a :: Subject(s.activities[b]) != Some(id)
    ensures ActivitiesOk(env, s')
  {
    forall b | b in s'.activities && b != a
      ensures Subject(s'.activities[b]).Some? ==>
                var i := Subject(s'.activities[b]).value;
                i in s'.rows && i in s'.history
                && ActivityOk(env, s'.activities[b], s'.rows[i], s'.history[i], s'.records)
    {
      if Subject(s'.activities[b]).Some? {
        var i := Subject(s'.activities[b]).value;
        assert Subject(s.activities[b]) == Some(i) && i != id;
        ActivitySurvives(env, s.activities[b], s.rows[i], s.history[i], s.records, s'.records);
      }
    }
  }

  lemma MoveKeepsRows(env: Env, s: State, s': State, a: nat, id: Text)
    requires RowsOk(env, s) && OnlyChanges(s, s', a, id) && Fits(env, s', a, id)
    ensures RowsOk(env, s')
  {
    forall i | i in s'.rows && i != id ensures RowOk(env, i, s'.rows[i], s'.history[i], s'.records) {
      assert RowOk(env, i, s.rows[i], s.history[i], s.records);
    }
  }

  lemma MoveKeepsTracked(env: Env, s: State, s': State, a: nat, id: Text)
    requires Tracked(s) && OnlyChanges(s, s', a, id) && Fits(env, s', a, id)
    requires forall b | b in s.activities && b != a :: Subject(s.activities[b]) != Some(id)
    requires a in s.activities ==> Subject(s.activities[a]) in {None, Some(id)}
    ensures Tracked(s')
  {
    forall i | i in s'.dispatched && i !in s'.lost && !Terminal(s'.rows[i].status) ensures Owned(s', i) {
      if i == id {
        assert a in s'.activities && Subject(s'.activities[a]) == Some(id);
      } else {
        var b :| b in s.activities && Subject(s.activities[b]) == Some(i);
        assert b in s'.activities && Subject(s'.activities[b]) == Some(i);
      }
    }
  }

  lemma MoveKeepsKeys(s: State, s': State, a: nat, id: Text)
    requires UniqueKeys(s.rows) && OnlyChanges(s, s', a, id) && id in s.rows
    requires s'.rows[id].orgId == s.rows[id].orgId && s'.rows[id].idempotencyKey == s.rows[id].idempotencyKey
    ensures UniqueKeys(s'.rows)
  {
    assert forall i | i in s'.rows ::
        i in s.rows && s'.rows[i].orgId == s.rows[i].orgId && s'.rows[i].idempotencyKey == s.rows[i].idempotencyKey;
  }

  lemma MoveKeepsResponses(s: State, s': State, a: nat, id: Text)
    requires ResponsesOk(s) && OnlyChanges(s, s', a, id) && id in s.rows
    requires s'.rows[id].orgId == s.rows[id].orgId && s'.rows[id].idempotencyKey == s.rows[id].idempotencyKey
    requires forall r | r in s'.responses && r !in s.responses :: ResponseOk(s'.rows, r)
    ensures ResponsesOk(s')
  {
    forall r | r in s'.responses ensures ResponseOk(s'.rows, r) {
      if r in s.responses {
        assert ResponseOk(s.rows, r);
      }
    }
  }

  lemma SoleOwner(s: State, a: nat, id: Text)
    requires Owners(s) && a in s.activities && Subject(s.activities[a]) == Some(id)
    ensures forall b | b in s.activities && b != a :: Subject(s.activities[b]) != Some(id)
  {
  }

  /** A move of the owner of an existing event, to a stage that fits, keeps everything. */
  lemma MoveKeeps(env: Env, s: State, s': State, a: nat, id: Text)
    requires Inv(env, s) && OnlyChanges(s, s', a, id) && Fits(env, s', a, id)
    requires a in s.activities && Subject(s.activities[a]) == Some(id) && id in s.rows
    requires s'.rows[id].orgId == s.rows[id].orgId && s'.rows[id].idempotencyKey == s.rows[id].idempotencyKey
    requires RegistryOk(s'.records)
    requires forall r | r in s'.responses && r !in s.responses :: ResponseOk(s'.rows, r)
    ensures Inv(env, s')
  {
    SoleOwner(s, a, id);
    MoveKeepsOwners(s, s', a, id);
    MoveKeepsActivities(env, s, s', a, id);
    MoveKeepsRows(env, s, s', a, id);
    MoveKeepsTracked(env, s, s', a, id);
    MoveKeepsKeys(s, s', a, id);
    MoveKeepsResponses(s, s', a, id);
  }

  /** What the invariant says of an activity and its event. */
  lemma OwnerFacts(env: Env, s: State, a: nat, id: Text)
    requires Inv(env, s) && a in s.activities && Subject(s.activities[a]) == Some(id)
    ensures id in s.rows && id in s.history && InputOk(s.activities[a])
    ensures ActivityOk(env, s.activities[a], s.rows[id], s.history[id], s.records)
    ensures RowOk(env, id, s.rows[id], s.history[id], s.records)
  {
  }

  // ---------------------------------------------------------------------------
  // Step by step
  // ---------------------------------------------------------------------------

  lemma LandKeepsRegistry(records: map<Text, Record>, tx: Text, r: Record)
    requires RegistryOk(records) && CanLand(records, tx, r)
    ensures RegistryOk(records[tx := r]) && Extends(records, records[tx := r])
  {
  }

  lemma RecordsAfterOk(env: Env, act: Activity, records: map<Text, Record>, step: Step)
    requires RegistryOk(records) && EnabledFor(env, act, records, step)
    ensures RegistryOk(RecordsAfter(env, act, records, step))
    ensures Extends(records, RecordsAfter(env, act, records, step))
  {
    match step
    case SubmitReturns(_, tx) => LandKeepsRegistry(records, tx, RecordFor(act.hash, act.eventId));
    case SubmitThrows(_, _, Some(tx)) => LandKeepsRegistry(records, tx, RecordFor(act.hash, act.eventId));
    case _ =>
  }

  /** What a step leaves of one event is in order if what it found was. */
  ghost predicate EventInOrder(env: Env, id: Text, act: Activity, row: Row, h: History, records: map<Text, Record>) {
    && Subject(act) == Some(id) && InputOk(act)
    && ActivityOk(env, act, row, h, records)
    && RowOk(env, id, row, h, records)
  }

  lemma StageFits(env: Env, id: Text, act: Activity, service: bool, row: Row, h: History,
                  records: map<Text, Record>, step: Step)
    requires Lawful(env) && EventInOrder(env, id, act, row, h, records) && EnabledFor(env, act, records, step)
    requires Extends(records, RecordsAfter(env, act, records, step))
    ensures var stage := StageAfter(env, act, service, records, step);
            stage.Some? ==>
              && !stage.value.Created?
              && Subject(stage.value) == Some(id) && InputOk(stage.value)
              && ActivityOk(env, stage.value, RowAfter(env, act, records, row, step), HistoryAfter(h, step),
                            RecordsAfter(env, act, records, step))
  {
  }

  lemma RowFits(env: Env, id: Text, act: Activity, row: Row, h: History, records: map<Text, Record>, step: Step)
    requires Lawful(env) && EventInOrder(env, id, act, row, h, records) && EnabledFor(env, act, records, step)
    requires Extends(records, RecordsAfter(env, act, records, step))
    ensures var row' := RowAfter(env, act, records, row, step);
            && row'.orgId == row.orgId && row'.idempotencyKey == row.idempotencyKey
            && RowOk(env, id, row', HistoryAfter(h, step), RecordsAfter(env, act, records, step))
  {
    if step.WriteAnchoring? {
      assert env.digest(act.event) == env.digest(h.original);
    }
  }

  /** An activity ends only with its event finished, unless a write is lost or nothing was dispatched. */
  lemma EndsInOrder(env: Env, act: Activity, service: bool, row: Row, records: map<Text, Record>, step: Step)
    requires EnabledFor(env, act, records, step) && StageAfter(env, act, service, records, step).None?
    ensures (step.Respond? && !service) || LosesWrite(step) || Terminal(RowAfter(env, act, records, row, step).status)
  {
  }

  lemma EventStepChanges(env: Env, s: State, a: nat, id: Text, step: Step)
    requires a in s.activities && EnabledFor(env, s.activities[a], s.records, step)
    requires Subject(s.activities[a]) == Some(id) && id in s.rows && id in s.history
    requires OrgOf(s.activities[a]) == s.rows[id].orgId
    requires Extends(s.records, RecordsAfter(env, s.activities[a], s.records, step))
    ensures OnlyChanges(s, EventStep(env, s, a, step), a, id)
    ensures EventStep(env, s, a, step).rows[id] == RowAfter(env, s.activities[a], s.records, s.rows[id], step)
    ensures EventStep(env, s, a, step).history[id] == HistoryAfter(s.history[id], step)
  {
  }

  lemma EventStepFits(env: Env, s: State, a: nat, id: Text, step: Step)
    requires Lawful(env) && a in s.activities && EnabledFor(env, s.activities[a], s.records, step)
    requires id in s.rows && id in s.history
    requires EventInOrder(env, id, s.activities[a], s.rows[id], s.history[id], s.records)
    requires Extends(s.records, RecordsAfter(env, s.activities[a], s.records, step))
    requires s.activities[a].Created? ==> id !in s.dispatched
    ensures Fits(env, EventStep(env, s, a, step), a, id)
    ensures var row' := EventStep(env, s, a, step).rows[id];
            row'.orgId == s.rows[id].orgId && row'.idempotencyKey == s.rows[id].idempotencyKey
  {
    var act := s.activities[a];
    EventStepChanges(env, s, a, id, step);
    RowFits(env, id, act, s.rows[id], s.history[id], s.records, step);
    StageFits(env, id, act, s.service, s.rows[id], s.history[id], s.records, step);
    if StageAfter(env, act, s.service, s.records, step).None? {
      EndsInOrder(env, act, s.service, s.rows[id], s.records, step);
    }
  }

  lemma RespondsInOrder(env: Env, s: State, a: nat, id: Text, step: Step)
    requires a in s.activities && EnabledFor(env, s.activities[a], s.records, step) && id in s.rows && id in s.history
    requires Subject(s.activities[a]) == Some(id)
    requires ActivityOk(env, s.activities[a], s.rows[id], s.history[id], s.records)
    ensures forall r | r in EventStep(env, s, a, step).responses && r !in s.responses ::
              ResponseOk(EventStep(env, s, a, step).rows, r)
  {
  }

  lemma EventStepKeeps(env: Env, s: State, a: nat, step: Step)
    requires Lawful(env) && Inv(env, s) && a in s.activities && EnabledFor(env, s.activities[a], s.records, step)
    ensures Inv(env, EventStep(env, s, a, step))
  {
    var act, s' := s.activities[a], EventStep(env, s, a, step);
    var id := Subject(act).value;
    OwnerFacts(env, s, a, id);
    RecordsAfterOk(env, act, s.records, step);
    EventStepChanges(env, s, a, id, step);
    EventStepFits(env, s, a, id, step);
    RespondsInOrder(env, s, a, id, step);
    MoveKeeps(env, s, s', a, id);
  }

  lemma InsertKeepsKeys(rows: Rows, input: Input, id: Text, row: Row)
    requires UniqueKeys(rows) && id !in rows && !KeyTaken(rows, input)
    requires row.orgId == input.orgId && row.idempotencyKey == input.idempotencyKey
    ensures UniqueKeys(rows[id := row])
  {
    if input.idempotencyKey.Some? {
      forall i | i in rows ensures !HasKey(rows[i], input.orgId, input.idempotencyKey.value) {}
    }
  }

  lemma NewRowInOrder(env: Env, input: Input, id: Text, t: Instant, now: Instant, records: map<Text, Record>)
    requires IsUuid(id) && ValidEvent(input.event) && env.instantOf(input.event.timestamp) == Some(t)
    ensures EventInOrder(env, id, Created(input, id, t), NewRow(input, t, now), History(input.event, 0, 0), records)
    ensures NewRow(input, t, now).orgId == input.orgId
    ensures NewRow(input, t, now).idempotencyKey == input.idempotencyKey
  {
  }

  lemma FreshEventUnowned(env: Env, s: State, id: Text)
    requires Inv(env, s) && id !in s.rows
    ensures forall b | b in s.activities :: Subject(s.activities[b]) != Some(id)
    ensures id !in s.history && id !in s.dispatched
  {
  }

  /** A new row, refused when its key is taken, and its activity. */
  lemma InsertKeeps(env: Env, s: State, a: nat, id: Text, now: Instant)
    requires Inv(env, s) && Enabled(env, s, Insert(a, id, now))
    ensures Inv(env, Next(env, s, Insert(a, id, now)))
  {
    var input, s' := s.activities[a].input, Next(env, s, Insert(a, id, now));
    assert InputOk(s.activities[a]);
    var t := env.instantOf(input.event.timestamp).value;
    NewRowInOrder(env, input, id, t, now, s.records);
    FreshEventUnowned(env, s, id);
    InsertedKeeps(env, s, s', a, id, Created(input, id, t), NewRow(input, t, now), History(input.event, 0, 0));
    InsertKeepsKeys(s.rows, input, id, NewRow(input, t, now));
    forall r | r in s'.responses ensures ResponseOk(s'.rows, r) {
      assert ResponseOk(s.rows, r);
    }
  }

  lemma InsertedKeeps(env: Env, s: State, s': State, a: nat, id: Text, act: Activity, row: Row, h: History)
    requires Owners(s) && ActivitiesOk(env, s) && RowsOk(env, s) && Tracked(s)
    requires a in s.activities && Subject(s.activities[a]).None? && id !in s.rows
    requires forall b | b in s.activities :: Subject(s.activities[b]) != Some(id)
    requires EventInOrder(env, id, act, row, h, s.records)
    requires s' == s.(activities := s.activities[a := act], rows := s.rows[id := row], history := s.history[id := h])
    ensures Owners(s') && ActivitiesOk(env, s') && RowsOk(env, s') && Tracked(s')
  {
    assert OnlyChanges(s, s', a, id);
    assert Fits(env, s', a, id);
    MoveKeepsOwners(s, s', a, id);
    MoveKeepsActivities(env, s, s', a, id);
    MoveKeepsRows(env, s, s', a, id);
    MoveKeepsTracked(env, s, s', a, id);
  }

  /** Owners and whom they own stay when an activity without an event moves. */
  lemma EarlyMoveKeepsTracked(s: State, s': State, a: nat)
    requires Tracked(s) && (a in s.activities ==> Subject(s.activities[a]).None?)
    requires s'.rows == s.rows && s'.dispatched == s.dispatched && s'.lost == s.lost
    requires forall b | b != a :: (b in s'.activities <==> b in s.activities)
                                  && (b in s.activities ==> s'.activities[b] == s.activities[b])
    requires a in s'.activities ==> Subject(s'.activities[a]).None?
    ensures Tracked(s')
  {
    forall id | id in s'.dispatched && id !in s'.lost && !Terminal(s'.rows[id].status) ensures Owned(s', id) {
      var b :| b in s.activities && Subject(s.activities[b]) == Some(id);
      assert b in s'.activities && Subject(s'.activities[b]) == Some(id);
    }
  }

  /** The activity `a`, which has no event, is replaced or ends. */
  lemma EarlyMoveKeeps(env: Env, s: State, s': State, a: nat)
    requires Inv(env, s) && (a in s.activities ==> Subject(s.activities[a]).None?)
    requires s' == s.(activities := s'.activities, responses := s'.responses, service := s'.service)
    requires forall b | b != a :: (b in s'.activities <==> b in s.activities)
                                  && (b in s.activities ==> s'.activities[b] == s.activities[b])
    requires a in s'.activities ==> Subject(s'.activities[a]).None? && InputOk(s'.activities[a])
    requires ResponsesOk(s')
    ensures Inv(env, s')
  {
    EarlyMoveKeepsTracked(s, s', a);
    assert ActivitiesOk(env, s');
    assert RowsOk(env, s');
  }

  lemma ServiceKeeps(env: Env, s: State, s': State)
    requires Inv(env, s) && s' == s.(service := s'.service)
    ensures Inv(env, s')
  {
    assert Tracked(s') by {
      forall id | id in s'.dispatched && id !in s'.lost && !Terminal(s'.rows[id].status) ensures Owned(s', id) {
        assert Owned(s, id);
      }
    }
  }

  lemma LookupKeeps(env: Env, s: State, a: nat, found: Option<Text>)
    requires Inv(env, s) && Enabled(env, s, Lookup(a, found))
    ensures Inv(env, Next(env, s, Lookup(a, found)))
  {
    var s' := Next(env, s, Lookup(a, found));
    assert InputOk(s.activities[a]);
    forall r | r in s'.responses ensures ResponseOk(s'.rows, r) {
      if r in s.responses {
        assert ResponseOk(s.rows, r);
      }
    }
    EarlyMoveKeeps(env, s, s', a);
  }

  lemma ReorderedRow(env: Env, id: Text, row: Row, h: History, records: map<Text, Record>, m: Json)
    requires RowOk(env, id, row, h, records) && row.metadata.Some? && IsMetadata(m)
    requires SameUpTo({}, row.metadata.value, m)
    ensures RowOk(env, id, row.(metadata := Some(m)), h, records)
  {
    SameWeakens(row.metadata.value, m);
    SortKeysInvariant(row.metadata.value, m);
  }

  /** Rows change in columns that neither keys, responses nor tracking look at. */
  lemma SameShapeKeeps(s: State, s': State)
    requires UniqueKeys(s.rows) && ResponsesOk(s) && Tracked(s) && Owners(s)
    requires s' == s.(rows := s'.rows) && s'.rows.Keys == s.rows.Keys
    requires forall i | i in s.rows :: s'.rows[i].orgId == s.rows[i].orgId && s'.rows[i].status == s.rows[i].status
                                       && s'.rows[i].idempotencyKey == s.rows[i].idempotencyKey
    ensures UniqueKeys(s'.rows) && ResponsesOk(s') && Tracked(s') && Owners(s')
  {
    forall r | r in s'.responses ensures ResponseOk(s'.rows, r) {
      assert ResponseOk(s.rows, r);
    }
    forall i | i in s'.dispatched && i !in s'.lost && !Terminal(s'.rows[i].status) ensures Owned(s', i) {
      assert Owned(s, i);
    }
  }

  lemma ReorderKeepsRows(env: Env, s: State, id: Text, m: Json)
    requires RowsOk(env, s) && id in s.rows && s.rows[id].metadata.Some? && IsMetadata(m)
    requires SameUpTo({}, s.rows[id].metadata.value, m)
    ensures RowsOk(env, s.(rows := s.rows[id := s.rows[id].(metadata := Some(m))]))
  {
    ReorderedRow(env, id, s.rows[id], s.history[id], s.records, m);
  }

  lemma ReorderKeeps(env: Env, s: State, id: Text, m: Json)
    requires Inv(env, s) && id in s.rows && s.rows[id].metadata.Some? && IsMetadata(m)
    requires SameUpTo({}, s.rows[id].metadata.value, m)
    ensures Inv(env, s.(rows := s.rows[id := s.rows[id].(metadata := Some(m))]))
  {
    var s' := s.(rows := s.rows[id := s.rows[id].(metadata := Some(m))]);
    assert RowsOk(env, s') by { ReorderKeepsRows(env, s, id, m); }
    assert ActivitiesOk(env, s') by { ReorderKeepsActivities(env, s, id, m); }
    SameShapeKeeps(s, s');
  }

  lemma ReorderKeepsActivities(env: Env, s: State, id: Text, m: Json)
    requires ActivitiesOk(env, s) && id in s.rows
    ensures ActivitiesOk(env, s.(rows := s.rows[id := s.rows[id].(metadata := Some(m))]))
  {
    forall a | a in s.activities && Subject(s.activities[a]) == Some(id)
      ensures ActivityOk(env, s.activities[a], s.rows[id].(metadata := Some(m)), s.history[id], s.records)
    {
      assert ActivityOk(env, s.activities[a], s.rows[id], s.history[id], s.records);
    }
  }

  lemma ArriveKeeps(env: Env, s: State, a: nat, act: Activity)
    requires Inv(env, s) && a !in s.activities && Subject(act).None? && InputOk(act)
    ensures Inv(env, s.(activities := s.activities[a := act]))
  {
    EarlyMoveKeeps(env, s, s.(activities := s.activities[a := act]), a);
  }

  lemma InsertThrowsKeeps(env: Env, s: State, a: nat)
    requires Inv(env, s) && a in s.activities && s.activities[a].Creating?
    ensures Inv(env, s.(activities := s.activities - {a}))
  {
    EarlyMoveKeeps(env, s, s.(activities := s.activities - {a}), a);
  }

  lemma NextOfEventStep(env: Env, s: State, step: Step)
    requires Enabled(env, s, step) && IsEventStep(step)
    ensures step.a in s.activities && EnabledFor(env, s.activities[step.a], s.records, step)
    ensures Next(env, s, step) == EventStep(env, s, step.a, step)
  {
  }

  lemma SetServiceKeeps(env: Env, s: State, on: bool)
    requires Inv(env, s)
    ensures Inv(env, s.(service := on))
  {
    ServiceKeeps(env, s, s.(service := on));
  }

  lemma EarlyStepKeepsInv(env: Env, s: State, step: Step)
    requires Inv(env, s) && Enabled(env, s, step) && !IsEventStep(step)
    ensures Inv(env, Next(env, s, step))
  {
    match step
    case SetService(on) => SetServiceKeeps(env, s, on);
    case Arrive(a, input) => ArriveKeeps(env, s, a, if HasTruthyKey(input) then Looking(input) else Creating(input));
    case Lookup(a, found) => LookupKeeps(env, s, a, found);
    case InsertThrows(a) => InsertThrowsKeeps(env, s, a);
    case Insert(a, id, now) => InsertKeeps(env, s, a, id, now);
    case Reorder(id, m) => ReorderKeeps(env, s, id, m);
  }

  /** Every step keeps the invariant. */
  lemma StepKeepsInv(env: Env, s: State, step: Step)
    requires Lawful(env) && Inv(env, s) && Enabled(env, s, step)
    ensures Inv(env, Next(env, s, step))
  {
    if IsEventStep(step) {
      NextOfEventStep(env, s, step);
      EventStepKeeps(env, s, step.a, step);
    } else {
      EarlyStepKeepsInv(env, s, step);
    }
  }

  /** Every state of every run of the genuine services satisfies the invariant. */
  lemma GenuineRunKeepsInv(env: Env, cipher: Encryption.Cipher, sha256: Text -> Text,
                           states: seq<State>, steps: seq<Step>, i: nat)
    requires Genuine(env, cipher, sha256) && IsRun(env, states, steps) && i < |states|
    ensures Inv(env, states[i])
  {
    GenuineIsLawful(env, cipher, sha256);
    RunKeepsInv(env, states, steps, i);
  }

  /** Every state of every run satisfies the invariant. */
  lemma {:induction false} RunKeepsInv(env: Env, states: seq<State>, steps: seq<Step>, i: nat)
    requires Lawful(env) && IsRun(env, states, steps) && i < |states|
    ensures Inv(env, states[i])
  {
    if i == 0 {
      InitialInv(env);
    } else {
      RunKeepsInv(env, states, steps, i - 1);
      assert states[i - 1 + 1] == Next(env, states[i - 1], steps[i - 1]);
      StepKeepsInv(env, states[i - 1], steps[i - 1]);
    }
  }
}
