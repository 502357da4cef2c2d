/**
 The anchoring pipeline as a system of interleaved steps. An activity is one
 thread of work: an ingestion call that becomes, through `setImmediate`, a
 processing call, then a queued job, then an anchoring call. Between two
 awaits an activity moves atomically; between two of its moves anything else
 may happen.
 */
module Pipeline {
  import opened Text
  import opened Json
  import opened Instant
  import opened Canonical
  import opened Events
  import Backoff
  import Encryption
  import Utf8

  /**
   The services the steps call. `Genuine` ties them to their models; the steps
   themselves depend only on the laws of `Lawful`.
   */
  datatype Env = Env(
    /** `new Date(text)`. */
    instantOf: Text -> Option<Instant>,
    /** `toISOString`. */
    isoString: Instant -> Text,
    /** `hash(canonicalise(event))`. */
    digest: Event -> Text,
    encrypt: (Bytes, Text) -> Text,
    decrypt: Text -> Option<Text>,
    isRetryable: Backoff.Thrown -> bool,
    maxAttempts: nat,
    chainId: int)

  /** `hash(canonicalise(event))`, empty where `canonicalise` throws. */
  function HashOf(sha256: Text -> Text, e: Event): Text {
    match CanonicalForm(e)
    case Some(form) => sha256(form)
    case None => []
  }

  /** The chains `resolveChain` knows: with any other the worker does not start. */
  const SUPPORTED_CHAINS: set<int> := {8453, 84532}

  ghost predicate Genuine(env: Env, cipher: Encryption.Cipher, sha256: Text -> Text) {
    && Encryption.Inverts(cipher)
    && env.chainId in SUPPORTED_CHAINS
    && (forall t :: env.instantOf(t) == ParseTimestamp(t))
    && (forall t :: env.isoString(t) == ToIsoString(t))
    && (forall e :: env.digest(e) == HashOf(sha256, e))
    && (forall iv, x :: env.encrypt(iv, x) == Encryption.Encrypt(cipher, iv, x))
    && (forall x :: env.decrypt(x) == Encryption.Decrypt(cipher, x))
    && (forall e :: env.isRetryable(e) == Backoff.IsRetryable(e))
  }

  /** Every cipher that inverts and every hash have their genuine services. */
  lemma GenuineExists(cipher: Encryption.Cipher, sha256: Text -> Text, maxAttempts: nat, chainId: int)
    returns (env: Env)
    requires Encryption.Inverts(cipher) && chainId in SUPPORTED_CHAINS
    ensures Genuine(env, cipher, sha256) && env.maxAttempts == maxAttempts && env.chainId == chainId
  {
    env := Env(ParseTimestamp, ToIsoString, e => HashOf(sha256, e), (iv, x) => Encryption.Encrypt(cipher, iv, x),
               x => Encryption.Decrypt(cipher, x), Backoff.IsRetryable, maxAttempts, chainId);
  }

  /** The argument `ingest` hands to `process`. */
  function ProcessArgument(env: Env, e: Event, t: Instant): Event {
    Event(e.prompt, e.output, e.modelId, env.isoString(t), Given(e.workflowId.Known()), Given(e.metadata.Known()))
  }

  /** What the safety of the steps rests on. */
  ghost predicate Lawful(env: Env) {
    && (forall e, t :: ValidEvent(e) && env.instantOf(e.timestamp) == Some(t) ==>
          env.digest(ProcessArgument(env, e, t)) == env.digest(e))
    && (forall iv, x {:trigger env.encrypt(iv, x)} :: |iv| == Encryption.IV_LENGTH ==>
          env.decrypt(env.encrypt(iv, x)) == Some(Utf8.ToWellFormed(x)))
  }

  lemma ProcessArgumentForm(env: Env, e: Event, t: Instant)
    requires ValidEvent(e) && ParseTimestamp(e.timestamp) == Some(t) && env.isoString(t) == ToIsoString(t)
    ensures CanonicalForm(ProcessArgument(env, e, t)) == CanonicalForm(e)
  {
    ParsesTimestamp(t, Utc);
    SameStampedFields(ProcessArgument(env, e, t), e, ToIsoString(t));
  }

  lemma GenuineIsLawful(env: Env, cipher: Encryption.Cipher, sha256: Text -> Text)
    requires Genuine(env, cipher, sha256)
    ensures Lawful(env)
  {
    forall e, t | ValidEvent(e) && env.instantOf(e.timestamp) == Some(t)
      ensures env.digest(ProcessArgument(env, e, t)) == env.digest(e)
    {
      ProcessArgumentForm(env, e, t);
    }
    forall iv, x | |iv| == Encryption.IV_LENGTH
      ensures env.decrypt(env.encrypt(iv, x)) == Some(Utf8.ToWellFormed(x))
    {
      Encryption.DecryptEncrypt(cipher, iv, x);
    }
  }

  /** An on-chain registration. */
  datatype Record = Record(hash: Text, eventId: Text)

  /** An answer to a caller of `ingest`. */
  datatype Response = Response(orgId: Text, idempotencyKey: Option<Text>, eventId: Text, replay: bool)

  datatype Activity =
    /** `ingest` before its lookup. */
    | Looking(input: Input)
    /** `ingest` before its insert. */
    | Creating(input: Input)
    /** `ingest` after its insert. */
    | Created(input: Input, eventId: Text, instant: Instant)
    /** `process` before its row update. */
    | Processing(eventId: Text, orgId: Text, event: Event)
    /** `process` between its row update and the queue. */
    | Enqueuing(eventId: Text, orgId: Text, hash: Text)
    /** A job waiting in the queue. */
    | Job(eventId: Text, orgId: Text, hash: Text)
    /** `anchorEvent` about to call the contract for the given time, counting from 0. */
    | Submitting(eventId: Text, orgId: Text, hash: Text, attempt: nat)
    /** `anchorEvent` waiting for the receipt. */
    | Confirming(eventId: Text, orgId: Text, hash: Text, tx: Text, attempt: nat)
    /** `anchorEvent` before its success update. */
    | Recording(eventId: Text, orgId: Text, hash: Text, tx: Text, block: nat)
    /** `anchorEvent` in its catch block. */
    | Failing(eventId: Text, orgId: Text, hash: Text, message: Text)

  /** Book-keeping about an event that no step reads. */
  datatype History = History(original: Event, jobs: nat, submissions: nat)

  datatype State = State(
    rows: Rows,
    activities: map<nat, Activity>,
    records: map<Text, Record>,
    responses: set<Response>,
    service: bool,
    dispatched: set<Text>,
    history: map<Text, History>,
    /** Events of which a write failed that nobody repeats. */
    lost: set<Text>)

  const INITIAL := State(map[], map[], map[], {}, false, {}, map[], {})

  datatype Step =
    | SetService(on: bool)
    | Arrive(a: nat, input: Input)
    | Lookup(a: nat, found: Option<Text>)
    | Insert(a: nat, id: Text, now: Instant)
    | InsertThrows(a: nat)
    | Respond(a: nat)
    | WriteAnchoring(a: nat, iv: Bytes, iv': Bytes)
    | WriteAnchoringThrows(a: nat)
    | Enqueue(a: nat)
    | EnqueueThrows(a: nat)
    | Deliver(a: nat)
    | SubmitReturns(a: nat, tx: Text)
    | SubmitThrows(a: nat, error: Backoff.Thrown, landed: Option<Text>)
    /** The attempts of a retry loop are used up before it starts. */
    | Exhaust(a: nat)
    | ConfirmReturns(a: nat, block: nat)
    | ConfirmThrows(a: nat, error: Backoff.Thrown)
    | RecordAnchored(a: nat, now: Instant)
    | RecordAnchoredThrows(a: nat, message: Text)
    | RecordFailed(a: nat)
    | RecordFailedThrows(a: nat)
    /** The jsonb column gives its object back with the keys in another order. */
    | Reorder(id: Text, metadata: Json)

  // ---------------------------------------------------------------------------
  // Steps
  // ---------------------------------------------------------------------------

  /** The event an activity works on, once it has a row. */
  function Subject(act: Activity): Option<Text> {
    match act
    case Looking(_) => None
    case Creating(_) => None
    case _ => Some(act.eventId)
  }

  /** `if (input.idempotency_key)`: neither null nor empty. */
  predicate HasTruthyKey(input: Input) {
    input.idempotencyKey.Some? && input.idempotencyKey.value != []
  }

  /** The registry rejects a hash or an event id it has seen. */
  ghost predicate Accepts(records: map<Text, Record>, r: Record) {
    forall tx :: tx in records ==> records[tx].hash != r.hash && records[tx].eventId != r.eventId
  }

  function RecordFor(hash: Text, id: Text): Record {
    Record(EncodeCanonicalHash(hash), EncodeEventId(id))
  }

  /** A transaction of the contract call can take effect. */
  ghost predicate CanLand(records: map<Text, Record>, tx: Text, r: Record) {
    tx != [] && tx !in records && Accepts(records, r)
  }

  predicate Retries(env: Env, attempt: nat, error: Backoff.Thrown) {
    attempt + 1 < env.maxAttempts && env.isRetryable(error)
  }

  function MessageOf(error: Backoff.Thrown): Text {
    match error
    case Error(message, _) => message
    case Other(shown) => shown
  }

  /** What `findEventByIdempotencyKey` may return. */
  ghost predicate LookupFinds(rows: Rows, input: Input, found: Option<Text>) {
    && input.idempotencyKey.Some?
    && (found.Some? ==> found.value in rows && HasKey(rows[found.value], input.orgId, input.idempotencyKey.value))
    && (found.None? ==> !KeyTaken(rows, input))
  }

  predicate IsMetadata(m: Json) {
    m.Object? && Valid(m)
  }

  /** Steps of an activity whose event has a row. */
  predicate IsEventStep(step: Step) {
    !(step.SetService? || step.Arrive? || step.Lookup? || step.Insert? || step.InsertThrows? || step.Reorder?)
  }

  ghost predicate Enabled(env: Env, s: State, step: Step) {
    match step
    case SetService(_) => true
    case Arrive(a, input) => a !in s.activities && ValidEvent(input.event)
    case Lookup(a, found) =>
      a in s.activities && s.activities[a].Looking? && LookupFinds(s.rows, s.activities[a].input, found)
    case Insert(a, id, _) =>
      && a in s.activities && s.activities[a].Creating? && id !in s.rows && IsUuid(id)
      && env.instantOf(s.activities[a].input.event.timestamp).Some?
      && !KeyTaken(s.rows, s.activities[a].input)
    case InsertThrows(a) => a in s.activities && s.activities[a].Creating?
    case Reorder(id, m) =>
      id in s.rows && s.rows[id].metadata.Some? && IsMetadata(m) && SameUpTo({}, s.rows[id].metadata.value, m)
    case _ => step.a in s.activities && EnabledFor(env, s.activities[step.a], s.records, step)
  }

  ghost predicate EnabledFor(env: Env, act: Activity, records: map<Text, Record>, step: Step) {
    match step
    case Respond(_) => act.Created?
    case WriteAnchoring(_, iv, iv') =>
      && act.Processing? && env.instantOf(act.event.timestamp).Some?
      && |iv| == |iv'| == Encryption.IV_LENGTH
    case WriteAnchoringThrows(_) => act.Processing?
    case Enqueue(_) => act.Enqueuing?
    case EnqueueThrows(_) => act.Enqueuing?
    case Deliver(_) => act.Job?
    case SubmitReturns(_, tx) =>
      act.Submitting? && act.attempt < env.maxAttempts && CanLand(records, tx, RecordFor(act.hash, act.eventId))
    case SubmitThrows(_, _, landed) =>
      && act.Submitting? && act.attempt < env.maxAttempts
      && (landed.Some? ==> CanLand(records, landed.value, RecordFor(act.hash, act.eventId)))
    case Exhaust(_) => (act.Submitting? || act.Confirming?) && act.attempt >= env.maxAttempts
    case ConfirmReturns(_, _) => act.Confirming? && act.attempt < env.maxAttempts
    case ConfirmThrows(_, _) => act.Confirming? && act.attempt < env.maxAttempts
    case RecordAnchored(_, _) => act.Recording?
    case RecordAnchoredThrows(_, _) => act.Recording?
    case RecordFailed(_) => act.Failing?
    case RecordFailedThrows(_) => act.Failing?
    case _ => false
  }

  function OrgOf(act: Activity): Text {
    match act
    case Looking(input) => input.orgId
    case Creating(input) => input.orgId
    case Created(input, _, _) => input.orgId
    case _ => act.orgId
  }

  /** The stage after a step, None when the activity is over. */
  ghost function StageAfter(env: Env, act: Activity, service: bool, records: map<Text, Record>, step: Step)
    : Option<Activity>
    requires EnabledFor(env, act, records, step)
  {
    match step
    case Respond(_) =>
      if service
      then Some(Processing(act.eventId, act.input.orgId, ProcessArgument(env, act.input.event, act.instant)))
      else None
    case WriteAnchoring(_, _, _) => Some(Enqueuing(act.eventId, act.orgId, env.digest(act.event)))
    case Enqueue(_) => Some(Job(act.eventId, act.orgId, act.hash))
    case Deliver(_) => Some(Submitting(act.eventId, act.orgId, act.hash, 0))
    case SubmitReturns(_, tx) => Some(Confirming(act.eventId, act.orgId, act.hash, tx, 0))
    case SubmitThrows(_, error, _) =>
      if Retries(env, act.attempt, error)
      then Some(Submitting(act.eventId, act.orgId, act.hash, act.attempt + 1))
      else Some(Failing(act.eventId, act.orgId, act.hash, MessageOf(error)))
    case Exhaust(_) => Some(Failing(act.eventId, act.orgId, act.hash, MessageOf(Backoff.UNREACHABLE)))
    case ConfirmReturns(_, block) => Some(Recording(act.eventId, act.orgId, act.hash, act.tx, block))
    case ConfirmThrows(_, error) =>
      if Retries(env, act.attempt, error)
      then Some(Confirming(act.eventId, act.orgId, act.hash, act.tx, act.attempt + 1))
      else Some(Failing(act.eventId, act.orgId, act.hash, MessageOf(error)))
    case RecordAnchoredThrows(_, message) => Some(Failing(act.eventId, act.orgId, act.hash, message))
    case _ => None
  }

  /** The row after a step that reaches it. */
  ghost function RowAfter(env: Env, act: Activity, records: map<Text, Record>, row: Row, step: Step): Row
    requires EnabledFor(env, act, records, step)
  {
    match step
    case WriteAnchoring(_, iv, iv') =>
      Anchoring(row, env.digest(act.event), env.encrypt(iv, act.event.prompt), env.encrypt(iv', act.event.output))
    case RecordAnchored(_, now) => Anchored(row, act.tx, act.block, env.chainId, now)
    case RecordFailed(_) => AnchorFailed(row, act.message)
    case _ => row
  }

  function HistoryAfter(h: History, step: Step): History {
    match step
    case Enqueue(_) => h.(jobs := h.jobs + 1)
    case SubmitReturns(_, _) => h.(submissions := h.submissions + 1)
    case SubmitThrows(_, _, _) => h.(submissions := h.submissions + 1)
    case _ => h
  }

  /** The registry after a step: a submission may take effect even when its reply is lost. */
  ghost function RecordsAfter(env: Env, act: Activity, records: map<Text, Record>, step: Step): map<Text, Record>
    requires EnabledFor(env, act, records, step)
  {
    match step
    case SubmitReturns(_, tx) => records[tx := RecordFor(act.hash, act.eventId)]
    case SubmitThrows(_, _, Some(tx)) => records[tx := RecordFor(act.hash, act.eventId)]
    case _ => records
  }

  /** A failed write after which nobody works on the event any more. */
  predicate LosesWrite(step: Step) {
    step.WriteAnchoringThrows? || step.EnqueueThrows? || step.RecordFailedThrows?
  }

  ghost function Next(env: Env, s: State, step: Step): State
    requires Enabled(env, s, step)
  {
    match step
    case SetService(on) => s.(service := on)
    case Arrive(a, input) =>
      s.(activities := s.activities[a := if HasTruthyKey(input) then Looking(input) else Creating(input)])
    case Lookup(a, None) => s.(activities := s.activities[a := Creating(s.activities[a].input)])
    case Lookup(a, Some(id)) =>
      var input := s.activities[a].input;
      s.(activities := s.activities - {a},
         responses := s.responses + {Response(input.orgId, input.idempotencyKey, id, true)})
    case Insert(a, id, now) =>
      var input := s.activities[a].input;
      var t := env.instantOf(input.event.timestamp).value;
      s.(activities := s.activities[a := Created(input, id, t)],
         rows := s.rows[id := NewRow(input, t, now)],
         history := s.history[id := History(input.event, 0, 0)])
    case InsertThrows(a) => s.(activities := s.activities - {a})
    case Reorder(id, m) => s.(rows := s.rows[id := s.rows[id].(metadata := Some(m))])
    case _ => EventStep(env, s, step.a, step)
  }

  ghost function EventStep(env: Env, s: State, a: nat, step: Step): State
    requires a in s.activities && EnabledFor(env, s.activities[a], s.records, step)
  {
    var act := s.activities[a];
    var id := Subject(act).value;
    var stage := StageAfter(env, act, s.service, s.records, step);
    State(
      if FindById(s.rows, id, OrgOf(act)).Some?
      then s.rows[id := RowAfter(env, act, s.records, s.rows[id], step)] else s.rows,
      if stage.Some? then s.activities[a := stage.value] else s.activities - {a},
      RecordsAfter(env, act, s.records, step),
      if step.Respond?
      then s.responses + {Response(act.input.orgId, act.input.idempotencyKey, id, false)} else s.responses,
      s.service,
      if step.Respond? && s.service then s.dispatched + {id} else s.dispatched,
      if id in s.history then s.history[id := HistoryAfter(s.history[id], step)] else s.history,
      if LosesWrite(step) then s.lost + {id} else s.lost)
  }

  /**
   Whatever an activity waits for may fail in any way: each write and each call
   may throw, and a submission may land though its reply is lost.
   */
  lemma AnythingMayFail(env: Env, act: Activity, records: map<Text, Record>, a: nat, error: Backoff.Thrown, tx: Text)
    ensures act.Processing? ==> EnabledFor(env, act, records, WriteAnchoringThrows(a))
    ensures act.Enqueuing? ==> EnabledFor(env, act, records, EnqueueThrows(a))
    ensures act.Submitting? && act.attempt < env.maxAttempts ==>
              && EnabledFor(env, act, records, SubmitThrows(a, error, None))
              && (CanLand(records, tx, RecordFor(act.hash, act.eventId)) ==>
                    && EnabledFor(env, act, records, SubmitReturns(a, tx))
                    && EnabledFor(env, act, records, SubmitThrows(a, error, Some(tx))))
    ensures act.Confirming? && act.attempt < env.maxAttempts ==> EnabledFor(env, act, records, ConfirmThrows(a, error))
    ensures act.Recording? ==> EnabledFor(env, act, records, RecordAnchoredThrows(a, MessageOf(error)))
    ensures act.Failing? ==> EnabledFor(env, act, records, RecordFailedThrows(a))
  {
  }

  /** The contract takes a transaction exactly when neither its hash nor its event id was registered before. */
  lemma LandsExactly(records: map<Text, Record>, tx: Text, hash: Text, id: Text)
    ensures CanLand(records, tx, RecordFor(hash, id)) <==>
            && tx != [] && tx !in records
            && forall x :: x in records ==>
                 records[x].hash != EncodeCanonicalHash(hash) && records[x].eventId != EncodeEventId(id)
  {
  }

  /** A run of the system: the states it passes through and the steps between them. */
  ghost predicate IsRun(env: Env, states: seq<State>, steps: seq<Step>) {
    && |states| == |steps| + 1
    && states[0] == INITIAL
    && forall i :: 0 <= i < |steps| ==>
         Enabled(env, states[i], steps[i]) && states[i + 1] == Next(env, states[i], steps[i])
  }
}
