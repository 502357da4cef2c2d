/**
 The three service calls of the pipeline, each run from start to end without
 interruption: `ingest`, `process` and `anchorEvent`. `PipelineCalls` proves
 each to be a path of the interleaved system, whose steps are the stretches of
 these bodies between two awaits.
 */
module Services {
  import opened Text
  import opened Instant
  import opened Canonical
  import opened Events
  import opened Pipeline
  import Backoff

  datatype JobData = JobData(eventId: Text, orgId: Text, canonicalHash: Text)

  /** The BullMQ queue of anchoring jobs. */
  class AnchorQueue {
    var jobs: seq<JobData>

    constructor ()
      ensures jobs == []
    {
      jobs := [];
    }

    method Add(job: JobData)
      modifies this
      ensures jobs == old(jobs) + [job]
    {
      jobs := jobs + [job];
    }
  }

  /** The table after `process`. */
  function ProcessedRows(env: Env, rows: Rows, id: Text, org: Text, event: Event, iv: Bytes, iv': Bytes): Rows {
    if env.instantOf(event.timestamp).None? then rows
    else
      Update(rows, id, org, (row: Row) =>
        Anchoring(row, env.digest(event), env.encrypt(iv, event.prompt), env.encrypt(iv', event.output)))
  }

  class EventProcessingService {
    const repository: EventRepository
    const anchorQueue: AnchorQueue

    constructor (repository: EventRepository, anchorQueue: AnchorQueue)
      ensures this.repository == repository && this.anchorQueue == anchorQueue
    {
      this.repository := repository;
      this.anchorQueue := anchorQueue;
    }

    /**
     Hashes the plaintext, stores the ciphertexts with the hash, then enqueues
     that hash; None where `canonicalise` throws, before any write.
     */
    method Process(env: Env, id: Text, org: Text, event: Event, iv: Bytes, iv': Bytes) returns (hash: Option<Text>)
      modifies repository, anchorQueue
      ensures hash == if env.instantOf(event.timestamp).Some? then Some(env.digest(event)) else None
      ensures repository.rows == ProcessedRows(env, old(repository.rows), id, org, event, iv, iv')
      ensures anchorQueue.jobs == old(anchorQueue.jobs) + (if hash.Some? then [JobData(id, org, hash.value)] else [])
      ensures UniqueKeys(old(repository.rows)) ==> UniqueKeys(repository.rows)
    {
      if env.instantOf(event.timestamp).None? {
        return None;
      }
      var digest := env.digest(event);
      var prompt := env.encrypt(iv, event.prompt);
      var output := env.encrypt(iv', event.output);
      repository.UpdateEventToAnchoring(id, org, digest, prompt, output);
      anchorQueue.Add(JobData(id, org, digest));
      hash := Some(digest);
    }
  }

  // ---------------------------------------------------------------------------
  // Ingestion
  // ---------------------------------------------------------------------------

  /** A processing call put off with `setImmediate`. */
  datatype Deferred = Deferred(eventId: Text, orgId: Text, event: Event)

  datatype IngestResult = Accepted(eventId: Text, replay: bool) | Failed

  /**
   What `ingest` makes of a request: a known key is answered with its event and
   changes nothing; otherwise the event is stored and, where a service is
   installed, handed over once. It throws on an invalid date, and where the
   index refuses a key the lookup did not find.
   */
  ghost predicate Ingests(env: Env, rows: Rows, processing: bool, input: Input, id: Text, now: Instant,
                          r: IngestResult, rows': Rows, handed: seq<Deferred>) {
    match r
    case Accepted(i, true) =>
      && rows' == rows && handed == []
      && HasTruthyKey(input) && i in rows && HasKey(rows[i], input.orgId, input.idempotencyKey.value)
    case Accepted(i, false) =>
      && i == id && !KeyTaken(rows, input) && env.instantOf(input.event.timestamp).Some?
      && var t := env.instantOf(input.event.timestamp).value;
         && rows' == rows[id := NewRow(input, t, now)]
         && handed == (if processing then [Deferred(id, input.orgId, ProcessArgument(env, input.event, t))] else [])
    case Failed =>
      && rows' == rows && handed == []
      && (env.instantOf(input.event.timestamp).None? || KeyTaken(rows, input))
      && (HasTruthyKey(input) ==> !KeyTaken(rows, input))
  }

  /** A row with this key, which is neither null nor empty, in this organisation. */
  ghost predicate IsRepeat(rows: Rows, input: Input) {
    && input.idempotencyKey.Some? && |input.idempotencyKey.value| > 0
    && exists i :: i in rows && rows[i].orgId == input.orgId && rows[i].idempotencyKey == input.idempotencyKey
  }

  /** A row with this key, if only the empty one. */
  ghost predicate IsIndexed(rows: Rows, input: Input) {
    && input.idempotencyKey.Some?
    && exists i :: i in rows && rows[i].orgId == input.orgId && rows[i].idempotencyKey == input.idempotencyKey
  }

  /**
   A repeated key is always answered with its event, never refused and never
   stored again; what is refused is an invalid date or the empty key repeated;
   anything else is stored under its new identifier, beside what was there.
   */
  lemma IngestMeaning(env: Env, rows: Rows, processing: bool, input: Input, id: Text, now: Instant,
                      r: IngestResult, rows': Rows, handed: seq<Deferred>)
    requires id !in rows && Ingests(env, rows, processing, input, id, now, r, rows', handed)
    ensures r.Accepted? && r.replay <==> IsRepeat(rows, input)
    ensures IsRepeat(rows, input) ==>
              && rows' == rows && handed == [] && r.eventId in rows
              && rows[r.eventId].orgId == input.orgId && rows[r.eventId].idempotencyKey == input.idempotencyKey
    ensures r.Failed? <==>
              !IsRepeat(rows, input) && (env.instantOf(input.event.timestamp).None? || IsIndexed(rows, input))
    ensures r.Accepted? && !r.replay ==>
              && r.eventId == id && id in rows' && rows' - {id} == rows
              && |handed| == if processing then 1 else 0
  {
    if IsRepeat(rows, input) {
      var i :| i in rows && rows[i].orgId == input.orgId && rows[i].idempotencyKey == input.idempotencyKey;
      assert HasKey(rows[i], input.orgId, input.idempotencyKey.value);
    }
    if IsIndexed(rows, input) {
      var i :| i in rows && rows[i].orgId == input.orgId && rows[i].idempotencyKey == input.idempotencyKey;
      assert HasKey(rows[i], input.orgId, input.idempotencyKey.value);
    }
  }

  class EventIngestionService {
    const repository: EventRepository
    /** Whether `setEventProcessingService` has installed a service. */
    var processing: bool
    var deferred: seq<Deferred>

    constructor (repository: EventRepository)
      ensures this.repository == repository && !processing && deferred == []
    {
      this.repository := repository;
      processing, deferred := false, [];
    }

    method SetEventProcessingService(installed: bool)
      modifies this
      ensures processing == installed && deferred == old(deferred)
    {
      processing := installed;
    }

    method Ingest(env: Env, input: Input, id: Text, now: Instant) returns (r: IngestResult)
      requires id !in repository.rows
      modifies this, repository
      ensures processing == old(processing) && old(deferred) <= deferred
      ensures Ingests(env, old(repository.rows), processing, input, id, now, r, repository.rows,
                      deferred[|old(deferred)|..])
      ensures UniqueKeys(old(repository.rows)) ==> UniqueKeys(repository.rows)
    {
      if input.idempotencyKey.Some? && input.idempotencyKey.value != [] {
        var existing := repository.FindEventByIdempotencyKey(input.orgId, input.idempotencyKey.value);
        if existing.Some? {
          return Accepted(existing.value, true);
        }
      }
      var instant := env.instantOf(input.event.timestamp);
      if instant.None? {
        return Failed;
      }
      var saved := repository.CreateEvent(input, id, instant.value, now);
      if !saved {
        return Failed;
      }
      if processing {
        deferred := deferred + [Deferred(id, input.orgId, ProcessArgument(env, input.event, instant.value))];
      }
      r := Accepted(id, false);
    }
  }

  // ---------------------------------------------------------------------------
  // Anchoring
  // ---------------------------------------------------------------------------

  const BASE_DELAY_MS: nat := 1000
  const MAX_DELAY_MS: nat := 30_000

  datatype Receipt = Receipt(tx: Text, block: nat, now: Instant)

  /** What the receipt and the success update come to. */
  function AfterConfirm(tx: Text, confirmed: Backoff.Outcome<nat>, write: Backoff.Outcome<Instant>)
    : Backoff.Outcome<Receipt>
  {
    match (confirmed, write)
    case (Threw(e), _) => Backoff.Threw(e)
    case (Returned(_), Threw(e)) => Backoff.Threw(e)
    case (Returned(block), Returned(now)) => Backoff.Returned(Receipt(tx, block, now))
  }

  /** How the `try` block ends once the transaction is submitted. */
  ghost predicate ConfirmEnds(env: Env, tx: Text, confirm: nat -> Backoff.Outcome<nat>,
                              write: Backoff.Outcome<Instant>, result: Backoff.Outcome<Receipt>) {
    exists confirmed :: Backoff.EndsWith(confirm, env.maxAttempts, env.isRetryable, confirmed)
                        && result == AfterConfirm(tx, confirmed, write)
  }

  /** How the `try` block ends: with all that is recorded, or with what threw first. */
  ghost predicate TryEnds(env: Env, submit: nat -> Backoff.Outcome<Text>, confirm: nat -> Backoff.Outcome<nat>,
                          write: Backoff.Outcome<Instant>, result: Backoff.Outcome<Receipt>) {
    exists submitted: Backoff.Outcome<Text> ::
      && Backoff.EndsWith(submit, env.maxAttempts, env.isRetryable, submitted)
      && match submitted
         case Threw(e) => result == Backoff.Threw(e)
         case Returned(tx) => ConfirmEnds(env, tx, confirm, write, result)
  }

  /** The answers of the chain and the database leave one way to end. */
  lemma TryEndsOnce(env: Env, submit: nat -> Backoff.Outcome<Text>, confirm: nat -> Backoff.Outcome<nat>,
                    write: Backoff.Outcome<Instant>, r: Backoff.Outcome<Receipt>, r': Backoff.Outcome<Receipt>)
    requires TryEnds(env, submit, confirm, write, r) && TryEnds(env, submit, confirm, write, r')
    ensures r == r'
  {
    forall x, y | Backoff.EndsWith(submit, env.maxAttempts, env.isRetryable, x)
                  && Backoff.EndsWith(submit, env.maxAttempts, env.isRetryable, y) ensures x == y {
      Backoff.EndIsUnique(submit, env.maxAttempts, env.isRetryable, x, y);
    }
    forall x, y | Backoff.EndsWith(confirm, env.maxAttempts, env.isRetryable, x)
                  && Backoff.EndsWith(confirm, env.maxAttempts, env.isRetryable, y) ensures x == y {
      Backoff.EndIsUnique(confirm, env.maxAttempts, env.isRetryable, x, y);
    }
  }

  /** `error instanceof Error ? error.message : String(error)`; out of attempts the loop throws "unreachable". */
  lemma RecordedMessages(message: Text, code: Text)
    ensures MessageOf(Backoff.Error(message, code)) == message && MessageOf(Backoff.Other(message)) == message
    ensures MessageOf(Backoff.UNREACHABLE) == Ascii("unreachable")
  {
  }

  /** The table after `anchorEvent`. */
  function AnchoredRows(env: Env, rows: Rows, id: Text, org: Text, result: Backoff.Outcome<Receipt>): Rows {
    match result
    case Returned(r) => Update(rows, id, org, (row: Row) => Anchored(row, r.tx, r.block, env.chainId, r.now))
    case Threw(e) => Update(rows, id, org, (row: Row) => AnchorFailed(row, MessageOf(e)))
  }

  /** The row after `process` and the row after `anchorEvent`, column by column. */
  lemma OutcomeColumns(env: Env, rows: Rows, id: Text, org: Text, event: Event, iv: Bytes, iv': Bytes,
                       r: Receipt, e: Backoff.Thrown)
    requires id in rows && rows[id].orgId == org
    ensures env.instantOf(event.timestamp).Some? ==>
              var row := ProcessedRows(env, rows, id, org, event, iv, iv')[id];
              && row.status == ANCHORING && row.canonicalHash == Some(env.digest(event))
              && row.prompt == env.encrypt(iv, event.prompt) && row.output == env.encrypt(iv', event.output)
    ensures var row := AnchoredRows(env, rows, id, org, Backoff.Returned(r))[id];
            && row.status == ANCHORED && row.txHash == Some(r.tx) && row.blockNumber == Some(r.block)
            && row.chainId == Some(env.chainId) && row.anchoredAt == Some(r.now)
    ensures var row := AnchoredRows(env, rows, id, org, Backoff.Threw(e))[id];
            && row.status == ANCHOR_FAILED
            && row.anchorError == Some(match e case Error(message, _) => message case Other(shown) => shown)
  {
  }

  class BlockchainAnchoringService {
    const repository: EventRepository

    constructor (repository: EventRepository)
      ensures this.repository == repository
    {
      this.repository := repository;
    }

    /** The loop with its default pauses: a second at first, half a minute at most. */
    method Retry<T(!new)>(env: Env, fn: nat -> Backoff.Outcome<T>)
      returns (result: Backoff.Outcome<T>, calls: nat, slept: nat)
      ensures Backoff.EndsWith(fn, env.maxAttempts, env.isRetryable, result)
      ensures env.maxAttempts > 0 ==>
                0 < calls <= env.maxAttempts && slept == Backoff.TotalDelay(1000, 30_000, calls - 1)
    {
      result, calls, slept :=
        Backoff.WithExponentialBackoff(fn, env.maxAttempts, BASE_DELAY_MS, MAX_DELAY_MS, env.isRetryable);
    }

    /**
     The row ends ANCHORED with the transaction and block the two loops
     returned, or ANCHOR_FAILED with the message of whatever threw first; an
     error is passed on after it is recorded.
     */
    method AnchorEvent(env: Env, id: Text, org: Text, submit: nat -> Backoff.Outcome<Text>,
                       confirm: nat -> Backoff.Outcome<nat>, write: Backoff.Outcome<Instant>)
      returns (thrown: Option<Backoff.Thrown>)
      modifies repository
      ensures exists result ::
                && TryEnds(env, submit, confirm, write, result)
                && thrown == (if result.Threw? then Some(result.error) else None)
                && repository.rows == AnchoredRows(env, old(repository.rows), id, org, result)
      ensures UniqueKeys(old(repository.rows)) ==> UniqueKeys(repository.rows)
    {
      ghost var result: Backoff.Outcome<Receipt>;
      var submitted, _, _ := Retry(env, submit);
      if submitted.Threw? {
        result := Backoff.Threw(submitted.error);
        assert TryEnds(env, submit, confirm, write, result);
        repository.UpdateEventToAnchorFailed(id, org, MessageOf(submitted.error));
        return Some(submitted.error);
      }
      var confirmed, _, _ := Retry(env, confirm);
      if confirmed.Threw? {
        result := Backoff.Threw(confirmed.error);
        assert ConfirmEnds(env, submitted.value, confirm, write, result);
        assert TryEnds(env, submit, confirm, write, result);
        repository.UpdateEventToAnchorFailed(id, org, MessageOf(confirmed.error));
        return Some(confirmed.error);
      }
      if write.Threw? {
        result := Backoff.Threw(write.error);
        assert ConfirmEnds(env, submitted.value, confirm, write, result);
        assert TryEnds(env, submit, confirm, write, result);
        repository.UpdateEventToAnchorFailed(id, org, MessageOf(write.error));
        return Some(write.error);
      }
      result := Backoff.Returned(Receipt(submitted.value, confirmed.value, write.value));
      assert ConfirmEnds(env, submitted.value, confirm, write, result);
      assert TryEnds(env, submit, confirm, write, result);
      repository.UpdateEventToAnchored(id, org, submitted.value, confirmed.value, env.chainId, write.value);
      thrown := None;
    }
  }
}
