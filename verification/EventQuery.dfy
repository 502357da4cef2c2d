/** `EventQueryService.getById` and `getVerification`. */
module EventQuery {
  import opened Text
  import opened Json
  import opened Instant
  import opened Canonical
  import opened Events
  import opened Pipeline
  import opened PipelineSafety
  import Encryption
  import Utf8

  datatype Answer<+T> =
    | Found(value: T)
    | NotFound
    | Unprocessable(status: Status)
    /** `decrypt` throws. */
    | Unreadable

  datatype Detail = Detail(
    eventId: Text, orgId: Text, userId: Option<Text>, prompt: Text, output: Text, modelId: Text,
    workflowId: Option<Text>, metadata: Option<Json>, timestamp: Instant, canonicalHash: Option<Text>,
    status: Status, txHash: Option<Text>, blockNumber: Option<nat>, chainId: Option<int>,
    anchoredAt: Option<Instant>)

  datatype Verification = Verification(
    eventId: Text, canonicalHash: Text, txHash: Text, blockNumber: nat, chainId: int, anchoredAt: Instant)

  /** `!userId || event.user_id === userId`. */
  predicate UserMatches(row: Row, user: Option<Text>) {
    user.Some? && user.value != [] ==> row.userId == user
  }

  /** The row a caller may see. */
  function Visible(rows: Rows, id: Text, org: Text, user: Option<Text>): Option<Row> {
    match FindById(rows, id, org)
    case Some(row) => if UserMatches(row, user) then Some(row) else None
    case None => None
  }

  function GetById(env: Env, rows: Rows, id: Text, org: Text, user: Option<Text>): Answer<Detail> {
    match Visible(rows, id, org, user)
    case None => NotFound
    case Some(row) =>
      match (env.decrypt(row.prompt), env.decrypt(row.output))
      case (Some(prompt), Some(output)) =>
        Found(Detail(id, row.orgId, row.userId, prompt, output, row.modelId, row.workflowId, row.metadata,
                     row.timestamp, row.canonicalHash, row.status, row.txHash, row.blockNumber, row.chainId,
                     row.anchoredAt))
      case _ => Unreadable
  }

  function GetVerification(rows: Rows, id: Text, org: Text, user: Option<Text>): Answer<Verification> {
    match Visible(rows, id, org, user)
    case None => NotFound
    case Some(row) =>
      if row.status != ANCHORED
         || row.txHash.None? || row.txHash.value == []
         || row.blockNumber.None?
         || row.chainId.None? || row.chainId.value == 0
         || row.anchoredAt.None?
         || row.canonicalHash.None? || row.canonicalHash.value == []
      then Unprocessable(row.status)
      else Found(Verification(id, row.canonicalHash.value, row.txHash.value, row.blockNumber.value,
                              row.chainId.value, row.anchoredAt.value))
  }

  /** The event a detail describes, as a verifier would canonicalise it. */
  function DetailEvent(d: Detail): Event {
    Event(d.prompt, d.output, d.modelId, ToIsoString(d.timestamp), Given(d.workflowId), Given(d.metadata))
  }

  // ---------------------------------------------------------------------------
  // Hashing what is stored
  // ---------------------------------------------------------------------------

  /** No text of the event has an unpaired surrogate. */
  predicate WellFormedEvent(e: Event) {
    && Utf8.WellFormed(e.prompt) && Utf8.WellFormed(e.output) && Utf8.WellFormed(e.modelId)
    && (e.workflowId.Present? ==> Utf8.WellFormed(e.workflowId.value))
  }

  /** `getById` gives back what storage made of the event: text through UTF-8, metadata up to key order. */
  predicate IsStored(d: Detail, e: Event) {
    && d.prompt == Utf8.ToWellFormed(e.prompt) && d.output == Utf8.ToWellFormed(e.output)
    && d.modelId == Utf8.ToWellFormed(e.modelId) && d.workflowId == StoredOption(e.workflowId.Known())
    && d.metadata.Some? == e.metadata.Present?
    && (d.metadata.Some? ==>
          && d.metadata.value.Object? && Valid(d.metadata.value)
          && SortKeys(d.metadata.value) == SortKeys(e.metadata.value))
  }

  lemma StoredMetadata(d: Detail, e: Event)
    requires ValidEvent(e) && IsStored(d, e)
    ensures SameOption({PROTO}, Given(d.metadata).Known(), e.metadata.Known())
  {
    if d.metadata.Some? {
      SortKeysInvariant(d.metadata.value, e.metadata.value);
    }
  }

  lemma StoredTexts(d: Detail, e: Event)
    requires IsStored(d, e)
    ensures WellFormedEvent(e) <==>
            d.prompt == e.prompt && d.output == e.output && d.modelId == e.modelId
            && Given(d.workflowId).Known() == e.workflowId.Known()
  {
    Utf8.ToWellFormedKeeps(e.prompt);
    Utf8.ToWellFormedKeeps(e.output);
    Utf8.ToWellFormedKeeps(e.modelId);
    if e.workflowId.Present? {
      Utf8.ToWellFormedKeeps(e.workflowId.value);
    }
  }

  /** The stored event has the canonical string of the submitted one exactly when no text was altered. */
  lemma StoredForm(d: Detail, e: Event)
    requires ValidEvent(e) && IsStored(d, e)
    ensures ParseTimestamp(e.timestamp) == Some(d.timestamp) ==>
              (CanonicalForm(DetailEvent(d)) == CanonicalForm(e) <==> WellFormedEvent(e))
  {
    StoredMetadata(d, e);
    StoredTexts(d, e);
    if ParseTimestamp(e.timestamp) == Some(d.timestamp) {
      assert ParseTimestamp(ToIsoString(d.timestamp)) == Some(d.timestamp) by { ParsesTimestamp(d.timestamp, Utc); }
      CanonicalFormInvariant(DetailEvent(d), e);
    }
  }

  /** The hash tells the canonical strings of two events apart. */
  predicate NoCollision(sha256: Text -> Text, e: Event, f: Event) {
    HashOf(sha256, e) == HashOf(sha256, f) ==> CanonicalForm(e) == CanonicalForm(f)
  }

  /**
   Hashing the detail again gives its canonical hash exactly when no submitted
   text has an unpaired surrogate; one half needs the hash not to collide on
   the two strings.
   */
  predicate VerifiesAgainst(sha256: Text -> Text, d: Detail, e: Event) {
    var again := Some(HashOf(sha256, DetailEvent(d)));
    && (WellFormedEvent(e) ==> again == d.canonicalHash)
    && (NoCollision(sha256, DetailEvent(d), e) && again == d.canonicalHash ==> WellFormedEvent(e))
  }

  lemma StoredVerifies(sha256: Text -> Text, d: Detail, e: Event)
    requires CanonicalForm(DetailEvent(d)) == CanonicalForm(e) <==> WellFormedEvent(e)
    requires d.canonicalHash == Some(HashOf(sha256, e))
    ensures VerifiesAgainst(sha256, d, e)
  {
  }

  lemma DetailIsStored(env: Env, s: State, id: Text, org: Text, user: Option<Text>)
    requires Inv(env, s) && Visible(s.rows, id, org, user).Some? && s.rows[id].status != PROCESSING
    ensures id in s.history && ValidEvent(s.history[id].original)
    ensures var e := s.history[id].original;
            var answer := GetById(env, s.rows, id, org, user);
            && answer.Found? && IsStored(answer.value, e)
            && env.instantOf(e.timestamp) == Some(answer.value.timestamp)
            && answer.value.canonicalHash == Some(env.digest(e))
  {
    assert RowOk(env, id, s.rows[id], s.history[id], s.records);
  }

  lemma StateVerifies(env: Env, cipher: Encryption.Cipher, sha256: Text -> Text, s: State,
                      id: Text, org: Text, user: Option<Text>)
    requires Genuine(env, cipher, sha256) && Inv(env, s)
    requires Visible(s.rows, id, org, user).Some? && s.rows[id].status != PROCESSING
    ensures id in s.history && GetById(env, s.rows, id, org, user).Found?
    ensures VerifiesAgainst(sha256, GetById(env, s.rows, id, org, user).value, s.history[id].original)
  {
    DetailIsStored(env, s, id, org, user);
    var d, e := GetById(env, s.rows, id, org, user).value, s.history[id].original;
    assert ParseTimestamp(e.timestamp) == env.instantOf(e.timestamp);
    StoredForm(d, e);
    StoredVerifies(sha256, d, e);
  }

  /** In every state of every run a row past PROCESSING is verifiable end to end. */
  lemma DetailVerifies(env: Env, cipher: Encryption.Cipher, sha256: Text -> Text, states: seq<State>, steps: seq<Step>,
                       i: nat, id: Text, org: Text, user: Option<Text>)
    requires Genuine(env, cipher, sha256) && IsRun(env, states, steps) && i < |states|
    ensures var s := states[i];
            Visible(s.rows, id, org, user).Some? && s.rows[id].status != PROCESSING ==>
              && id in s.history && GetById(env, s.rows, id, org, user).Found?
              && VerifiesAgainst(sha256, GetById(env, s.rows, id, org, user).value, s.history[id].original)
  {
    GenuineRunKeepsInv(env, cipher, sha256, states, steps, i);
    if Visible(states[i].rows, id, org, user).Some? && states[i].rows[id].status != PROCESSING {
      StateVerifies(env, cipher, sha256, states[i], id, org, user);
    }
  }

  // ---------------------------------------------------------------------------
  // Verification answers
  // ---------------------------------------------------------------------------

  /** A valid event has a hash, and a hash has digits. */
  lemma DigestsHaveDigits(env: Env, cipher: Encryption.Cipher, sha256: Text -> Text, e: Event)
    requires Genuine(env, cipher, sha256) && (forall t :: sha256(t) != [])
    ensures env.instantOf(e.timestamp).Some? ==> env.digest(e) != []
  {
    assert env.digest(e) == HashOf(sha256, e) && env.instantOf(e.timestamp) == ParseTimestamp(e.timestamp);
  }

  /** What `getVerification` looks for in a row. */
  predicate IsVerifiable(row: Row, id: Text, chainId: int, records: map<Text, Record>) {
    && row.txHash.Some? && row.txHash.value != []
    && row.blockNumber.Some? && row.anchoredAt.Some?
    && row.chainId == Some(chainId)
    && row.canonicalHash.Some? && row.canonicalHash.value != []
    && row.txHash.value in records && records[row.txHash.value] == RecordFor(row.canonicalHash.value, id)
  }

  lemma AnchoredIsVerifiable(env: Env, s: State, id: Text)
    requires Inv(env, s) && id in s.rows && s.rows[id].status == ANCHORED
    requires forall e: Event :: env.instantOf(e.timestamp).Some? ==> env.digest(e) != []
    ensures IsVerifiable(s.rows[id], id, env.chainId, s.records)
  {
    assert RowOk(env, id, s.rows[id], s.history[id], s.records);
  }

  /** `getVerification` succeeds exactly on ANCHORED rows a caller may see, and what it returns is on the chain. */
  predicate AnswersExactly(rows: Rows, records: map<Text, Record>, id: Text, org: Text, user: Option<Text>) {
    var answer := GetVerification(rows, id, org, user);
    var row := Visible(rows, id, org, user);
    && (answer.NotFound? <==> row.None?)
    && (answer.Found? <==> row.Some? && row.value.status == ANCHORED)
    && (answer.Unprocessable? <==> row.Some? && row.value.status != ANCHORED)
    && (answer.Found? ==>
          && answer.value.txHash in records
          && records[answer.value.txHash] == RecordFor(answer.value.canonicalHash, id)
          && answer.value.chainId in {8453, 84532})
  }

  lemma VerifiableAnswer(rows: Rows, records: map<Text, Record>, chainId: int, id: Text, org: Text, user: Option<Text>)
    requires id in rows && rows[id].status == ANCHORED ==> IsVerifiable(rows[id], id, chainId, records)
    requires chainId in SUPPORTED_CHAINS
    ensures AnswersExactly(rows, records, id, org, user)
  {
  }

  /** In every state of every run `getVerification` answers for exactly the ANCHORED rows. */
  lemma VerificationExactlyAnchored(env: Env, cipher: Encryption.Cipher, sha256: Text -> Text,
                                    states: seq<State>, steps: seq<Step>, i: nat,
                                    id: Text, org: Text, user: Option<Text>)
    requires Genuine(env, cipher, sha256) && (forall t :: sha256(t) != [])
    requires IsRun(env, states, steps) && i < |states|
    ensures AnswersExactly(states[i].rows, states[i].records, id, org, user)
  {
    GenuineRunKeepsInv(env, cipher, sha256, states, steps, i);
    forall e: Event ensures env.instantOf(e.timestamp).Some? ==> env.digest(e) != [] {
      DigestsHaveDigits(env, cipher, sha256, e);
    }
    if id in states[i].rows && states[i].rows[id].status == ANCHORED {
      AnchoredIsVerifiable(env, states[i], id);
    }
    VerifiableAnswer(states[i].rows, states[i].records, env.chainId, id, org, user);
  }

  // ---------------------------------------------------------------------------
  // Answers, column by column
  // ---------------------------------------------------------------------------

  /** A caller who names a user sees that user's events only, one who names none the whole organisation's. */
  predicate InScope(rows: Rows, id: Text, org: Text, user: Option<Text>) {
    && id in rows && rows[id].orgId == org
    && (user.None? || user.value == [] || rows[id].userId == user)
  }

  lemma DetailColumns(env: Env, rows: Rows, id: Text, org: Text, user: Option<Text>)
    ensures var answer := GetById(env, rows, id, org, user);
            && (answer.NotFound? <==> !InScope(rows, id, org, user))
            && (answer.Found? ==>
                  var d, row := answer.value, rows[id];
                  && env.decrypt(row.prompt) == Some(d.prompt) && env.decrypt(row.output) == Some(d.output)
                  && d.eventId == id && d.orgId == org && d.userId == row.userId && d.modelId == row.modelId
                  && d.workflowId == row.workflowId && d.metadata == row.metadata && d.timestamp == row.timestamp
                  && d.canonicalHash == row.canonicalHash && d.status == row.status && d.txHash == row.txHash
                  && d.blockNumber == row.blockNumber && d.chainId == row.chainId && d.anchoredAt == row.anchoredAt)
  {
  }

  lemma VerificationColumns(rows: Rows, id: Text, org: Text, user: Option<Text>)
    ensures var answer := GetVerification(rows, id, org, user);
            && (answer.NotFound? <==> !InScope(rows, id, org, user))
            && (answer.Unprocessable? ==> id in rows && answer.status == rows[id].status)
            && (answer.Found? ==>
                  var v, row := answer.value, rows[id];
                  && v.eventId == id && row.status == ANCHORED
                  && row.canonicalHash == Some(v.canonicalHash) && row.txHash == Some(v.txHash)
                  && row.blockNumber == Some(v.blockNumber) && row.chainId == Some(v.chainId)
                  && row.anchoredAt == Some(v.anchoredAt))
  {
  }
}
