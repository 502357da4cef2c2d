/**
 Runs that exist: every event with a valid date reaches ANCHORED, and one that
 does cannot be verified afterwards.
 */
module PipelineWitness {
  import opened Text
  import opened Instant
  import opened Canonical
  import opened Events
  import opened Services
  import opened Pipeline
  import opened PipelineSafety
  import opened PipelineCalls
  import opened EventQuery
  import Backoff
  import Encryption
  import Utf8

  /** An identifier of the form the database generates. */
  const ID: Text := seq(36, i => if IsDashPosition(i) then DASH else 0x30)

  const TX: Text := [0x30]

  /** The chain answers at once. */
  const SUBMIT: nat -> Backoff.Outcome<Text> := _ => Backoff.Returned(TX)
  const CONFIRM: nat -> Backoff.Outcome<nat> := _ => Backoff.Returned(0)
  const RECEIPT := Receipt(TX, 0, 0)

  /** A cipher that seals by copying. */
  const PLAIN := Encryption.Cipher((iv, p) => (seq(Encryption.TAG_LENGTH, _ => 0), p), (iv, tag, body) => Some(body))

  lemma PlainInverts()
    ensures Encryption.Inverts(PLAIN)
  {
  }

  lemma AnswersAtOnce(env: Env)
    requires env.maxAttempts > 0
    ensures TryEnds(env, SUBMIT, CONFIRM, Backoff.Returned(0), Backoff.Returned(RECEIPT))
    ensures forall tx :: Backoff.EndsWith(SUBMIT, env.maxAttempts, env.isRetryable, Backoff.Returned(tx)) ==> tx == TX
  {
    assert Backoff.StopsAfter(SUBMIT, env.maxAttempts, env.isRetryable, 1);
    assert Backoff.StopsAfter(CONFIRM, env.maxAttempts, env.isRetryable, 1);
    assert Backoff.EndsWith(SUBMIT, env.maxAttempts, env.isRetryable, Backoff.Returned(TX));
    assert Backoff.EndsWith(CONFIRM, env.maxAttempts, env.isRetryable, Backoff.Returned(0));
    assert ConfirmEnds(env, TX, CONFIRM, Backoff.Returned(0), Backoff.Returned(RECEIPT));
  }

  /** The run that installs the processing service. */
  lemma ServiceStarts(env: Env) returns (states: seq<State>, steps: seq<Step>)
    ensures IsRun(env, states, steps) && states[|steps|] == INITIAL.(service := true)
  {
    steps := [SetService(true)];
    states := [INITIAL, INITIAL.(service := true)];
    assert Next(env, INITIAL, SetService(true)) == INITIAL.(service := true);
  }

  lemma FirstLands(r: Record)
    ensures CanLand(map[], TX, r)
  {
  }

  lemma RunsToAnchored(env: Env, cipher: Encryption.Cipher, sha256: Text -> Text, e: Event, org: Text)
    returns (states: seq<State>, steps: seq<Step>)
    requires Genuine(env, cipher, sha256) && env.maxAttempts > 0
    requires ValidEvent(e) && env.instantOf(e.timestamp).Some?
    ensures IsRun(env, states, steps)
    ensures var rows := states[|steps|].rows;
            ID in rows && rows[ID].status == ANCHORED && rows[ID].canonicalHash == Some(env.digest(e))
  {
    var iv: Bytes := seq(Encryption.IV_LENGTH, _ => 0);
    var t := env.instantOf(e.timestamp).value;
    var input := Input(org, None, None, e);
    states, steps := ServiceStarts(env);
    AnswersAtOnce(env);
    FirstLands(RecordFor(env.digest(e), ID));
    states, steps := EventCanBeAnchored(env, cipher, sha256, states, steps, 0, input, ID, t, 0, iv, iv,
                                        SUBMIT, CONFIRM, RECEIPT);
  }

  /**
   With any inverting cipher and any hash, every event with a valid date has a
   genuine run that ends with it ANCHORED.
   */
  lemma EventReachesAnchored(cipher: Encryption.Cipher, sha256: Text -> Text, e: Event, org: Text)
    returns (env: Env, states: seq<State>, steps: seq<Step>)
    requires Encryption.Inverts(cipher) && ValidEvent(e)
    ensures ParseTimestamp(e.timestamp).Some? ==>
              && Genuine(env, cipher, sha256) && IsRun(env, states, steps)
              && var rows := states[|steps|].rows;
                 ID in rows && rows[ID].status == ANCHORED && rows[ID].canonicalHash == Some(env.digest(e))
  {
    env := GenuineExists(cipher, sha256, 3, 8453);
    assert env.instantOf(e.timestamp) == ParseTimestamp(e.timestamp);
    states, steps := [], [];
    if env.instantOf(e.timestamp).Some? {
      states, steps := RunsToAnchored(env, cipher, sha256, e, org);
    }
  }

  // ---------------------------------------------------------------------------
  // An event that cannot be verified
  // ---------------------------------------------------------------------------

  /** A hash without collisions. */
  const SHA: Text -> Text := t => [0x30] + t

  lemma ShaTellsApart(e: Event, f: Event)
    ensures NoCollision(SHA, e, f)
  {
    match (CanonicalForm(e), CanonicalForm(f))
    case (Some(x), Some(y)) =>
      if SHA(x) == SHA(y) {
        assert x == ([0x30] + x)[1..] == ([0x30] + y)[1..] == y;
      }
    case _ =>
  }

  /** A prompt of one unpaired surrogate. */
  function LoneEvent(stamp: Text): Event {
    Event([0xD800], [], [], stamp, Undefined, Undefined)
  }

  lemma LoneEventIsIllFormed(stamp: Text)
    ensures ValidEvent(LoneEvent(stamp)) && !Utf8.WellFormed(LoneEvent(stamp).prompt)
  {
  }

  lemma SomeStamp(env: Env, t: Instant) returns (stamp: Text)
    requires Genuine(env, PLAIN, SHA)
    ensures env.instantOf(stamp) == Some(t)
  {
    stamp := ToIsoString(t);
    ParsesTimestamp(t, Utc);
  }

  /** The event behind a canonical hash has the prompt that was hashed. */
  lemma SameDigestSamePrompt(env: Env, e: Event, f: Event)
    requires Genuine(env, PLAIN, SHA) && ValidEvent(e) && ValidEvent(f) && env.instantOf(e.timestamp).Some?
    ensures env.digest(e) == env.digest(f) ==> e.prompt == f.prompt
  {
    assert env.digest(e) == HashOf(SHA, e) && env.digest(f) == HashOf(SHA, f);
    assert env.instantOf(e.timestamp) == ParseTimestamp(e.timestamp);
    ShaTellsApart(e, f);
    CanonicalFormInvariant(e, f);
  }

  /** `d` is what storage makes of an event whose prompt has an unpaired surrogate. */
  predicate IsAltered(env: Env, d: Detail, e: Event) {
    && ValidEvent(e) && IsStored(d, e) && env.instantOf(e.timestamp) == Some(d.timestamp)
    && !Utf8.WellFormed(e.prompt)
  }

  lemma StoredDigestDiffers(env: Env, d: Detail, e: Event)
    requires Genuine(env, PLAIN, SHA) && IsAltered(env, d, e)
    ensures env.digest(DetailEvent(d)) != env.digest(e)
  {
    var f := DetailEvent(d);
    assert env.digest(e) == HashOf(SHA, e) && env.digest(f) == HashOf(SHA, f);
    assert env.instantOf(e.timestamp) == ParseTimestamp(e.timestamp);
    ShaTellsApart(f, e);
    StoredForm(d, e);
  }

  /** The detail of a row does not hash to the row's canonical hash. */
  predicate FailsToVerify(env: Env, rows: Rows, id: Text) {
    && id in rows
    && var answer := GetById(env, rows, id, rows[id].orgId, None);
       answer.Found? && Some(env.digest(DetailEvent(answer.value))) != answer.value.canonicalHash
  }

  lemma StateFails(env: Env, s: State, id: Text, e: Event)
    requires Inv(env, s) && id in s.rows && s.rows[id].status == ANCHORED
    requires s.rows[id].canonicalHash == Some(env.digest(e)) && !Utf8.WellFormed(e.prompt)
    requires forall f :: ValidEvent(f) && env.digest(e) == env.digest(f) ==> e.prompt == f.prompt
    requires forall d, f :: IsAltered(env, d, f) ==> env.digest(DetailEvent(d)) != env.digest(f)
    ensures FailsToVerify(env, s.rows, id)
  {
    DetailIsStored(env, s, id, s.rows[id].orgId, None);
    var d, f := GetById(env, s.rows, id, s.rows[id].orgId, None).value, s.history[id].original;
    assert IsAltered(env, d, f);
  }

  /** An event that is ANCHORED and whose stored detail does not hash to its canonical hash. */
  lemma UnverifiableAnchored() returns (env: Env, states: seq<State>, steps: seq<Step>)
    ensures Genuine(env, PLAIN, SHA) && IsRun(env, states, steps)
    ensures var rows := states[|steps|].rows;
            ID in rows && rows[ID].status == ANCHORED && FailsToVerify(env, rows, ID)
  {
    PlainInverts();
    env := GenuineExists(PLAIN, SHA, 3, 8453);
    var stamp := SomeStamp(env, 0);
    var e := LoneEvent(stamp);
    LoneEventIsIllFormed(stamp);
    states, steps := RunsToAnchored(env, PLAIN, SHA, e, []);
    GenuineRunKeepsInv(env, PLAIN, SHA, states, steps, |steps|);
    LoneStateFails(env, states[|steps|], ID, e);
  }

  lemma LoneStateFails(env: Env, s: State, id: Text, e: Event)
    requires Genuine(env, PLAIN, SHA) && Inv(env, s) && id in s.rows && s.rows[id].status == ANCHORED
    requires s.rows[id].canonicalHash == Some(env.digest(e))
    requires ValidEvent(e) && env.instantOf(e.timestamp).Some? && !Utf8.WellFormed(e.prompt)
    ensures FailsToVerify(env, s.rows, id)
  {
    forall f | ValidEvent(f) ensures env.digest(e) == env.digest(f) ==> e.prompt == f.prompt {
      SameDigestSamePrompt(env, e, f);
    }
    forall d, f | IsAltered(env, d, f) ensures env.digest(DetailEvent(d)) != env.digest(f) {
      StoredDigestDiffers(env, d, f);
    }
    StateFails(env, s, id, e);
  }
}
