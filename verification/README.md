# Hashira: a verified model of the anchoring back end

Hashira records AI interaction events. Each event is turned into a canonical
string, hashed, stored encrypted, and registered on a blockchain so that anyone
can check it later. This project models the parts of the back end on which that
promise rests and proves properties of them, for all inputs and all runs.

| file | what it models |
|---|---|
| Text.dfy, KeyOrder.dfy | UTF-16 text, decimal and hexadecimal digits, the order in which object keys are printed |
| Json.dfy, JsonText.dfy, JsonSpelling.dfy | JSON values, the recursive key sort, `JSON.stringify`, a reader for its output, and which of all spellings is printed |
| Instant.dfy, Timestamps.dfy, TimestampTexts.dfy | `new Date(text)` and `toISOString`, what calendar, offsets and fractions mean, and which texts are timestamps |
| Canonical.dfy, CanonicalLayout.dfy | `CanonicalisationService`, and its string written out |
| Utf8.dfy, Encryption.dfy | the `utf8` encoding, base64 and hexadecimal framing, `encrypt`/`decrypt` and the TOTP pair |
| Signing.dfy | the DER readers and the recovery-bit search of `BlockchainSigningService` |
| Backoff.dfy | the retry loop and its classification of errors |
| Events.dfy, Services.dfy | the events table and its repository; `ingest`, `process` and `anchorEvent` as whole calls |
| Pipeline.dfy | the same three calls cut at their awaits, with the queue, the worker, the database and the registry, as one system of interleaved steps |
| PipelineSafety.dfy, PipelineResults.dfy, PipelineLiveness.dfy | its invariant, what follows from it, and why it comes to rest |
| PipelineBooks.dfy | the counts kept beside the system are those of its run |
| PipelineCalls.dfy | the whole calls as paths of that system |
| PipelineWitness.dfy | runs that exist: every valid event reaches ANCHORED, one of them unverifiable |
| EventQuery.dfy, EventList.dfy | `getById`, `getVerification`, and paged listing |
| Limiter.dfy | the failure windows of login and reset confirmation |
| Refresh.dfy, Otp.dfy | refresh-token rotation and one-time codes |

Beside the theorems about whole runs, each calculation has a lemma that says
what it computes in other terms, with the numbers and names written out: the
spelling of JSON, the calendar, the order of keys, the bytes that are stored,
the limits, and the columns of every row and answer.

The module prefixes below name the files. What a theorem about the pipeline
assumes of the services is the predicate `Pipeline.Genuine`, which ties them to
their models here and which services for every inverting cipher and every hash
satisfy (`Pipeline.GenuineExists`); the runs it speaks of are those of
`Pipeline.IsRun`, and they take every event with a valid date to ANCHORED
(`PipelineWitness.EventReachesAnchored`).

## What came out differently from the documentation

- The canonical string is a complete invariant only up to `__proto__` entries.
  `sorted[key] = …` makes no own property for that key, so a nested
  `__proto__` entry vanishes before hashing (`Json.ProtoCollision`).
  `Json.SortKeysLossless` gives the exact condition and
  `Canonical.CanonicalFormInvariant` the exact meaning of equal strings.
- The repository's README says keys are sorted alphabetically and nulls are
  stripped. The code prints array-index keys first, in numeric order
  (`Canonical.NotAlphabetical`, `Canonical.AlphabeticalExactly`), and drops only
  a null `workflow_id` or `metadata`; nested nulls stay.
- Text that holds an unpaired surrogate does not survive `encrypt` and
  `decrypt`, nor a text column: UTF-8 replaces it
  (`Encryption.LoneSurrogateLost`, `Encryption.DecryptsExactly`). The hash is
  taken of the original text, so such an event cannot be verified from what is
  stored: `PipelineWitness.UnverifiableAnchored` is a run that ends with one, and
  `EventQuery.DetailVerifies` gives the exact condition.
- The failure window admits at most `2 * limit - 1` failures in any five
  minutes, one fewer than two full windows, and `Limiter.SpanBoundIsTight`
  reaches that number. With `k` calls in flight the bound is
  `2 * (limit - 1 + k) - 1`, and it is reached too
  (`Limiter.InterleavedSpanBound`, `Limiter.InterleavedSpanBoundIsTight`).
- `parseDerPublicKey` does not check that there are 65 bytes
  (`Signing.PublicKeyRoundTrip`): a lone tag byte is accepted
  (`Signing.ShortKeyAccepted`).
- The list shows the e-mail of an owner who was removed or moved to another
  organisation, the detail does not (`EventList.EmailsAgreeExactly`).

## Assumptions

- SHA-256 is a function parameter; where two hashes must differ the lemma asks
  that it not collide on the two strings at hand. The cipher is a pair of
  functions that invert each other.
- A single row update is atomic or has no effect, and so is a transaction.
  Text columns hold UTF-8, so an unpaired surrogate comes back replaced; the
  jsonb column keeps its values and may permute object keys.
- A job is delivered once, and an `add` to the queue that throws has left no job.
  The registry rejects a hash or event id it has seen,
  and a transaction hash that is returned belongs to a call that takes effect.
  A call that throws may still have taken effect.
- The chain is one that `resolveChain` knows, 8453 or 84532: with any other the
  worker does not start.
- Clocks, random bytes, generated identifiers and the answers of other systems
  are parameters of the steps.

## Model

| member | source | states |
|---|---|---|
| KeyOrder.BeforeTotal | src/services/CanonicalisationService.ts:40-44 | any two distinct keys are ordered by the order in which a sorted plain object lists them, array indices by value and other keys by code unit |
| KeyOrder.BeforeTransitive | src/services/CanonicalisationService.ts:40-44 | that order is transitive across index and other keys |
| KeyOrder.LexLessExactly | src/services/CanonicalisationService.ts:40 | a key precedes those it begins, and otherwise goes by the first code unit in which they differ |
| KeyOrder.IndexExactly | src/services/CanonicalisationService.ts:40-44 | the array indices are the decimals of 0 to 4294967294 |
| Text.DecimalPlaces | src/services/CanonicalisationService.ts:40-44 | a further decimal digit multiplies by ten and adds its value |
| Json.SortedUnique | src/services/CanonicalisationService.ts:38-46 | a sorted object is determined by its entries, so the result cannot depend on the input order |
| Json.SortedObject | src/services/CanonicalisationService.ts:38-46 | the sorted object is strictly ordered and holds the multiset of surviving entries |
| Json.KeyPositions | src/services/CanonicalisationService.ts:38-46 | where two keys of a sorted object stand follows from the keys: indices first and by number, others by code unit |
| Json.SortKeysInvariant | src/services/CanonicalisationService.ts:34-48 | two values have the same sorted form exactly when they are equal up to key order at every depth and `__proto__` entries |
| Json.SortKeysIdempotent | src/services/CanonicalisationService.ts:34-48 | sorting twice is sorting once |
| Json.SortKeysLossless | src/services/CanonicalisationService.ts:39-45 | sorting loses nothing but key order exactly when no `__proto__` key occurs at any depth |
| Json.ProtoCollision | src/services/CanonicalisationService.ts:41-43 | two different objects with the same sorted form |
| JsonText.ReadsValue | src/services/CanonicalisationService.ts:27 | a reader of RFC 8259 applied to printed text returns the value and leaves exactly what follows it |
| JsonText.StringifyInjective | src/services/CanonicalisationService.ts:27 | different values print differently |
| JsonSpelling.StringShortest | src/services/CanonicalisationService.ts:27 | no text that reads as a well-formed string is shorter than the printed one |
| JsonSpelling.ShortEscapes | src/services/CanonicalisationService.ts:27 | quotation mark, reverse solidus, newline, return, tab, backspace and form feed have two-unit escapes |
| JsonSpelling.LongEscapes | src/services/CanonicalisationService.ts:27 | other control characters and lone surrogates are escaped in four small hexadecimal digits, everything else stands for itself |
| JsonSpelling.UnitByUnit | src/services/CanonicalisationService.ts:27 | a unit that is not half of a pair is spelled on its own |
| JsonSpelling.PairStays | src/services/CanonicalisationService.ts:27 | the two units of a character outside the basic plane stay as they are |
| JsonSpelling.LiteralNames | src/services/CanonicalisationService.ts:27 | `null`, `true`, `false` and the quotation marks |
| JsonSpelling.ArrayLayout | src/services/CanonicalisationService.ts:27 | items between brackets, joined by commas without white space |
| JsonSpelling.ObjectLayout | src/services/CanonicalisationService.ts:27 | members between braces, name and value joined by a colon |
| Instant.CivilOfMillis | src/services/CanonicalisationService.ts:16 | the calendar reading of an instant is unique |
| Instant.IsoLayout | src/services/CanonicalisationService.ts:16 | each field of the printed instant stands at its fixed place with its fixed width, after a year of four digits or of a sign and six |
| Instant.ParsesWritten | src/services/CanonicalisationService.ts:16 | a date alone, or with a time to the minute, the second or any number of fraction digits in any offset, midnight as hour 0 or 24, is read back as the instant it writes |
| TimestampTexts.ReadsExactly | src/services/CanonicalisationService.ts:16 | a text is read as an instant exactly when it spells it, years of four digits or of a sign and six |
| Timestamps.DaysCount | src/services/CanonicalisationService.ts:16 | each calendar day is 86400000 ms after the one before, counted from 1970-01-01T00:00:00Z |
| Timestamps.MonthLengths | src/services/CanonicalisationService.ts:16 | months have the Gregorian lengths |
| Timestamps.ClockCounts | src/services/CanonicalisationService.ts:16 | hours, minutes and seconds count 3600000, 60000 and 1000 ms |
| Timestamps.UtcMeaning | src/services/CanonicalisationService.ts:16 | a UTC text is that count, or invalid beyond a hundred million days |
| Timestamps.OffsetMoves | src/services/CanonicalisationService.ts:16 | an eastern offset of h:m is read (60h + m) minutes before the same clock in UTC, a western one as much after |
| Timestamps.OffsetSpelling | src/services/CanonicalisationService.ts:16 | an offset is a sign, two digits of hours, a colon and two of minutes; UTC is `Z` |
| Timestamps.FractionMeaning | src/services/CanonicalisationService.ts:16 | a fraction counts its whole milliseconds, rounded down |
| Canonical.SortKeysRecursive | src/services/CanonicalisationService.ts:34-48 | the recursive copy computes the sorted form |
| Canonical.SortFields | src/services/CanonicalisationService.ts:39-45 | assigning properties in code-unit order leaves them in printing order, each once, `__proto__` dropped |
| Canonical.Canonicalise | src/services/CanonicalisationService.ts:4-28 | the record filled by conditional assignment, sorted and printed, is the canonical form; an invalid date yields none |
| CanonicalLayout.CanonicalString | src/services/CanonicalisationService.ts:12-27 | the canonical string written out: metadata, model_id, output, prompt, timestamp, workflow_id by name, the options only when present |
| Canonical.AlphabeticalExactly | src/services/CanonicalisationService.ts:40-44 | printed keys are alphabetical exactly when the array indices among them allow it |
| Canonical.NotAlphabetical | README.md:101 | an object whose keys are not printed alphabetically |
| Canonical.CanonicalFormInvariant | src/services/CanonicalisationService.ts:4-48 | canonical strings are equal exactly when prompt, output, model, instant and workflow agree and metadata agrees up to key order and `__proto__` entries, null and absent options identified |
| Canonical.CanonicalFormIdentifies | src/services/CanonicalisationService.ts:4-48 | without `__proto__` keys the string identifies the event up to key order alone |
| Canonical.OffsetIrrelevant | src/services/CanonicalisationService.ts:16 | an instant written in any two ways, whatever the offsets, gives the same string |
| Canonical.ReadsEvent | src/services/CanonicalisationService.ts:12-27 | the string alone rebuilds the event, each field from its own key |
| Canonical.CanonicalFormStable | src/services/CanonicalisationService.ts:4-48 | canonicalising what was read gives the same string |
| Utf8.DecodesEncoding | src/utils/encryption.ts:26-29 | decoding an encoded text gives it with each unpaired surrogate replaced |
| Utf8.ReplacesUnpaired | src/utils/encryption.ts:26-29 | exactly the surrogates without their partner beside them are replaced, by U+FFFD |
| Utf8.WellFormedExactly | src/utils/encryption.ts:26-29 | a text is well-formed exactly when it has no unpaired surrogate |
| Utf8.UnitBytes | src/utils/encryption.ts:26-29 | a unit of the basic plane in one, two or three bytes of its bits |
| Utf8.PairLayout | src/utils/encryption.ts:26-29 | a surrogate pair as one code point in four bytes |
| Encryption.Base64RoundTrip | src/utils/encryption.ts:31-37 | base64 decoding inverts encoding for every byte sequence |
| Encryption.Base64Alphabet | src/utils/encryption.ts:31 | the digits of base64 |
| Encryption.Base64Bits | src/utils/encryption.ts:31 | three bytes are one number in four digits; a short group is padded |
| Encryption.Base64Groups | src/utils/encryption.ts:31 | groups of three bytes in order |
| Encryption.FrameLayout | src/utils/encryption.ts:19-32 | twelve bytes of nonce, sixteen of tag and the body, in base64; the empty text stays empty |
| Encryption.DecryptEncrypt | src/utils/encryption.ts:19-46 | the frame is taken apart exactly, so decryption returns the text as UTF-8 can carry it |
| Encryption.DecryptsExactly | src/utils/encryption.ts:19-46 | a text survives encryption exactly when it has no unpaired surrogate |
| Encryption.LoneSurrogateLost | src/utils/encryption.ts:19-46 | a text that does not survive |
| Encryption.TotpRoundTrip | src/utils/totp-encryption.ts:13-38 | splitting on ':' recovers the three fields and the secret |
| Encryption.TotpLayout | src/utils/totp-encryption.ts:13-24 | nonce, tag and body in hexadecimal between colons |
| Encryption.TotpRefuses | src/utils/totp-encryption.ts:26-29 | a stored secret without exactly two colons is refused |
| Signing.ReadIntegers | src/services/BlockchainSigningService.ts:60-98 | the offset-driven reader computes the two INTEGER contents, or reports which tag was missing, on every byte sequence |
| Signing.ReadMeaning | src/services/BlockchainSigningService.ts:74-98 | an INTEGER is what its length byte announces, less one leading zero |
| Signing.RefusalMeaning | src/services/BlockchainSigningService.ts:60-78 | which tag is missing |
| Signing.ParseDerSignature | src/services/BlockchainSigningService.ts:60-104 | each integer leaves the reader as a padded hexadecimal word |
| Signing.ParsesEncodedSignature | src/services/BlockchainSigningService.ts:60-104 | every pair below 2^256 is read back from its DER encoding as two 64-digit words, for short and long headers and any trailing bytes |
| Signing.IntegerMeaning | src/services/BlockchainSigningService.ts:60-104 | the encoding read is the shortest of that number with tag 2, its length and a clear sign bit |
| Signing.PadHexValue | src/services/BlockchainSigningService.ts:100-101 | the 64 digits denote the number |
| Signing.ParsedSignatureUnique | src/services/BlockchainSigningService.ts:60-104 | encodings are read as the same words exactly when they encode the same signature |
| Signing.PublicKeyRoundTrip | src/services/BlockchainSigningService.ts:106-115 | a point is found after any prefix, and an accepted key ends in one exactly when it has 65 bytes |
| Signing.ShortKeyAccepted | src/services/BlockchainSigningService.ts:106-115 | a single tag byte is accepted as a key |
| Signing.RecoverV | src/services/BlockchainSigningService.ts:117-142 | the first of 27 and 28 that recovers the signer, none only if neither does |
| Signing.RecoversExactly | src/services/BlockchainSigningService.ts:117-142 | addresses are compared without regard to letter case |
| Backoff.WithExponentialBackoff | src/utils/withExponentialBackoff.ts:58-81 | the loop stops at the first success, the first final error or the last attempt, having slept the sum of its capped delays |
| Backoff.StopIsUnique | src/utils/withExponentialBackoff.ts:68-78 | the outcomes alone determine the number of calls |
| Backoff.TotalDelayBound | src/utils/withExponentialBackoff.ts:75-76 | the total sleep is below the doubling sum and below the cap times the retries |
| Backoff.DelayDoubles | src/utils/withExponentialBackoff.ts:75-76 | the first pause is the base, each further one double, none above the cap |
| Backoff.TotalDelayAdds | src/utils/withExponentialBackoff.ts:75-76 | each retry adds the pause before it, one call needs none |
| Backoff.DenyListedStops | src/utils/withExponentialBackoff.ts:44-53 | a call failing with a deny-listed message is never retried |
| Backoff.RetryableExactly | src/utils/withExponentialBackoff.ts:16-53 | retried exactly when no deny-listed pattern occurs and the code or a pattern is on the allow list |
| Backoff.IncludesExactly | src/utils/withExponentialBackoff.ts:50-52 | a pattern occurs when the message is something, the pattern, and something |
| Backoff.UpperLetters | src/utils/withExponentialBackoff.ts:48 | small letters of a code count as capitals |
| Text.LowerLetters | src/utils/withExponentialBackoff.ts:47 | capitals of a message count as small letters |
| Events.EventRepository.FindEventByIdempotencyKey | src/repositories/event.repository.ts:18-25 | finds a row of the key, the only one under the unique index, or proves there is none |
| Events.EventRepository.CreateEvent | src/repositories/event.repository.ts:93-110 | inserts exactly when the index allows it and keeps keys unique |
| Events.EventRepository.UpdateEventToAnchoring | src/repositories/event.repository.ts:36-48 | changes four columns of at most one row |
| Events.EventRepository.UpdateEventToAnchored | src/repositories/event.repository.ts:60-73 | changes five columns of at most one row |
| Events.EventRepository.UpdateEventToAnchorFailed | src/repositories/event.repository.ts:81-91 | changes two columns of at most one row |
| Events.NewRowColumns | src/repositories/event.repository.ts:93-110 | a new row column by column |
| Events.UpdatedColumns | src/repositories/event.repository.ts:36-91 | each update sets its own columns and no other |
| Events.UpdateMeaning | src/repositories/event.repository.ts:36-91 | an update reaches the row of its identifier and organisation only |
| Events.EncodeEventIdInjective | src/services/BlockchainAnchoringService.ts:134-137 | distinct UUIDs have distinct on-chain identifiers |
| Events.EncodedArguments | src/services/BlockchainAnchoringService.ts:130-137 | `0x` and the hash; `0x`, 32 zeros and the 32 digits of the UUID |
| Services.EventIngestionService.Ingest | src/services/event/event-ingestion.service.ts:34-96 | a known key is answered with its event and changes nothing; otherwise the row is stored and handed over once |
| Services.IngestMeaning | src/services/event/event-ingestion.service.ts:34-96 | a repeated non-empty key is answered with its event, never refused nor stored again; only an invalid date or a repeated empty key is refused |
| Services.EventProcessingService.Process | src/services/event/event-processing.service.ts:32-82 | the hash stored with the row is the hash of the plaintext and the hash enqueued; an invalid date throws before any write |
| Services.BlockchainAnchoringService.AnchorEvent | src/services/BlockchainAnchoringService.ts:40-128 | the row ends ANCHORED with what the two retry loops returned, or ANCHOR_FAILED with whatever threw first; a missing row changes nothing |
| Services.TryEndsOnce | src/services/BlockchainAnchoringService.ts:54-127 | the answers of the chain and the database leave one outcome |
| Services.OutcomeColumns | src/services/BlockchainAnchoringService.ts:86-125 | the row after `process` and after `anchorEvent`, column by column |
| Services.RecordedMessages | src/services/BlockchainAnchoringService.ts:109 | the message of an Error, or the text of what else was thrown |
| Pipeline.GenuineIsLawful | src/services/event/event-ingestion.service.ts:66-76 | the argument handed to `process` canonicalises like the submitted event, and stored text decrypts as UTF-8 carries it |
| Pipeline.AnythingMayFail | src/services/BlockchainAnchoringService.ts:54-127 | whatever an activity waits for may throw, and a submission may land unanswered |
| Pipeline.LandsExactly | src/abi/HashiraAnchorRegistry.json:12-25 | a call takes effect exactly when neither hash nor event id was registered before |
| PipelineSafety.StepKeepsInv | src/services/event/event-processing.service.ts:50-63 | every step of every interleaving keeps the invariant: one owner per event, rows, activities, responses, registry and dispatch in agreement |
| PipelineSafety.RunKeepsInv | src/services/event/event-ingestion.service.ts:34-96 | the invariant holds in every state of every run |
| PipelineResults.StepMovesRows | src/repositories/event.repository.ts:36-91 | a status moves PROCESSING, ANCHORING, then ANCHORED or ANCHOR_FAILED, and a finished row is never overwritten |
| PipelineResults.RunMovesStatus | src/repositories/event.repository.ts:36-91 | statuses only move forward between any two states of a run |
| PipelineResults.AnchoredRowRegistered | src/services/BlockchainAnchoringService.ts:55-94 | in every state of every run the transaction of an ANCHORED row encodes its own hash and id; two ANCHORED rows share neither transaction nor hash |
| PipelineResults.EventEffectsBounded | src/services/BlockchainAnchoringService.ts:54-77 | in every state of every run an event has caused at most one job, `maxAttempts` submissions and one registration |
| PipelineBooks.BooksCount | src/services/event/event-processing.service.ts:59-63 | the jobs and submissions counted for an event are the steps of the run that made them |
| PipelineBooks.BooksName | src/services/event/event-ingestion.service.ts:63-88 | the dispatched events are those handed over, the lost ones those with a failed write |
| PipelineResults.KeyNamesOneEvent | src/services/event/event-ingestion.service.ts:34-96 | in every state of every run a key stands for one row and one job, and all its responses name the same event |
| PipelineLiveness.MeasureSplits | src/services/event/event-ingestion.service.ts:63-88 | the remaining moves add up the same in any order |
| PipelineLiveness.StepLowersMeasure | src/services/BlockchainAnchoringService.ts:54-127 | every step of the pipeline lowers the measure, and only an arrival raises it |
| PipelineLiveness.RunIsBounded | src/services/BlockchainAnchoringService.ts:54-127 | a run makes at most 10 + 2n own steps per arrival |
| PipelineLiveness.RestIsEmpty | src/services/event/event-processing.service.ts:32-63 | the system is at rest exactly when no activity is left: nothing blocks |
| PipelineLiveness.RestFinishesEvents | src/services/event/event-ingestion.service.ts:63-88 | at rest every dispatched event is ANCHORED or ANCHOR_FAILED unless a write of its own was lost |
| PipelineCalls.IngestIsPath | src/services/event/event-ingestion.service.ts:34-96 | whatever a whole `ingest` may answer, consecutive steps of one activity answer, with the same table and the same processing call handed over |
| PipelineCalls.ProcessIsPath | src/services/event/event-processing.service.ts:32-82 | a whole `process` is a path with the same table and the same job, or none for an invalid date |
| PipelineCalls.AnchorEventIsPath | src/services/BlockchainAnchoringService.ts:40-128 | a whole `anchorEvent`, however many calls its two loops make, is a path from the job to the same row |
| PipelineCalls.EventCanBeAnchored | src/services/event/event-ingestion.service.ts:63-88 | after any run an arriving event can be carried to ANCHORED with its own hash and transaction |
| PipelineWitness.EventReachesAnchored | src/services/event/event-ingestion.service.ts:34-96 | every event with a valid date has a genuine run from the start that ends with it ANCHORED under its own hash |
| EventQuery.DetailVerifies | src/services/event/event-query.service.ts:230-251 | in every state of every run the detail of a row past PROCESSING, canonicalised and hashed again, is its canonical hash exactly when no submitted text has an unpaired surrogate |
| EventQuery.DetailColumns | src/services/event/event-query.service.ts:156-170 | who may see an event, and each column of its detail |
| PipelineWitness.UnverifiableAnchored | src/services/event/event-query.service.ts:230-251 | a genuine run that ends with an ANCHORED event whose detail does not hash to its canonical hash |
| EventQuery.VerificationExactlyAnchored | src/services/event/event-query.service.ts:172-213 | in every state of every run it succeeds, for a caller in scope, exactly on ANCHORED rows, with a registered transaction on a supported chain |
| EventQuery.VerificationColumns | src/services/event/event-query.service.ts:172-213 | each column of a verification, and the status an unanchored event is refused with |
| EventList.ListEvents | src/repositories/event.repository.ts:130-166 | the narrowed, ordered and cut query is the page of the selection, with its total |
| EventList.SelectedExactly | src/repositories/event.repository.ts:134-160 | the selection holds every matching row as often as the table, no other row, in order of creation |
| EventList.MatchesExactly | src/repositories/event.repository.ts:134-156 | the seven filters, each only when it is set |
| EventList.SelectedInOrder | src/repositories/event.repository.ts:160 | oldest first when ascending, newest first otherwise |
| EventList.PageExactly | src/repositories/event.repository.ts:161-162 | which entries a page holds |
| EventList.WalkIsSelection | src/services/event/event-query.service.ts:143-152 | walking pages while `has_next` holds ends and gives the whole selection, no row lost or repeated |
| EventList.HasNextExact | src/services/event/event-query.service.ts:150 | `has_next` is true exactly when the next page has a row |
| EventList.Summaries | src/services/event/event-query.service.ts:135-146 | each summary has the e-mail found under its own owner's identifier, though all are fetched in one batch |
| EventList.SummaryColumns | src/services/event/event-query.service.ts:215-228 | each column of a summary |
| EventList.EmailsAgreeExactly | src/repositories/user.repository.ts:34-60 | list and detail name the same owner exactly when there is none or the user is ACTIVE in the event's organisation |
| Limiter.FailureWindow.Check | src/services/auth/auth.service.ts:109-125 | an expired window is removed, a full one refuses with its waiting time |
| Limiter.FailureWindow.Settle | src/services/auth/auth.service.ts:132-145 | a failure counts in the window or opens one, a success removes it |
| Limiter.RefusesExactly | src/services/auth/auth.service.ts:109-125 | refused exactly with `limit` failures on a record at most 300000 ms old, with the least covering number of seconds |
| Limiter.CallMeaning | src/services/auth/auth.service.ts:107-145 | what a whole call leaves of its record |
| Limiter.FirstRefusals | src/services/auth/password-reset.service.ts:50-87 | in a fresh window the eleventh failing login and the sixth reset confirmation are the first refused |
| Limiter.SpanBound | src/services/auth/auth.service.ts:107-145 | without a success, any five minutes hold at most 2 * limit - 1 evaluated failures |
| Limiter.ServiceBounds | src/services/auth/auth.service.ts:107-145 | 19 evaluated failures in five minutes for login, 9 for reset confirmation |
| Limiter.SpanBoundIsTight | src/services/auth/password-reset.service.ts:50-87 | a run that reaches the bound |
| Limiter.RetryAfterClears | src/services/auth/auth.service.ts:116-123 | the announced wait is 0 to 300 seconds, and a millisecond more clears the window |
| Limiter.InterleavedCountBound | src/services/auth/auth.service.ts:109-143 | with k calls in flight the count stays below limit + k |
| Limiter.InterleavedSpanBound | src/services/auth/auth.service.ts:107-145 | with k calls in flight and no success, any five minutes hold at most 2 * (limit - 1 + k) - 1 evaluated failures |
| Limiter.InterleavedSpanBoundIsTight | src/services/auth/auth.service.ts:107-145 | an interleaving that reaches that bound |
| Refresh.RefreshTokenStore.RotateRefreshToken | src/services/auth/refresh.service.ts:16-51 | marks the token used and inserts its successor, both or neither |
| Refresh.Lineage | src/services/auth/refresh.service.ts:40-51 | over any run the tokens of a login form a chain, each issued by rotating the one before it, with at most its last unused, and each token is in one chain |
| Refresh.RedeemedOnce | src/repositories/refresh-token.repository.ts:5-15 | a redeemed token is never redeemed again |
| Refresh.UnusedConserved | src/services/auth/refresh.service.ts:40-51 | rotation keeps the number of unused tokens, login adds one, logout removes at most one |
| Refresh.StepMeaning | src/repositories/refresh-token.repository.ts:5-39 | which tokens a step accepts, adds and marks, column by column |
| Refresh.RedeemedInTime | src/repositories/refresh-token.repository.ts:5-15 | a redeemed token was issued earlier with an expiry not yet reached |
| Refresh.RunKeepsUser | src/services/auth/refresh.service.ts:40-51 | all tokens descending from a login belong to its user |
| Otp.OtpStore.FindLatestOtpToken | src/repositories/otp-token.repository.ts:5-16 | a newest live code of the e-mail, or proof that there is none |
| Otp.OtpStore.VerifyOtp | src/services/auth/otp.service.ts:29-53 | limit before comparison, a mismatch counted, a match used up |
| Otp.OtpStore.ResendOtp | src/services/auth/otp.service.ts:91-109 | the live code is used up and replaced, nothing without one |
| Otp.AnswerMeaning | src/services/auth/otp.service.ts:29-53 | the four answers |
| Otp.AcceptedRightly | src/services/auth/otp.service.ts:29-53 | a code is accepted only where its own hash is presented for its e-mail in time, unused, newest, after fewer than five wrong ones, and there it is |
| Otp.AcceptedIsUsed | src/services/auth/otp.service.ts:53 | a code that was accepted is used |
| Otp.StepCounts | src/services/auth/otp.service.ts:40-51 | a mismatch is counted exactly when another hash is presented for the newest live code with room left |
| Otp.ResendReplaces | src/services/auth/otp.service.ts:91-109 | resending uses up the newest live code and issues one, or does nothing |
| Otp.GuessesBounded | src/services/auth/otp.service.ts:29-110 | a code is compared at most five times and accepted once; guesses never exceed five per code issued, nor sessions the codes |

## Left out

- HTTP routing, cookies, CORS, rate-limit middleware, logging, mail, payments and the Redis, KMS and RPC clients: plumbing around libraries.
- The insides of SHA-256, bcrypt, AES-GCM, keccak and address recovery.
- Missing or malformed encryption keys: `getKey` throws before anything is written.
- Redelivery of stalled jobs by the queue: row updates are unconditional, so status order is stated for one delivery per job.
- `getById` on PROCESSING rows: the row still holds plaintext, which the service tries to decrypt.
- PipelineResults.AnchoredRowRegistered: nothing is claimed of ANCHOR_FAILED rows, whose submission may have landed while its reply was lost.
- Instant.ParsesWritten: local times without an offset, offsets without a colon and the fallback formats of individual engines count as invalid.
- JsonText.ReadsValue: the reader accepts no white space and keeps repeated keys; numbers are identified with their printed text.
- Utf8.DecodesEncoding: how a decoder replaces ill-formed bytes is not modelled; `Decode` gives none.
- Services.EventProcessingService.Process: its writes succeed; a failing write is a step of `Pipeline`.
- Services.BlockchainAnchoringService.AnchorEvent: the failure update succeeds; a failing one is a step of `Pipeline`.
- What a text column makes of `anchor_error`; the other columns not read back through UTF-8 above hold ASCII.
- Backoff.RetryableExactly: upper and lower case are those of ASCII letters.
- Refresh.RefreshTokenStore.RotateRefreshToken: one step; two rotations of one token between lookup and update are not interleaved.
- Otp.OtpStore.VerifyOtp: one step, for the same reason; the multi-factor continuation is not part of this model.
- Public status names (`ANCHOR_FAILED` is shown as `failed`) and the lower-casing of e-mails before they become keys.
- Chain names and explorer links in verification answers, and parsing of the list request's parameters.
- Organisations, invitations, API keys, roles and their checks: short branch logic.
