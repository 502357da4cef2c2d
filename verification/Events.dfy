/** The events table, its repository, and the arguments of the on-chain call. */
module Events {
  import opened Text
  import opened Json
  import opened Instant
  import opened Canonical
  import Utf8

  datatype Status = PROCESSING | ANCHORING | ANCHORED | ANCHOR_FAILED

  datatype Row = Row(
    orgId: Text,
    userId: Option<Text>,
    idempotencyKey: Option<Text>,
    prompt: Text,
    output: Text,
    modelId: Text,
    workflowId: Option<Text>,
    metadata: Option<Json>,
    timestamp: Instant,
    createdAt: Instant,
    canonicalHash: Option<Text>,
    status: Status,
    txHash: Option<Text>,
    blockNumber: Option<nat>,
    chainId: Option<int>,
    anchoredAt: Option<Instant>,
    anchorError: Option<Text>)

  type Rows = map<Text, Row>

  /** One ingestion request. */
  datatype Input = Input(orgId: Text, userId: Option<Text>, idempotencyKey: Option<Text>, event: Event)

  // ---------------------------------------------------------------------------
  // Row changes
  // ---------------------------------------------------------------------------

  /** A text column holds UTF-8. */
  function StoredOption(t: Option<Text>): Option<Text> {
    match t
    case Some(v) => Some(Utf8.ToWellFormed(v))
    case None => None
  }

  /** The row `createEvent` saves; the timestamp has been read as an instant. */
  function NewRow(input: Input, t: Instant, now: Instant): Row {
    Row(input.orgId, input.userId, input.idempotencyKey,
        Utf8.ToWellFormed(input.event.prompt), Utf8.ToWellFormed(input.event.output),
        Utf8.ToWellFormed(input.event.modelId), StoredOption(input.event.workflowId.Known()),
        input.event.metadata.Known(), t, now,
        None, PROCESSING, None, None, None, None, None)
  }

  function Anchoring(row: Row, hash: Text, prompt: Text, output: Text): Row {
    row.(canonicalHash := Some(hash), prompt := prompt, output := output, status := ANCHORING)
  }

  function Anchored(row: Row, tx: Text, block: nat, chain: int, now: Instant): Row {
    row.(txHash := Some(tx), blockNumber := Some(block), chainId := Some(chain), anchoredAt := Some(now),
         status := ANCHORED)
  }

  function AnchorFailed(row: Row, message: Text): Row {
    row.(status := ANCHOR_FAILED, anchorError := Some(message))
  }

  /** `findOne({ event_id, org_id })`. */
  function FindById(rows: Rows, id: Text, org: Text): Option<Row> {
    if id in rows && rows[id].orgId == org then Some(rows[id]) else None
  }

  /** `update({ event_id, org_id }, …)`: at most one row changes. */
  function Update(rows: Rows, id: Text, org: Text, change: Row -> Row): Rows {
    match FindById(rows, id, org)
    case Some(row) => rows[id := change(row)]
    case None => rows
  }

  /** The row an idempotency key stands for within an organisation. */
  predicate HasKey(row: Row, org: Text, key: Text) {
    row.orgId == org && row.idempotencyKey == Some(key)
  }

  /** The partial unique index on (org_id, idempotency_key). */
  ghost predicate UniqueKeys(rows: Rows) {
    forall i, j | i in rows && j in rows && rows[i].idempotencyKey.Some? ::
      rows[i].orgId == rows[j].orgId && rows[i].idempotencyKey == rows[j].idempotencyKey ==> i == j
  }

  /** Whether the index refuses a row. */
  ghost predicate KeyTaken(rows: Rows, input: Input) {
    input.idempotencyKey.Some? && exists i :: i in rows && HasKey(rows[i], input.orgId, input.idempotencyKey.value)
  }

  /** The row of a new event, column by column. */
  lemma NewRowColumns(input: Input, t: Instant, now: Instant)
    ensures var row, e := NewRow(input, t, now), input.event;
            && row.orgId == input.orgId && row.userId == input.userId && row.idempotencyKey == input.idempotencyKey
            && row.prompt == Utf8.ToWellFormed(e.prompt) && row.output == Utf8.ToWellFormed(e.output)
            && row.modelId == Utf8.ToWellFormed(e.modelId)
            && row.workflowId.Some? == e.workflowId.Present?
            && (e.workflowId.Present? ==> row.workflowId.value == Utf8.ToWellFormed(e.workflowId.value))
            && row.metadata.Some? == e.metadata.Present?
            && (e.metadata.Present? ==> row.metadata.value == e.metadata.value)
            && row.timestamp == t && row.createdAt == now && row.status == PROCESSING
            && row.canonicalHash.None? && row.txHash.None? && row.blockNumber.None? && row.chainId.None?
            && row.anchoredAt.None? && row.anchorError.None?
  {
  }

  /** Each update names its columns and leaves the others. */
  lemma UpdatedColumns(row: Row, hash: Text, prompt: Text, output: Text, tx: Text, block: nat, chain: int,
                       now: Instant, message: Text)
    ensures var r := Anchoring(row, hash, prompt, output);
            && r.status == ANCHORING && r.canonicalHash == Some(hash) && r.prompt == prompt && r.output == output
            && r.(status := row.status, canonicalHash := row.canonicalHash, prompt := row.prompt,
                  output := row.output) == row
    ensures var r := Anchored(row, tx, block, chain, now);
            && r.status == ANCHORED && r.txHash == Some(tx) && r.blockNumber == Some(block)
            && r.chainId == Some(chain) && r.anchoredAt == Some(now)
            && r.(status := row.status, txHash := row.txHash, blockNumber := row.blockNumber,
                  chainId := row.chainId, anchoredAt := row.anchoredAt) == row
    ensures var r := AnchorFailed(row, message);
            && r.status == ANCHOR_FAILED && r.anchorError == Some(message)
            && r.(status := row.status, anchorError := row.anchorError) == row
  {
  }

  /** An update reaches one row, of the given identifier and organisation. */
  lemma UpdateMeaning(rows: Rows, id: Text, org: Text, change: Row -> Row, other: Text)
    ensures var after := Update(rows, id, org, change);
            && after.Keys == rows.Keys
            && (other in rows ==>
                  after[other] == if other == id && rows[id].orgId == org then change(rows[id]) else rows[other])
  {
  }

  class EventRepository {
    var rows: Rows

    constructor ()
      ensures rows == map[]
    {
      rows := map[];
    }

    /** Finds the row of a key; with the index in force it is the only one. */
    method FindEventByIdempotencyKey(org: Text, key: Text) returns (found: Option<Text>)
      ensures found.Some? ==> found.value in rows && HasKey(rows[found.value], org, key)
      ensures found.None? ==> forall i :: i in rows ==> !HasKey(rows[i], org, key)
      ensures found.Some? && UniqueKeys(rows) ==>
                forall i :: i in rows && HasKey(rows[i], org, key) ==> i == found.value
    {
      var ids := rows.Keys;
      while ids != {}
        invariant ids <= rows.Keys
        invariant forall i :: i in rows && i !in ids ==> !HasKey(rows[i], org, key)
        decreases |ids|
      {
        var i :| i in ids;
        if HasKey(rows[i], org, key) {
          return Some(i);
        }
        ids := ids - {i};
      }
      found := None;
    }

    /** Inserts a row under a fresh identifier unless the index refuses it. */
    method CreateEvent(input: Input, id: Text, t: Instant, now: Instant) returns (saved: bool)
      requires id !in rows
      modifies this
      ensures saved <==> !KeyTaken(old(rows), input)
      ensures rows == if saved then old(rows)[id := NewRow(input, t, now)] else old(rows)
      ensures UniqueKeys(old(rows)) ==> UniqueKeys(rows)
    {
      if input.idempotencyKey.Some? {
        var taken := FindEventByIdempotencyKey(input.orgId, input.idempotencyKey.value);
        if taken.Some? {
          return false;
        }
      }
      rows := rows[id := NewRow(input, t, now)];
      saved := true;
    }

    method UpdateEventToAnchoring(id: Text, org: Text, hash: Text, prompt: Text, output: Text)
      modifies this
      ensures rows == Update(old(rows), id, org, (row: Row) => Anchoring(row, hash, prompt, output))
      ensures UniqueKeys(old(rows)) ==> UniqueKeys(rows)
    {
      if FindById(rows, id, org).Some? {
        rows := rows[id := rows[id].(canonicalHash := Some(hash), prompt := prompt, output := output,
                                     status := ANCHORING)];
      }
    }

    method UpdateEventToAnchored(id: Text, org: Text, tx: Text, block: nat, chain: int, now: Instant)
      modifies this
      ensures rows == Update(old(rows), id, org, (row: Row) => Anchored(row, tx, block, chain, now))
      ensures UniqueKeys(old(rows)) ==> UniqueKeys(rows)
    {
      if FindById(rows, id, org).Some? {
        rows := rows[id := rows[id].(txHash := Some(tx), blockNumber := Some(block), chainId := Some(chain),
                                     anchoredAt := Some(now), status := ANCHORED)];
      }
    }

    method UpdateEventToAnchorFailed(id: Text, org: Text, message: Text)
      modifies this
      ensures rows == Update(old(rows), id, org, (row: Row) => AnchorFailed(row, message))
      ensures UniqueKeys(old(rows)) ==> UniqueKeys(rows)
    {
      if FindById(rows, id, org).Some? {
        rows := rows[id := rows[id].(status := ANCHOR_FAILED, anchorError := Some(message))];
      }
    }
  }

  // ---------------------------------------------------------------------------
  // The arguments of `anchorHash`
  // ---------------------------------------------------------------------------

  const HEX_PREFIX: Text := Ascii("0x")
  const DASH: CodeUnit := 0x2D

  function EncodeCanonicalHash(hash: Text): Text {
    HEX_PREFIX + hash
  }

  /** `t.replace(/-/g, '')`. */
  function RemoveDashes(t: Text): Text {
    if t == [] then [] else (if t[0] == DASH then [] else [t[0]]) + RemoveDashes(t[1..])
  }

  function EncodeEventId(id: Text): Text {
    HEX_PREFIX + PadStart(RemoveDashes(id), 64)
  }

  predicate IsDashPosition(i: int) {
    i == 8 || i == 13 || i == 18 || i == 23
  }

  /** The 8-4-4-4-12 form in which the database generates identifiers. */
  predicate IsUuid(t: Text) {
    |t| == 36 && forall i :: 0 <= i < 36 ==> if IsDashPosition(i) then t[i] == DASH else IsHexDigit(t[i])
  }

  lemma {:induction false} RemoveDashesSplits(a: Text, b: Text)
    ensures RemoveDashes(a + b) == RemoveDashes(a) + RemoveDashes(b)
  {
    if a == [] {
      assert a + b == b;
    } else {
      assert (a + b)[1..] == a[1..] + b;
      RemoveDashesSplits(a[1..], b);
    }
  }

  lemma {:induction false} RemoveDashesPlain(a: Text)
    requires DASH !in a
    ensures RemoveDashes(a) == a
  {
    if a != [] {
      assert a == [a[0]] + a[1..];
      RemoveDashesPlain(a[1..]);
    }
  }

  /** A dash-free group, a dash, and the rest. */
  lemma RemoveDashesGroup(a: Text, rest: Text)
    requires DASH !in a
    ensures RemoveDashes(a + ([DASH] + rest)) == a + RemoveDashes(rest)
  {
    RemoveDashesSplits(a, [DASH] + rest);
    RemoveDashesPlain(a);
    assert ([DASH] + rest)[1..] == rest;
    assert RemoveDashes([DASH] + rest) == [] + RemoveDashes(rest);
  }

  lemma UuidDigits(t: Text)
    requires IsUuid(t)
    ensures RemoveDashes(t) == t[0..8] + (t[9..13] + (t[14..18] + (t[19..23] + t[24..36])))
  {
    assert t == t[0..8] + ([DASH] + t[9..36]);
    RemoveDashesGroup(t[0..8], t[9..36]);
    assert t[9..36] == t[9..13] + ([DASH] + t[14..36]);
    RemoveDashesGroup(t[9..13], t[14..36]);
    assert t[14..36] == t[14..18] + ([DASH] + t[19..36]);
    RemoveDashesGroup(t[14..18], t[19..36]);
    assert t[19..36] == t[19..23] + ([DASH] + t[24..36]);
    RemoveDashesGroup(t[19..23], t[24..36]);
    RemoveDashesPlain(t[24..36]);
  }

  lemma UuidFromDigits(s: Text, t: Text)
    requires IsUuid(s) && IsUuid(t) && RemoveDashes(s) == RemoveDashes(t)
    ensures s == t
  {
    UuidDigits(s);
    UuidDigits(t);
    var d, e := RemoveDashes(s), RemoveDashes(t);
    assert s[0..8] == d[0..8] == e[0..8] == t[0..8];
    assert s[9..13] == d[8..12] == e[8..12] == t[9..13];
    assert s[14..18] == d[12..16] == e[12..16] == t[14..18];
    assert s[19..23] == d[16..20] == e[16..20] == t[19..23];
    assert s[24..36] == d[20..32] == e[20..32] == t[24..36];
    UuidFromGroups(s);
    UuidFromGroups(t);
  }

  lemma UuidFromGroups(t: Text)
    requires IsUuid(t)
    ensures t == t[0..8] + [DASH] + t[9..13] + [DASH] + t[14..18] + [DASH] + t[19..23] + [DASH] + t[24..36]
  {
  }

  /** Distinct events have distinct on-chain identifiers. */
  lemma EncodeEventIdInjective(s: Text, t: Text)
    requires IsUuid(s) && IsUuid(t) && EncodeEventId(s) == EncodeEventId(t)
    ensures s == t
  {
    UuidDigits(s);
    UuidDigits(t);
    var d, e := RemoveDashes(s), RemoveDashes(t);
    PadStartZeros(d, 64);
    PadStartZeros(e, 64);
    assert EncodeEventId(s)[34..] == d && EncodeEventId(t)[34..] == e;
    UuidFromDigits(s, t);
  }

  /** `0x` before the hash; `0x`, 32 zeros and the 32 digits of the UUID in order. */
  lemma EncodedArguments(hash: Text, id: Text)
    requires IsUuid(id)
    ensures EncodeCanonicalHash(hash) == Ascii("0x") + hash
    ensures EncodeEventId(id) ==
            Ascii("0x") + Zeros(32) + (id[0..8] + id[9..13] + id[14..18] + id[19..23] + id[24..36])
  {
    UuidDigits(id);
    var digits := id[0..8] + (id[9..13] + (id[14..18] + (id[19..23] + id[24..36])));
    assert digits == id[0..8] + id[9..13] + id[14..18] + id[19..23] + id[24..36];
    PadStartZeros(digits, 64);
  }
}
