/** Listing events: the repository's filter, order and page, and the service's page of summaries. */
module EventList {
  import opened Text
  import opened Instant
  import opened Events

  /** A row with its identifier. */
  datatype Entry = Entry(id: Text, row: Row)

  datatype Query = Query(
    orgId: Text,
    userId: Option<Text>,
    ascending: bool,
    statuses: Option<seq<Status>>,
    from: Option<Instant>,
    to: Option<Instant>,
    workflowId: Option<Text>,
    modelId: Option<Text>)

  // ---------------------------------------------------------------------------
  // What a query selects
  // ---------------------------------------------------------------------------

  /** A text filter that is set: neither absent nor empty. */
  predicate IsSet(t: Option<Text>) {
    t.Some? && t.value != []
  }

  predicate StatusesSet(q: Query) {
    q.statuses.Some? && q.statuses.value != []
  }

  datatype Condition = ByOrg | ByUser | ByStatus | From | To | ByWorkflow | ByModel

  const ALL_CONDITIONS := {ByOrg, ByUser, ByStatus, From, To, ByWorkflow, ByModel}

  /** Whether the query states the condition at all. */
  predicate States(q: Query, c: Condition) {
    match c
    case ByOrg => true
    case ByUser => IsSet(q.userId)
    case ByStatus => StatusesSet(q)
    case From => q.from.Some?
    case To => q.to.Some?
    case ByWorkflow => IsSet(q.workflowId)
    case ByModel => IsSet(q.modelId)
  }

  /** A condition the query does not state holds of every row. */
  predicate Holds(q: Query, c: Condition, row: Row) {
    States(q, c) ==>
      match c
      case ByOrg => row.orgId == q.orgId
      case ByUser => row.userId == q.userId
      case ByStatus => row.status in q.statuses.value
      case From => row.createdAt >= q.from.value
      case To => row.createdAt <= q.to.value
      case ByWorkflow => row.workflowId == q.workflowId
      case ByModel => row.modelId == q.modelId.value
  }

  predicate Matches(q: Query, row: Row) {
    forall c :: c in ALL_CONDITIONS ==> Holds(q, c, row)
  }

  predicate MeetsAll(q: Query, cs: set<Condition>, row: Row) {
    forall c :: c in cs ==> Holds(q, c, row)
  }

  function Filter(q: Query, cs: set<Condition>, es: seq<Entry>): seq<Entry> {
    if es == [] then [] else (if MeetsAll(q, cs, es[0].row) then [es[0]] else []) + Filter(q, cs, es[1..])
  }

  lemma FilterCons(q: Query, cs: set<Condition>, e: Entry, es: seq<Entry>)
    ensures Filter(q, cs, [e] + es) == (if MeetsAll(q, cs, e.row) then [e] else []) + Filter(q, cs, es)
  {
    assert ([e] + es)[1..] == es;
  }

  lemma MeetsOneMore(q: Query, cs: set<Condition>, c: Condition, row: Row)
    ensures MeetsAll(q, cs + {c}, row) <==> MeetsAll(q, cs, row) && MeetsAll(q, {c}, row)
    ensures !States(q, c) ==> MeetsAll(q, {c}, row)
  {
    assert c in {c};
  }

  /** Narrowing by one more condition; one the query does not state changes nothing. */
  lemma {:induction false} FilterMore(q: Query, cs: set<Condition>, c: Condition, es: seq<Entry>)
    ensures Filter(q, {c}, Filter(q, cs, es)) == Filter(q, cs + {c}, es)
    ensures !States(q, c) ==> Filter(q, cs + {c}, es) == Filter(q, cs, es)
  {
    if es != [] {
      FilterMore(q, cs, c, es[1..]);
      MeetsOneMore(q, cs, c, es[0].row);
      var rest := Filter(q, cs, es[1..]);
      FilterCons(q, {c}, es[0], rest);
      assert [] + rest == rest;
    }
  }

  /** Whether `a` may stand before `b`. */
  predicate InOrder(ascending: bool, a: Entry, b: Entry) {
    if ascending then a.row.createdAt <= b.row.createdAt else a.row.createdAt >= b.row.createdAt
  }

  /** Puts `e` before the first entry it may precede, hence before its ties. */
  function InsertByTime(ascending: bool, e: Entry, es: seq<Entry>): seq<Entry> {
    if es == [] || InOrder(ascending, e, es[0]) then [e] + es else [es[0]] + InsertByTime(ascending, e, es[1..])
  }

  /** `ORDER BY created_at`, ties keeping the order of the table. */
  function SortByTime(ascending: bool, es: seq<Entry>): seq<Entry> {
    if es == [] then [] else InsertByTime(ascending, es[0], SortByTime(ascending, es[1..]))
  }

  predicate Ordered(ascending: bool, es: seq<Entry>) {
    forall i, j :: 0 <= i < j < |es| ==> InOrder(ascending, es[i], es[j])
  }

  lemma {:induction false} InsertByTimeKeeps(ascending: bool, e: Entry, es: seq<Entry>)
    ensures multiset(InsertByTime(ascending, e, es)) == multiset([e] + es)
  {
    if es != [] && !InOrder(ascending, e, es[0]) {
      InsertByTimeKeeps(ascending, e, es[1..]);
      assert es == [es[0]] + es[1..];
    }
  }

  lemma {:induction false} InsertByTimeSorts(ascending: bool, e: Entry, es: seq<Entry>)
    requires Ordered(ascending, es)
    ensures Ordered(ascending, InsertByTime(ascending, e, es))
  {
    if es != [] && !InOrder(ascending, e, es[0]) {
      InsertByTimeSorts(ascending, e, es[1..]);
      InsertByTimeKeeps(ascending, e, es[1..]);
      var rest := InsertByTime(ascending, e, es[1..]);
      forall j | 0 <= j < |rest| ensures InOrder(ascending, es[0], rest[j]) {
        assert rest[j] in multiset([e] + es[1..]);
        assert rest[j] in [e] + es[1..];
      }
    }
  }

  /** Sorting orders the entries by creation time and keeps each of them. */
  lemma {:induction false} SortByTimeSorts(ascending: bool, es: seq<Entry>)
    ensures Ordered(ascending, SortByTime(ascending, es))
    ensures multiset(SortByTime(ascending, es)) == multiset(es)
  {
    if es != [] {
      SortByTimeSorts(ascending, es[1..]);
      InsertByTimeSorts(ascending, es[0], SortByTime(ascending, es[1..]));
      InsertByTimeKeeps(ascending, es[0], SortByTime(ascending, es[1..]));
      assert es == [es[0]] + es[1..];
    }
  }

  /** The full list a query stands for. */
  function Selected(q: Query, table: seq<Entry>): seq<Entry> {
    SortByTime(q.ascending, Filter(q, ALL_CONDITIONS, table))
  }

  lemma {:induction false} FilterCounts(q: Query, cs: set<Condition>, es: seq<Entry>, e: Entry)
    ensures multiset(Filter(q, cs, es))[e] == if MeetsAll(q, cs, e.row) then multiset(es)[e] else 0
  {
    if es != [] {
      FilterCounts(q, cs, es[1..], e);
      assert es == [es[0]] + es[1..];
    }
  }

  /** A query selects every matching row as often as the table has it and no other, in order of creation. */
  lemma SelectedExactly(q: Query, table: seq<Entry>, e: Entry)
    ensures Ordered(q.ascending, Selected(q, table))
    ensures multiset(Selected(q, table))[e] == if Matches(q, e.row) then multiset(table)[e] else 0
  {
    SortByTimeSorts(q.ascending, Filter(q, ALL_CONDITIONS, table));
    FilterCounts(q, ALL_CONDITIONS, table, e);
  }

  // ---------------------------------------------------------------------------
  // Pages
  // ---------------------------------------------------------------------------

  function Clamp(i: nat, n: nat): nat {
    if i < n then i else n
  }

  /** `skip((page - 1) * size).take(size)`. */
  function Page(es: seq<Entry>, page: nat, size: nat): (p: seq<Entry>)
    requires page >= 1
    ensures |p| <= size
  {
    var start := (page - 1) * size;
    es[Clamp(start, |es|)..Clamp(start + size, |es|)]
  }

  predicate HasNext(total: nat, page: nat, size: nat) {
    page * size < total
  }

  /** `andWhere` under the test that the filter is set. */
  method AndWhere(q: Query, c: Condition, es: seq<Entry>, ghost before: set<Condition>, ghost after: set<Condition>,
                  ghost table: seq<Entry>)
    returns (narrowed: seq<Entry>)
    requires es == Filter(q, before, table) && after == before + {c}
    ensures narrowed == Filter(q, after, table)
  {
    FilterMore(q, before, c, table);
    if States(q, c) {
      narrowed := Filter(q, {c}, es);
    } else {
      narrowed := es;
    }
  }

  /** `listEvents`: each filter that is set narrows the selection. */
  method ListEvents(table: seq<Entry>, q: Query, page: nat, size: nat) returns (events: seq<Entry>, total: nat)
    requires page >= 1
    ensures events == Page(Selected(q, table), page, size)
    ensures total == |Selected(q, table)|
  {
    var es := Filter(q, {ByOrg}, table);
    ghost var byUser := {ByOrg, ByUser};
    ghost var byStatus := {ByOrg, ByUser, ByStatus};
    ghost var from := {ByOrg, ByUser, ByStatus, From};
    ghost var to := {ByOrg, ByUser, ByStatus, From, To};
    ghost var byWorkflow := {ByOrg, ByUser, ByStatus, From, To, ByWorkflow};
    es := AndWhere(q, ByUser, es, {ByOrg}, byUser, table);
    es := AndWhere(q, ByStatus, es, byUser, byStatus, table);
    es := AndWhere(q, From, es, byStatus, from, table);
    es := AndWhere(q, To, es, from, to, table);
    es := AndWhere(q, ByWorkflow, es, to, byWorkflow, table);
    es := AndWhere(q, ByModel, es, byWorkflow, ALL_CONDITIONS, table);
    es := SortByTime(q.ascending, es);
    total := |es|;
    events := Page(es, page, size);
  }

  /** The pages from `page` on, following `has_next`. */
  function Walk(es: seq<Entry>, page: nat, size: nat): seq<Entry>
    requires page >= 1 && size >= 1
    decreases |es| - (page - 1) * size
  {
    PageStep(page, size);
    Page(es, page, size) + (if HasNext(|es|, page, size) then Walk(es, page + 1, size) else [])
  }

  lemma PageStep(page: nat, size: nat)
    requires page >= 1
    ensures page * size == (page - 1) * size + size
  {
  }

  lemma {:induction false} WalkIsRest(es: seq<Entry>, page: nat, size: nat)
    requires page >= 1 && size >= 1
    ensures Walk(es, page, size) == es[Clamp((page - 1) * size, |es|)..]
    decreases |es| - (page - 1) * size
  {
    PageStep(page, size);
    PageStep(page + 1, size);
    if HasNext(|es|, page, size) {
      WalkIsRest(es, page + 1, size);
      assert es[(page - 1) * size..page * size] + es[page * size..] == es[(page - 1) * size..];
    }
  }

  /** Walking the pages from the first gives the whole selection, each row once and in order. */
  lemma WalkIsSelection(q: Query, table: seq<Entry>, size: nat)
    requires size >= 1
    ensures Walk(Selected(q, table), 1, size) == Selected(q, table)
  {
    WalkIsRest(Selected(q, table), 1, size);
  }

  /** `has_next` holds exactly when the next page has a row. */
  lemma HasNextExact(es: seq<Entry>, page: nat, size: nat)
    requires page >= 1 && size >= 1
    ensures HasNext(|es|, page, size) <==> Page(es, page + 1, size) != []
  {
    PageStep(page + 1, size);
  }

  // ---------------------------------------------------------------------------
  // Summaries
  // ---------------------------------------------------------------------------

  datatype User = User(orgId: Text, active: bool, email: Text)

  /** What `findUsersByIds` selects of a user. */
  datatype Contact = Contact(userId: Text, email: Text)

  datatype Summary = Summary(
    eventId: Text, userId: Option<Text>, email: Option<Text>, modelId: Text, workflowId: Option<Text>,
    status: Status, canonicalHash: Option<Text>, txHash: Option<Text>, anchoredAt: Option<Instant>,
    createdAt: Instant)

  /** The e-mail under the owner's identifier, whatever the user's organisation and status. */
  function OwnerEmail(users: map<Text, User>, owner: Option<Text>): Option<Text> {
    if IsSet(owner) && owner.value in users then Some(users[owner.value].email) else None
  }

  /** `findUserByIdAndOrg`, by which `getById` finds the owner: only an active user of the organisation. */
  function DetailEmail(users: map<Text, User>, org: Text, owner: Option<Text>): Option<Text> {
    if IsSet(owner) && owner.value in users && users[owner.value].orgId == org && users[owner.value].active
    then Some(users[owner.value].email) else None
  }

  /**
   The list and the detail name the same owner exactly when there is no such
   user or the user is active in the event's organisation.
   */
  lemma EmailsAgreeExactly(users: map<Text, User>, org: Text, owner: Option<Text>)
    ensures OwnerEmail(users, owner) == DetailEmail(users, org, owner) <==>
            (IsSet(owner) && owner.value in users ==> users[owner.value].orgId == org && users[owner.value].active)
    ensures DetailEmail(users, org, owner).Some? ==> OwnerEmail(users, owner) == DetailEmail(users, org, owner)
  {
  }

  function ToSummary(e: Entry, email: Option<Text>): Summary {
    Summary(e.id, e.row.userId, email, e.row.modelId, e.row.workflowId, e.row.status, e.row.canonicalHash,
            e.row.txHash, e.row.anchoredAt, e.row.createdAt)
  }

  /** `findUsersByIds`: the users among the given identifiers, in no particular order. */
  ghost predicate FindsUsers(users: map<Text, User>, ids: set<Text>, found: seq<Contact>) {
    && (forall u :: u in found ==> u.userId in ids && u.userId in users && users[u.userId].email == u.email)
    && (forall id :: id in ids && id in users ==> Contact(id, users[id].email) in found)
  }

  /** The identifiers to fetch: those of the page's owners, without repeats or blanks. */
  function OwnerIds(es: seq<Entry>): set<Text> {
    set e | e in es && IsSet(e.row.userId) :: e.row.userId.value
  }

  /** Each summary has the e-mail under its own owner's identifier, though all were fetched in one batch. */
  method Summaries(es: seq<Entry>, users: map<Text, User>, fetched: seq<Contact>) returns (data: seq<Summary>)
    requires FindsUsers(users, OwnerIds(es), fetched)
    ensures |data| == |es|
    ensures forall i :: 0 <= i < |es| ==> data[i] == ToSummary(es[i], OwnerEmail(users, es[i].row.userId))
  {
    var emailById: map<Text, Text> := map[];
    for k := 0 to |fetched|
      invariant forall id :: id in emailById ==> id in OwnerIds(es) && id in users && emailById[id] == users[id].email
      invariant forall j :: 0 <= j < k ==> fetched[j].userId in emailById
    {
      assert fetched[k] in fetched;
      emailById := emailById[fetched[k].userId := fetched[k].email];
    }
    data := [];
    for i := 0 to |es|
      invariant |data| == i
      invariant forall j :: 0 <= j < i ==> data[j] == ToSummary(es[j], OwnerEmail(users, es[j].row.userId))
    {
      var key := if es[i].row.userId.Some? then es[i].row.userId.value else [];
      var email := if key in emailById then Some(emailById[key]) else None;
      assert email == OwnerEmail(users, es[i].row.userId) by {
        assert es[i] in es;
        if IsSet(es[i].row.userId) && key in users {
          assert key in OwnerIds(es);
          assert Contact(key, users[key].email) in fetched;
        }
      }
      data := data + [ToSummary(es[i], email)];
    }
  }

  // ---------------------------------------------------------------------------
  // The query, written out
  // ---------------------------------------------------------------------------

  lemma MatchesExactly(q: Query, row: Row)
    ensures Matches(q, row) <==>
            && row.orgId == q.orgId
            && (q.userId.Some? && |q.userId.value| > 0 ==> row.userId == q.userId)
            && (q.statuses.Some? && |q.statuses.value| > 0 ==> row.status in q.statuses.value)
            && (q.from.Some? ==> row.createdAt >= q.from.value)
            && (q.to.Some? ==> row.createdAt <= q.to.value)
            && (q.workflowId.Some? && |q.workflowId.value| > 0 ==> row.workflowId == q.workflowId)
            && (q.modelId.Some? && |q.modelId.value| > 0 ==> row.modelId == q.modelId.value)
  {
    var all := ALL_CONDITIONS;
    assert ByOrg in all && ByUser in all && ByStatus in all && From in all && To in all && ByWorkflow in all;
    assert ByModel in all;
  }

  /** Oldest first when ascending, newest first otherwise. */
  lemma SelectedInOrder(q: Query, table: seq<Entry>, i: nat, j: nat)
    requires i < j < |Selected(q, table)|
    ensures var s := Selected(q, table);
            if q.ascending then s[i].row.createdAt <= s[j].row.createdAt else s[i].row.createdAt >= s[j].row.createdAt
  {
    SortByTimeSorts(q.ascending, Filter(q, ALL_CONDITIONS, table));
    assert InOrder(q.ascending, Selected(q, table)[i], Selected(q, table)[j]);
  }

  /** Page `page` holds the `size` entries after the first `(page - 1) * size`, as far as there are any. */
  lemma PageExactly(es: seq<Entry>, page: nat, size: nat, i: nat)
    requires page >= 1
    ensures i < |Page(es, page, size)| <==> i < size && (page - 1) * size + i < |es|
    ensures i < |Page(es, page, size)| ==> Page(es, page, size)[i] == es[(page - 1) * size + i]
  {
  }

  /** A summary shows the columns of its own row. */
  lemma SummaryColumns(e: Entry, email: Option<Text>)
    ensures var s := ToSummary(e, email);
            && s.eventId == e.id && s.userId == e.row.userId && s.email == email && s.modelId == e.row.modelId
            && s.workflowId == e.row.workflowId && s.status == e.row.status
            && s.canonicalHash == e.row.canonicalHash && s.txHash == e.row.txHash
            && s.anchoredAt == e.row.anchoredAt && s.createdAt == e.row.createdAt
  {
  }
}
