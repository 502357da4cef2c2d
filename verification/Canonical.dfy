/**
 `CanonicalisationService`: the canonical string of an event, and what that
 string determines.
 */
module Canonical {
  import opened Text
  import opened KeyOrder
  import opened Json
  import JsonText
  import opened Instant

  /** An optional property of a JavaScript record. */
  datatype Optional<+T> = Undefined | NullValue | Present(value: T)
  {
    /** The value unless the property is `== null`. */
    function Known(): Option<T> {
      match this
      case Present(v) => Some(v)
      case _ => None
    }
  }

  datatype Event = Event(
    prompt: Text,
    output: Text,
    modelId: Text,
    timestamp: Text,
    workflowId: Optional<Text>,
    metadata: Optional<Json>)

  /** What the types promise: metadata, when given, is a record of JSON data. */
  predicate ValidEvent(e: Event) {
    e.metadata.Present? ==> e.metadata.value.Object? && Valid(e.metadata.value)
  }

  const MODEL_ID: Text := Ascii("model_id")
  const OUTPUT: Text := Ascii("output")
  const PROMPT: Text := Ascii("prompt")
  const TIMESTAMP: Text := Ascii("timestamp")
  const WORKFLOW_ID: Text := Ascii("workflow_id")
  const METADATA: Text := Ascii("metadata")

  /** The record assembled before sorting, with the timestamp already printed. */
  function EventFields(e: Event, stamp: Text): seq<Field> {
    [Field(MODEL_ID, String(e.modelId)),
     Field(OUTPUT, String(e.output)),
     Field(PROMPT, String(e.prompt)),
     Field(TIMESTAMP, String(stamp))]
    + (if e.workflowId.Present? then [Field(WORKFLOW_ID, String(e.workflowId.value))] else [])
    + (if e.metadata.Present? then [Field(METADATA, e.metadata.value)] else [])
  }

  function StampedForm(e: Event, stamp: Text): Text {
    JsonText.Stringify(SortKeys(Object(EventFields(e, stamp))))
  }

  /** The canonical string; None where `toISOString` throws on an invalid date. */
  function CanonicalForm(e: Event): Option<Text> {
    match ParseTimestamp(e.timestamp)
    case None => None
    case Some(t) => Some(StampedForm(e, ToIsoString(t)))
  }

  // ---------------------------------------------------------------------------
  // The service's own loops
  // ---------------------------------------------------------------------------

  /** `Array.prototype.sort` on strings. */
  function LexInsert(k: Text, ks: seq<Text>): seq<Text> {
    if ks == [] || LexLess(k, ks[0]) then [k] + ks else [ks[0]] + LexInsert(k, ks[1..])
  }

  function LexSort(ks: seq<Text>): seq<Text> {
    if ks == [] then [] else LexInsert(ks[0], LexSort(ks[1..]))
  }

  predicate LexSorted(ks: seq<Text>) {
    forall i, j :: 0 <= i < j < |ks| ==> LexLess(ks[i], ks[j])
  }

  predicate DistinctTexts(ks: seq<Text>) {
    forall i, j :: 0 <= i < j < |ks| ==> ks[i] != ks[j]
  }

  lemma {:induction false} LexInsertSorts(k: Text, ks: seq<Text>)
    requires LexSorted(ks) && k !in ks
    ensures LexSorted(LexInsert(k, ks))
    ensures forall x :: x in LexInsert(k, ks) <==> x == k || x in ks
  {
    if ks != [] {
      if LexLess(k, ks[0]) {
        forall j | 0 < j < |ks| ensures LexLess(k, ks[j]) {
          LexTransitive(k, ks[0], ks[j]);
        }
      } else {
        LexTotal(k, ks[0]);
        LexInsertSorts(k, ks[1..]);
        assert ks == [ks[0]] + ks[1..];
        var rest := LexInsert(k, ks[1..]);
        forall j | 0 <= j < |rest| ensures LexLess(ks[0], rest[j]) {
          assert rest[j] in rest;
        }
      }
    }
  }

  lemma {:induction false} LexSortSorts(ks: seq<Text>)
    requires DistinctTexts(ks)
    ensures LexSorted(LexSort(ks))
    ensures forall x :: x in LexSort(ks) <==> x in ks
  {
    if ks != [] {
      LexSortSorts(ks[1..]);
      assert ks == [ks[0]] + ks[1..];
      LexInsertSorts(ks[0], LexSort(ks[1..]));
    }
  }

  function ObjectKeys(fs: seq<Field>): (ks: seq<Text>)
    ensures |ks| == |fs| && forall i :: 0 <= i < |fs| ==> ks[i] == fs[i].key
  {
    if fs == [] then [] else [fs[0].key] + ObjectKeys(fs[1..])
  }

  /**
   `sorted[key] = value` on a plain object, as its own properties list:
   `__proto__` reaches the inherited setter, an existing key keeps its place,
   a new array index goes among the array indices in numeric order and any
   other new key to the end.
   */
  function SetOwn(fs: seq<Field>, k: Text, v: Json): seq<Field> {
    if k == PROTO then fs
    else if exists i :: 0 <= i < |fs| && fs[i].key == k then Replace(fs, k, v)
    else if IsIndex(k) then PlaceIndex(fs, k, v)
    else fs + [Field(k, v)]
  }

  function Replace(fs: seq<Field>, k: Text, v: Json): seq<Field> {
    if fs == [] then []
    else if fs[0].key == k then [Field(k, v)] + fs[1..]
    else [fs[0]] + Replace(fs[1..], k, v)
  }

  function PlaceIndex(fs: seq<Field>, k: Text, v: Json): seq<Field>
    requires IsIndex(k)
  {
    if fs == [] || !IsIndex(fs[0].key) || DecimalValue(k) < DecimalValue(fs[0].key) then [Field(k, v)] + fs
    else [fs[0]] + PlaceIndex(fs[1..], k, v)
  }

  lemma {:induction false} PlaceIndexInserts(fs: seq<Field>, k: Text, v: Json)
    requires IsIndex(k)
    ensures PlaceIndex(fs, k, v) == Insert(Field(k, v), fs)
  {
    if fs != [] {
      PlaceIndexInserts(fs[1..], k, v);
    }
  }

  /** Assigning the keys in code-unit order leaves the object in emission order. */
  lemma SetOwnKeepsSorted(fs: seq<Field>, k: Text, v: Json)
    requires Sorted(fs) && k != PROTO
    requires forall g :: g in fs ==> LexLess(g.key, k)
    ensures Sorted(SetOwn(fs, k, v))
    ensures forall g :: g in SetOwn(fs, k, v) <==> g == Field(k, v) || g in fs
  {
    forall g | g in fs ensures g.key != k {
      LexIrreflexive(k);
    }
    forall i | 0 <= i < |fs| ensures fs[i].key != k {
      assert fs[i] in fs;
    }
    if IsIndex(k) {
      PlaceIndexInserts(fs, k, v);
      InsertSorted(Field(k, v), fs);
      InsertPermutes(Field(k, v), fs);
      forall g ensures g in Insert(Field(k, v), fs) <==> g == Field(k, v) || g in fs {
        MemberOfPermutation(Insert(Field(k, v), fs), [Field(k, v)] + fs, g);
      }
    } else {
      forall i | 0 <= i < |fs| ensures Before(fs[i].key, k) {
        assert fs[i] in fs;
      }
    }
  }

  /** `f` is an entry that sorting `fs` keeps and whose key is among `ks`. */
  ghost predicate IsSortedEntry(fs: seq<Field>, ks: seq<Text>, f: Field) {
    f.key in ks && f.key != PROTO && Lookup(fs, f.key).Some? && f.value == SortKeys(Lookup(fs, f.key).value)
  }

  lemma SortedEntriesAreAll(fs: seq<Field>, ks: seq<Text>, sorted: seq<Field>)
    requires DistinctKeys(fs) && Sorted(sorted)
    requires forall i :: 0 <= i < |fs| ==> fs[i].key in ks
    requires forall f :: f in sorted <==> IsSortedEntry(fs, ks, f)
    ensures sorted == InsertionSort(Entries(fs))
  {
    SortedObject(fs);
    var s := InsertionSort(Entries(fs));
    forall f | f in sorted ensures f in s {
      assert IsSortedEntry(fs, ks, f);
      LookupMember(fs, f.key);
      var i :| 0 <= i < |fs| && fs[i] == Field(f.key, Lookup(fs, f.key).value);
      assert f == SortedField(fs[i]);
      SortedObjectMember(fs, f);
    }
    forall f | f in s ensures f in sorted {
      SortedObjectMember(fs, f);
      var i :| 0 <= i < |fs| && fs[i].key != PROTO && f == SortedField(fs[i]);
      LookupFinds(fs, i);
      assert IsSortedEntry(fs, ks, f);
    }
    SortedUnique(sorted, s);
  }

  /** The recursive copy with its keys assigned in code-unit order. */
  method SortKeysRecursive(value: Json) returns (r: Json)
    requires Valid(value)
    ensures r == SortKeys(value)
    decreases value, 1
  {
    match value
    case Array(items) =>
      var mapped: seq<Json> := [];
      for i := 0 to |items|
        invariant |mapped| == i && forall j :: 0 <= j < i ==> mapped[j] == SortKeys(items[j])
      {
        var item := SortKeysRecursive(items[i]);
        mapped := mapped + [item];
      }
      assert mapped == SortItems(items);
      r := Array(mapped);
    case Object(fs) =>
      var sorted := SortFields(fs);
      r := Object(sorted);
    case _ => r := value;
  }

  method SortFields(fs: seq<Field>) returns (sorted: seq<Field>)
    requires DistinctKeys(fs) && forall i :: 0 <= i < |fs| ==> Valid(fs[i].value)
    ensures sorted == InsertionSort(Entries(fs))
    decreases fs, 0
  {
    var keys := LexSort(ObjectKeys(fs));
    LexSortSorts(ObjectKeys(fs));
    sorted := [];
    for i := 0 to |keys|
      invariant Sorted(sorted)
      invariant forall f :: f in sorted <==> IsSortedEntry(fs, keys[..i], f)
    {
      var key := keys[i];
      assert key in keys;
      var n :| 0 <= n < |fs| && fs[n].key == key;
      LookupFinds(fs, n);
      var v := SortKeysRecursive(fs[n].value);
      assert keys[..i + 1] == keys[..i] + [key];
      forall g | g in sorted ensures LexLess(g.key, key) {
        assert IsSortedEntry(fs, keys[..i], g);
      }
      if key != PROTO {
        SetOwnKeepsSorted(sorted, key, v);
      }
      sorted := SetOwn(sorted, key, v);
    }
    assert keys[..|keys|] == keys;
    forall i | 0 <= i < |fs| ensures fs[i].key in keys {
      assert ObjectKeys(fs)[i] in ObjectKeys(fs);
    }
    SortedEntriesAreAll(fs, keys, sorted);
  }

  lemma SetOwnAppends(fs: seq<Field>, k: Text, v: Json)
    requires k != PROTO && !IsIndex(k) && forall i :: 0 <= i < |fs| ==> fs[i].key != k
    ensures SetOwn(fs, k, v) == fs + [Field(k, v)]
  {
  }

  /** The record `canonicalise` fills: required fields first, then the options that are present. */
  method Assemble(e: Event, stamp: Text) returns (obj: seq<Field>)
    ensures obj == EventFields(e, stamp)
  {
    obj := [Field(MODEL_ID, String(e.modelId)),
            Field(OUTPUT, String(e.output)),
            Field(PROMPT, String(e.prompt)),
            Field(TIMESTAMP, String(stamp))];
    NamesDiffer();
    if e.workflowId.Present? {
      SetOwnAppends(obj, WORKFLOW_ID, String(e.workflowId.value));
      obj := SetOwn(obj, WORKFLOW_ID, String(e.workflowId.value));
    }
    if e.metadata.Present? {
      SetOwnAppends(obj, METADATA, e.metadata.value);
      obj := SetOwn(obj, METADATA, e.metadata.value);
    }
  }

  method Canonicalise(e: Event) returns (r: Option<Text>)
    requires ValidEvent(e)
    ensures r == CanonicalForm(e)
  {
    var instant := ParseTimestamp(e.timestamp);
    if instant.None? {
      return None;
    }
    var stamp := ToIsoString(instant.value);
    var obj := Assemble(e, stamp);
    EventFieldsValid(e, stamp);
    var sorted := SortKeysRecursive(Object(obj));
    r := Some(JsonText.Stringify(sorted));
  }

  // ---------------------------------------------------------------------------
  // Alphabetical order
  // ---------------------------------------------------------------------------

  /** Wherever an array index goes first in the printed object, the alphabet agrees. */
  predicate IndexKeysAgree(fs: seq<Field>) {
    forall i, j | 0 <= i < |fs| && 0 <= j < |fs| && fs[i].key != PROTO && fs[j].key != PROTO ::
      IsIndex(fs[i].key) && Before(fs[i].key, fs[j].key) ==> LexLess(fs[i].key, fs[j].key)
  }

  lemma KeptKeys(fs: seq<Field>, k: nat)
    requires k < |InsertionSort(Entries(fs))|
    ensures exists i :: 0 <= i < |fs| && fs[i].key != PROTO && fs[i].key == InsertionSort(Entries(fs))[k].key
  {
    SortedObjectMember(fs, InsertionSort(Entries(fs))[k]);
  }

  lemma KeyIsKept(fs: seq<Field>, i: nat) returns (k: nat)
    requires i < |fs| && fs[i].key != PROTO
    ensures k < |InsertionSort(Entries(fs))| && InsertionSort(Entries(fs))[k].key == fs[i].key
  {
    SortedObjectMember(fs, SortedField(fs[i]));
    k :| 0 <= k < |InsertionSort(Entries(fs))| && InsertionSort(Entries(fs))[k] == SortedField(fs[i]);
  }

  /** The printed keys are in alphabetical (code unit) order exactly when the array indices among them allow it. */
  lemma AlphabeticalExactly(fs: seq<Field>)
    requires DistinctKeys(fs)
    ensures LexSorted(ObjectKeys(InsertionSort(Entries(fs)))) <==> IndexKeysAgree(fs)
  {
    var s := InsertionSort(Entries(fs));
    SortedObject(fs);
    if IndexKeysAgree(fs) {
      forall i, j | 0 <= i < j < |s| ensures LexLess(s[i].key, s[j].key) {
        KeptKeys(fs, i);
        KeptKeys(fs, j);
        assert Before(s[i].key, s[j].key);
      }
    }
    if LexSorted(ObjectKeys(s)) {
      forall i, j | 0 <= i < |fs| && 0 <= j < |fs| && fs[i].key != PROTO && fs[j].key != PROTO
                    && IsIndex(fs[i].key) && Before(fs[i].key, fs[j].key)
        ensures LexLess(fs[i].key, fs[j].key)
      {
        var k := KeyIsKept(fs, i);
        var l := KeyIsKept(fs, j);
        SortedPositions(s, k, l);
        assert ObjectKeys(s)[k] == s[k].key && ObjectKeys(s)[l] == s[l].key;
      }
    }
  }

  lemma SortedPositions(s: seq<Field>, k: nat, l: nat)
    requires Sorted(s) && k < |s| && l < |s| && Before(s[k].key, s[l].key)
    ensures k < l
  {
    if l < k {
      BeforeTransitive(s[k].key, s[l].key, s[k].key);
    }
    BeforeIrreflexive(s[k].key);
  }

  /** Keys the printer does not put in alphabetical order: "9" comes before "10". */
  lemma NotAlphabetical()
    ensures var fs := [Field(Ascii("10"), Null), Field(Ascii("9"), Null)];
            DistinctKeys(fs) && !LexSorted(ObjectKeys(InsertionSort(Entries(fs))))
  {
    var ten, nine := Ascii("10"), Ascii("9");
    var fs := [Field(ten, Null), Field(nine, Null)];
    assert ten[..1] == [0x31] && [0x31][..0] == [] && nine[..0] == [];
    assert DecimalValue([0x31]) == 1 && DecimalValue(nine) == 9 && DecimalValue(ten) == 10;
    assert ten[0] == 0x31 && nine[0] == 0x39;
    assert IsIndex(fs[1].key) && Before(fs[1].key, fs[0].key) && !LexLess(fs[1].key, fs[0].key);
    assert PROTO[0] == 0x5F;
    AlphabeticalExactly(fs);
  }

  // ---------------------------------------------------------------------------
  // What the canonical string determines
  // ---------------------------------------------------------------------------

  lemma NamesDiffer()
    ensures MODEL_ID !in {OUTPUT, PROMPT, TIMESTAMP, WORKFLOW_ID, METADATA, PROTO}
    ensures OUTPUT !in {PROMPT, TIMESTAMP, WORKFLOW_ID, METADATA, PROTO}
    ensures PROMPT !in {TIMESTAMP, WORKFLOW_ID, METADATA, PROTO}
    ensures TIMESTAMP !in {WORKFLOW_ID, METADATA, PROTO}
    ensures WORKFLOW_ID !in {METADATA, PROTO}
    ensures METADATA != PROTO
    ensures !IsIndex(WORKFLOW_ID) && !IsIndex(METADATA)
  {
    assert MODEL_ID[0] == METADATA[0] == 0x6D && MODEL_ID[1] == 0x6F && METADATA[1] == 0x65;
    assert OUTPUT[0] == 0x6F && PROMPT[0] == 0x70 && TIMESTAMP[0] == 0x74;
    assert WORKFLOW_ID[0] == 0x77 && PROTO[0] == 0x5F;
  }

  lemma EventFieldsValid(e: Event, stamp: Text)
    requires ValidEvent(e)
    ensures DistinctKeys(EventFields(e, stamp))
    ensures Valid(Object(EventFields(e, stamp)))
  {
    NamesDiffer();
  }

  /** The properties of the assembled record, by name. */
  function EventProperty(e: Event, stamp: Text, k: Text): Option<Json> {
    if k == MODEL_ID then Some(String(e.modelId))
    else if k == OUTPUT then Some(String(e.output))
    else if k == PROMPT then Some(String(e.prompt))
    else if k == TIMESTAMP then Some(String(stamp))
    else if k == WORKFLOW_ID && e.workflowId.Present? then Some(String(e.workflowId.value))
    else if k == METADATA && e.metadata.Present? then Some(e.metadata.value)
    else None
  }

  lemma EventLookup(e: Event, stamp: Text, k: Text)
    requires ValidEvent(e)
    ensures Lookup(EventFields(e, stamp), k) == EventProperty(e, stamp, k)
  {
    var fs := EventFields(e, stamp);
    EventFieldsValid(e, stamp);
    NamesDiffer();
    LookupMember(fs, k);
    forall i | 0 <= i < |fs| ensures Lookup(fs, fs[i].key) == Some(fs[i].value) {
      LookupFinds(fs, i);
    }
    assert fs[0].key == MODEL_ID && fs[1].key == OUTPUT && fs[2].key == PROMPT && fs[3].key == TIMESTAMP;
    if e.workflowId.Present? { assert fs[4].key == WORKFLOW_ID; }
    if e.metadata.Present? { assert fs[|fs| - 1].key == METADATA; }
  }

  /** Events that agree on every field, with absent and null options identified. */
  predicate SameEvent(ignored: set<Text>, e: Event, f: Event) {
    && e.prompt == f.prompt
    && e.output == f.output
    && e.modelId == f.modelId
    && ParseTimestamp(e.timestamp) == ParseTimestamp(f.timestamp)
    && e.workflowId.Known() == f.workflowId.Known()
    && SameOption(ignored, e.metadata.Known(), f.metadata.Known())
  }

  /** Equality of events, the printed timestamps standing for the instants. */
  predicate SameStamped(e: Event, s: Text, f: Event, t: Text) {
    && e.prompt == f.prompt
    && e.output == f.output
    && e.modelId == f.modelId
    && s == t
    && e.workflowId.Known() == f.workflowId.Known()
    && SameOption({PROTO}, e.metadata.Known(), f.metadata.Known())
  }

  /** Equal records have equal properties. */
  lemma SamePropertyOf(e: Event, s: Text, f: Event, t: Text, k: Text)
    requires ValidEvent(e) && ValidEvent(f) && k != PROTO
    requires SameFields({PROTO}, EventFields(e, s), EventFields(f, t))
    ensures SameOption({PROTO}, EventProperty(e, s, k), EventProperty(f, t, k))
  {
    var fs, gs := EventFields(e, s), EventFields(f, t);
    assert DistinctKeys(fs) && DistinctKeys(gs) by {
      EventFieldsValid(e, s);
      EventFieldsValid(f, t);
    }
    SameFieldsLookup({PROTO}, fs, gs, k);
    EventLookup(e, s, k);
    EventLookup(f, t, k);
  }

  /** Records with equal properties are equal. */
  lemma SameRecords(e: Event, s: Text, f: Event, t: Text)
    requires ValidEvent(e) && ValidEvent(f) && SameStamped(e, s, f, t)
    ensures SameFields({PROTO}, EventFields(e, s), EventFields(f, t))
  {
    var fs, gs := EventFields(e, s), EventFields(f, t);
    assert DistinctKeys(fs) && DistinctKeys(gs) by {
      EventFieldsValid(e, s);
      EventFieldsValid(f, t);
    }
    forall k | k != PROTO ensures SameOption({PROTO}, Lookup(fs, k), Lookup(gs, k)) {
      EventLookup(e, s, k);
      EventLookup(f, t, k);
    }
    SameByLookup({PROTO}, fs, gs);
  }

  /** The two assembled records, property by property. */
  lemma SameEventFields(e: Event, s: Text, f: Event, t: Text)
    requires ValidEvent(e) && ValidEvent(f)
    ensures SameFields({PROTO}, EventFields(e, s), EventFields(f, t)) <==> SameStamped(e, s, f, t)
  {
    if SameFields({PROTO}, EventFields(e, s), EventFields(f, t)) {
      forall k | k != PROTO ensures SameOption({PROTO}, EventProperty(e, s, k), EventProperty(f, t, k)) {
        SamePropertyOf(e, s, f, t, k);
      }
      SameEventByName(e, s, f, t);
    }
    if SameStamped(e, s, f, t) {
      SameRecords(e, s, f, t);
    }
  }

  lemma SameEventByName(e: Event, s: Text, f: Event, t: Text)
    requires ValidEvent(e) && ValidEvent(f)
    requires forall k :: k != PROTO ==> SameOption({PROTO}, EventProperty(e, s, k), EventProperty(f, t, k))
    ensures SameStamped(e, s, f, t)
  {
    NamesDiffer();
    assert SameOption({PROTO}, EventProperty(e, s, MODEL_ID), EventProperty(f, t, MODEL_ID));
    assert SameOption({PROTO}, EventProperty(e, s, OUTPUT), EventProperty(f, t, OUTPUT));
    assert SameOption({PROTO}, EventProperty(e, s, PROMPT), EventProperty(f, t, PROMPT));
    assert SameOption({PROTO}, EventProperty(e, s, TIMESTAMP), EventProperty(f, t, TIMESTAMP));
    assert SameOption({PROTO}, EventProperty(e, s, WORKFLOW_ID), EventProperty(f, t, WORKFLOW_ID));
    assert SameOption({PROTO}, EventProperty(e, s, METADATA), EventProperty(f, t, METADATA));
  }

  /**
   The canonical string is a complete invariant: an event with a valid date has
   the string of another exactly when the two agree on every field, metadata
   being compared up to key order at every depth and up to `__proto__` entries.
   */
  lemma CanonicalFormInvariant(e: Event, f: Event)
    requires ValidEvent(e) && ValidEvent(f)
    ensures CanonicalForm(e).Some? ==> (CanonicalForm(e) == CanonicalForm(f) <==> SameEvent({PROTO}, e, f))
  {
    var t, u := ParseTimestamp(e.timestamp), ParseTimestamp(f.timestamp);
    if t.Some? && u.Some? {
      StampedFormInvariant(e, ToIsoString(t.value), f, ToIsoString(u.value));
      ToIsoStringInjective(t.value, u.value);
    }
  }

  lemma StampedFormInvariant(e: Event, s: Text, f: Event, t: Text)
    requires ValidEvent(e) && ValidEvent(f)
    ensures StampedForm(e, s) == StampedForm(f, t) <==> SameStamped(e, s, f, t)
  {
    var a, b := Object(EventFields(e, s)), Object(EventFields(f, t));
    EventFieldsValid(e, s);
    EventFieldsValid(f, t);
    SortKeysInvariant(a, b);
    SameEventFields(e, s, f, t);
    SortKeysValid(a);
    SortKeysValid(b);
    if StampedForm(e, s) == StampedForm(f, t) {
      JsonText.StringifyInjective(SortKeys(a), SortKeys(b));
    }
  }

  predicate ProtoFreeEvent(e: Event) {
    e.metadata.Present? ==> ProtoFree(e.metadata.value)
  }

  /** Without `__proto__` keys the string identifies the event up to key order alone. */
  lemma CanonicalFormIdentifies(e: Event, f: Event)
    requires ValidEvent(e) && ValidEvent(f) && ProtoFreeEvent(e) && ProtoFreeEvent(f)
    ensures CanonicalForm(e).Some? ==> (CanonicalForm(e) == CanonicalForm(f) <==> SameEvent({}, e, f))
  {
    CanonicalFormInvariant(e, f);
    if e.metadata.Present? && f.metadata.Present? {
      ProtoFreeSame(e.metadata.value, f.metadata.value);
    }
  }

  /** The string depends on the event's fields and nothing else. */
  lemma SameStampedFields(e: Event, f: Event, stamp: Text)
    requires e.prompt == f.prompt && e.output == f.output && e.modelId == f.modelId
    requires e.workflowId.Known() == f.workflowId.Known() && e.metadata.Known() == f.metadata.Known()
    ensures StampedForm(e, stamp) == StampedForm(f, stamp)
  {
    assert EventFields(e, stamp) == EventFields(f, stamp);
  }

  /** The same instant written in any two ways, whatever the offsets, gives the same string. */
  lemma OffsetIrrelevant(e: Event, t: Instant, s: Text, s': Text)
    requires ValidEvent(e) && Writes(s, t) && Writes(s', t)
    ensures CanonicalForm(e.(timestamp := s)) == CanonicalForm(e.(timestamp := s'))
    ensures CanonicalForm(e.(timestamp := s)).Some?
  {
    ParsesWriting(s, t);
    ParsesWriting(s', t);
    SameStampedFields(e.(timestamp := s), e.(timestamp := s'), ToIsoString(t));
  }

  // ---------------------------------------------------------------------------
  // Reading a canonical string back
  // ---------------------------------------------------------------------------

  /** The reader returns exactly the sorted record, with nothing left over. */
  lemma CanonicalFormReads(e: Event, stamp: Text)
    requires ValidEvent(e)
    ensures JsonText.Parse(StampedForm(e, stamp)) == Some(SortKeys(Object(EventFields(e, stamp))))
  {
    EventFieldsValid(e, stamp);
    SortKeysValid(Object(EventFields(e, stamp)));
    JsonText.ParseStringify(SortKeys(Object(EventFields(e, stamp))));
  }

  function StringAt(fs: seq<Field>, k: Text): Option<Text> {
    match Lookup(fs, k)
    case Some(String(s)) => Some(s)
    case _ => None
  }

  /** The event a canonical string describes. */
  function ReadEvent(s: Text): Option<Event> {
    match JsonText.Parse(s)
    case Some(Object(fs)) => EventOf(fs)
    case _ => None
  }

  function EventOf(fs: seq<Field>): Option<Event> {
    match (StringAt(fs, PROMPT), StringAt(fs, OUTPUT), StringAt(fs, MODEL_ID), StringAt(fs, TIMESTAMP))
    case (Some(p), Some(o), Some(m), Some(ts)) =>
      Some(Event(p, o, m, ts, Given(StringAt(fs, WORKFLOW_ID)), Given(Lookup(fs, METADATA))))
    case _ => None
  }

  lemma SortedLookup(fs: seq<Field>, k: Text)
    requires DistinctKeys(fs) && k != PROTO
    ensures Lookup(InsertionSort(Entries(fs)), k) ==
            match Lookup(fs, k) case Some(v) => Some(SortKeys(v)) case None => None
  {
    var s := InsertionSort(Entries(fs));
    SortedObject(fs);
    SortedIsDistinct(s);
    LookupMember(fs, k);
    LookupMember(s, k);
    if Lookup(fs, k).Some? {
      var i :| 0 <= i < |fs| && fs[i] == Field(k, Lookup(fs, k).value);
      SortedObjectMember(fs, SortedField(fs[i]));
      var j :| 0 <= j < |s| && s[j] == SortedField(fs[i]);
      LookupFinds(s, j);
    } else if Lookup(s, k).Some? {
      SortedObjectMember(fs, Field(k, Lookup(s, k).value));
    }
  }

  lemma SortedProperty(e: Event, stamp: Text, k: Text)
    requires ValidEvent(e) && k != PROTO
    ensures Lookup(InsertionSort(Entries(EventFields(e, stamp))), k) ==
            match EventProperty(e, stamp, k) case Some(v) => Some(SortKeys(v)) case None => None
  {
    EventFieldsValid(e, stamp);
    SortedLookup(EventFields(e, stamp), k);
    EventLookup(e, stamp, k);
  }

  function Given<T>(o: Option<T>): Optional<T> {
    match o
    case Some(v) => Present(v)
    case None => Undefined
  }

  /** The event with its metadata sorted and its timestamp as printed. */
  function Normalised(e: Event, stamp: Text): Event {
    Event(e.prompt, e.output, e.modelId, stamp, Given(e.workflowId.Known()),
          match e.metadata.Known() case Some(m) => Present(SortKeys(m)) case None => Undefined)
  }

  /** The canonical string alone rebuilds the event, normalised. */
  lemma ReadsEvent(e: Event, stamp: Text)
    requires ValidEvent(e)
    ensures ReadEvent(StampedForm(e, stamp)) == Some(Normalised(e, stamp))
  {
    CanonicalFormReads(e, stamp);
    NamesDiffer();
    SortedProperty(e, stamp, MODEL_ID);
    SortedProperty(e, stamp, OUTPUT);
    SortedProperty(e, stamp, PROMPT);
    SortedProperty(e, stamp, TIMESTAMP);
    SortedProperty(e, stamp, WORKFLOW_ID);
    SortedProperty(e, stamp, METADATA);
  }

  lemma NormalisedMetadata(e: Event, stamp: Text)
    requires ValidEvent(e)
    ensures ValidEvent(Normalised(e, stamp))
    ensures SameOption({PROTO}, e.metadata.Known(), Normalised(e, stamp).metadata.Known())
  {
    if e.metadata.Present? {
      SortKeysValid(e.metadata.value);
      SameAsSorted(e.metadata.value);
    }
  }

  lemma NormalisedSame(e: Event, stamp: Text)
    requires ValidEvent(e) && ParseTimestamp(e.timestamp) == ParseTimestamp(stamp)
    ensures ValidEvent(Normalised(e, stamp)) && SameEvent({PROTO}, e, Normalised(e, stamp))
  {
    NormalisedMetadata(e, stamp);
  }

  /** Canonicalising what was read gives the same string again. */
  lemma CanonicalFormStable(e: Event)
    requires ValidEvent(e)
    ensures CanonicalForm(e).Some? ==>
              && ReadEvent(CanonicalForm(e).value).Some?
              && CanonicalForm(ReadEvent(CanonicalForm(e).value).value) == CanonicalForm(e)
  {
    if ParseTimestamp(e.timestamp).Some? {
      var t := ParseTimestamp(e.timestamp).value;
      ReadsEvent(e, ToIsoString(t));
      ParsesTimestamp(t, Utc);
      NormalisedSame(e, ToIsoString(t));
      CanonicalFormInvariant(e, Normalised(e, ToIsoString(t)));
    }
  }
}
