/**
 JSON values as plain JavaScript data, and the recursive key sort of
 `CanonicalisationService.sortKeysRecursive`.

 An object is its list of own properties. The assignment `sorted[key] = …`
 creates no own property for the key `__proto__`, so such entries vanish; the
 theorems below say exactly what that costs.
 */
module Json {
  import opened Text
  import opened KeyOrder

  /** A number is identified with its printed form (`Number::toString`). */
  datatype Json =
    | Null
    | Bool(b: bool)
    | Number(digits: Text)
    | String(s: Text)
    | Array(items: seq<Json>)
    | Object(fields: seq<Field>)

  datatype Field = Field(key: Text, value: Json)

  const PROTO: Text := Ascii("__proto__")

  /** The characters of a printed number: digits, sign, point and exponent. */
  predicate IsNumberUnit(u: CodeUnit) {
    IsDigit(u) || u == 0x2B || u == 0x2D || u == 0x2E || u == 0x65
  }

  predicate IsNumberText(t: Text) {
    && |t| > 0
    && (IsDigit(t[0]) || t[0] == 0x2D)
    && forall i :: 0 <= i < |t| ==> IsNumberUnit(t[i])
  }

  predicate DistinctKeys(fs: seq<Field>) {
    forall i, j :: 0 <= i < j < |fs| ==> fs[i].key != fs[j].key
  }

  /** What JavaScript guarantees of every value: own keys are distinct. */
  predicate Valid(v: Json) {
    match v
    case Number(t) => IsNumberText(t)
    case Array(items) => forall i :: 0 <= i < |items| ==> Valid(items[i])
    case Object(fs) => DistinctKeys(fs) && forall i :: 0 <= i < |fs| ==> Valid(fs[i].value)
    case _ => true
  }

  /** No object at any depth has an own property named `__proto__`. */
  predicate ProtoFree(v: Json) {
    match v
    case Array(items) => forall i :: 0 <= i < |items| ==> ProtoFree(items[i])
    case Object(fs) => forall i :: 0 <= i < |fs| ==> fs[i].key != PROTO && ProtoFree(fs[i].value)
    case _ => true
  }

  /**
   Equality up to the order of object keys at every depth, where entries whose
   key is in `ignored` do not count. `SameUpTo({}, a, b)` is equality of JSON
   values; arrays are compared in order.
   */
  predicate SameUpTo(ignored: set<Text>, a: Json, b: Json)
    decreases a, 3
  {
    match (a, b)
    case (Array(xs), Array(ys)) =>
      |xs| == |ys| && forall i :: 0 <= i < |xs| ==> SameUpTo(ignored, xs[i], ys[i])
    case (Object(fs), Object(gs)) => SameFields(ignored, fs, gs)
    case _ => a == b && !a.Array? && !a.Object?
  }

  /** Each entry that counts has a counterpart on the other side. */
  predicate SameFields(ignored: set<Text>, fs: seq<Field>, gs: seq<Field>)
    decreases fs, 2
  {
    && (forall i :: 0 <= i < |fs| && fs[i].key !in ignored ==> HasMatch(ignored, fs[i], gs))
    && (forall j :: 0 <= j < |gs| && gs[j].key !in ignored ==> IsMatched(ignored, fs, gs[j]))
  }

  predicate HasMatch(ignored: set<Text>, f: Field, gs: seq<Field>)
    decreases f, 1
  {
    exists j :: 0 <= j < |gs| && gs[j].key == f.key && SameUpTo(ignored, f.value, gs[j].value)
  }

  predicate IsMatched(ignored: set<Text>, fs: seq<Field>, g: Field)
    decreases fs, 1
  {
    exists i :: 0 <= i < |fs| && fs[i].key == g.key && SameUpTo(ignored, fs[i].value, g.value)
  }

  // ---------------------------------------------------------------------------
  // The sorted form, as a function
  // ---------------------------------------------------------------------------

  predicate Sorted(fs: seq<Field>) {
    forall i, j :: 0 <= i < j < |fs| ==> Before(fs[i].key, fs[j].key)
  }

  function Insert(f: Field, fs: seq<Field>): seq<Field> {
    if fs == [] || Before(f.key, fs[0].key) then [f] + fs
    else [fs[0]] + Insert(f, fs[1..])
  }

  function InsertionSort(fs: seq<Field>): seq<Field> {
    if fs == [] then [] else Insert(fs[0], InsertionSort(fs[1..]))
  }

  function SortKeys(v: Json): Json
    decreases v, 1
  {
    match v
    case Array(items) => Array(SortItems(items))
    case Object(fs) => Object(InsertionSort(Entries(fs)))
    case _ => v
  }

  function SortItems(items: seq<Json>): (r: seq<Json>)
    ensures |r| == |items| && forall i :: 0 <= i < |items| ==> r[i] == SortKeys(items[i])
    decreases items, 0
  {
    if items == [] then [] else [SortKeys(items[0])] + SortItems(items[1..])
  }

  function SortedField(f: Field): Field
    decreases f, 2
  {
    Field(f.key, SortKeys(f.value))
  }

  /** The entries that survive, each with its value sorted, in the original order. */
  function Entries(fs: seq<Field>): (r: seq<Field>)
    decreases fs, 0
  {
    if fs == [] then []
    else if fs[0].key == PROTO then Entries(fs[1..])
    else [SortedField(fs[0])] + Entries(fs[1..])
  }

  // ---------------------------------------------------------------------------
  // Sorting: a permutation, in order, and the only one
  // ---------------------------------------------------------------------------

  lemma {:induction false} InsertPermutes(f: Field, fs: seq<Field>)
    ensures multiset(Insert(f, fs)) == multiset([f] + fs)
  {
    if !(fs == [] || Before(f.key, fs[0].key)) {
      InsertPermutes(f, fs[1..]);
      assert fs == [fs[0]] + fs[1..];
    }
  }

  lemma {:induction false} InsertionSortPermutes(fs: seq<Field>)
    ensures multiset(InsertionSort(fs)) == multiset(fs)
  {
    if fs != [] {
      InsertionSortPermutes(fs[1..]);
      InsertPermutes(fs[0], InsertionSort(fs[1..]));
      assert fs == [fs[0]] + fs[1..];
    }
  }

  lemma MemberOfPermutation(a: seq<Field>, b: seq<Field>, f: Field)
    requires multiset(a) == multiset(b)
    ensures f in a <==> f in b
  {
    assert f in a <==> f in multiset(a);
    assert f in b <==> f in multiset(b);
  }

  lemma {:induction false} InsertSorted(f: Field, fs: seq<Field>)
    requires Sorted(fs)
    requires forall g :: g in fs ==> g.key != f.key
    ensures Sorted(Insert(f, fs))
  {
    if fs == [] {
    } else if Before(f.key, fs[0].key) {
      forall j | 0 < j < |fs| ensures Before(f.key, fs[j].key) {
        BeforeTransitive(f.key, fs[0].key, fs[j].key);
      }
    } else {
      assert fs[0] in fs;
      BeforeTotal(f.key, fs[0].key);
      InsertSorted(f, fs[1..]);
      var rest := Insert(f, fs[1..]);
      InsertPermutes(f, fs[1..]);
      forall j | 0 <= j < |rest| ensures Before(fs[0].key, rest[j].key) {
        MemberOfPermutation(rest, [f] + fs[1..], rest[j]);
      }
    }
  }

  lemma {:induction false} InsertionSortSorted(fs: seq<Field>)
    requires DistinctKeys(fs)
    ensures Sorted(InsertionSort(fs))
  {
    if fs != [] {
      InsertionSortSorted(fs[1..]);
      var rest := InsertionSort(fs[1..]);
      InsertionSortPermutes(fs[1..]);
      forall g | g in rest ensures g.key != fs[0].key {
        MemberOfPermutation(rest, fs[1..], g);
      }
      InsertSorted(fs[0], rest);
    }
  }

  predicate SameEntries(a: seq<Field>, b: seq<Field>) {
    (forall f :: f in a ==> f in b) && (forall f :: f in b ==> f in a)
  }

  lemma NonEmptyHasMember(a: seq<Field>)
    ensures a == [] || exists f :: f in a
  {
    assert a == [] || a[0] in a;
  }

  /** A strictly sorted list is determined by the entries it holds. */
  lemma {:induction false} SortedUnique(a: seq<Field>, b: seq<Field>)
    requires Sorted(a) && Sorted(b) && SameEntries(a, b)
    ensures a == b
  {
    if a == [] || b == [] {
      NonEmptyHasMember(a);
      NonEmptyHasMember(b);
    } else {
      SortedHead(a, b);
      SortedTail(a, b);
      SortedTail(b, a);
      SortedUnique(a[1..], b[1..]);
    }
  }

  lemma SortedHead(a: seq<Field>, b: seq<Field>)
    requires Sorted(a) && Sorted(b) && SameEntries(a, b) && a != [] && b != []
    ensures a[0] == b[0]
  {
    assert a[0] in b && b[0] in a;
    var i :| 0 <= i < |b| && b[i] == a[0];
    var j :| 0 <= j < |a| && a[j] == b[0];
    if i > 0 && j > 0 {
      BeforeTransitive(a[0].key, b[0].key, a[0].key);
      BeforeIrreflexive(a[0].key);
    }
  }

  lemma SortedTail(a: seq<Field>, b: seq<Field>)
    requires Sorted(a) && Sorted(b) && SameEntries(a, b) && a != [] && b != [] && a[0] == b[0]
    ensures forall f :: f in a[1..] ==> f in b[1..]
  {
    forall f | f in a[1..] ensures f in b[1..] {
      var i :| 0 <= i < |a[1..]| && a[1..][i] == f;
      assert Before(a[0].key, a[i + 1].key);
      BeforeIrreflexive(f.key);
      assert f in a;
      var j :| 0 <= j < |b| && b[j] == f;
      assert b[j] == b[1..][j - 1];
    }
  }

  // ---------------------------------------------------------------------------
  // What the sorted form of an object holds
  // ---------------------------------------------------------------------------

  lemma {:induction false} EntriesMember(fs: seq<Field>, g: Field)
    ensures g in Entries(fs) <==>
            exists i :: 0 <= i < |fs| && fs[i].key != PROTO && g == SortedField(fs[i])
  {
    if fs != [] {
      EntriesMember(fs[1..], g);
      if i :| 0 <= i < |fs| && fs[i].key != PROTO && g == SortedField(fs[i]) {
        if i > 0 { assert fs[1..][i - 1] == fs[i]; }
      }
      if i :| 0 <= i < |fs[1..]| && fs[1..][i].key != PROTO
              && g == SortedField(fs[1..][i]) {
        assert fs[i + 1] == fs[1..][i];
      }
    }
  }

  lemma {:induction false} EntriesDistinct(fs: seq<Field>)
    requires DistinctKeys(fs)
    ensures DistinctKeys(Entries(fs))
  {
    if fs != [] {
      EntriesDistinct(fs[1..]);
      var rest := Entries(fs[1..]);
      forall j | 0 <= j < |rest| ensures fs[0].key != rest[j].key {
        EntriesMember(fs[1..], rest[j]);
      }
    }
  }

  /** The sorted object is strictly sorted and holds each surviving entry, sorted. */
  lemma SortedObject(fs: seq<Field>)
    requires DistinctKeys(fs)
    ensures Sorted(InsertionSort(Entries(fs)))
    ensures multiset(InsertionSort(Entries(fs))) == multiset(Entries(fs))
  {
    EntriesDistinct(fs);
    InsertionSortSorted(Entries(fs));
    InsertionSortPermutes(Entries(fs));
  }

  lemma SortedObjectMember(fs: seq<Field>, g: Field)
    ensures g in InsertionSort(Entries(fs)) <==>
            exists i :: 0 <= i < |fs| && fs[i].key != PROTO && g == SortedField(fs[i])
  {
    InsertionSortPermutes(Entries(fs));
    MemberOfPermutation(InsertionSort(Entries(fs)), Entries(fs), g);
    EntriesMember(fs, g);
  }

  // ---------------------------------------------------------------------------
  // The sorted form is a complete invariant
  // ---------------------------------------------------------------------------

  lemma {:induction false} SortKeysSound(a: Json, b: Json)
    requires Valid(a) && Valid(b) && SortKeys(a) == SortKeys(b)
    ensures SameUpTo({PROTO}, a, b)
    decreases a, 1
  {
    match (a, b)
    case (Array(xs), Array(ys)) =>
      assert |xs| == |SortItems(xs)| == |SortItems(ys)| == |ys|;
      forall i | 0 <= i < |xs| ensures SameUpTo({PROTO}, xs[i], ys[i]) {
        assert SortItems(xs)[i] == SortItems(ys)[i];
        SortKeysSound(xs[i], ys[i]);
      }
    case (Object(fs), Object(gs)) => SortFieldsSound(fs, gs);
    case _ =>
  }

  lemma {:induction false} SortFieldsSound(fs: seq<Field>, gs: seq<Field>)
    requires forall i :: 0 <= i < |fs| ==> Valid(fs[i].value)
    requires forall j :: 0 <= j < |gs| ==> Valid(gs[j].value)
    requires InsertionSort(Entries(fs)) == InsertionSort(Entries(gs))
    ensures SameFields({PROTO}, fs, gs)
    decreases fs, 0
  {
    forall i | 0 <= i < |fs| && fs[i].key != PROTO ensures HasMatch({PROTO}, fs[i], gs) {
      var f := SortedField(fs[i]);
      SortedObjectMember(fs, f);
      SortedObjectMember(gs, f);
      var j :| 0 <= j < |gs| && gs[j].key != PROTO && f == SortedField(gs[j]);
      SortKeysSound(fs[i].value, gs[j].value);
    }
    forall j | 0 <= j < |gs| && gs[j].key != PROTO ensures IsMatched({PROTO}, fs, gs[j]) {
      var g := SortedField(gs[j]);
      SortedObjectMember(gs, g);
      SortedObjectMember(fs, g);
      var i :| 0 <= i < |fs| && fs[i].key != PROTO && g == SortedField(fs[i]);
      SortKeysSound(fs[i].value, gs[j].value);
    }
  }

  lemma {:induction false} SortKeysComplete(a: Json, b: Json)
    requires Valid(a) && Valid(b) && SameUpTo({PROTO}, a, b)
    ensures SortKeys(a) == SortKeys(b)
    decreases a, 1
  {
    match (a, b)
    case (Array(xs), Array(ys)) =>
      forall i | 0 <= i < |xs| ensures SortItems(xs)[i] == SortItems(ys)[i] {
        SortKeysComplete(xs[i], ys[i]);
      }
      assert SortItems(xs) == SortItems(ys);
    case (Object(fs), Object(gs)) => SortFieldsComplete(fs, gs);
    case _ =>
  }

  lemma EntryArrives(fs: seq<Field>, i: nat, f: Field)
    requires i < |fs| && fs[i].key == f.key != PROTO && SortKeys(fs[i].value) == f.value
    ensures f in InsertionSort(Entries(fs))
  {
    SortedObjectMember(fs, f);
    assert f == SortedField(fs[i]);
  }

  lemma {:induction false} SortFieldsComplete(fs: seq<Field>, gs: seq<Field>)
    requires DistinctKeys(fs) && forall i :: 0 <= i < |fs| ==> Valid(fs[i].value)
    requires DistinctKeys(gs) && forall j :: 0 <= j < |gs| ==> Valid(gs[j].value)
    requires SameFields({PROTO}, fs, gs)
    ensures InsertionSort(Entries(fs)) == InsertionSort(Entries(gs))
    decreases fs, 0
  {
    var s, t := InsertionSort(Entries(fs)), InsertionSort(Entries(gs));
    SortedObject(fs);
    SortedObject(gs);
    forall f | f in s ensures f in t {
      SortedObjectMember(fs, f);
      var i :| 0 <= i < |fs| && fs[i].key != PROTO && f == SortedField(fs[i]);
      assert HasMatch({PROTO}, fs[i], gs);
      var j :| 0 <= j < |gs| && gs[j].key == fs[i].key && SameUpTo({PROTO}, fs[i].value, gs[j].value);
      SortKeysComplete(fs[i].value, gs[j].value);
      EntryArrives(gs, j, f);
    }
    forall g | g in t ensures g in s {
      SortedObjectMember(gs, g);
      var j :| 0 <= j < |gs| && gs[j].key != PROTO && g == SortedField(gs[j]);
      assert IsMatched({PROTO}, fs, gs[j]);
      var i :| 0 <= i < |fs| && fs[i].key == gs[j].key && SameUpTo({PROTO}, fs[i].value, gs[j].value);
      SortKeysComplete(fs[i].value, gs[j].value);
      EntryArrives(fs, i, g);
    }
    SortedUnique(s, t);
  }

  /** Two values sort to the same form exactly when they are equal up to key order and `__proto__` entries. */
  lemma SortKeysInvariant(a: Json, b: Json)
    requires Valid(a) && Valid(b)
    ensures SortKeys(a) == SortKeys(b) <==> SameUpTo({PROTO}, a, b)
  {
    if SortKeys(a) == SortKeys(b) { SortKeysSound(a, b); }
    if SameUpTo({PROTO}, a, b) { SortKeysComplete(a, b); }
  }

  // ---------------------------------------------------------------------------
  // The sorted form is well formed, and sorting again changes nothing
  // ---------------------------------------------------------------------------

  lemma SortedIsDistinct(fs: seq<Field>)
    requires Sorted(fs)
    ensures DistinctKeys(fs)
  {
    forall i, j | 0 <= i < j < |fs| ensures fs[i].key != fs[j].key {
      BeforeIrreflexive(fs[i].key);
    }
  }

  lemma {:induction false} SortKeysValid(v: Json)
    requires Valid(v)
    ensures Valid(SortKeys(v)) && ProtoFree(SortKeys(v))
  {
    match v
    case Array(items) =>
      forall i | 0 <= i < |items| ensures Valid(SortItems(items)[i]) && ProtoFree(SortItems(items)[i]) {
        SortKeysValid(items[i]);
      }
    case Object(fs) =>
      var s := InsertionSort(Entries(fs));
      SortedObject(fs);
      SortedIsDistinct(s);
      forall k | 0 <= k < |s| ensures s[k].key != PROTO && Valid(s[k].value) && ProtoFree(s[k].value) {
        SortedObjectMember(fs, s[k]);
        var i :| 0 <= i < |fs| && fs[i].key != PROTO && s[k] == SortedField(fs[i]);
        SortKeysValid(fs[i].value);
      }
    case _ =>
  }

  lemma {:induction false} SameAsSorted(v: Json)
    requires Valid(v)
    ensures SameUpTo({PROTO}, v, SortKeys(v))
  {
    match v
    case Array(items) =>
      forall i | 0 <= i < |items| ensures SameUpTo({PROTO}, items[i], SortItems(items)[i]) {
        SameAsSorted(items[i]);
      }
    case Object(fs) =>
      var s := InsertionSort(Entries(fs));
      forall i | 0 <= i < |fs| && fs[i].key != PROTO ensures HasMatch({PROTO}, fs[i], s) {
        SortedObjectMember(fs, SortedField(fs[i]));
        SameAsSorted(fs[i].value);
        var j :| 0 <= j < |s| && s[j] == SortedField(fs[i]);
      }
      forall j | 0 <= j < |s| && s[j].key != PROTO ensures IsMatched({PROTO}, fs, s[j]) {
        SortedObjectMember(fs, s[j]);
        var i :| 0 <= i < |fs| && fs[i].key != PROTO && s[j] == SortedField(fs[i]);
        SameAsSorted(fs[i].value);
      }
    case _ =>
  }

  /** Sorting is idempotent. */
  lemma SortKeysIdempotent(v: Json)
    requires Valid(v)
    ensures SortKeys(SortKeys(v)) == SortKeys(v)
  {
    SortKeysValid(v);
    SameAsSorted(v);
    SortKeysInvariant(v, SortKeys(v));
  }

  // ---------------------------------------------------------------------------
  // The `__proto__` entries
  // ---------------------------------------------------------------------------

  /** Where no `__proto__` key occurs, ignoring it changes nothing. */
  lemma {:induction false} ProtoFreeSame(a: Json, b: Json)
    requires ProtoFree(a) && ProtoFree(b)
    ensures SameUpTo({PROTO}, a, b) <==> SameUpTo({}, a, b)
    decreases a, 1
  {
    match (a, b)
    case (Array(xs), Array(ys)) =>
      forall i | 0 <= i < |xs| && i < |ys|
        ensures SameUpTo({PROTO}, xs[i], ys[i]) <==> SameUpTo({}, xs[i], ys[i])
      {
        ProtoFreeSame(xs[i], ys[i]);
      }
    case (Object(fs), Object(gs)) => ProtoFreeSameFields(fs, gs);
    case _ =>
  }

  lemma {:induction false} ProtoFreeSameFields(fs: seq<Field>, gs: seq<Field>)
    requires forall i :: 0 <= i < |fs| ==> fs[i].key != PROTO && ProtoFree(fs[i].value)
    requires forall j :: 0 <= j < |gs| ==> gs[j].key != PROTO && ProtoFree(gs[j].value)
    ensures SameFields({PROTO}, fs, gs) <==> SameFields({}, fs, gs)
    decreases fs, 0
  {
    forall i, j | 0 <= i < |fs| && 0 <= j < |gs|
      ensures SameUpTo({PROTO}, fs[i].value, gs[j].value) <==> SameUpTo({}, fs[i].value, gs[j].value)
    {
      ProtoFreeSame(fs[i].value, gs[j].value);
    }
    forall i | 0 <= i < |fs| ensures HasMatch({PROTO}, fs[i], gs) <==> HasMatch({}, fs[i], gs) {}
    forall j | 0 <= j < |gs| ensures IsMatched({PROTO}, fs, gs[j]) <==> IsMatched({}, fs, gs[j]) {}
  }

  /** Equal values are in particular equal up to `__proto__` entries. */
  lemma {:induction false} SameWeakens(a: Json, b: Json)
    requires SameUpTo({}, a, b)
    ensures SameUpTo({PROTO}, a, b)
    decreases a, 1
  {
    match (a, b)
    case (Array(xs), Array(ys)) =>
      forall i | 0 <= i < |xs| ensures SameUpTo({PROTO}, xs[i], ys[i]) {
        SameWeakens(xs[i], ys[i]);
      }
    case (Object(fs), Object(gs)) => SameFieldsWeakens(fs, gs);
    case _ =>
  }

  lemma {:induction false} SameFieldsWeakens(fs: seq<Field>, gs: seq<Field>)
    requires SameFields({}, fs, gs)
    ensures SameFields({PROTO}, fs, gs)
    decreases fs, 0
  {
    forall i | 0 <= i < |fs| ensures HasMatch({PROTO}, fs[i], gs) {
      assert HasMatch({}, fs[i], gs);
      var j :| 0 <= j < |gs| && gs[j].key == fs[i].key && SameUpTo({}, fs[i].value, gs[j].value);
      SameWeakens(fs[i].value, gs[j].value);
    }
    forall j | 0 <= j < |gs| ensures IsMatched({PROTO}, fs, gs[j]) {
      assert IsMatched({}, fs, gs[j]);
      var i :| 0 <= i < |fs| && fs[i].key == gs[j].key && SameUpTo({}, fs[i].value, gs[j].value);
      SameWeakens(fs[i].value, gs[j].value);
    }
  }

  lemma {:induction false} SameKeepsProtoFree(a: Json, b: Json)
    requires SameUpTo({}, a, b) && ProtoFree(b)
    ensures ProtoFree(a)
    decreases a
  {
    match (a, b)
    case (Array(xs), Array(ys)) =>
      forall i | 0 <= i < |xs| ensures ProtoFree(xs[i]) {
        SameKeepsProtoFree(xs[i], ys[i]);
      }
    case (Object(fs), Object(gs)) =>
      forall i | 0 <= i < |fs| ensures fs[i].key != PROTO && ProtoFree(fs[i].value) {
        assert HasMatch({}, fs[i], gs);
        var j :| 0 <= j < |gs| && gs[j].key == fs[i].key && SameUpTo({}, fs[i].value, gs[j].value);
        SameKeepsProtoFree(fs[i].value, gs[j].value);
      }
    case _ =>
  }

  /** Sorting loses nothing but key order exactly when no `__proto__` key occurs. */
  lemma SortKeysLossless(v: Json)
    requires Valid(v)
    ensures SameUpTo({}, v, SortKeys(v)) <==> ProtoFree(v)
  {
    SortKeysValid(v);
    if ProtoFree(v) {
      SameAsSorted(v);
      ProtoFreeSame(v, SortKeys(v));
    }
    if SameUpTo({}, v, SortKeys(v)) {
      SameKeepsProtoFree(v, SortKeys(v));
    }
  }

  /** A value the sort does not keep: `{"__proto__": true}` sorts like `{}`. */
  lemma ProtoCollision()
    ensures PROTO == Ascii("__proto__")
    ensures var v := Object([Field(Ascii("__proto__"), Bool(true))]);
            Valid(v) && Valid(Object([])) && SortKeys(v) == SortKeys(Object([])) && !SameUpTo({}, v, Object([]))
  {
    var fs := [Field(PROTO, Bool(true))];
    assert Entries(fs) == Entries(fs[1..]) == Entries([]);
    assert !HasMatch({}, fs[0], []);
  }

  // ---------------------------------------------------------------------------
  // Property access
  // ---------------------------------------------------------------------------

  /** `value[key]`, with None for an absent property. */
  function Lookup(fs: seq<Field>, k: Text): Option<Json> {
    if fs == [] then None
    else if fs[0].key == k then Some(fs[0].value)
    else Lookup(fs[1..], k)
  }

  lemma {:induction false} LookupFinds(fs: seq<Field>, i: nat)
    requires DistinctKeys(fs) && i < |fs|
    ensures Lookup(fs, fs[i].key) == Some(fs[i].value)
  {
    if i > 0 {
      LookupFinds(fs[1..], i - 1);
    }
  }

  lemma {:induction false} LookupMember(fs: seq<Field>, k: Text)
    ensures Lookup(fs, k).Some? ==> Field(k, Lookup(fs, k).value) in fs
    ensures Lookup(fs, k).None? ==> forall i :: 0 <= i < |fs| ==> fs[i].key != k
  {
    if fs != [] {
      LookupMember(fs[1..], k);
      assert fs == [fs[0]] + fs[1..];
      forall i | 0 < i < |fs| ensures fs[i] == fs[1..][i - 1] {}
    }
  }

  predicate SameOption(ignored: set<Text>, a: Option<Json>, b: Option<Json>) {
    match (a, b)
    case (None, None) => true
    case (Some(x), Some(y)) => SameUpTo(ignored, x, y)
    case _ => false
  }

  /** Objects are the same exactly when every property that counts is. */
  lemma SameByLookup(ignored: set<Text>, fs: seq<Field>, gs: seq<Field>)
    requires DistinctKeys(fs) && DistinctKeys(gs)
    ensures SameFields(ignored, fs, gs) <==>
            forall k :: k !in ignored ==> SameOption(ignored, Lookup(fs, k), Lookup(gs, k))
  {
    if SameFields(ignored, fs, gs) {
      forall k | k !in ignored ensures SameOption(ignored, Lookup(fs, k), Lookup(gs, k)) {
        SameFieldsLookup(ignored, fs, gs, k);
      }
    }
    if forall k :: k !in ignored ==> SameOption(ignored, Lookup(fs, k), Lookup(gs, k)) {
      forall i | 0 <= i < |fs| && fs[i].key !in ignored ensures HasMatch(ignored, fs[i], gs) {
        LookupFinds(fs, i);
        LookupMember(gs, fs[i].key);
      }
      forall j | 0 <= j < |gs| && gs[j].key !in ignored ensures IsMatched(ignored, fs, gs[j]) {
        LookupFinds(gs, j);
        LookupMember(fs, gs[j].key);
      }
    }
  }

  lemma SameFieldsLookup(ignored: set<Text>, fs: seq<Field>, gs: seq<Field>, k: Text)
    requires DistinctKeys(fs) && DistinctKeys(gs) && SameFields(ignored, fs, gs) && k !in ignored
    ensures SameOption(ignored, Lookup(fs, k), Lookup(gs, k))
  {
    LookupMember(fs, k);
    LookupMember(gs, k);
    if Lookup(fs, k).Some? {
      var i :| 0 <= i < |fs| && fs[i] == Field(k, Lookup(fs, k).value);
      assert HasMatch(ignored, fs[i], gs);
      var j :| 0 <= j < |gs| && gs[j].key == k && SameUpTo(ignored, fs[i].value, gs[j].value);
      LookupFinds(gs, j);
    }
    if Lookup(gs, k).Some? {
      var j :| 0 <= j < |gs| && gs[j] == Field(k, Lookup(gs, k).value);
      assert IsMatched(ignored, fs, gs[j]);
    }
  }

  // ---------------------------------------------------------------------------
  // Where the keys stand
  // ---------------------------------------------------------------------------

  /** The places of two keys in the sorted object follow from the keys alone. */
  lemma KeyPositions(fs: seq<Field>, i: nat, j: nat)
    requires DistinctKeys(fs) && i < |InsertionSort(Entries(fs))| && j < |InsertionSort(Entries(fs))| && i != j
    ensures var a, b := InsertionSort(Entries(fs))[i].key, InsertionSort(Entries(fs))[j].key;
            i < j <==>
            || (exists m, n :: m < n && IsIndexOf(a, m) && IsIndexOf(b, n))
            || ((exists m :: IsIndexOf(a, m)) && !exists n :: IsIndexOf(b, n))
            || ((!exists m :: IsIndexOf(a, m)) && (!exists n :: IsIndexOf(b, n))
                && ((a <= b && a != b) || exists k: nat :: LessAt(a, b, k)))
  {
    var s := InsertionSort(Entries(fs));
    SortedObject(fs);
    BeforeExactly(s[i].key, s[j].key);
    if j < i && Before(s[i].key, s[j].key) {
      BeforeTransitive(s[i].key, s[j].key, s[i].key);
      BeforeIrreflexive(s[i].key);
    }
  }
}
