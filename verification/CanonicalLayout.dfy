/** The canonical string, written out. */
module CanonicalLayout {
  import opened Text
  import opened KeyOrder
  import opened Json
  import opened JsonText
  import opened JsonSpelling
  import opened Instant
  import opened Canonical

  /** The properties in alphabetical order, the options only when they are present. */
  function SortedProperties(e: Event, stamp: Text): seq<Field> {
    (if e.metadata.Present? then [Field(Ascii("metadata"), SortKeys(e.metadata.value))] else [])
    + [Field(Ascii("model_id"), String(e.modelId)),
       Field(Ascii("output"), String(e.output)),
       Field(Ascii("prompt"), String(e.prompt)),
       Field(Ascii("timestamp"), String(stamp))]
    + (if e.workflowId.Present? then [Field(Ascii("workflow_id"), String(e.workflowId.value))] else [])
  }

  lemma NamesAscend()
    ensures Before(Ascii("metadata"), Ascii("model_id"))
    ensures Before(Ascii("model_id"), Ascii("output"))
    ensures Before(Ascii("output"), Ascii("prompt"))
    ensures Before(Ascii("prompt"), Ascii("timestamp"))
    ensures Before(Ascii("timestamp"), Ascii("workflow_id"))
  {
    var metadata, model := Ascii("metadata"), Ascii("model_id");
    assert metadata[0] == model[0] == 0x6D && metadata[1..][0] == 0x65 && model[1..][0] == 0x6F;
    assert Ascii("output")[0] == 0x6F && Ascii("prompt")[0] == 0x70;
    assert Ascii("timestamp")[0] == 0x74 && Ascii("workflow_id")[0] == 0x77;
  }

  lemma PrependSorted(f: Field, fs: seq<Field>)
    requires Sorted(fs) && (fs != [] ==> Before(f.key, fs[0].key))
    ensures Sorted([f] + fs)
  {
    forall j | 0 < j < |fs| ensures Before(f.key, fs[j].key) {
      BeforeTransitive(f.key, fs[0].key, fs[j].key);
    }
  }

  lemma FieldsSorted(first: seq<Field>, a: Field, b: Field, c: Field, d: Field, last: seq<Field>)
    requires |first| <= 1 && |last| <= 1
    requires first != [] ==> Before(first[0].key, a.key)
    requires Before(a.key, b.key) && Before(b.key, c.key) && Before(c.key, d.key)
    requires last != [] ==> Before(d.key, last[0].key)
    ensures Sorted(first + [a, b, c, d] + last)
  {
    PrependSorted(d, last);
    PrependSorted(c, [d] + last);
    PrependSorted(b, [c] + ([d] + last));
    PrependSorted(a, [b] + ([c] + ([d] + last)));
    var required := [a] + ([b] + ([c] + ([d] + last)));
    assert required == [a, b, c, d] + last;
    if first != [] {
      PrependSorted(first[0], required);
      assert first + [a, b, c, d] + last == [first[0]] + required;
    } else {
      assert first + [a, b, c, d] + last == required;
    }
  }

  lemma PropertiesSorted(e: Event, stamp: Text)
    ensures Sorted(SortedProperties(e, stamp))
  {
    NamesAscend();
    FieldsSorted(
      if e.metadata.Present? then [Field(Ascii("metadata"), SortKeys(e.metadata.value))] else [],
      Field(Ascii("model_id"), String(e.modelId)),
      Field(Ascii("output"), String(e.output)),
      Field(Ascii("prompt"), String(e.prompt)),
      Field(Ascii("timestamp"), String(stamp)),
      if e.workflowId.Present? then [Field(Ascii("workflow_id"), String(e.workflowId.value))] else []);
  }

  /** Each assembled property appears among the sorted ones, and nothing else does. */
  lemma PropertiesMember(e: Event, stamp: Text, g: Field)
    ensures g in SortedProperties(e, stamp) <==> g in InsertionSort(Entries(EventFields(e, stamp)))
  {
    var fs := EventFields(e, stamp);
    NamesDiffer();
    SortedObjectMember(fs, g);
    forall i | 0 <= i < |fs| ensures SortedField(fs[i]) in SortedProperties(e, stamp) && fs[i].key != PROTO {
      PropertyKept(e, stamp, i);
    }
    if g in SortedProperties(e, stamp) {
      PropertyComes(e, stamp, g);
    }
  }

  lemma PropertyKept(e: Event, stamp: Text, i: nat)
    requires i < |EventFields(e, stamp)|
    ensures EventFields(e, stamp)[i].key != PROTO
    ensures SortedField(EventFields(e, stamp)[i]) in SortedProperties(e, stamp)
  {
    NamesDiffer();
    var fs, gs := EventFields(e, stamp), SortedProperties(e, stamp);
    var k := if e.metadata.Present? then 1 else 0;
    assert fs[0] == Field(MODEL_ID, String(e.modelId)) && SortedField(fs[0]) == gs[k];
    assert fs[1] == Field(OUTPUT, String(e.output)) && SortedField(fs[1]) == gs[k + 1];
    assert fs[2] == Field(PROMPT, String(e.prompt)) && SortedField(fs[2]) == gs[k + 2];
    assert fs[3] == Field(TIMESTAMP, String(stamp)) && SortedField(fs[3]) == gs[k + 3];
    if i >= 4 {
      assert fs[i].key == METADATA || fs[i].key == WORKFLOW_ID;
      if e.metadata.Present? && i == |fs| - 1 {
        assert SortedField(fs[i]) == gs[0];
      } else {
        assert SortedField(fs[i]) == gs[|gs| - 1];
      }
    }
  }

  lemma PropertyComes(e: Event, stamp: Text, g: Field)
    requires g in SortedProperties(e, stamp)
    ensures exists i :: 0 <= i < |EventFields(e, stamp)| && EventFields(e, stamp)[i].key != PROTO
                        && g == SortedField(EventFields(e, stamp)[i])
  {
    NamesDiffer();
    var fs, gs := EventFields(e, stamp), SortedProperties(e, stamp);
    var n :| 0 <= n < |gs| && gs[n] == g;
    var k := if e.metadata.Present? then 1 else 0;
    var i := if n < k then |fs| - 1 else if n < k + 4 then n - k else 4;
    assert g == SortedField(fs[i]) && fs[i].key != PROTO;
  }

  /** `"name":value` */
  function Property(name: string, value: Json): Text
    requires forall i :: 0 <= i < |name| ==> name[i] < 128 as char
  {
    Ascii("\"") + Ascii(name) + Ascii("\":") + Stringify(value)
  }

  /** Text that needs no escape is printed as it is. */
  lemma {:induction false} PlainQuote(t: Text)
    requires forall i :: 0 <= i < |t| ==> 32 <= t[i] < 128 && t[i] != 34 && t[i] != 92
    ensures QuoteUnits(t) == t
  {
    if t != [] {
      PlainQuote(t[1..]);
      assert t == [t[0]] + t[1..];
    }
  }

  lemma PropertyText(name: string, value: Json)
    requires forall i :: 0 <= i < |name| ==> ' ' <= name[i] <= '~' && name[i] != '"' && name[i] != '\\'
    ensures MemberTexts([Field(Ascii(name), value)]) == [Property(name, value)]
  {
    PlainQuote(Ascii(name));
    LiteralNames(Ascii(name));
    assert Ascii("\"") + Ascii(name) + Ascii("\"") + Ascii(":") == Ascii("\"") + Ascii(name) + Ascii("\":");
  }

  lemma MembersSplit(fs: seq<Field>, gs: seq<Field>)
    ensures MemberTexts(fs + gs) == MemberTexts(fs) + MemberTexts(gs)
  {
  }

  /** The texts of the properties, in their order. */
  function PropertyTexts(e: Event, stamp: Text): seq<Text> {
    (if e.metadata.Present? then [Property("metadata", SortKeys(e.metadata.value))] else [])
    + [Property("model_id", String(e.modelId)), Property("output", String(e.output)),
       Property("prompt", String(e.prompt)), Property("timestamp", String(stamp))]
    + (if e.workflowId.Present? then [Property("workflow_id", String(e.workflowId.value))] else [])
  }

  lemma RequiredTexts(e: Event, stamp: Text)
    ensures MemberTexts([Field(Ascii("model_id"), String(e.modelId)), Field(Ascii("output"), String(e.output)),
                         Field(Ascii("prompt"), String(e.prompt)), Field(Ascii("timestamp"), String(stamp))]) ==
            [Property("model_id", String(e.modelId)), Property("output", String(e.output)),
             Property("prompt", String(e.prompt)), Property("timestamp", String(stamp))]
  {
    var a, b := Field(Ascii("model_id"), String(e.modelId)), Field(Ascii("output"), String(e.output));
    var c, d := Field(Ascii("prompt"), String(e.prompt)), Field(Ascii("timestamp"), String(stamp));
    PropertyText("model_id", a.value);
    PropertyText("output", b.value);
    PropertyText("prompt", c.value);
    PropertyText("timestamp", d.value);
    MembersSplit([a], [b]);
    MembersSplit([a] + [b], [c]);
    MembersSplit([a] + [b] + [c], [d]);
    assert [a] + [b] + [c] + [d] == [a, b, c, d];
  }

  lemma TextsOfProperties(e: Event, stamp: Text)
    ensures MemberTexts(SortedProperties(e, stamp)) == PropertyTexts(e, stamp)
  {
    var first := if e.metadata.Present? then [Field(Ascii("metadata"), SortKeys(e.metadata.value))] else [];
    var middle := [Field(Ascii("model_id"), String(e.modelId)), Field(Ascii("output"), String(e.output)),
                   Field(Ascii("prompt"), String(e.prompt)), Field(Ascii("timestamp"), String(stamp))];
    var last := if e.workflowId.Present? then [Field(Ascii("workflow_id"), String(e.workflowId.value))] else [];
    if e.metadata.Present? {
      PropertyText("metadata", SortKeys(e.metadata.value));
    }
    if e.workflowId.Present? {
      PropertyText("workflow_id", String(e.workflowId.value));
    }
    RequiredTexts(e, stamp);
    MembersSplit(first, middle);
    MembersSplit(first + middle, last);
  }

  lemma StampedLayout(e: Event, stamp: Text)
    requires ValidEvent(e)
    ensures StampedForm(e, stamp) == Ascii("{") + Join(PropertyTexts(e, stamp)) + Ascii("}")
  {
    var fs := EventFields(e, stamp);
    EventFieldsValid(e, stamp);
    SortedObject(fs);
    PropertiesSorted(e, stamp);
    forall g ensures g in SortedProperties(e, stamp) <==> g in InsertionSort(Entries(fs)) {
      PropertiesMember(e, stamp, g);
    }
    SortedUnique(SortedProperties(e, stamp), InsertionSort(Entries(fs)));
    ObjectLayout(SortedProperties(e, stamp));
    TextsOfProperties(e, stamp);
  }

  /**
   The canonical string is the object of the event's properties by name: each
   required one, the options that are present, the instant as `toISOString`
   prints it, metadata sorted, and nothing else.
   */
  lemma CanonicalString(e: Event)
    requires ValidEvent(e)
    ensures CanonicalForm(e).Some? <==> ParseTimestamp(e.timestamp).Some?
    ensures CanonicalForm(e).Some? ==>
              CanonicalForm(e).value ==
              Ascii("{") + Join(PropertyTexts(e, ToIsoString(ParseTimestamp(e.timestamp).value))) + Ascii("}")
  {
    if ParseTimestamp(e.timestamp).Some? {
      StampedLayout(e, ToIsoString(ParseTimestamp(e.timestamp).value));
    }
  }
}
