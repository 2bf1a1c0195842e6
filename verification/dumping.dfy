/** Turning an instance back into data for the backend: `dump()` and
    iteration over an instance (`__iter__`). */
module Dumping {
  import opened Results
  import opened Values
  import opened Schemas
  import opened Serialization
  import opened BaseModel

  /** `dump()`: the fields the caller set explicitly, each value passed through
      the field serializer. The fields not explicitly set are excluded (when
      there are none, nothing is excluded). */
  function Dump(fmt: Formatters, rec: Record): (d: map<string, Value>)
    ensures d.Keys == rec.values.Keys * rec.fieldsSet
    ensures forall f :: f in d ==> PassesThrough(d[f])
    ensures forall f :: f in d ==> d[f] == Serialize(fmt, rec.values[f])
  {
    var names := rec.values.Keys;
    var exclude := set f | f in names && f !in rec.fieldsSet;
    var kept := if exclude != {} then names - exclude else names;
    assert kept == names * rec.fieldsSet by {
      if exclude == {} {
        forall f | f in names ensures f in rec.fieldsSet {
          assert f !in exclude;
        }
      }
    }
    map f | f in kept :: Serialize(fmt, rec.values[f])
  }

  /** The dump of fields `i..` as (name, value) pairs, in declaration order. */
  function ItemsFrom(s: Schema, i: nat, d: map<string, Value>): (items: seq<(string, Value)>)
    requires WellFormed(s) && i <= |s.fields|
    decreases |s.fields| - i
    ensures forall k :: 0 <= k < |items| ==> items[k].0 in d && d[items[k].0] == items[k].1
    ensures forall k :: 0 <= k < |items| ==> exists j :: i <= j < |s.fields| && s.fields[j].name == items[k].0
    ensures forall j :: i <= j < |s.fields| && s.fields[j].name in d ==> (s.fields[j].name, d[s.fields[j].name]) in items
    ensures forall a, b :: 0 <= a < b < |items| ==> items[a].0 != items[b].0
  {
    if i == |s.fields| then []
    else
      var name := s.fields[i].name;
      var rest := ItemsFrom(s, i + 1, d);
      assert forall k :: 0 <= k < |rest| ==> rest[k].0 != name;
      if name in d then [(name, d[name])] + rest else rest
  }

  /** `__iter__`: iterating an instance yields exactly the (name, value)
      pairs of its dump, each name once. */
  function Items(s: Schema, fmt: Formatters, rec: Record): (items: seq<(string, Value)>)
    requires WellFormed(s) && rec.values.Keys == FieldNames(s)
    ensures forall p :: p in items <==> p in Dump(fmt, rec).Items
    ensures forall a, b :: 0 <= a < b < |items| ==> items[a].0 != items[b].0
  {
    var d := Dump(fmt, rec);
    var items := ItemsFrom(s, 0, d);
    assert forall p :: p in d.Items ==> p in items by {
      forall p | p in d.Items ensures p in items {
        var j := FieldIndex(s, p.0);
      }
    }
    items
  }

  /** The dump of a constructed instance holds exactly the fields given at
      construction, including those given as None; a field left at its
      default is never dumped. */
  lemma DumpHoldsGiven(s: Schema, fmt: Formatters, given: map<string, Value>)
    requires WellFormed(s) && Construct(s, given).Ok?
    ensures Dump(fmt, Construct(s, given).value).Keys == given.Keys * FieldNames(s)
    ensures forall f :: f in FieldNames(s) && f in given && given[f] == Null ==>
              Dump(fmt, Construct(s, given).value)[f] == Null
  {
    var rec := Construct(s, given).value;
    forall f | f in FieldNames(s) && f in given && given[f] == Null
      ensures rec.values[f] == Null
    {
      var j := FieldIndex(s, f);
      ConstructKeepsValues(s, given, j);
    }
  }

  /** The dump of an instance whose set values all pass through the
      serializer is those values as they are. */
  lemma DumpUnchanged(fmt: Formatters, rec: Record)
    requires rec.fieldsSet <= rec.values.Keys
    requires forall f :: f in rec.fieldsSet ==> PassesThrough(rec.values[f])
    ensures Dump(fmt, rec).Keys == rec.fieldsSet
    ensures forall f :: f in Dump(fmt, rec) ==> Dump(fmt, rec)[f] == rec.values[f]
  {
  }

  /** No field of such a dump fails validation. */
  lemma DumpValidates(s: Schema, fmt: Formatters, rec: Record)
    requires WellFormed(s) && Conforms(s, rec)
    requires forall f :: f in rec.fieldsSet ==> PassesThrough(rec.values[f])
    ensures NoneFailFrom(s, 0, Dump(fmt, rec))
  {
    var given := Dump(fmt, rec);
    DumpUnchanged(fmt, rec);
    forall j | 0 <= j < |s.fields| && s.fields[j].name in given
      ensures ValidateField(s, j, given[s.fields[j].name]) == Ok(given[s.fields[j].name])
    {
      StoredValidates(s, j, rec.values[s.fields[j].name]);
    }
  }

  /** Validating such a dump leaves every field as the instance holds it. */
  lemma DumpRevalidates(s: Schema, fmt: Formatters, rec: Record)
    requires WellFormed(s) && Conforms(s, rec)
    requires forall f :: f in rec.fieldsSet ==> PassesThrough(rec.values[f])
    ensures FieldValues(s, Dump(fmt, rec)) == rec.values
  {
    var given := Dump(fmt, rec);
    DumpUnchanged(fmt, rec);
    var values := FieldValues(s, given);
    forall f | f in FieldNames(s) ensures values[f] == rec.values[f] {
      var j := FieldIndex(s, f);
      if f in given {
        StoredValidates(s, j, rec.values[f]);
      }
    }
  }

  /** Dumping an instance and constructing from the dump gives the instance
      back, when every explicitly set value is one the serializer leaves
      unchanged (ints, strings, enum members, None; a related instance also
      passes through here, where pydantic would turn it into a dict). */
  lemma DumpConstructRoundTrip(s: Schema, fmt: Formatters, rec: Record)
    requires WellFormed(s) && Conforms(s, rec)
    requires forall f :: f in rec.fieldsSet ==> PassesThrough(rec.values[f])
    ensures Construct(s, Dump(fmt, rec)) == Ok(rec)
  {
    var given := Dump(fmt, rec);
    DumpUnchanged(fmt, rec);
    DumpValidates(s, fmt, rec);
    DumpRevalidates(s, fmt, rec);
    assert FieldIssues(s, 0, given) == [];
    var r := Record(s.model, FieldValues(s, given), given.Keys * FieldNames(s));
    assert r == rec;
    assert CheckRequired(s, r) == Ok(r);
  }
}
