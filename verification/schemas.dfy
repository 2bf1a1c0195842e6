/** Field schemas: what a model class declares about each of its fields
    (semantic type and constraints), its required-column list, and what it
    means for a stored value and a whole record to satisfy them. */
module Schemas {
  import opened Results
  import opened Values
  import Sku

  /** A declared field constraint, as pydantic's `Field(...)` takes it. */
  datatype Constraint =
    | MinLength(min: nat)        // min_length
    | MaxLength(max: nat)        // max_length
    | SkuPattern                 // pattern=r"^[A-Z]{2,3}-[0-9]{3,4}$"
    | GreaterThan(bound: int)    // gt

  /** The semantic type of a field, each implicitly `| None`. */
  datatype Kind =
    | IntKind
    | TextKind
    | DecimalKind
    | TimestampKind
    | EnumKind(members: seq<string>)   // a str-valued Enum, by its member values
    | RelationKind(target: Schema)     // another model class

  datatype Field = Field(name: string, kind: Kind, constraints: seq<Constraint>)

  /** A model class: its name, its fields in declaration order, and its
      `_required_columns` (None when the class declares none). */
  datatype Schema = Schema(model: string, fields: seq<Field>, required: Option<seq<string>>)

  /** The names of the declared fields. */
  function FieldNames(s: Schema): set<string> {
    set i | 0 <= i < |s.fields| :: s.fields[i].name
  }

  /** What a class definition guarantees: no field is declared twice, every
      required column is a field, and so for every related class. */
  predicate WellFormed(s: Schema)
    decreases s
  {
    && (forall i, j :: 0 <= i < j < |s.fields| ==> s.fields[i].name != s.fields[j].name)
    && (s.required.Some? ==> forall f :: f in s.required.value ==> f in FieldNames(s))
    && (forall i :: 0 <= i < |s.fields| ==>
          s.fields[i].kind.RelationKind? ==> (assert s.fields[i] in s.fields; WellFormed(s.fields[i].kind.target)))
  }

  /** Whether a value satisfies a constraint. Length and pattern constraints
      apply to text (a str or a str-Enum member); the bound applies to a
      decimal. */
  ghost predicate Holds(c: Constraint, v: Value) {
    match c
    case MinLength(n) => TextOf(v).Some? && |TextOf(v).value| >= n
    case MaxLength(n) => TextOf(v).Some? && |TextOf(v).value| <= n
    case SkuPattern => TextOf(v).Some? && Sku.InLanguage(TextOf(v).value)
    case GreaterThan(b) => v.Dec? && RealOf(v.d) > b as real
  }

  /** Checks one constraint. */
  function Satisfies(c: Constraint, v: Value): (b: bool)
    ensures b <==> Holds(c, v)
  {
    match c
    case MinLength(n) => TextOf(v).Some? && |TextOf(v).value| >= n
    case MaxLength(n) => TextOf(v).Some? && |TextOf(v).value| <= n
    case SkuPattern => TextOf(v).Some? && Sku.Match(TextOf(v).value)
    case GreaterThan(b) => v.Dec? && Exceeds(v.d, b)
  }

  /** The first constraint of `cs`, in declaration order, that `v` breaks;
      None when it satisfies all of them. */
  function FirstBroken(cs: seq<Constraint>, v: Value): (r: Option<Constraint>)
    ensures r.None? <==> forall c :: c in cs ==> Holds(c, v)
    ensures r.Some? ==> exists k :: 0 <= k < |cs| && cs[k] == r.value && !Holds(cs[k], v)
                          && forall j :: 0 <= j < k ==> Holds(cs[j], v)
  {
    if |cs| == 0 then None
    else if !Satisfies(cs[0], v) then Some(cs[0])
    else
      var r := FirstBroken(cs[1..], v);
      assert forall c :: c in cs ==> c == cs[0] || c in cs[1..];
      assert r.Some? ==> exists k :: 0 <= k < |cs| && cs[k] == r.value && !Holds(cs[k], v)
                           && forall j :: 0 <= j < k ==> Holds(cs[j], v) by {
        if r.Some? {
          var k :| 0 <= k < |cs[1..]| && cs[1..][k] == r.value && !Holds(cs[1..][k], v)
                   && forall j :: 0 <= j < k ==> Holds(cs[1..][j], v);
          assert cs[k + 1] == r.value;
          forall j | 0 <= j < k + 1 ensures Holds(cs[j], v) {
            if j > 0 { assert cs[j] == cs[1..][j - 1]; }
          }
        }
      }
      r
  }

  /** Whether a value has the shape a field of this kind stores: the value
      validation produces, never a raw form such as a mapping. */
  predicate KindMatches(k: Kind, v: Value) {
    match k
    case IntKind => v.Int?
    case TextKind => v.Str?
    case DecimalKind => v.Dec?
    case TimestampKind => v.DateTime?
    case EnumKind(ms) => v.Member? && v.member in ms
    case RelationKind(t) => v.Instance? && v.record.model == t.model
  }

  /** A value a validated field may hold: None (every field is optional at
      the type level), or a value of the field's kind meeting every declared
      constraint. */
  ghost predicate Stored(f: Field, v: Value) {
    v == Null || (KindMatches(f.kind, v) && forall c :: c in f.constraints ==> Holds(c, v))
  }

  /** The class's required columns all hold a value other than None. A class
      without a required-column list requires nothing. */
  predicate RequiredPresent(s: Schema, values: map<string, Value>) {
    s.required.Some? ==> forall f :: f in s.required.value ==> f in values && values[f] != Null
  }

  /** What every successfully constructed instance of `s` satisfies: it is an
      instance of the class, holds exactly the declared fields, each field
      holds a value its declaration allows, every field not explicitly set
      holds its default None, and every required column is non-None. */
  ghost predicate Conforms(s: Schema, rec: Record) {
    && rec.model == s.model
    && rec.values.Keys == FieldNames(s)
    && rec.fieldsSet <= FieldNames(s)
    && (forall f :: f in rec.values && f !in rec.fieldsSet ==> rec.values[f] == Null)
    && (forall i :: 0 <= i < |s.fields| ==> Stored(s.fields[i], rec.values[s.fields[i].name]))
    && RequiredPresent(s, rec.values)
  }
}
