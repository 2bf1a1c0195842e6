/** The generic record layer every table model inherits (`SupabaseBaseModel`):
    construction with field validation followed by the required-column
    check (`validate_required_columns`).

    Field validation itself is pydantic's. The model states it at the level
    the class definitions fix: a value of the field's type (or None) meeting
    every declared constraint is accepted, anything else is reported for that
    field, and all fields are checked before any error is raised. */
module BaseModel {
  import opened Results
  import opened Values
  import opened Schemas

  /** Why a field's value was rejected. */
  datatype Violation =
    | WrongType                       // not a value of the field's type
    | NotAMember                      // text that is no member of the field's enum
    | Broken(constraint: Constraint)  // a declared constraint the value breaks
    | InRelation(issues: seq<Issue>)  // the related record's own construction failed

  /** One entry of the validation error construction raises. */
  datatype Issue =
    | FieldIssue(field: string, violation: Violation)
    | RequiredMissing(columns: seq<string>)   // "Required columns cannot be None: [...]"

  /** The type check of a non-None value for field `i`, turning raw forms
      into stored ones: the text of an enum member becomes the member; a
      `str` enum member given to a text field, being a `str` instance, becomes
      its text; and a raw mapping for a relation becomes an instance of the
      related class, built by the same rules. An instance of the related
      class is taken as it is. */
  function Admit(s: Schema, i: nat, v: Value): (r: Result<Value, Violation>)
    requires WellFormed(s) && i < |s.fields| && v != Null
    decreases s, 0, 0
    ensures r.Ok? ==> KindMatches(s.fields[i].kind, r.value)
  {
    match s.fields[i].kind
    case IntKind => if v.Int? then Ok(v) else Err(WrongType)
    case TextKind =>
      if v.Str? then Ok(v)
      else if v.Member? then Ok(Str(v.member))
      else Err(WrongType)
    case DecimalKind => if v.Dec? then Ok(v) else Err(WrongType)
    case TimestampKind => if v.DateTime? then Ok(v) else Err(WrongType)
    case EnumKind(ms) =>
      if v.Str? || v.Member? then
        var t := TextOf(v).value;
        if t in ms then Ok(Member(t)) else Err(NotAMember)
      else Err(WrongType)
    case RelationKind(target) =>
      assert s.fields[i] in s.fields;
      if v.Row? then
        match Construct(target, v.row)
        case Ok(rec) => Ok(Instance(rec))
        case Err(issues) => Err(InRelation(issues))
      else if v.Instance? && v.record.model == target.model then Ok(v)
      else Err(WrongType)
  }

  /** Validation of one field's given value: None passes, anything else must
      pass the type check and then every declared constraint. */
  function ValidateField(s: Schema, i: nat, v: Value): (r: Result<Value, Violation>)
    requires WellFormed(s) && i < |s.fields|
    decreases s, 0, 1
    ensures r.Ok? ==> Stored(s.fields[i], r.value)
    ensures r.Ok? ==> (r.value == Null <==> v == Null)
  {
    if v == Null then Ok(Null)
    else
      match Admit(s, i, v)
      case Err(e) => Err(e)
      case Ok(w) =>
        match FirstBroken(s.fields[i].constraints, w)
        case Some(c) => Err(Broken(c))
        case None => Ok(w)
  }

  /** Whether field `j`'s given value fails validation. */
  predicate FailsAt(s: Schema, j: nat, given: map<string, Value>)
    requires WellFormed(s) && j < |s.fields|
    decreases s, 0, 2
  {
    s.fields[j].name in given && ValidateField(s, j, given[s.fields[j].name]).Err?
  }

  /** The value field `j` holds after validation: the validated given value,
      or the default None when the field was not given. (A failing field
      makes construction fail, so what it holds here is never seen.) */
  function FieldValue(s: Schema, j: nat, given: map<string, Value>): (v: Value)
    requires WellFormed(s) && j < |s.fields|
    decreases s, 0, 3
    ensures Stored(s.fields[j], v)
    ensures s.fields[j].name !in given ==> v == Null
  {
    var name := s.fields[j].name;
    if name in given then
      match ValidateField(s, j, given[name])
      case Ok(w) => w
      case Err(_) => Null
    else Null
  }

  /** Every declared field mapped to the value it holds after validation. */
  function FieldValues(s: Schema, given: map<string, Value>): (values: map<string, Value>)
    requires WellFormed(s)
    decreases s, 1, 0
    ensures values.Keys == FieldNames(s)
    ensures forall j :: 0 <= j < |s.fields| ==> values[s.fields[j].name] == FieldValue(s, j, given)
  {
    map j | 0 <= j < |s.fields| :: s.fields[j].name := FieldValue(s, j, given)
  }

  /** No field from `i` on fails validation. */
  predicate NoneFailFrom(s: Schema, i: nat, given: map<string, Value>)
    requires WellFormed(s) && i <= |s.fields|
    decreases s, 0, 4
  {
    forall j :: i <= j < |s.fields| ==> !FailsAt(s, j, given)
  }

  /** The field errors of fields `i..`, in declaration order: every field is
      checked, and each failing one is reported. */
  function FieldIssues(s: Schema, i: nat, given: map<string, Value>): (issues: seq<Issue>)
    requires WellFormed(s) && i <= |s.fields|
    decreases s, 1, |s.fields| - i + 1
    ensures issues == [] <==> NoneFailFrom(s, i, given)
  {
    if i == |s.fields| then []
    else
      var name := s.fields[i].name;
      var here := if name in given then ValidateField(s, i, given[name]) else Ok(Null);
      var rest := FieldIssues(s, i + 1, given);
      assert here.Err? <==> FailsAt(s, i, given);
      assert NoneFailFrom(s, i, given) <==> !FailsAt(s, i, given) && NoneFailFrom(s, i + 1, given);
      if here.Err? then [FieldIssue(name, here.error)] + rest else rest
  }

  /** `validate_required_columns`: the required columns holding None, in the
      order the list declares them (repeats included). */
  function Missing(req: seq<string>, values: map<string, Value>): (m: seq<string>)
    requires forall f :: f in req ==> f in values
    ensures forall f :: f in m <==> f in req && values[f] == Null
    ensures forall f :: multiset(m)[f] == if f in values && values[f] == Null then multiset(req)[f] else 0
    ensures Subsequence(m, req)
  {
    if |req| == 0 then []
    else
      var rest := Missing(req[1..], values);
      MultisetCons(req);
      if values[req[0]] == Null then
        var m := [req[0]] + rest;
        assert m[1..] == rest;
        MultisetCons(m);
        m
      else rest
  }

  /** The multiset of a non-empty sequence splits at its first element. */
  lemma MultisetCons(xs: seq<string>)
    requires |xs| > 0
    ensures multiset(xs) == multiset{xs[0]} + multiset(xs[1..])
  {
    assert xs == [xs[0]] + xs[1..];
  }

  /** `a` is `b` with some elements deleted, the rest kept in order. */
  ghost predicate Subsequence(a: seq<string>, b: seq<string>)
    decreases |b|
  {
    |a| == 0 || (|b| > 0 && ((a[0] == b[0] && Subsequence(a[1..], b[1..])) || Subsequence(a, b[1..])))
  }

  /** The post-construction hook: a class with a required-column list fails
      with every required column that holds None, listed together; otherwise
      the instance is returned unchanged. */
  function CheckRequired(s: Schema, rec: Record): (r: Result<Record, seq<Issue>>)
    requires WellFormed(s) && rec.values.Keys == FieldNames(s)
    ensures r.Ok? <==> RequiredPresent(s, rec.values)
    ensures r.Ok? ==> r.value == rec
    ensures r.Err? ==> s.required.Some? && r.error == [RequiredMissing(Missing(s.required.value, rec.values))]
                       && Missing(s.required.value, rec.values) != []
  {
    match s.required
    case None => Ok(rec)
    case Some(req) =>
      var missing := Missing(req, rec.values);
      if missing != [] then
        Err([RequiredMissing(missing)])
      else
        assert forall f :: f in req ==> rec.values[f] != Null by {
          forall f | f in req ensures rec.values[f] != Null {
            assert f !in missing;
          }
        }
        Ok(rec)
  }

  /** Constructing an instance of `s` from keyword arguments: every field is
      validated first (all failing fields reported together); only then does
      the required-column check run. The explicitly set fields are the given
      keys that name fields; other keys are ignored. */
  function Construct(s: Schema, given: map<string, Value>): (r: Result<Record, seq<Issue>>)
    requires WellFormed(s)
    decreases s, 2, 0
    ensures r.Ok? ==> Conforms(s, r.value)
    ensures r.Ok? ==> r.value.fieldsSet == given.Keys * FieldNames(s)
  {
    var issues := FieldIssues(s, 0, given);
    if issues != [] then Err(issues)
    else CheckRequired(s, Record(s.model, FieldValues(s, given), given.Keys * FieldNames(s)))
  }

  /** Every declared constraint holds of `v`. */
  ghost predicate AllHold(cs: seq<Constraint>, v: Value) {
    forall c :: c in cs ==> Holds(c, v)
  }

  /** Which values field `i` accepts, stated declaratively: None; or a value
      of the field's type that meets every declared constraint, where the
      text of an enum member stands for the member, any `str` instance
      (enum members included) for its text, and a raw mapping for a
      related record stands for the record the related class builds from it
      (an instance of the related class is taken as it is). */
  ghost predicate Admissible(s: Schema, i: nat, v: Value)
    requires WellFormed(s) && i < |s.fields|
  {
    var f := s.fields[i];
    v == Null ||
    match f.kind
    case IntKind => v.Int? && AllHold(f.constraints, v)
    case TextKind => TextOf(v).Some? && AllHold(f.constraints, Str(TextOf(v).value))
    case DecimalKind => v.Dec? && AllHold(f.constraints, v)
    case TimestampKind => v.DateTime? && AllHold(f.constraints, v)
    case EnumKind(ms) =>
      TextOf(v).Some? && TextOf(v).value in ms && AllHold(f.constraints, Member(TextOf(v).value))
    case RelationKind(target) =>
      assert f in s.fields;
      || (v.Row? && Construct(target, v.row).Ok? && AllHold(f.constraints, Instance(Construct(target, v.row).value)))
      || (v.Instance? && v.record.model == target.model && AllHold(f.constraints, v))
  }

  /** Field validation accepts exactly the admissible values. */
  lemma ValidateFieldAccepts(s: Schema, i: nat, v: Value)
    requires WellFormed(s) && i < |s.fields|
    ensures ValidateField(s, i, v).Ok? <==> Admissible(s, i, v)
  {
    assert s.fields[i] in s.fields;
  }

  /** Every required column is given a value other than None. */
  ghost predicate RequiredGiven(s: Schema, given: map<string, Value>) {
    s.required.Some? ==> forall f :: f in s.required.value ==> f in given && given[f] != Null
  }

  /** Every given field's value is admissible. */
  ghost predicate AllAdmissible(s: Schema, given: map<string, Value>)
    requires WellFormed(s)
  {
    forall j :: 0 <= j < |s.fields| && s.fields[j].name in given ==> Admissible(s, j, given[s.fields[j].name])
  }

  /** No field fails validation exactly when every given value is admissible. */
  lemma NoneFailIffAdmissible(s: Schema, given: map<string, Value>)
    requires WellFormed(s)
    ensures NoneFailFrom(s, 0, given) <==> AllAdmissible(s, given)
  {
    forall j | 0 <= j < |s.fields|
      ensures !FailsAt(s, j, given) <==> (s.fields[j].name in given ==> Admissible(s, j, given[s.fields[j].name]))
    {
      if s.fields[j].name in given {
        ValidateFieldAccepts(s, j, given[s.fields[j].name]);
      }
    }
  }

  /** The index of a declared field name. */
  lemma FieldIndex(s: Schema, f: string) returns (j: nat)
    requires f in FieldNames(s)
    ensures j < |s.fields| && s.fields[j].name == f
  {
    j :| 0 <= j < |s.fields| && s.fields[j].name == f;
  }

  /** After validation a field holds None exactly when it was not given or
      was given None. */
  lemma FieldValueNull(s: Schema, given: map<string, Value>, f: string)
    requires WellFormed(s) && NoneFailFrom(s, 0, given) && f in FieldNames(s)
    ensures FieldValues(s, given)[f] == Null <==> f !in given || given[f] == Null
  {
    var j := FieldIndex(s, f);
    assert !FailsAt(s, j, given);
  }

  /** Construction succeeds exactly when every given field value is
      admissible and every required column is given a value other than None. */
  lemma ConstructSucceeds(s: Schema, given: map<string, Value>)
    requires WellFormed(s)
    ensures Construct(s, given).Ok? <==> AllAdmissible(s, given) && RequiredGiven(s, given)
  {
    NoneFailIffAdmissible(s, given);
    if NoneFailFrom(s, 0, given) {
      var values := FieldValues(s, given);
      forall f | f in FieldNames(s) ensures values[f] == Null <==> f !in given || given[f] == Null {
        FieldValueNull(s, given, f);
      }
      if s.required.Some? {
        assert forall f :: f in s.required.value ==> f in FieldNames(s);
      }
      assert RequiredPresent(s, values) <==> RequiredGiven(s, given);
    }
  }

  /** The field errors of fields `i..` name exactly the failing fields, each
      with the violation its validation found. */
  lemma {:induction false} FieldIssuesReport(s: Schema, i: nat, given: map<string, Value>)
    requires WellFormed(s) && i <= |s.fields|
    decreases |s.fields| - i
    ensures forall j :: i <= j < |s.fields| && FailsAt(s, j, given) ==>
              FieldIssue(s.fields[j].name, ValidateField(s, j, given[s.fields[j].name]).error) in FieldIssues(s, i, given)
    ensures forall iss :: iss in FieldIssues(s, i, given) ==>
              exists j :: i <= j < |s.fields| && FailsAt(s, j, given) &&
                iss == FieldIssue(s.fields[j].name, ValidateField(s, j, given[s.fields[j].name]).error)
  {
    if i < |s.fields| {
      FieldIssuesReport(s, i + 1, given);
    }
  }

  /** When some given field value is not admissible, construction fails with
      one error per failing field, naming it, and nothing else: the
      required-column check does not run. */
  lemma ConstructReportsFields(s: Schema, given: map<string, Value>)
    requires WellFormed(s) && !AllAdmissible(s, given)
    ensures Construct(s, given).Err?
    ensures forall j :: 0 <= j < |s.fields| && s.fields[j].name in given && !Admissible(s, j, given[s.fields[j].name]) ==>
              exists iss :: iss in Construct(s, given).error && iss.FieldIssue? && iss.field == s.fields[j].name
    ensures forall iss :: iss in Construct(s, given).error ==>
              iss.FieldIssue? &&
              exists j :: 0 <= j < |s.fields| && s.fields[j].name == iss.field &&
                          s.fields[j].name in given && !Admissible(s, j, given[s.fields[j].name])
  {
    NoneFailIffAdmissible(s, given);
    FieldIssuesReport(s, 0, given);
    forall j | 0 <= j < |s.fields| && s.fields[j].name in given
      ensures FailsAt(s, j, given) <==> !Admissible(s, j, given[s.fields[j].name])
    {
      ValidateFieldAccepts(s, j, given[s.fields[j].name]);
    }
  }

  /** When every given value is admissible but some required column is
      missing or None, construction fails with a single error listing every
      such column, in the order the required-column list declares them. */
  lemma ConstructReportsMissing(s: Schema, given: map<string, Value>)
    requires WellFormed(s) && AllAdmissible(s, given) && !RequiredGiven(s, given)
    ensures s.required.Some?
    ensures Construct(s, given).Err? && |Construct(s, given).error| == 1
    ensures Construct(s, given).error[0].RequiredMissing?
    ensures forall f :: f in Construct(s, given).error[0].columns <==>
              f in s.required.value && (f !in given || given[f] == Null)
    ensures Subsequence(Construct(s, given).error[0].columns, s.required.value)
  {
    NoneFailIffAdmissible(s, given);
    ConstructSucceeds(s, given);
    var values := FieldValues(s, given);
    forall f | f in FieldNames(s) ensures values[f] == Null <==> f !in given || given[f] == Null {
      FieldValueNull(s, given, f);
    }
    assert forall f :: f in s.required.value ==> f in FieldNames(s);
  }

  /** A successfully constructed instance holds what was given: the value
      itself for plain fields, the text of a text field's value (a `str` or
      a `str` enum member), the member for the text of an enum member, and
      the record the related class builds for a raw related mapping. */
  lemma ConstructKeepsValues(s: Schema, given: map<string, Value>, j: nat)
    requires WellFormed(s) && j < |s.fields| && Construct(s, given).Ok?
    requires s.fields[j].name in given
    ensures var v := given[s.fields[j].name];
            var stored := Construct(s, given).value.values[s.fields[j].name];
            && ((!s.fields[j].kind.EnumKind? && !s.fields[j].kind.TextKind? &&
                 !(s.fields[j].kind.RelationKind? && v.Row?)) ==> stored == v)
            && (s.fields[j].kind.TextKind? ==> v == stored == Null || (TextOf(v).Some? && stored == Str(TextOf(v).value)))
            && (s.fields[j].kind.EnumKind? ==> v == stored == Null || (TextOf(v).Some? && stored == Member(TextOf(v).value)))
            && (s.fields[j].kind.RelationKind? && v.Row? ==>
                  (assert s.fields[j] in s.fields;
                   Construct(s.fields[j].kind.target, v.row).Ok? &&
                   stored == Instance(Construct(s.fields[j].kind.target, v.row).value)))
  {
    var name := s.fields[j].name;
    var v := given[name];
    ValidatedValue(s, given, j);
    assert s.fields[j] in s.fields;
    if v != Null {
      assert Admit(s, j, v).Ok? && ValidateField(s, j, v).value == Admit(s, j, v).value;
    }
  }

  /** A successfully constructed instance holds, for a given field, the value
      that field's validation produced. */
  lemma ValidatedValue(s: Schema, given: map<string, Value>, j: nat)
    requires WellFormed(s) && j < |s.fields| && Construct(s, given).Ok?
    requires s.fields[j].name in given
    ensures ValidateField(s, j, given[s.fields[j].name]).Ok?
    ensures Construct(s, given).value.values[s.fields[j].name] == ValidateField(s, j, given[s.fields[j].name]).value
  {
    assert NoneFailFrom(s, 0, given);
    assert !FailsAt(s, j, given);
    assert Construct(s, given).value.values == FieldValues(s, given);
  }

  /** A value a field may hold passes that field's validation unchanged. */
  lemma StoredValidates(s: Schema, j: nat, v: Value)
    requires WellFormed(s) && j < |s.fields| && Stored(s.fields[j], v)
    ensures ValidateField(s, j, v) == Ok(v)
  {
    assert s.fields[j] in s.fields;
    if v != Null {
      assert Admit(s, j, v) == Ok(v);
    }
  }

  /** A raw mapping given for a relation field is built into an instance of
      the related class by the same rules, and construction succeeds only if
      that build does. */
  lemma ConstructBuildsRelated(s: Schema, given: map<string, Value>, j: nat)
    requires WellFormed(s) && j < |s.fields| && Construct(s, given).Ok?
    requires s.fields[j].kind.RelationKind?
    requires s.fields[j].name in given && given[s.fields[j].name].Row?
    ensures (assert s.fields[j] in s.fields; Construct(s.fields[j].kind.target, given[s.fields[j].name].row).Ok?)
    ensures Construct(s, given).value.values[s.fields[j].name] ==
            Instance(Construct(s.fields[j].kind.target, given[s.fields[j].name].row).value)
  {
    ConstructKeepsValues(s, given, j);
  }

  /** A value of a field's type that breaks none of its constraints passes
      that field's validation unchanged. */
  lemma UnbrokenPasses(s: Schema, i: nat, v: Value)
    requires WellFormed(s) && i < |s.fields|
    requires (s.fields[i].kind.IntKind? && v.Int?) || (s.fields[i].kind.TextKind? && v.Str?) ||
             (s.fields[i].kind.DecimalKind? && v.Dec?) || (s.fields[i].kind.TimestampKind? && v.DateTime?)
    requires FirstBroken(s.fields[i].constraints, v) == None
    ensures ValidateField(s, i, v) == Ok(v)
  {
  }

  /** When exactly one field fails, the field errors are that one field's. */
  lemma {:induction false} FieldIssuesSingle(s: Schema, i: nat, given: map<string, Value>, k: nat)
    requires WellFormed(s) && i <= k < |s.fields| && FailsAt(s, k, given)
    requires forall j :: i <= j < |s.fields| && j != k ==> !FailsAt(s, j, given)
    decreases |s.fields| - i
    ensures FieldIssues(s, i, given) ==
            [FieldIssue(s.fields[k].name, ValidateField(s, k, given[s.fields[k].name]).error)]
  {
    if i < k {
      assert !FailsAt(s, i, given);
      FieldIssuesSingle(s, i + 1, given, k);
    } else {
      assert NoneFailFrom(s, i + 1, given);
    }
  }

  /** When exactly one field fails, construction reports exactly that field,
      with the violation its validation found. */
  lemma ConstructReportsSingle(s: Schema, given: map<string, Value>, k: nat)
    requires WellFormed(s) && k < |s.fields| && FailsAt(s, k, given)
    requires forall j :: 0 <= j < |s.fields| && j != k ==> !FailsAt(s, j, given)
    ensures Construct(s, given) ==
            Err([FieldIssue(s.fields[k].name, ValidateField(s, k, given[s.fields[k].name]).error)])
  {
    FieldIssuesSingle(s, 0, given, k);
  }
}
