/** `load`: turning what the backend client returns into instances. */
module Loading {
  import opened Results
  import opened Values
  import opened Schemas
  import opened BaseModel
  import Serialization
  import Dumping

  /** The data itself: one raw row, or a list of raw rows. */
  datatype Payload = Mapping(row: map<string, Value>) | Rows(rows: seq<map<string, Value>>)

  /** What `load` is handed: a client response object carrying the data in
      its `.data` attribute, or the data itself. A plain mapping has no
      `.data` attribute, even when it has a "data" key. */
  datatype Response = Envelope(data: Payload) | Bare(payload: Payload)

  /** What `load` returns: one instance, or a list of instances. */
  datatype Loaded = One(record: Record) | Many(records: seq<Record>)

  /** `getattr(response_or_data, "data", response_or_data)`. */
  function Unwrap(r: Response): (p: Payload)
    ensures r.Envelope? ==> p == r.data
    ensures r.Bare? ==> p == r.payload
  {
    match r
    case Envelope(data) => data
    case Bare(payload) => payload
  }

  /** One instance per row, in order. The first row that fails construction
      ends the whole load with that row's errors; no partial list is
      returned. */
  function LoadRows(s: Schema, rows: seq<map<string, Value>>): (r: Result<seq<Record>, seq<Issue>>)
    requires WellFormed(s)
    ensures r.Ok? <==> forall i :: 0 <= i < |rows| ==> Construct(s, rows[i]).Ok?
    ensures r.Ok? ==> |r.value| == |rows| && forall i :: 0 <= i < |rows| ==> Construct(s, rows[i]) == Ok(r.value[i])
    ensures r.Err? ==> exists k :: 0 <= k < |rows| && Construct(s, rows[k]) == Err(r.error) &&
                                   forall i :: 0 <= i < k ==> Construct(s, rows[i]).Ok?
  {
    if |rows| == 0 then Ok([])
    else
      match Construct(s, rows[0])
      case Err(e) => Err(e)
      case Ok(first) =>
        match LoadRows(s, rows[1..])
        case Err(e) =>
          FailureShifts(s, rows, e);
          Err(e)
        case Ok(rest) =>
          SuccessShifts(s, rows, first, rest);
          Ok([first] + rest)
  }

  /** Instances built from the rows after the first, behind the instance
      built from the first row, line up with the whole list. */
  lemma SuccessShifts(s: Schema, rows: seq<map<string, Value>>, first: Record, rest: seq<Record>)
    requires WellFormed(s) && |rows| > 0 && Construct(s, rows[0]) == Ok(first)
    requires |rest| == |rows| - 1 && forall i :: 0 <= i < |rest| ==> Construct(s, rows[1..][i]) == Ok(rest[i])
    ensures forall i :: 0 <= i < |rows| ==> Construct(s, rows[i]) == Ok(([first] + rest)[i])
  {
    forall i | 0 <= i < |rows| ensures Construct(s, rows[i]) == Ok(([first] + rest)[i]) {
      if i > 0 { assert rows[i] == rows[1..][i - 1]; }
    }
  }

  /** A first failing row among the rows after a good first row is a first
      failing row of the whole list. */
  lemma FailureShifts(s: Schema, rows: seq<map<string, Value>>, e: seq<Issue>)
    requires WellFormed(s) && |rows| > 0 && Construct(s, rows[0]).Ok?
    requires exists k :: 0 <= k < |rows| - 1 && Construct(s, rows[1..][k]) == Err(e) &&
                         forall i :: 0 <= i < k ==> Construct(s, rows[1..][i]).Ok?
    ensures exists k :: 0 <= k < |rows| && Construct(s, rows[k]) == Err(e) &&
                        forall i :: 0 <= i < k ==> Construct(s, rows[i]).Ok?
  {
    var k :| 0 <= k < |rows| - 1 && Construct(s, rows[1..][k]) == Err(e) &&
             forall i :: 0 <= i < k ==> Construct(s, rows[1..][i]).Ok?;
    assert Construct(s, rows[k + 1]) == Err(e);
    forall i | 0 <= i < k + 1 ensures Construct(s, rows[i]).Ok? {
      if i > 0 { assert rows[i] == rows[1..][i - 1]; }
    }
  }

  /** `load`: unwrap the envelope if there is one; a list of rows gives a list
      of instances, anything else a single instance. */
  function Load(s: Schema, response: Response): (r: Result<Loaded, seq<Issue>>)
    requires WellFormed(s)
    ensures r.Ok? ==> (r.value.Many? <==> Unwrap(response).Rows?)
    ensures Unwrap(response).Mapping? ==> r == match Construct(s, Unwrap(response).row)
                                                 case Ok(rec) => Ok(One(rec))
                                                 case Err(e) => Err(e)
    ensures Unwrap(response).Rows? && r.Ok? ==>
              |r.value.records| == |Unwrap(response).rows| &&
              forall i :: 0 <= i < |r.value.records| ==>
                Construct(s, Unwrap(response).rows[i]) == Ok(r.value.records[i])
    ensures Unwrap(response).Rows? ==>
              (r.Ok? <==> forall i :: 0 <= i < |Unwrap(response).rows| ==> Construct(s, Unwrap(response).rows[i]).Ok?)
  {
    match Unwrap(response)
    case Rows(rows) =>
      (match LoadRows(s, rows)
       case Ok(records) => Ok(Many(records))
       case Err(e) => Err(e))
    case Mapping(row) =>
      (match Construct(s, row)
       case Ok(rec) => Ok(One(rec))
       case Err(e) => Err(e))
  }

  /** An envelope is looked through: loading it is loading its data. */
  lemma LoadEnvelope(s: Schema, p: Payload)
    requires WellFormed(s)
    ensures Load(s, Envelope(p)) == Load(s, Bare(p))
  {
  }

  /** Loading the dump of an instance gives back that one instance, when every
      explicitly set value is one the serializer leaves unchanged. */
  lemma LoadDumpRoundTrip(s: Schema, fmt: Serialization.Formatters, rec: Record)
    requires WellFormed(s) && Conforms(s, rec)
    requires forall f :: f in rec.fieldsSet ==> Serialization.PassesThrough(rec.values[f])
    ensures Load(s, Bare(Mapping(Dumping.Dump(fmt, rec)))) == Ok(One(rec))
    ensures Load(s, Envelope(Rows([Dumping.Dump(fmt, rec)]))) == Ok(Many([rec]))
  {
    Dumping.DumpConstructRoundTrip(s, fmt, rec);
    var rows := [Dumping.Dump(fmt, rec)];
    var loaded := LoadRows(s, rows);
    assert loaded.Ok?;
    assert loaded.value == [rec];
  }
}
