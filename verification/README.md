# supabase-models in Dafny

A model of the record layer of the `supabase_models` package and the proofs
about it. `SupabaseBaseModel` is the pydantic base class that each table
model inherits. It provides:

- construction with field validation;
- the required-column check;
- the per-type field serializer;
- `dump()`, iteration and `load()`.

The model also covers the two generated table models, `Category` and
`Product`, and the `ProductStatusEnum` enumeration.

Modules, in dependency order:

| module | file | what it holds |
|---|---|---|
| `Results` | results.dfy | `Option` and `Result` (a Python exception becomes `Err`) |
| `Base64` | base64.dfy | the `bytes` serializer: encoding of section 4 of RFC 4648, its decoder, the round trip |
| `Values` | values.dfy | the Python values a field can hold, exact decimals, the exact-type tags |
| `Serialization` | serialization.dfy | `_SERIALIZERS` and `serialize_fields` |
| `Sku` | sku.dfy | a matcher for the SKU pattern `^[A-Z]{2,3}-[0-9]{3,4}$`, proved equal to the pattern's language |
| `Schemas` | schemas.dfy | field declarations (type, constraints), the required-column list, what a valid instance is |
| `BaseModel` | base_model.dfy | construction: field validation, then `validate_required_columns` |
| `Dumping` | dumping.dfy | `dump()` and `__iter__` |
| `Loading` | loading.dfy | `load()` |
| `Tables` | tables.dfy | the `Category` and `Product` declarations, `ProductStatusEnum`, facts about them |

A class is modelled as a `Schema`, which is a list of `Field` declarations
plus the optional `_required_columns` list. An instance is modelled as a
`Record`, which holds:

- the class name;
- the value of every declared field;
- the set of fields the caller set explicitly (pydantic's
  `__pydantic_fields_set__`).

Construction (`BaseModel.Construct`) runs in two steps:

1. It validates every given field. Every failing field is reported, all in
   one error.
2. Only after that, it runs the required-column check. The check lists every
   required column that holds None, in declared order, in one error.

Keyword arguments that name no field are ignored. A raw mapping given for a
relation field is built into an instance of the related class by the same
rules. An instance of that class is accepted as it is.

## Model

| member | source | states |
|---|---|---|
| BaseModel.Construct | supabase_models/models.py:39-46 | a constructed instance conforms to its class: every field holds None or a valid value of its type, unset fields hold None, no required column is None; the explicitly set fields are the given keys that name fields |
| BaseModel.ConstructSucceeds | supabase_models/models.py:39-46 | construction succeeds exactly when every given value is admissible for its field and every required column is given a value other than None |
| BaseModel.ConstructReportsFields | supabase_models/models.py:39-46 | when some given value is not admissible, the error names exactly the failing fields and the required-column check does not run |
| BaseModel.ConstructReportsMissing | supabase_models/models.py:42-45 | when all values are admissible but required columns are missing or None, the error is one entry listing exactly those columns, in the order the required list declares them |
| BaseModel.ConstructReportsSingle | supabase_models/models.py:39-46 | when exactly one field fails, construction fails with that one field's violation and nothing else |
| BaseModel.ConstructKeepsValues | supabase_models/models.py:39-46 | a constructed instance holds what was given: the value itself, the text of a `str` or `str` enum member in a text field, the enum member for its text, the built related instance for a raw related mapping |
| BaseModel.ConstructBuildsRelated | supabase_models/models.py:160-162 | a raw mapping given for a relation field must construct as the related class, and the instance holds what that construction built |
| BaseModel.ValidateFieldAccepts | supabase_models/models.py:142-162 | a field's validation accepts exactly None and values of its type that meet every declared constraint |
| BaseModel.StoredValidates | supabase_models/models.py:142-162 | a value a field may hold passes that field's validation unchanged |
| BaseModel.CheckRequired | supabase_models/models.py:40-46 | the check passes exactly when no required column is None, returns the instance unchanged, and otherwise raises one error listing the None columns |
| BaseModel.Missing | supabase_models/models.py:43 | the missing list holds exactly the required names whose value is None, each as often as the required list repeats it, in the required list's order |
| BaseModel.FieldIssues | supabase_models/models.py:39-46 | fields from a given index on produce no error exactly when none of them fails validation |
| BaseModel.FieldIssuesReport | supabase_models/models.py:39-46 | the field errors name every failing field with its violation, and name nothing else |
| Serialization.SerializerFor | supabase_models/models.py:22-29 | a serializer exists exactly for datetime, date, time, Decimal, UUID and bytes: datetime, date and time use their own `isoformat()`, Decimal and UUID use `str`, bytes use base64 |
| Serialization.Serialize | supabase_models/models.py:31-37 | the result is never of a table type; a table-type value becomes the text its own table entry produces, any other value is returned unchanged; bytes become base64 text that decodes back to the same bytes |
| Serialization.SerializeIdempotent | supabase_models/models.py:31-37 | serializing an already serialized value changes nothing |
| Serialization.SerializeBytesExample | supabase_models/models.py:28 | `b"ab"` serializes to `"YWI="` |
| Base64.Encode | supabase_models/models.py:28 | the encoding is 4 characters per started group of 3 bytes, all drawn from the base64 alphabet or `=` |
| Base64.DecodeEncode | supabase_models/models.py:28 | decoding the encoding of any byte string gives that byte string back |
| Base64.EncodeExample | supabase_models/models.py:28 | the two bytes `ab` encode to `YWI=` |
| Dumping.Dump | supabase_models/models.py:48-61 | the dump holds exactly the explicitly set fields, each value passed through the field serializer, so no dumped value is of a type the serializer table converts |
| Dumping.DumpHoldsGiven | supabase_models/models.py:58-61 | the dump of a constructed instance holds exactly the given fields, including those given as None |
| Dumping.DumpConstructRoundTrip | supabase_models/models.py:48-61 | constructing from the dump of a valid instance whose set values the serializer leaves unchanged gives back that same instance |
| Dumping.Items | supabase_models/models.py:64-66 | iteration yields exactly the (name, value) pairs of the dump, each name once |
| Loading.LoadRows | supabase_models/models.py:80-81 | a list loads exactly when every row constructs; the result lines up row by row; a failure carries the first failing row's errors |
| Loading.Load | supabase_models/models.py:68-82 | the data is unwrapped first; a list gives a list of instances, one per row in order, and a single mapping gives one instance or that construction's error |
| Loading.LoadEnvelope | supabase_models/models.py:79 | loading a response object is the same as loading its data |
| Loading.LoadDumpRoundTrip | supabase_models/models.py:48-82 | loading the dump of such an instance, bare or as a one-row list in a response, gives that instance back |
| Sku.Match | supabase_models/models.py:150 | the matcher accepts exactly the strings of the pattern's language |
| Sku.InLanguageLength | supabase_models/models.py:146-151 | a well-formed SKU has 6 to 8 characters, so the 20-character limit never binds |
| Sku.MatchAccepts | supabase_models/models.py:150 | `AB-123` matches |
| Sku.MatchRejectsShort | supabase_models/models.py:150 | `AB-12` does not match |
| Schemas.Satisfies | supabase_models/models.py:113-154 | the constraint check holds exactly when the declared constraint holds of the value |
| Schemas.FirstBroken | supabase_models/models.py:113-154 | none is reported exactly when every constraint holds; otherwise the reported one is the first broken one |
| Values.Exceeds | supabase_models/models.py:154 | the comparison on integers agrees with the exact comparison of the decimal's value with the bound |
| Tables.CategorySchema | supabase_models/models.py:97-121 | the declaration of `Category` is well formed |
| Tables.ProductSchema | supabase_models/models.py:124-162 | the declaration of `Product` is well formed |
| Tables.CategoryInvariant | supabase_models/models.py:107-121 | every constructed `Category` has a name of at most 100 characters and a nickname that is None or 4 to 14 characters |
| Tables.ProductInvariant | supabase_models/models.py:139-162 | every constructed `Product` has a name of at most 100 characters, an SKU in the SKU language of 6 to 8 characters, a price that is None or greater than 1, a status that is None or one of the three members, and a related category that is None or a `Category` |
| Tables.ProductBuildsCategory | supabase_models/models.py:160-162 | a raw `categories` mapping must make a valid `Category`, and the product then holds that instance |
| Tables.ProductAccepts | supabase_models/models.py:139-151 | `Product(name="Test", sku="AB-123")` is valid, with exactly `name` and `sku` explicitly set |
| Tables.ProductRejectsShortSku | supabase_models/models.py:146-151 | `Product(name="Test", sku="AB-12")` fails with the single error that `sku` breaks the pattern |
| Tables.ProductRejectsLowPrice | supabase_models/models.py:154 | `Product(name="Test", sku="AB-123", price=Decimal("0.5"))` fails with the single error that `price` is not greater than 1 |
| Tables.CategoryTakesMemberName | supabase_models/models.py:89-113 | `Category(name=ProductStatusEnum.DRAFT)` is valid, and its name holds the text "draft" |
| Tables.StatusAccepts | supabase_models/models.py:89-94 | `status` accepts exactly None and the three members of `ProductStatusEnum` or their text; its 8-character limit never rejects a member |

## Left out

- Type coercion: pydantic's lax mode converts between types, for example the
  text "5" into the integer 5. The model takes each value in its field's
  type, with two exceptions, both between text and `str` enum members. The
  text of an enum member stands for the member in an enum field. An enum
  member given to a plain `str` field is a `str` instance, so it is
  accepted and stored as its text. Any other value of the wrong type is
  rejected as a whole.
- `bool` and subclasses: in Python `bool` is a subclass of `int`, and the
  serializer looks up the exact type. Only the exact types the model names
  are represented.
- The `Decimal | float` union of `price`: only `Decimal` prices are
  modelled. A float price would need floating point, and the table has no
  serializer for `float`.
- The float bound of `price`: `gt=1.0` is a float, and the model uses the
  integer bound 1. The float 1.0 is exactly 1, so nothing changes.
- Text conversions: `isoformat()`, `str(Decimal)` and `str(UUID)` come from
  the Python standard library. They enter as the `Formatters` parameter and
  are not defined.
- Nested models in `dump()`: pydantic turns a related instance into a dict
  holding every field of the related class. The model leaves the `Instance`
  value as it is.
- Dumping.DumpConstructRoundTrip: stated only for instances whose set values
  the serializer leaves unchanged. Dates, decimals, UUIDs and bytes come back
  as text, and only coercion would turn them back. A set related instance
  counts as unchanged here. In Python it comes back rebuilt from a dict, with
  every field of the related class marked as set. So for Python the equality
  holds only when the related instance already had every field set.
- Loading.LoadDumpRoundTrip: rests on Dumping.DumpConstructRoundTrip and has
  the same limits.
- Dumping.Items: states the pairs and that each name appears once, but not
  their order. The order is the field declaration order, as pydantic keeps
  it.
- Error reporting: when one field breaks several constraints, the model
  reports the first one in declared order. Which one pydantic reports is
  internal to that library. Error message texts are not modelled; the error
  lists them as structured `Issue` values.
- Schema well-formedness: every function on a class requires that the field
  names are distinct and that every required column names a field. For a
  required name that is no field, `getattr` would raise `AttributeError`
  instead of a validation error. The generated classes never declare one.
- Assignment after construction: pydantic's models do not validate
  assignment by default, and the package performs no assignment.
- `__str__` (line 84): it returns `repr` and is not modelled.
- `table_name` class variables and field descriptions: these carry no
  behaviour.
- The Supabase client: the network call that yields a response is outside
  the model. `load` takes the response as data.
- `Load` error propagation: Python raises on the first failing row and the
  list comprehension stops there. The model returns that row's errors.
