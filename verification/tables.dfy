/** The two table models, `Category` and `Product`, and the `ProductStatusEnum`
    they use: their fields, constraints and required columns, and what
    construction therefore guarantees about their instances. Every field
    defaults to None. */
module Tables {
  import opened Results
  import opened Values
  import opened Schemas
  import opened BaseModel
  import Sku

  /** The values of `ProductStatusEnum`. */
  const StatusMembers: seq<string> := ["draft", "active", "archived"]

  /** `Category` (table "categories"): `name` is required and at most 100
      characters; `nickname` is 4 to 14 characters. */
  function CategorySchema(): (s: Schema)
    ensures WellFormed(s)
  {
    var s := Schema("Category", [
      Field("id", IntKind, []),
      Field("name", TextKind, [MaxLength(100)]),
      Field("nickname", TextKind, [MinLength(4), MaxLength(14)])
    ], Some(["name"]));
    assert s.fields[1].name == "name";
    s
  }

  /** `Product` (table "products"): `name` and `sku` are required; `name` is
      at most 100 characters; `sku` at most 20 and of the SKU format; `price`
      greater than 1; `status` a `ProductStatusEnum` of at most 8 characters;
      `categories` the related `Category`. */
  function ProductSchema(): (s: Schema)
    ensures WellFormed(s)
  {
    var s := Schema("Product", [
      Field("id", IntKind, []),
      Field("name", TextKind, [MaxLength(100)]),
      Field("sku", TextKind, [MaxLength(20), SkuPattern]),
      Field("price", DecimalKind, [GreaterThan(1)]),
      Field("category_id", IntKind, []),
      Field("status", EnumKind(StatusMembers), [MaxLength(8)]),
      Field("created_at", TimestampKind, []),
      Field("categories", RelationKind(CategorySchema()), [])
    ], Some(["name", "sku"]));
    assert s.fields[1].name == "name";
    assert s.fields[2].name == "sku";
    s
  }

  /** A `Category` record has a name of at most 100 characters, and a
      nickname that is None or 4 to 14 characters long. */
  ghost predicate CategoryShape(values: map<string, Value>) {
    && "name" in values && values["name"].Str? && |values["name"].s| <= 100
    && "nickname" in values
    && (values["nickname"] == Null || (values["nickname"].Str? && 4 <= |values["nickname"].s| <= 14))
  }

  lemma CategoryConforming(rec: Record)
    requires Conforms(CategorySchema(), rec)
    ensures CategoryShape(rec.values)
  {
    var s := CategorySchema();
    assert Stored(s.fields[1], rec.values[s.fields[1].name]);
    assert Stored(s.fields[2], rec.values[s.fields[2].name]);
    assert "name" in s.required.value;
    assert MaxLength(100) in s.fields[1].constraints;
    assert MinLength(4) in s.fields[2].constraints && MaxLength(14) in s.fields[2].constraints;
  }

  /** Every constructed `Category` has that shape. */
  lemma CategoryInvariant(given: map<string, Value>)
    requires Construct(CategorySchema(), given).Ok?
    ensures CategoryShape(Construct(CategorySchema(), given).value.values)
  {
    CategoryConforming(Construct(CategorySchema(), given).value);
  }

  /** A `Product` record: a name of at most 100 characters; an SKU of the
      SKU format, hence 6 to 8 characters (so its 20-character limit never
      binds); a price that is None or greater than 1; a status that is None
      or one of draft, active, archived; and a related category that is None
      or a `Category` instance. */
  ghost predicate ProductShape(values: map<string, Value>) {
    && "name" in values && values["name"].Str? && |values["name"].s| <= 100
    && "sku" in values && values["sku"].Str? && Sku.InLanguage(values["sku"].s)
    && 6 <= |values["sku"].s| <= 8
    && "price" in values && (values["price"] == Null || (values["price"].Dec? && RealOf(values["price"].d) > 1.0))
    && "status" in values && (values["status"] == Null || (values["status"].Member? && values["status"].member in StatusMembers))
    && "categories" in values
    && (values["categories"] == Null || (values["categories"].Instance? && values["categories"].record.model == "Category"))
  }

  lemma ProductConforming(rec: Record)
    requires Conforms(ProductSchema(), rec)
    ensures ProductShape(rec.values)
  {
    ProductNameSku(rec);
    ProductOptionals(rec);
  }

  /** The required text columns of a conforming `Product`. */
  lemma ProductNameSku(rec: Record)
    requires Conforms(ProductSchema(), rec)
    ensures "name" in rec.values && rec.values["name"].Str? && |rec.values["name"].s| <= 100
    ensures "sku" in rec.values && rec.values["sku"].Str? && Sku.InLanguage(rec.values["sku"].s)
    ensures 6 <= |rec.values["sku"].s| <= 8
  {
    var s := ProductSchema();
    assert s.fields[1] == Field("name", TextKind, [MaxLength(100)]);
    assert s.fields[2] == Field("sku", TextKind, [MaxLength(20), SkuPattern]);
    assert "name" in s.required.value && "sku" in s.required.value;
    var name, sku := rec.values["name"], rec.values["sku"];
    assert Stored(s.fields[1], name) && name != Null;
    assert Stored(s.fields[2], sku) && sku != Null;
    assert Holds(MaxLength(100), name);
    assert Holds(SkuPattern, sku);
    Sku.InLanguageLength(sku.s);
  }

  /** The optional columns of a conforming `Product` that carry a type or a
      constraint beyond None. */
  lemma ProductOptionals(rec: Record)
    requires Conforms(ProductSchema(), rec)
    ensures "price" in rec.values
    ensures rec.values["price"] == Null || (rec.values["price"].Dec? && RealOf(rec.values["price"].d) > 1.0)
    ensures "status" in rec.values
    ensures rec.values["status"] == Null || (rec.values["status"].Member? && rec.values["status"].member in StatusMembers)
    ensures "categories" in rec.values
    ensures rec.values["categories"] == Null ||
            (rec.values["categories"].Instance? && rec.values["categories"].record.model == "Category")
  {
    var s := ProductSchema();
    assert s.fields[3] == Field("price", DecimalKind, [GreaterThan(1)]);
    assert s.fields[5] == Field("status", EnumKind(StatusMembers), [MaxLength(8)]);
    assert s.fields[7] == Field("categories", RelationKind(CategorySchema()), []);
    var price := rec.values["price"];
    assert Stored(s.fields[3], price);
    assert price != Null ==> Holds(GreaterThan(1), price);
    assert Stored(s.fields[5], rec.values["status"]);
    assert Stored(s.fields[7], rec.values["categories"]);
  }

  /** Every constructed `Product` has that shape. */
  lemma ProductInvariant(given: map<string, Value>)
    requires Construct(ProductSchema(), given).Ok?
    ensures ProductShape(Construct(ProductSchema(), given).value.values)
  {
    ProductConforming(Construct(ProductSchema(), given).value);
  }

  /** A raw `categories` mapping is turned into a `Category` instance built by
      the same rules: a `Product` is only constructed if that mapping makes a
      valid `Category`, and it then holds that instance. */
  lemma ProductBuildsCategory(given: map<string, Value>)
    requires Construct(ProductSchema(), given).Ok?
    requires "categories" in given && given["categories"].Row?
    ensures Construct(CategorySchema(), given["categories"].row).Ok?
    ensures var values := Construct(ProductSchema(), given).value.values;
            "categories" in values &&
            values["categories"] == Instance(Construct(CategorySchema(), given["categories"].row).value)
  {
    var s := ProductSchema();
    assert s.fields[7].name == "categories";
    assert s.fields[7].kind == RelationKind(CategorySchema());
    ConstructBuildsRelated(s, given, 7);
  }

  /** The field names of `Product`, in declaration order. */
  lemma ProductFieldNames()
    ensures |ProductSchema().fields| == 8
    ensures forall j :: 0 <= j < 8 ==>
              ProductSchema().fields[j].name ==
              ["id", "name", "sku", "price", "category_id", "status", "created_at", "categories"][j]
  {
  }

  /** The fields of `Product` called "name", "sku" and "price" are fields 1, 2
      and 3. */
  lemma ProductIndexOf(j: nat)
    requires j < |ProductSchema().fields|
    ensures ProductSchema().fields[j].name == "name" ==> j == 1
    ensures ProductSchema().fields[j].name == "sku" ==> j == 2
    ensures ProductSchema().fields[j].name == "price" ==> j == 3
  {
    ProductFieldNames();
  }

  /** Of `name="Test", sku="AB-12"`, only the SKU fails, breaking the SKU
      format. */
  lemma ShortSkuFailsAt(j: nat)
    requires j < |ProductSchema().fields|
    ensures var given := map["name" := Str("Test"), "sku" := Str("AB-12")];
            FailsAt(ProductSchema(), j, given) <==> j == 2
    ensures j == 2 ==> ValidateField(ProductSchema(), 2, Str("AB-12")) == Err(Broken(SkuPattern))
  {
    ProductIndexOf(j);
    if j == 2 {
      ShortSkuFails();
    }
  }

  /** "AB-12" breaks the SKU format. */
  lemma ShortSkuFails()
    ensures ValidateField(ProductSchema(), 2, Str("AB-12")) == Err(Broken(SkuPattern))
  {
    var s := ProductSchema();
    assert s.fields[2] == Field("sku", TextKind, [MaxLength(20), SkuPattern]);
    Sku.MatchRejectsShort();
    assert FirstBroken([MaxLength(20), SkuPattern], Str("AB-12")) == Some(SkuPattern);
  }

  /** `Product(name="Test", sku="AB-12")` fails with exactly one error, on
      `sku`: "AB-12" has too few digits for the SKU format. */
  lemma ProductRejectsShortSku()
    ensures Construct(ProductSchema(), map["name" := Str("Test"), "sku" := Str("AB-12")]) ==
            Err([FieldIssue("sku", Broken(SkuPattern))])
  {
    var s := ProductSchema();
    var given := map["name" := Str("Test"), "sku" := Str("AB-12")];
    forall j | 0 <= j < |s.fields| ensures FailsAt(s, j, given) <==> j == 2 {
      ShortSkuFailsAt(j);
    }
    ShortSkuFailsAt(2);
    ConstructReportsSingle(s, given, 2);
  }

  /** Of `name="Test", sku="AB-123", price=Decimal("0.5")`, only the price
      fails, breaking its lower bound. */
  lemma LowPriceFailsAt(j: nat)
    requires j < |ProductSchema().fields|
    ensures var given := map["name" := Str("Test"), "sku" := Str("AB-123"), "price" := Dec(Decimal(5, -1))];
            FailsAt(ProductSchema(), j, given) <==> j == 3
    ensures j == 3 ==> ValidateField(ProductSchema(), 3, Dec(Decimal(5, -1))) == Err(Broken(GreaterThan(1)))
  {
    ProductIndexOf(j);
    if j == 2 {
      SkuPasses();
    } else if j == 3 {
      LowPriceFails();
    }
  }

  /** "AB-123" passes validation as an SKU. */
  lemma SkuPasses()
    ensures ValidateField(ProductSchema(), 2, Str("AB-123")).Ok?
  {
    var s := ProductSchema();
    assert s.fields[2] == Field("sku", TextKind, [MaxLength(20), SkuPattern]);
    SkuConstraintsHold();
    UnbrokenPasses(s, 2, Str("AB-123"));
  }

  lemma SkuConstraintsHold()
    ensures FirstBroken([MaxLength(20), SkuPattern], Str("AB-123")) == None
  {
    Sku.MatchAccepts();
  }

  /** A price of 0.5 breaks the price's lower bound. */
  lemma LowPriceFails()
    ensures ValidateField(ProductSchema(), 3, Dec(Decimal(5, -1))) == Err(Broken(GreaterThan(1)))
  {
    var s := ProductSchema();
    assert s.fields[3] == Field("price", DecimalKind, [GreaterThan(1)]);
    assert !Exceeds(Decimal(5, -1), 1);
  }

  /** `Product(name="Test", sku="AB-123", price=Decimal("0.5"))` fails with
      exactly one error, on `price`, which must be greater than 1. */
  lemma ProductRejectsLowPrice()
    ensures Construct(ProductSchema(), map["name" := Str("Test"), "sku" := Str("AB-123"), "price" := Dec(Decimal(5, -1))]) ==
            Err([FieldIssue("price", Broken(GreaterThan(1)))])
  {
    var s := ProductSchema();
    var given := map["name" := Str("Test"), "sku" := Str("AB-123"), "price" := Dec(Decimal(5, -1))];
    forall j | 0 <= j < |s.fields| ensures FailsAt(s, j, given) <==> j == 3 {
      LowPriceFailsAt(j);
    }
    LowPriceFailsAt(3);
    ConstructReportsSingle(s, given, 3);
  }

  /** The `status` column accepts exactly None and the members of
      `ProductStatusEnum` (or their text): its eight-character limit never
      rejects a member, the longest being "archived". */
  lemma StatusAccepts(v: Value)
    ensures ValidateField(ProductSchema(), 5, v).Ok? <==>
            v == Null || (TextOf(v).Some? && TextOf(v).value in StatusMembers)
  {
    var s := ProductSchema();
    assert s.fields[5].kind == EnumKind(StatusMembers);
    assert forall m :: m in StatusMembers ==> |m| <= 8;
  }

  /** Of `name="Test", sku="AB-123"`, no field fails. */
  lemma ValidFieldsAt(j: nat)
    requires j < |ProductSchema().fields|
    ensures !FailsAt(ProductSchema(), j, map["name" := Str("Test"), "sku" := Str("AB-123")])
  {
    ProductIndexOf(j);
    if j == 2 {
      SkuPasses();
    }
  }

  /** `Product(name="Test", sku="AB-123")` is a valid product, with exactly
      those two fields set. */
  lemma ProductAccepts()
    ensures var r := Construct(ProductSchema(), map["name" := Str("Test"), "sku" := Str("AB-123")]);
            r.Ok? && r.value.fieldsSet == {"name", "sku"}
  {
    var s := ProductSchema();
    var given := map["name" := Str("Test"), "sku" := Str("AB-123")];
    forall j | 0 <= j < |s.fields| ensures !FailsAt(s, j, given) {
      ValidFieldsAt(j);
    }
    assert NoneFailFrom(s, 0, given);
    NoneFailIffAdmissible(s, given);
    assert s.required == Some(["name", "sku"]);
    assert RequiredGiven(s, given);
    ConstructSucceeds(s, given);
    RequiredAreFields();
  }

  /** The two required columns of `Product` are among its fields. */
  lemma RequiredAreFields()
    ensures "name" in FieldNames(ProductSchema()) && "sku" in FieldNames(ProductSchema())
  {
    var s := ProductSchema();
    assert s.fields[1].name == "name" && s.fields[2].name == "sku";
  }

  /** `Category(name=ProductStatusEnum.DRAFT)` is a valid category: the member
      is a `str`, and the name holds its text "draft". */
  lemma CategoryTakesMemberName()
    ensures var r := Construct(CategorySchema(), map["name" := Member("draft")]);
            r.Ok? && r.value.values["name"] == Str("draft")
  {
    var s := CategorySchema();
    var given := map["name" := Member("draft")];
    assert s.fields[0].name == "id" && s.fields[1].name == "name" && s.fields[2].name == "nickname";
    assert s.fields[1] == Field("name", TextKind, [MaxLength(100)]);
    assert ValidateField(s, 1, Member("draft")) == Ok(Str("draft"));
    forall j | 0 <= j < |s.fields| ensures !FailsAt(s, j, given) {
    }
    assert NoneFailFrom(s, 0, given);
    NoneFailIffAdmissible(s, given);
    assert RequiredGiven(s, given);
    ConstructSucceeds(s, given);
    ConstructKeepsValues(s, given, 1);
  }
}
