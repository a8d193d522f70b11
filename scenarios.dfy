/**
  Concrete runs of the routes: the cases the project's tests exercise
  against a table holding the seeded vehicle `test1`, and the cases of a
  VIN sent with capitals.
 */
module Scenarios {
  import opened Options
  import opened Text
  import opened Decimals
  import opened Values
  import opened Vehicles
  import opened Routes

  /** The vehicle body the tests post, under a given VIN. */
  function MockBody(vin: string): map<string, Value> {
    map[
      "vin" := Str(vin),
      "manufacturer_name" := Str("mock_manufacturer"),
      "horse_power" := Int(100),
      "model_name" := Str("mock_model"),
      "model_year" := Int(2021),
      "purchase_price" := Int(10000),
      "fuel_type" := Str("Gasoline")]
  }

  /** The mock body holds every required name, with the values the checks look at. */
  lemma MockBodyFields(vin: string)
    ensures var m := MockBody(vin);
      && HasRequired(m) && m["vin"] == Str(vin) && m["model_year"] == Int(2021)
      && m["horse_power"] == Int(100) && m["purchase_price"] == Int(10000)
  {
    assert MockBody(vin).Keys == {"vin", "manufacturer_name", "horse_power", "model_name", "model_year", "purchase_price", "fuel_type"};
  }

  /** The mock body passes every create check, its price read as the Decimal 10000. */
  lemma MockBodyAccepted(vin: string)
    ensures CheckCreateRequest(JsonObject(MockBody(vin))) == Accepted(Dict(MockBody(vin)["purchase_price" := Dec(IntDecimal(10000))]))
  {
    var m := MockBody(vin);
    MockBodyFields(vin);
    CreateCheckOrder(m);
    assert ToDecimal(m["purchase_price"]) == Converted(IntDecimal(10000));
    assert ValidateCreate(Dict(m)) == Accepted(Dict(m["purchase_price" := Dec(IntDecimal(10000))]));
  }

  /** A lowercase VIN is created, answered with its row, and read back by that VIN. */
  lemma CreateThenRead(rows: map<string, Vehicle>, vin: string)
    requires WellKeyed(rows) && vin !in rows
    requires forall i :: 0 <= i < |vin| ==> !IsUpper(vin[i])
    ensures var o := CreateOutcome(rows, JsonObject(MockBody(vin)));
      && o.response.status == 200 && o.response.payload.VehicleBody?
      && o.response.payload.vehicle.Some? && o.response.payload.vehicle.value.vin == vin
      && GetOutcome(o.rows, vin) == o.response
  {
    var m := MockBody(vin);
    MockBodyFields(vin);
    MockBodyAccepted(vin);
    LowerFixedPoint(vin);
    CreateInserts(rows, m);
    var o := CreateOutcome(rows, JsonObject(m));
    assert o.response == Response(200, VehicleBody(Some(o.rows[vin])));
  }

  /**
    A VIN sent that has capitals is stored lowercased: the create answers 200
    with a null vehicle, the VIN as sent is not found, its lowercase form is.
   */
  lemma MixedCaseVin(rows: map<string, Vehicle>, vin: string)
    requires WellKeyed(rows) && Lower(vin) !in rows && Lower(vin) != vin
    ensures var o := CreateOutcome(rows, JsonObject(MockBody(vin)));
      && o.response == Response(200, VehicleBody(None))
      && GetOutcome(o.rows, vin) == Response(400, ErrorBody(NotFoundMessage))
      && GetOutcome(o.rows, Lower(vin)).status == 200
  {
    var m := MockBody(vin);
    MockBodyFields(vin);
    MockBodyAccepted(vin);
    assert exists i :: 0 <= i < |m["vin"].s| && IsUpper(m["vin"].s[i]) by {
      LowerFixedPoint(vin);
    }
    CreateWithCapitals(rows, m);
  }

  /**
    Once a VIN is stored, a create with any VIN of the same lowercase
    form, however capitalised, answers 400 and leaves the table as it was.
   */
  lemma DuplicateVin(rows: map<string, Vehicle>, vin: string, other: string)
    requires WellKeyed(rows) && Lower(vin) !in rows
    requires Lower(other) == Lower(vin)
    ensures var first := CreateOutcome(rows, JsonObject(MockBody(vin)));
      CreateOutcome(first.rows, JsonObject(MockBody(other))) == Outcome(Escaped(UniqueViolation), first.rows)
  {
    var m, again := MockBody(vin), MockBody(other);
    MockBodyFields(vin);
    MockBodyFields(other);
    var first := CreateOutcome(rows, JsonObject(m));
    assert Lower(vin) in first.rows by {
      MockBodyAccepted(vin);
      CreateInserts(rows, m);
    }
    MockBodyAccepted(other);
    CreateDuplicate(first.rows, again);
  }

  /** A body holding only a VIN is answered 422 with the six other required names, in order. */
  lemma OnlyVin(rows: map<string, Vehicle>, vin: string)
    ensures CreateOutcome(rows, JsonObject(map["vin" := Str(vin)]))
         == Outcome(Response(422, MissingFieldsBody(MissingMessage, Required[1..])), rows)
  {
    var data := Dict(map["vin" := Str(vin)]);
    MissingAll(Required[1..], map["vin" := Str(vin)]);
    assert Required[0] == "vin" && Required[1..] == Required[..][1..];
  }

  /** A `model_year` sent as a string is refused first, with 422. */
  lemma YearAsString(rows: map<string, Vehicle>, vin: string)
    ensures CreateOutcome(rows, JsonObject(MockBody(vin)["model_year" := Str("2021")]))
         == Outcome(Response(422, ErrorDetailsBody(ModelYearError, ModelYearDetails)), rows)
  {
    var m := MockBody(vin)["model_year" := Str("2021")];
    MockBodyFields(vin);
    assert HasRequired(m);
    assert m["model_year"] == Str("2021");
    CreateCheckOrder(m);
    CreateRejected(rows, m);
  }

  /** A `horse_power` sent as a string is refused with 422. */
  lemma HorsePowerAsString(rows: map<string, Vehicle>, vin: string)
    ensures CreateOutcome(rows, JsonObject(MockBody(vin)["horse_power" := Str("100")]))
         == Outcome(Response(422, ErrorDetailsBody(HorsePowerError, HorsePowerDetails)), rows)
  {
    var m := MockBody(vin)["horse_power" := Str("100")];
    MockBodyFields(vin);
    assert HasRequired(m);
    assert m["model_year"] == Int(2021) && m["horse_power"] == Str("100");
    CreateCheckOrder(m);
    CreateRejected(rows, m);
  }

  /** A price sent as a string outside the numeric grammar is refused with 422. */
  lemma PriceUnreadable(rows: map<string, Vehicle>, vin: string, text: string)
    requires ParseDecimalText(text) == None
    ensures CreateOutcome(rows, JsonObject(MockBody(vin)["purchase_price" := Str(text)]))
         == Outcome(Response(422, ErrorDetailsBody(PriceError, PriceDetails)), rows)
  {
    UnreadablePriceRefused(rows, vin, Str(text));
  }

  /** The mock body with a price `Decimal` cannot read is refused with 422. */
  lemma UnreadablePriceRefused(rows: map<string, Vehicle>, vin: string, price: Value)
    requires UnreadablePrice(price)
    ensures CreateOutcome(rows, JsonObject(MockBody(vin)["purchase_price" := price]))
         == Outcome(Response(422, ErrorDetailsBody(PriceError, PriceDetails)), rows)
  {
    var m := MockBody(vin)["purchase_price" := price];
    MockBodyFields(vin);
    assert HasRequired(m);
    assert m["model_year"] == Int(2021) && m["horse_power"] == Int(100);
    assert m["purchase_price"] == price;
    CreateCheckOrder(m);
    CreateRejected(rows, m);
  }

  /** A price written with a grouping underscore, `"1_000"`, converts as the number 1000 does. */
  lemma GroupedPrice()
    ensures ToDecimal(Str("1_000")) == ToDecimal(Int(1000))
  {
    assert "1" + "_" + "000" == "1_000";
    assert "1" + "000" == "1000";
    assert "1000"[..3] == "100" && "100"[..2] == "10" && "10"[..1] == "1" && "1"[..0] == "";
    assert DigitsValue("1000") == 1000;
    GroupedDigits("1", "000");
    TextMatchesInt("1_000", 1000);
  }

  /** The price the tests send, "invalid_purchase_price", is refused with 422. */
  lemma PriceNotANumber(rows: map<string, Vehicle>, vin: string)
    ensures CreateOutcome(rows, JsonObject(MockBody(vin)["purchase_price" := Str("invalid_purchase_price")]))
         == Outcome(Response(422, ErrorDetailsBody(PriceError, PriceDetails)), rows)
  {
    InvalidPriceText();
    PriceUnreadable(rows, vin, "invalid_purchase_price");
  }

  /** The price text the tests send is not a number. */
  lemma InvalidPriceText()
    ensures ParseDecimalText("invalid_purchase_price") == None
  {
    WordIsNotANumber("invalid_purchase_price", 2);
  }

  /** A read with the seeded VIN in capitals misses: the stored VINs are lowercase. */
  lemma ReadInCapitals(rows: map<string, Vehicle>)
    requires WellKeyed(rows)
    ensures GetOutcome(rows, "TEST1") == Response(400, ErrorBody(NotFoundMessage))
  {
    assert IsUpper("TEST1"[0]);
    MixedCaseVinMisses(rows, "TEST1");
  }

  /** The update body the tests send. */
  function UpdateBody(horsePower: Value): map<string, Value> {
    map[
      "manufacturer_name" := Str("updated_manufacturer"),
      "horse_power" := horsePower,
      "model_name" := Str("updated_model"),
      "model_year" := Int(2022),
      "purchase_price" := Int(20000),
      "fuel_type" := Str("Electric")]
  }

  /** The update body holds the values the checks and the test look at. */
  lemma UpdateBodyFields(horsePower: Value)
    ensures var m := UpdateBody(horsePower);
      && m != map[] && "manufacturer_name" in m && m["manufacturer_name"] == Str("updated_manufacturer")
      && "model_year" in m && m["model_year"] == Int(2022)
      && "horse_power" in m && m["horse_power"] == horsePower
      && "purchase_price" in m && m["purchase_price"] == Int(20000)
  {
    assert "manufacturer_name" in UpdateBody(horsePower).Keys;
  }

  /** The update body with an integer horse power passes every update check. */
  lemma UpdateBodyAccepted()
    ensures CheckUpdateRequest(JsonObject(UpdateBody(Int(200)))).Accepted?
  {
    var m := UpdateBody(Int(200));
    UpdateBodyFields(Int(200));
    UpdateTypeChecksFirst(map[], "test1", m);
  }

  /** The update of the stored `test1` answers 200 with the new manufacturer name. */
  lemma UpdateStored(rows: map<string, Vehicle>)
    requires WellKeyed(rows) && "test1" in rows
    ensures var o := UpdateOutcome(rows, "test1", JsonObject(UpdateBody(Int(200))));
      && o.response.status == 200 && o.response.payload.VehicleBody? && o.response.payload.vehicle.Some?
      && o.response.payload.vehicle.value.manufacturerName == Str("updated_manufacturer")
  {
    var m := UpdateBody(Int(200));
    UpdateBodyFields(Int(200));
    UpdateBodyAccepted();
    assert "manufacturer_name" in Mutable;
    UpdatePatches(rows, "test1", m);
    var data := CheckUpdateRequest(JsonObject(m)).data;
    assert data.entries["manufacturer_name"] == m["manufacturer_name"] by {
      assert UpdateOutcome(rows, "test1", JsonObject(m)).rows.Keys == rows.Keys;
      assert ValidateUpdate(Dict(m)) == Accepted(Dict(m["purchase_price" := Dec(ToDecimal(m["purchase_price"]).value)]));
    }
    var patched := Patched(rows["test1"], data.entries);
    assert Column(patched, "manufacturer_name") == patched.manufacturerName;
  }

  /** The same update of a VIN that is not stored answers 404 and changes nothing. */
  lemma UpdateUnknown(rows: map<string, Vehicle>)
    requires "invalid" !in rows
    ensures UpdateOutcome(rows, "invalid", JsonObject(UpdateBody(Int(200))))
         == Outcome(Response(404, ErrorBody(NotFoundMessage)), rows)
  {
    UpdateBodyAccepted();
    UpdateNotFound(rows, "invalid", JsonObject(UpdateBody(Int(200))));
  }

  /** An update whose `horse_power` is a string answers 422, stored VIN or not. */
  lemma UpdateHorsePowerAsString(rows: map<string, Vehicle>, vin: string)
    ensures UpdateOutcome(rows, vin, JsonObject(UpdateBody(Str("invalid_horse_power"))))
         == Outcome(Response(422, ErrorBody(UpdateHorsePowerError)), rows)
  {
    UpdateBodyFields(Str("invalid_horse_power"));
    UpdateTypeChecksFirst(rows, vin, UpdateBody(Str("invalid_horse_power")));
  }
}
