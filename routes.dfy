/**
  The five Vehicle routes: the checks each write route runs on its body,
  in the order it runs them, the column list the update route assembles,
  and each route as a transition over the Vehicle table.
 */
module Routes {
  import opened Options
  import opened Text
  import opened Decimals
  import opened Values
  import opened Sequences
  import opened Vehicles
  import opened Database

  /** The body as Flask's `get_json` sees it: text that is not JSON, or a parsed value. */
  datatype Body = Malformed | Parsed(value: Value)

  /** What a handler reads from the request: whether it is declared JSON, and its body. */
  datatype Request = Request(isJson: bool, body: Body)

  /** The JSON a route answers with. */
  datatype Payload =
    | VehicleBody(vehicle: Option<Vehicle>)                          // {"Vehicle": row or null}
    | VehiclesBody(vehicles: seq<Vehicle>)                           // {"Vehicles": [rows]}
    | ErrorBody(error: string)                                       // {"error": message}
    | ErrorDetailsBody(error: string, details: string)               // {"error": ..., "details": ...}
    | MissingFieldsBody(error: string, missingFields: seq<string>)   // {"error": ..., "missing_fields": [...]}
    | RaisedBody(exception: Exception)                               // {"error": str(e)} from the outer handler
    | NoContent                                                      // the empty body of a 204

  datatype Response = Response(status: int, payload: Payload)

  const NotJsonMessage := "Request body must be in JSON representation"
  const MissingMessage := "Missing required fields"
  const ModelYearError := "Invalid data type for model_year"
  const ModelYearDetails := "model_year must be an integer"
  const HorsePowerError := "Invalid data type for horse_power"
  const HorsePowerDetails := "horse_power must be an integer"
  const PriceError := "Invalid data type for purchase_price"
  const PriceDetails := "purchase_price must be a float represented as a string or the number itself"
  const NoDataMessage := "No data provided for update"
  const UpdateModelYearError := "Invalid data type for model_year. Must be an integer."
  const UpdateHorsePowerError := "Invalid data type for horse_power. Must be an integer."
  const NotFoundMessage := "Vehicle not found"
  const NoValidFieldsMessage := "No valid fields provided for update"

  /** The answer of the outer `except Exception` for an exception that escapes a route. */
  function Escaped(e: Exception): Response {
    Response(400, RaisedBody(e))
  }

  /**
    `[f for f in fields if f not in data]`: the names the body lacks, in
    the order of `fields`; the first `in` on a body that is not a
    container raises.
   */
  function MissingFields(fields: seq<string>, data: Value): (r: Result<seq<string>>)
    ensures r.Err? <==> fields != [] && !IsContainer(data)
    ensures r.Err? ==> r.error == TypeError
    ensures r.Ok? ==> Subsequence(r.value, fields)
    ensures r.Ok? ==> forall f :: f in r.value <==> f in fields && PyIn(f, data) == Ok(false)
    decreases |fields|
  {
    if fields == [] then Ok([])
    else
      match PyIn(fields[0], data)
      case Err(e) => Err(e)
      case Ok(present) =>
        match MissingFields(fields[1..], data)
        case Err(e) => Err(e)
        case Ok(rest) =>
          assert forall f :: f in fields <==> f == fields[0] || f in fields[1..];
          if present then Ok(rest)
          else
            assert ([fields[0]] + rest)[1..] == rest;
            Ok([fields[0]] + rest)
  }

  /** Every required name is a key of the object. */
  predicate HasRequired(m: map<string, Value>) {
    forall f | f in Required :: f in m
  }

  /**
    `key in data and not isinstance(data[key], int)`: true for a present
    key whose value is neither an int nor a bool. A list or string that
    contains the key fails at the subscription.
   */
  function NotInteger(data: Value, key: string): (r: Result<bool>)
    ensures r.Err? <==> !IsContainer(data) || (!data.Dict? && PyIn(key, data) == Ok(true))
    ensures r.Err? ==> r.error == TypeError
    ensures data.Dict? ==> r == Ok(key in data.entries && !IsPyInt(data.entries[key]))
  {
    match PyIn(key, data)
    case Err(e) => Err(e)
    case Ok(present) =>
      if !present then Ok(false)
      else
        match PyIndex(data, key)
        case Err(e) => Err(e)
        case Ok(v) => Ok(!IsPyInt(v))
  }

  /** The outcome of the `purchase_price` step shared by both write routes. */
  datatype PriceCheck =
    | PriceKept(data: Value)        // the body goes on, its price now a Decimal
    | PriceInvalid                  // InvalidOperation or ValueError, answered with 422
    | PriceRaised(error: Exception) // anything else, which escapes to the outer handler

  /** A price `Decimal(...)` cannot read: a list, or a string outside the numeric grammar. */
  predicate UnreadablePrice(price: Value) {
    price.List? || (price.Str? && ParseDecimalText(price.s).None?)
  }

  /** A price `Decimal(...)` refuses with a TypeError: null or an object. */
  predicate RefusedPrice(price: Value) {
    price.Null? || price.Dict?
  }

  /**
    `if 'purchase_price' in data: data['purchase_price'] = Decimal(data['purchase_price'])`,
    with the `except (InvalidOperation, ValueError)` around it.
   */
  function ConvertPrice(data: Value): (r: PriceCheck)
    ensures data.Dict? && "purchase_price" !in data.entries ==> r == PriceKept(data)
    ensures data.Dict? && "purchase_price" in data.entries ==>
      var price := data.entries["purchase_price"];
      && (r.PriceInvalid? <==> UnreadablePrice(price))
      && (r.PriceRaised? <==> RefusedPrice(price))
      && (r.PriceKept? ==> ToDecimal(price).Converted?
                            && r.data == Dict(data.entries["purchase_price" := Dec(ToDecimal(price).value)]))
    ensures !data.Dict? ==> (r.PriceRaised? <==> !IsContainer(data) || PyIn("purchase_price", data) == Ok(true))
    ensures !data.Dict? ==> !r.PriceInvalid? && (r.PriceKept? ==> r.data == data)
    ensures r.PriceRaised? ==> r.error == TypeError
  {
    match PyIn("purchase_price", data)
    case Err(e) => PriceRaised(e)
    case Ok(present) =>
      if !present then PriceKept(data)
      else
        match PyIndex(data, "purchase_price")
        case Err(e) => PriceRaised(e)
        case Ok(price) =>
          match ToDecimal(price)
          case Unparseable => PriceInvalid
          case Raised(e) => PriceRaised(e)
          case Converted(d) =>
            match PySetItem(data, "purchase_price", Dec(d))
            case Err(e) => PriceRaised(e)
            case Ok(updated) => PriceKept(updated)
  }

  /** Where a write route's checks leave it: answered already, or going on with the body. */
  datatype Validation = Rejected(response: Response) | Accepted(data: Value)

  /**
    The checks of create_vehicle on a parsed body, in their order: the
    missing names, then `model_year`, then `horse_power`, then the price.
   */
  function ValidateCreate(data: Value): (r: Validation)
    ensures !IsContainer(data) ==> r == Rejected(Escaped(TypeError))
  {
    match MissingFields(Required, data)
    case Err(e) => Rejected(Escaped(e))
    case Ok(missing) =>
      if missing != [] then
        Rejected(Response(422, MissingFieldsBody(MissingMessage, missing)))
      else
        match NotInteger(data, "model_year")
        case Err(e) => Rejected(Escaped(e))
        case Ok(bad) =>
          if bad then Rejected(Response(422, ErrorDetailsBody(ModelYearError, ModelYearDetails)))
          else
            match NotInteger(data, "horse_power")
            case Err(e) => Rejected(Escaped(e))
            case Ok(bad) =>
              if bad then Rejected(Response(422, ErrorDetailsBody(HorsePowerError, HorsePowerDetails)))
              else
                match ConvertPrice(data)
                case PriceRaised(e) => Rejected(Escaped(e))
                case PriceInvalid => Rejected(Response(422, ErrorDetailsBody(PriceError, PriceDetails)))
                case PriceKept(converted) => Accepted(converted)
  }

  /**
    Only a JSON object holding every required name gets through the
    checks: a list or a string that contains all the names fails at the
    subscription `data['model_year']`. What goes on is an object too,
    holding every required name.
   */
  lemma CreateAcceptsObjects(data: Value)
    ensures var r := ValidateCreate(data);
      r.Accepted? ==> data.Dict? && HasRequired(data.entries) && r.data.Dict? && HasRequired(r.data.entries)
  {
    var r := ValidateCreate(data);
    if r.Accepted? {
      var missing := MissingFields(Required, data);
      assert missing == Ok([]);
      assert "model_year" in Required;
      assert PyIn("model_year", data) == Ok(true) by {
        assert PyIn("model_year", data).Ok?;
        assert "model_year" !in missing.value;
      }
      assert data.Dict? by {
        assert NotInteger(data, "model_year").Ok?;
      }
      forall f | f in Required ensures f in data.entries {
        assert f !in missing.value;
        assert PyIn(f, data) == Ok(f in data.entries);
      }
      var m := data.entries;
      CreateCheckOrder(m);
      assert r.data == Dict(m["purchase_price" := Dec(ToDecimal(m["purchase_price"]).value)]);
    }
  }

  /**
    A JSON object lacking required names gets 422 with exactly the names
    it lacks, in the declared order.
   */
  lemma CreateReportsMissing(m: map<string, Value>)
    requires !HasRequired(m)
    ensures var r := ValidateCreate(Dict(m));
      && r.Rejected? && r.response.status == 422
      && r.response.payload.MissingFieldsBody? && r.response.payload.error == MissingMessage
      && Subsequence(r.response.payload.missingFields, Required)
      && forall f :: f in r.response.payload.missingFields <==> f in Required && f !in m
  {
    var f :| f in Required && f !in m;
    assert PyIn(f, Dict(m)) == Ok(false);
  }

  /** An object holding none of the names lacks every one of them, in their order. */
  lemma {:induction false} MissingAll(fields: seq<string>, m: map<string, Value>)
    requires forall i :: 0 <= i < |fields| ==> fields[i] !in m
    ensures MissingFields(fields, Dict(m)) == Ok(fields)
    decreases |fields|
  {
    if fields != [] {
      MissingAll(fields[1..], m);
      assert [fields[0]] + fields[1..] == fields;
    }
  }

  /**
    A JSON object with every required name meets the type checks in their
    order, and the first that fails decides the answer; when all pass,
    the body goes on with its price read as a Decimal.
   */
  lemma CreateCheckOrder(m: map<string, Value>)
    requires HasRequired(m)
    ensures var r := ValidateCreate(Dict(m));
      var price := m["purchase_price"];
      if !IsPyInt(m["model_year"]) then r == Rejected(Response(422, ErrorDetailsBody(ModelYearError, ModelYearDetails)))
      else if !IsPyInt(m["horse_power"]) then r == Rejected(Response(422, ErrorDetailsBody(HorsePowerError, HorsePowerDetails)))
      else if UnreadablePrice(price) then r == Rejected(Response(422, ErrorDetailsBody(PriceError, PriceDetails)))
      else if RefusedPrice(price) then r == Rejected(Escaped(TypeError))
      else r == Accepted(Dict(m["purchase_price" := Dec(ToDecimal(price).value)]))
  {
    MissingNone(Required, m);
  }

  /** An object holding every one of the names lacks none of them. */
  lemma {:induction false} MissingNone(fields: seq<string>, m: map<string, Value>)
    requires forall i :: 0 <= i < |fields| ==> fields[i] in m
    ensures MissingFields(fields, Dict(m)) == Ok([])
    decreases |fields|
  {
    if fields != [] {
      MissingNone(fields[1..], m);
    }
  }

  /**
    The checks of update_vehicle on a parsed body, in their order: an
    empty body, then `model_year`, then `horse_power`, then the price.
    None of them needs the body to name any particular key.
   */
  function ValidateUpdate(data: Value): (r: Validation)
    ensures !Truthy(data) ==> r == Rejected(Response(400, ErrorBody(NoDataMessage)))
    ensures Truthy(data) && !IsContainer(data) ==> r == Rejected(Escaped(TypeError))
    ensures r.Accepted? ==> Truthy(data) && (r.data.Dict? <==> data.Dict?) && (!data.Dict? ==> r.data == data)
    ensures data.Dict? && data.entries != map[] ==>
      var m := data.entries;
      if "model_year" in m && !IsPyInt(m["model_year"]) then r == Rejected(Response(422, ErrorBody(UpdateModelYearError)))
      else if "horse_power" in m && !IsPyInt(m["horse_power"]) then r == Rejected(Response(422, ErrorBody(UpdateHorsePowerError)))
      else if "purchase_price" !in m then r == Accepted(data)
      else if UnreadablePrice(m["purchase_price"]) then r == Rejected(Response(422, ErrorDetailsBody(PriceError, PriceDetails)))
      else if RefusedPrice(m["purchase_price"]) then r == Rejected(Escaped(TypeError))
      else r == Accepted(Dict(m["purchase_price" := Dec(ToDecimal(m["purchase_price"]).value)]))
  {
    if !Truthy(data) then Rejected(Response(400, ErrorBody(NoDataMessage)))
    else
      match NotInteger(data, "model_year")
      case Err(e) => Rejected(Escaped(e))
      case Ok(bad) =>
        if bad then Rejected(Response(422, ErrorBody(UpdateModelYearError)))
        else
          match NotInteger(data, "horse_power")
          case Err(e) => Rejected(Escaped(e))
          case Ok(bad) =>
            if bad then Rejected(Response(422, ErrorBody(UpdateHorsePowerError)))
            else
              match ConvertPrice(data)
              case PriceRaised(e) => Rejected(Escaped(e))
              case PriceInvalid => Rejected(Response(422, ErrorDetailsBody(PriceError, PriceDetails)))
              case PriceKept(converted) => Accepted(converted)
  }

  /** The JSON check and the body read of create_vehicle, then its body checks. */
  function CheckCreateRequest(request: Request): (r: Validation)
    ensures !request.isJson ==> r == Rejected(Response(400, ErrorBody(NotJsonMessage)))
    ensures request.isJson && request.body.Malformed? ==> r == Rejected(Escaped(BadRequest))
    ensures r.Accepted? ==> request.isJson && request.body.Parsed? && request.body.value.Dict?
                             && HasRequired(request.body.value.entries)
                             && r.data.Dict? && HasRequired(r.data.entries)
  {
    if !request.isJson then Rejected(Response(400, ErrorBody(NotJsonMessage)))
    else
      match request.body
      case Malformed => Rejected(Escaped(BadRequest))
      case Parsed(data) =>
        CreateAcceptsObjects(data);
        ValidateCreate(data)
  }

  /** The JSON check and the body read of update_vehicle, then its body checks. */
  function CheckUpdateRequest(request: Request): (r: Validation)
    ensures !request.isJson ==> r == Rejected(Response(400, ErrorBody(NotJsonMessage)))
    ensures request.isJson && request.body.Malformed? ==> r == Rejected(Escaped(BadRequest))
    ensures r.Accepted? ==> request.isJson && request.body.Parsed? && Truthy(request.body.value)
  {
    if !request.isJson then Rejected(Response(400, ErrorBody(NotJsonMessage)))
    else
      match request.body
      case Malformed => Rejected(Escaped(BadRequest))
      case Parsed(data) => ValidateUpdate(data)
  }

  /** `field in data` raises, or holds and `data[field]` raises. */
  predicate ItemFails(data: Value, field: string) {
    PyIn(field, data).Err? || (PyIn(field, data) == Ok(true) && PyIndex(data, field).Err?)
  }

  /** The assembled `SET` clause: the columns and their new values, in order; or the exception. */
  datatype Assembly = Assembled(fields: seq<string>, values: seq<Value>) | AssemblyFailed(error: Exception)

  /**
    The update loop over `columns`, as a definition: each column `in` the
    body is appended with `data[column]` as its value, and the first
    column whose `in` or subscription raises ends it.
   */
  function Assemble(columns: seq<string>, data: Value): (r: Assembly)
    ensures r.Assembled? ==> |r.fields| == |r.values| <= |columns|
    decreases |columns|
  {
    if columns == [] then Assembled([], [])
    else
      var n := |columns| - 1;
      var field := columns[n];
      match Assemble(columns[..n], data)
      case AssemblyFailed(e) => AssemblyFailed(e)
      case Assembled(fields, values) =>
        match PyIn(field, data)
        case Err(e) => AssemblyFailed(e)
        case Ok(present) =>
          if !present then Assembled(fields, values)
          else
            match PyIndex(data, field)
            case Err(e) => AssemblyFailed(e)
            case Ok(v) => Assembled(fields + [field], values + [v])
  }

  /** The loop raises exactly when some column's `in` or subscription raises, and then with a TypeError. */
  lemma {:induction false} AssemblyFailure(columns: seq<string>, data: Value)
    ensures var r := Assemble(columns, data);
      && (r.AssemblyFailed? <==> exists f :: f in columns && ItemFails(data, f))
      && (r.AssemblyFailed? ==> r.error == TypeError)
    decreases |columns|
  {
    if columns != [] {
      var n := |columns| - 1;
      var field := columns[n];
      AssemblyFailure(columns[..n], data);
      assert columns == columns[..n] + [field];
      assert forall f :: f in columns <==> f in columns[..n] || f == field;
      if Assemble(columns[..n], data).Assembled? {
        assert Assemble(columns, data).AssemblyFailed? <==> ItemFails(data, field);
      }
    }
  }

  /**
    When the loop completes, its columns are, in their order, the columns
    the body holds, each paired with the body's value for it.
   */
  lemma {:induction false} AssemblySelects(columns: seq<string>, data: Value)
    requires Assemble(columns, data).Assembled?
    ensures var r := Assemble(columns, data);
      && Subsequence(r.fields, columns)
      && (forall f :: f in r.fields <==> f in columns && PyIn(f, data) == Ok(true))
      && (forall k :: 0 <= k < |r.fields| ==> PyIndex(data, r.fields[k]) == Ok(r.values[k]))
    decreases |columns|
  {
    if columns != [] {
      var n := |columns| - 1;
      var field := columns[n];
      var sub := Assemble(columns[..n], data);
      AssemblySelects(columns[..n], data);
      assert columns == columns[..n] + [field];
      assert forall f :: f in columns <==> f in columns[..n] || f == field;
      if PyIn(field, data) == Ok(true) {
        SubsequenceAppend(sub.fields, columns[..n], field);
      } else {
        SubsequenceExtend(sub.fields, columns[..n], field);
      }
    }
  }

  /** Distinct columns give a `SET` clause that names no column twice. */
  lemma {:induction false} AssemblyDistinct(columns: seq<string>, data: Value)
    requires Distinct(columns)
    requires Assemble(columns, data).Assembled?
    ensures Distinct(Assemble(columns, data).fields)
    decreases |columns|
  {
    if columns != [] {
      var n := |columns| - 1;
      var field := columns[n];
      var sub := Assemble(columns[..n], data);
      AssemblyDistinct(columns[..n], data);
      AssemblySelects(columns[..n], data);
      assert field !in columns[..n];
      assert field !in sub.fields;
    }
  }

  /** Once a prefix of the columns raises, the whole loop raises with that exception. */
  lemma {:induction false} AssemblyStopsAtFailure(columns: seq<string>, i: nat, data: Value)
    requires i <= |columns|
    requires Assemble(columns[..i], data).AssemblyFailed?
    ensures Assemble(columns, data) == Assemble(columns[..i], data)
    decreases |columns| - i
  {
    if i < |columns| {
      assert columns[..i + 1][..i] == columns[..i];
      AssemblyStopsAtFailure(columns, i + 1, data);
    } else {
      assert columns[..i] == columns;
    }
  }

  /** One more turn of the loop, from the columns before `i` to the columns up to `i`. */
  lemma AssembleStep(columns: seq<string>, i: nat, data: Value, fields: seq<string>, values: seq<Value>)
    requires i < |columns|
    requires Assemble(columns[..i], data) == Assembled(fields, values)
    ensures var field := columns[i];
      Assemble(columns[..i + 1], data) ==
        match PyIn(field, data)
        case Err(e) => AssemblyFailed(e)
        case Ok(present) =>
          if !present then Assembled(fields, values)
          else
            match PyIndex(data, field)
            case Err(e) => AssemblyFailed(e)
            case Ok(v) => Assembled(fields + [field], values + [v])
  {
    assert columns[..i + 1][..i] == columns[..i];
  }

  /** The loop of update_vehicle over the updatable columns, building the two lists step by step. */
  method AssembleUpdate(data: Value) returns (r: Assembly)
    ensures r == Assemble(Mutable, data)
  {
    var fields: seq<string> := [];
    var values: seq<Value> := [];
    for i := 0 to |Mutable|
      invariant Assemble(Mutable[..i], data) == Assembled(fields, values)
    {
      var field := Mutable[i];
      AssembleStep(Mutable, i, data, fields, values);
      var present := PyIn(field, data);
      if present.Err? {
        AssemblyStopsAtFailure(Mutable, i + 1, data);
        return AssemblyFailed(present.error);
      }
      if present.value {
        var item := PyIndex(data, field);
        if item.Err? {
          AssemblyStopsAtFailure(Mutable, i + 1, data);
          return AssemblyFailed(item.error);
        }
        fields := fields + [field];
        values := values + [item.value];
      }
    }
    assert Mutable[..|Mutable|] == Mutable;
    r := Assembled(fields, values);
  }

  /** On a JSON object the loop never raises, and it picks the updatable columns the object names. */
  lemma AssemblyOnObject(m: map<string, Value>)
    ensures Assemble(Mutable, Dict(m)).Assembled?
    ensures forall f :: f in Assemble(Mutable, Dict(m)).fields <==> f in Mutable && f in m
  {
    forall f | f in Mutable ensures !ItemFails(Dict(m), f) {
      assert PyIn(f, Dict(m)) == Ok(f in m);
    }
    AssemblyFailure(Mutable, Dict(m));
    AssemblySelects(Mutable, Dict(m));
  }

  /**
    On a JSON object, assigning the assembled columns to a row gives the
    patched row: the body's value for each updatable column it names, the
    old value for every other column and for the VIN.
   */
  lemma AssemblyPatches(v: Vehicle, m: map<string, Value>)
    ensures Assemble(Mutable, Dict(m)).Assembled?
    ensures var a := Assemble(Mutable, Dict(m));
      && (forall i :: 0 <= i < |a.fields| ==> a.fields[i] in Mutable)
      && Assigned(v, a.fields, a.values) == Patched(v, m)
  {
    AssemblyOnObject(m);
    AssemblySelects(Mutable, Dict(m));
    MutableDistinct();
    AssemblyDistinct(Mutable, Dict(m));
    var a := Assemble(Mutable, Dict(m));
    forall i | 0 <= i < |a.fields|
      ensures a.fields[i] in Mutable && a.fields[i] in m && a.values[i] == m[a.fields[i]]
    {
      assert a.fields[i] in a.fields;
      assert PyIndex(Dict(m), a.fields[i]) == Ok(a.values[i]);
    }
    AssignedIsPatched(v, m, a.fields, a.values);
  }

  /**
    The table as the trigger leaves it: every row is stored under its own
    VIN, and every VIN is lowercase.
   */
  predicate WellKeyed(rows: map<string, Vehicle>) {
    forall key | key in rows :: rows[key].vin == key && Lower(key) == key
  }

  /** An exact-match lookup with a VIN holding an uppercase letter finds no row. */
  lemma MixedCaseVinMisses(rows: map<string, Vehicle>, vin: string)
    requires WellKeyed(rows)
    requires exists i :: 0 <= i < |vin| && IsUpper(vin[i])
    ensures vin !in rows
  {
    var i :| 0 <= i < |vin| && IsUpper(vin[i]);
    assert Lower(vin)[i] != vin[i];
  }

  /** A route's answer and the table it leaves behind. */
  datatype Outcome = Outcome(response: Response, rows: map<string, Vehicle>)

  /** get_specific_vehicle: the row stored under exactly that VIN; a miss is answered with 400, not 404. */
  function GetOutcome(rows: map<string, Vehicle>, vin: string): (r: Response)
    ensures r.status == 200 <==> vin in rows
    ensures r.status == 200 ==> r.payload == VehicleBody(Some(rows[vin]))
    ensures r.status != 200 ==> r == Response(400, ErrorBody(NotFoundMessage))
  {
    if vin in rows then Response(200, VehicleBody(Some(rows[vin])))
    else Response(400, ErrorBody(NotFoundMessage))
  }

  /**
    The INSERT of create_vehicle and the read after it. The trigger
    stores the row under the lowercased VIN, and a VIN already stored
    violates the key. The row is then read back with the VIN as sent. A
    VIN that is not a string makes that read fail before the commit, so
    nothing is stored.
   */
  function InsertVehicle(rows: map<string, Vehicle>, data: map<string, Value>): (o: Outcome)
    requires HasRequired(data)
    ensures WellKeyed(rows) ==> WellKeyed(o.rows)
    ensures o.rows == rows || o.response.status == 200
    ensures forall key | key in rows :: key in o.rows && o.rows[key] == rows[key]
    ensures forall key | key in o.rows && key !in rows :: data["vin"].Str? && key == Lower(data["vin"].s)
  {
    assert "vin" in Required;
    var vin := data["vin"];
    if !vin.Str? then Outcome(Escaped(StoreError), rows)
    else
      var row := VinCaseInsensitive(NewVehicle(vin.s, data));
      if row.vin in rows then Outcome(Escaped(UniqueViolation), rows)
      else
        var stored := rows[row.vin := row];
        LowerIdempotent(vin.s);
        Outcome(Response(200, VehicleBody(if vin.s in stored then Some(stored[vin.s]) else None)), stored)
  }

  /** An insert of a string VIN not yet stored adds the row, through the trigger, and nothing else. */
  lemma InsertAdds(rows: map<string, Vehicle>, data: map<string, Value>)
    requires WellKeyed(rows)
    requires HasRequired(data) && "vin" in data
    requires data["vin"].Str? && Lower(data["vin"].s) !in rows
    ensures var o := InsertVehicle(rows, data);
      var vin := data["vin"].s;
      var row := VinCaseInsensitive(NewVehicle(vin, data));
      && row.vin == Lower(vin)
      && o.rows == rows[Lower(vin) := row]
      && o.response == Response(200, VehicleBody(if Lower(vin) == vin then Some(row) else None))
  {
    var vin := data["vin"].s;
    assert vin in rows ==> Lower(vin) == vin;
  }

  /** create_vehicle: the checks, then the insert. */
  function CreateOutcome(rows: map<string, Vehicle>, request: Request): (o: Outcome)
    ensures WellKeyed(rows) ==> WellKeyed(o.rows)
    ensures o.rows == rows || o.response.status == 200
    ensures forall key | key in rows :: key in o.rows && o.rows[key] == rows[key]
  {
    match CheckCreateRequest(request)
    case Rejected(response) => Outcome(response, rows)
    case Accepted(data) => InsertVehicle(rows, data.entries)
  }

  /**
    The UPDATE of update_vehicle and the read after it, on a row that
    exists: the assembled columns are assigned, the trigger rewrites the
    VIN, and the row is read back by the path VIN.
   */
  function ApplyUpdate(rows: map<string, Vehicle>, vin: string, data: Value): (o: Outcome)
    requires vin in rows
    ensures WellKeyed(rows) ==> WellKeyed(o.rows)
    ensures o.rows == rows || o.response.status == 200
    ensures o.rows.Keys == rows.Keys
    ensures forall key | key in rows && key != vin :: o.rows[key] == rows[key]
  {
    match Assemble(Mutable, data)
    case AssemblyFailed(e) => Outcome(Escaped(e), rows)
    case Assembled(fields, values) =>
      if fields == [] then Outcome(Response(422, ErrorBody(NoValidFieldsMessage)), rows)
      else
        assert forall i :: 0 <= i < |fields| ==> fields[i] in Mutable by {
          AssemblySelects(Mutable, data);
          forall i | 0 <= i < |fields| ensures fields[i] in Mutable {
            assert fields[i] in fields;
          }
        }
        var row := VinCaseInsensitive(Assigned(rows[vin], fields, values));
        var stored := rows[vin := row];
        assert WellKeyed(rows) ==> row.vin == vin;
        Outcome(Response(200, VehicleBody(if vin in stored then Some(stored[vin]) else None)), stored)
  }

  /** update_vehicle: the checks, the lookup by exactly the path VIN, then the update. */
  function UpdateOutcome(rows: map<string, Vehicle>, vin: string, request: Request): (o: Outcome)
    ensures WellKeyed(rows) ==> WellKeyed(o.rows)
    ensures o.rows == rows || o.response.status == 200
    ensures o.rows.Keys == rows.Keys
    ensures forall key | key in rows && key != vin :: o.rows[key] == rows[key]
  {
    match CheckUpdateRequest(request)
    case Rejected(response) => Outcome(response, rows)
    case Accepted(data) =>
      if vin !in rows then Outcome(Response(404, ErrorBody(NotFoundMessage)), rows)
      else ApplyUpdate(rows, vin, data)
  }

  /** delete_vehicle: removes the row stored under exactly that VIN. */
  function DeleteOutcome(rows: map<string, Vehicle>, vin: string): (o: Outcome)
    ensures WellKeyed(rows) ==> WellKeyed(o.rows)
    ensures o.response.status == 204 <==> vin in rows
    ensures o.response.status != 204 ==> o.response == Response(404, ErrorBody(NotFoundMessage))
    ensures o.rows.Keys == rows.Keys - {vin}
    ensures forall key | key in o.rows :: o.rows[key] == rows[key]
  {
    if vin in rows then Outcome(Response(204, NoContent), rows - {vin})
    else Outcome(Response(404, ErrorBody(NotFoundMessage)), rows)
  }

  /** A JSON request carrying an object. */
  function JsonObject(m: map<string, Value>): Request {
    Request(true, Parsed(Dict(m)))
  }

  /**
    A create whose body lacks required names answers 422 listing exactly
    those names, in the declared order, and stores nothing.
   */
  lemma CreateMissingFields(rows: map<string, Vehicle>, m: map<string, Value>)
    requires !HasRequired(m)
    ensures var o := CreateOutcome(rows, JsonObject(m));
      && o.rows == rows && o.response.status == 422
      && o.response.payload.MissingFieldsBody? && o.response.payload.error == MissingMessage
      && Subsequence(o.response.payload.missingFields, Required)
      && forall f :: f in o.response.payload.missingFields <==> f in Required && f !in m
  {
    CreateReportsMissing(m);
  }

  /** A create whose body fails a check answers as that check says and stores nothing. */
  lemma CreateRejected(rows: map<string, Vehicle>, m: map<string, Value>)
    requires ValidateCreate(Dict(m)).Rejected?
    ensures CreateOutcome(rows, JsonObject(m)) == Outcome(ValidateCreate(Dict(m)).response, rows)
  {
  }

  /**
    A create whose body passes every check goes on with the body, its
    price converted to a Decimal, to the insert.
   */
  lemma CreateAccepted(rows: map<string, Vehicle>, m: map<string, Value>)
    requires CheckCreateRequest(JsonObject(m)).Accepted?
    ensures HasRequired(m) && "purchase_price" in m && ToDecimal(m["purchase_price"]).Converted?
    ensures var data := m["purchase_price" := Dec(ToDecimal(m["purchase_price"]).value)];
      && CheckCreateRequest(JsonObject(m)) == Accepted(Dict(data))
      && CreateOutcome(rows, JsonObject(m)) == InsertVehicle(rows, data)
  {
    assert HasRequired(m);
    assert "purchase_price" in Required;
    CreateCheckOrder(m);
  }

  /**
    A create whose body passes every check, with a string VIN whose
    lowercase form is not stored yet, adds exactly one row under that
    lowercase form: the body's columns, null for an absent description,
    the price as a Decimal. It answers 200 with the row read back by the
    VIN as sent, which is null when that VIN has capitals.
   */
  lemma CreateInserts(rows: map<string, Vehicle>, m: map<string, Value>)
    requires WellKeyed(rows)
    requires CheckCreateRequest(JsonObject(m)).Accepted?
    requires "vin" in m && m["vin"].Str? && Lower(m["vin"].s) !in rows
    ensures var o := CreateOutcome(rows, JsonObject(m));
      var key := Lower(m["vin"].s);
      && key in o.rows && o.rows == rows[key := o.rows[key]]
      && o.rows[key].vin == key
      && (forall c | c in Mutable && c != "purchase_price" :: Column(o.rows[key], c) == Get(m, c))
      && "purchase_price" in m && ToDecimal(m["purchase_price"]).Converted?
      && Column(o.rows[key], "purchase_price") == Dec(ToDecimal(m["purchase_price"]).value)
      && o.response == Response(200, VehicleBody(if key == m["vin"].s then Some(o.rows[key]) else None))
  {
    var vin := m["vin"].s;
    CreateAccepted(rows, m);
    var price := Dec(ToDecimal(m["purchase_price"]).value);
    var data := m["purchase_price" := price];
    assert data["vin"] == m["vin"];
    InsertAdds(rows, data);
    InsertedColumns(vin, m, price);
  }

  /** The row the insert writes for a body whose price was replaced: the other columns come from the body. */
  lemma InsertedColumns(vin: string, m: map<string, Value>, price: Value)
    requires HasRequired(m)
    ensures var row := VinCaseInsensitive(NewVehicle(vin, m["purchase_price" := price]));
      && Column(row, "purchase_price") == price
      && forall c | c in Mutable && c != "purchase_price" :: Column(row, c) == Get(m, c)
  {
    var data := m["purchase_price" := price];
    var row := VinCaseInsensitive(NewVehicle(vin, data));
    assert "purchase_price" in Mutable;
    forall c | c in Mutable && c != "purchase_price" ensures Column(row, c) == Get(m, c) {
      assert Column(row, c) == Column(NewVehicle(vin, data), c) == Get(data, c);
    }
  }

  /** A create whose VIN, lowercased, is already stored answers 400 and leaves the table as it was. */
  lemma CreateDuplicate(rows: map<string, Vehicle>, m: map<string, Value>)
    requires CheckCreateRequest(JsonObject(m)).Accepted?
    requires "vin" in m && m["vin"].Str? && Lower(m["vin"].s) in rows
    ensures CreateOutcome(rows, JsonObject(m)) == Outcome(Escaped(UniqueViolation), rows)
  {
    CreateAccepted(rows, m);
    assert CheckCreateRequest(JsonObject(m)).data.entries["vin"] == m["vin"];
  }

  /** A create whose VIN is not a string answers 400 and stores nothing. */
  lemma CreateNonStringVin(rows: map<string, Vehicle>, m: map<string, Value>)
    requires CheckCreateRequest(JsonObject(m)).Accepted?
    requires "vin" in m && !m["vin"].Str?
    ensures CreateOutcome(rows, JsonObject(m)) == Outcome(Escaped(StoreError), rows)
  {
    CreateAccepted(rows, m);
    assert CheckCreateRequest(JsonObject(m)).data.entries["vin"] == m["vin"];
  }

  /**
    After a create with a VIN holding capitals, the answer carries a null
    vehicle, a read with the VIN as sent misses (400), and a read with its
    lowercase form finds the row.
   */
  lemma CreateWithCapitals(rows: map<string, Vehicle>, m: map<string, Value>)
    requires WellKeyed(rows)
    requires CheckCreateRequest(JsonObject(m)).Accepted?
    requires "vin" in m && m["vin"].Str? && Lower(m["vin"].s) !in rows
    requires exists i :: 0 <= i < |m["vin"].s| && IsUpper(m["vin"].s[i])
    ensures var o := CreateOutcome(rows, JsonObject(m));
      && o.response == Response(200, VehicleBody(None))
      && GetOutcome(o.rows, m["vin"].s) == Response(400, ErrorBody(NotFoundMessage))
      && GetOutcome(o.rows, Lower(m["vin"].s)).status == 200
  {
    var vin := m["vin"].s;
    CreateInserts(rows, m);
    var o := CreateOutcome(rows, JsonObject(m));
    MixedCaseVinMisses(o.rows, vin);
  }

  /** An update with an empty object answers 400 and changes nothing. */
  lemma UpdateEmptyBody(rows: map<string, Vehicle>, vin: string)
    ensures UpdateOutcome(rows, vin, JsonObject(map[])) == Outcome(Response(400, ErrorBody(NoDataMessage)), rows)
  {
  }

  /**
    Any falsy JSON body (null, false, 0, an empty string, list or object)
    answers 400 "No data provided for update" and changes nothing.
   */
  lemma UpdateFalsyBody(rows: map<string, Vehicle>, vin: string, body: Value)
    requires !Truthy(body)
    ensures UpdateOutcome(rows, vin, Request(true, Parsed(body))) == Outcome(Response(400, ErrorBody(NoDataMessage)), rows)
  {
  }

  /**
    An update whose body fails a type check answers with that check's
    error whether or not the VIN is stored, and changes nothing; the
    checks run `model_year`, then `horse_power`, then the price.
   */
  lemma UpdateTypeChecksFirst(rows: map<string, Vehicle>, vin: string, m: map<string, Value>)
    requires m != map[]
    ensures var o := UpdateOutcome(rows, vin, JsonObject(m));
      if "model_year" in m && !IsPyInt(m["model_year"]) then
        o == Outcome(Response(422, ErrorBody(UpdateModelYearError)), rows)
      else if "horse_power" in m && !IsPyInt(m["horse_power"]) then
        o == Outcome(Response(422, ErrorBody(UpdateHorsePowerError)), rows)
      else if "purchase_price" in m && UnreadablePrice(m["purchase_price"]) then
        o == Outcome(Response(422, ErrorDetailsBody(PriceError, PriceDetails)), rows)
      else if "purchase_price" in m && RefusedPrice(m["purchase_price"]) then
        o == Outcome(Escaped(TypeError), rows)
      else
        CheckUpdateRequest(JsonObject(m)).Accepted?
  {
  }

  /** An update that passes its checks on a VIN not stored answers 404 and creates no row. */
  lemma UpdateNotFound(rows: map<string, Vehicle>, vin: string, request: Request)
    requires CheckUpdateRequest(request).Accepted?
    requires vin !in rows
    ensures UpdateOutcome(rows, vin, request) == Outcome(Response(404, ErrorBody(NotFoundMessage)), rows)
  {
  }

  /**
    The VIN is looked up before the columns are: a non-empty body that
    names no updatable column answers 404 on an unknown VIN and 422 on a
    stored one, and changes nothing in either case.
   */
  lemma UpdateExistenceFirst(rows: map<string, Vehicle>, vin: string, m: map<string, Value>)
    requires m != map[]
    requires forall f | f in Mutable :: f !in m
    ensures vin !in rows ==> UpdateOutcome(rows, vin, JsonObject(m)) == Outcome(Response(404, ErrorBody(NotFoundMessage)), rows)
    ensures vin in rows ==> UpdateOutcome(rows, vin, JsonObject(m)) == Outcome(Response(422, ErrorBody(NoValidFieldsMessage)), rows)
  {
    assert "model_year" in Mutable && "horse_power" in Mutable && "purchase_price" in Mutable;
    assert CheckUpdateRequest(JsonObject(m)) == Accepted(Dict(m));
    AssemblyOnObject(m);
  }

  /**
    An update that passes its checks on a stored VIN, naming at least one
    updatable column, sets exactly the updatable columns the body names
    and keeps every other column and the VIN; it answers 200 with the
    updated row.
   */
  lemma UpdatePatches(rows: map<string, Vehicle>, vin: string, m: map<string, Value>)
    requires WellKeyed(rows) && vin in rows
    requires CheckUpdateRequest(JsonObject(m)).Accepted?
    requires exists f :: f in Mutable && f in m
    ensures var data := CheckUpdateRequest(JsonObject(m)).data;
      var o := UpdateOutcome(rows, vin, JsonObject(m));
      && data.Dict?
      && o.rows == rows[vin := Patched(rows[vin], data.entries)]
      && o.response == Response(200, VehicleBody(Some(Patched(rows[vin], data.entries))))
  {
    var data := CheckUpdateRequest(JsonObject(m)).data;
    AssemblyOnObject(data.entries);
    AssemblyPatches(rows[vin], data.entries);
    var f :| f in Mutable && f in m;
    assert f in data.entries;
    var assembly := Assemble(Mutable, data);
    assert assembly.fields != [] by {
      assert f in assembly.fields;
    }
  }

  /** A delete of a stored VIN answers 204; deleting it again answers 404. */
  lemma DeleteTwice(rows: map<string, Vehicle>, vin: string)
    requires vin in rows
    ensures DeleteOutcome(rows, vin).response == Response(204, NoContent)
    ensures DeleteOutcome(DeleteOutcome(rows, vin).rows, vin) == Outcome(Response(404, ErrorBody(NotFoundMessage)), rows - {vin})
  {
  }

  /** The Vehicle table behind the routes, one row per VIN. */
  class VehicleTable {
    var rows: map<string, Vehicle>

    ghost predicate Valid()
      reads this
    {
      WellKeyed(rows)
    }

    constructor ()
      ensures Valid() && rows == map[]
    {
      rows := map[];
    }

    /** GET /vehicles: every row, each once, in no particular order. */
    method GetAllVehicles() returns (resp: Response)
      requires Valid()
      ensures resp.status == 200 && resp.payload.VehiclesBody?
      ensures |resp.payload.vehicles| == |rows.Keys|
      ensures Distinct(resp.payload.vehicles)
      ensures forall v :: v in resp.payload.vehicles <==> v in rows.Values
    {
      var remaining := rows.Keys;
      var found: seq<Vehicle> := [];
      while remaining != {}
        invariant remaining <= rows.Keys
        invariant |found| + |remaining| == |rows.Keys|
        invariant forall j :: 0 <= j < |found| ==> found[j].vin in rows && found[j].vin !in remaining && rows[found[j].vin] == found[j]
        invariant forall key | key in rows && key !in remaining :: rows[key] in found
        invariant Distinct(found)
        decreases |remaining|
      {
        var key :| key in remaining;
        found := found + [rows[key]];
        remaining := remaining - {key};
      }
      resp := Response(200, VehiclesBody(found));
    }

    /** GET /vehicles/<vin>. */
    method GetSpecificVehicle(vin: string) returns (resp: Response)
      ensures resp == GetOutcome(rows, vin)
    {
      if vin in rows {
        resp := Response(200, VehicleBody(Some(rows[vin])));
      } else {
        resp := Response(400, ErrorBody(NotFoundMessage));
      }
    }

    /** POST /create_vehicle. */
    method CreateVehicle(request: Request) returns (resp: Response)
      requires Valid()
      modifies this
      ensures Valid()
      ensures resp == CreateOutcome(old(rows), request).response
      ensures rows == CreateOutcome(old(rows), request).rows
    {
      var checked := CheckCreateRequest(request);
      if checked.Rejected? {
        return checked.response;
      }
      var data := checked.data.entries;
      ghost var outcome := InsertVehicle(rows, data);
      assert CreateOutcome(rows, request) == outcome;
      assert "vin" in Required;
      var vin := data["vin"];
      if !vin.Str? {
        return Escaped(StoreError);
      }
      var row := VinCaseInsensitive(NewVehicle(vin.s, data));
      if row.vin in rows {
        return Escaped(UniqueViolation);
      }
      rows := rows[row.vin := row];
      assert rows == outcome.rows;
      if vin.s in rows {
        resp := Response(200, VehicleBody(Some(rows[vin.s])));
      } else {
        resp := Response(200, VehicleBody(None));
      }
    }

    /** PUT /update_vehicle/<vin>. */
    method UpdateVehicle(vin: string, request: Request) returns (resp: Response)
      requires Valid()
      modifies this
      ensures Valid()
      ensures resp == UpdateOutcome(old(rows), vin, request).response
      ensures rows == UpdateOutcome(old(rows), vin, request).rows
    {
      var checked := CheckUpdateRequest(request);
      if checked.Rejected? {
        return checked.response;
      }
      var data := checked.data;
      if vin !in rows {
        return Response(404, ErrorBody(NotFoundMessage));
      }
      var assembly := AssembleUpdate(data);
      if assembly.AssemblyFailed? {
        return Escaped(assembly.error);
      }
      var fields, values := assembly.fields, assembly.values;
      if fields == [] {
        return Response(422, ErrorBody(NoValidFieldsMessage));
      }
      assert forall i :: 0 <= i < |fields| ==> fields[i] in Mutable by {
        AssemblySelects(Mutable, data);
        forall i | 0 <= i < |fields| ensures fields[i] in Mutable {
          assert fields[i] in fields;
        }
      }
      var row := VinCaseInsensitive(Assigned(rows[vin], fields, values));
      rows := rows[vin := row];
      resp := Response(200, VehicleBody(Some(rows[vin])));
    }

    /** DELETE /delete_vehicle/<vin>. */
    method DeleteVehicle(vin: string) returns (resp: Response)
      requires Valid()
      modifies this
      ensures Valid()
      ensures resp == DeleteOutcome(old(rows), vin).response
      ensures rows == DeleteOutcome(old(rows), vin).rows
    {
      if vin in rows {
        rows := rows - {vin};
        resp := Response(204, NoContent);
      } else {
        resp := Response(404, ErrorBody(NotFoundMessage));
      }
    }
  }
}
