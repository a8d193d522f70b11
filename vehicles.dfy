/**
  The Vehicle row: the VIN that keys it and the seven other columns, each
  holding the value the request body supplied for it.
 */
module Vehicles {
  import opened Values
  import opened Sequences

  datatype Vehicle = Vehicle(
    vin: string,
    manufacturerName: Value,
    description: Value,
    horsePower: Value,
    modelName: Value,
    modelYear: Value,
    purchasePrice: Value,
    fuelType: Value)

  /** The body keys create_vehicle requires, in the order it reports the missing ones. */
  const Required: seq<string> :=
    ["vin", "manufacturer_name", "horse_power", "model_name", "model_year", "purchase_price", "fuel_type"]

  /** The columns update_vehicle may set, in the order it assembles them; `vin` is not one. */
  const Mutable: seq<string> :=
    ["manufacturer_name", "description", "horse_power", "model_name", "model_year", "purchase_price", "fuel_type"]

  /** No column is listed twice. */
  lemma MutableDistinct()
    ensures Distinct(Mutable)
  {
    forall j, k | 0 <= j < k < |Mutable| ensures Mutable[j] != Mutable[k] {
      assert |Mutable[j]| != |Mutable[k]| || Mutable[j][0] != Mutable[k][0] || Mutable[j][6] != Mutable[k][6];
    }
  }

  /** The column of `v` called `name`. */
  function Column(v: Vehicle, name: string): Value
    requires name in Mutable
  {
    if name == "manufacturer_name" then v.manufacturerName
    else if name == "description" then v.description
    else if name == "horse_power" then v.horsePower
    else if name == "model_name" then v.modelName
    else if name == "model_year" then v.modelYear
    else if name == "purchase_price" then v.purchasePrice
    else v.fuelType
  }

  /** `SET name = x` on one row: that column changes and no other does. */
  function WithColumn(v: Vehicle, name: string, x: Value): (r: Vehicle)
    requires name in Mutable
    ensures r.vin == v.vin
    ensures Column(r, name) == x
    ensures forall c | c in Mutable && c != name :: Column(r, c) == Column(v, c)
  {
    if name == "manufacturer_name" then v.(manufacturerName := x)
    else if name == "description" then v.(description := x)
    else if name == "horse_power" then v.(horsePower := x)
    else if name == "model_name" then v.(modelName := x)
    else if name == "model_year" then v.(modelYear := x)
    else if name == "purchase_price" then v.(purchasePrice := x)
    else v.(fuelType := x)
  }

  /** Two rows with the same VIN that agree on every column are the same row. */
  lemma SameColumnsSameVehicle(a: Vehicle, b: Vehicle)
    requires a.vin == b.vin
    requires forall c | c in Mutable :: Column(a, c) == Column(b, c)
    ensures a == b
  {
    assert Column(a, "manufacturer_name") == Column(b, "manufacturer_name");
    assert Column(a, "description") == Column(b, "description");
    assert Column(a, "horse_power") == Column(b, "horse_power");
    assert Column(a, "model_name") == Column(b, "model_name");
    assert Column(a, "model_year") == Column(b, "model_year");
    assert Column(a, "purchase_price") == Column(b, "purchase_price");
    assert Column(a, "fuel_type") == Column(b, "fuel_type");
  }

  /** `data.get(key)`: the entry, or None when the key is absent. */
  function Get(m: map<string, Value>, key: string): Value {
    if key in m then m[key] else Null
  }

  /**
    The row the INSERT of create_vehicle writes: the given VIN, and the
    body's value for every other column, null for an absent description.
    Keys of the body that are not columns play no part.
   */
  function NewVehicle(vin: string, m: map<string, Value>): (r: Vehicle)
    requires forall f | f in Required :: f in m
    ensures r.vin == vin
    ensures forall c | c in Mutable :: Column(r, c) == Get(m, c)
  {
    Vehicle(vin, m["manufacturer_name"], Get(m, "description"), m["horse_power"],
            m["model_name"], m["model_year"], m["purchase_price"], m["fuel_type"])
  }

  /**
    The row a partial update of `v` with the body `m` should give: every
    updatable column the body names takes the body's value, every other
    column and the VIN keep theirs.
   */
  function Patched(v: Vehicle, m: map<string, Value>): (r: Vehicle)
    ensures r.vin == v.vin
    ensures forall c | c in Mutable :: Column(r, c) == if c in m then m[c] else Column(v, c)
  {
    Vehicle(
      v.vin,
      if "manufacturer_name" in m then m["manufacturer_name"] else v.manufacturerName,
      if "description" in m then m["description"] else v.description,
      if "horse_power" in m then m["horse_power"] else v.horsePower,
      if "model_name" in m then m["model_name"] else v.modelName,
      if "model_year" in m then m["model_year"] else v.modelYear,
      if "purchase_price" in m then m["purchase_price"] else v.purchasePrice,
      if "fuel_type" in m then m["fuel_type"] else v.fuelType)
  }

  /** The UPDATE statement's `SET f1 = v1, f2 = v2, ...` applied to one row, left to right. */
  function Assigned(v: Vehicle, fields: seq<string>, values: seq<Value>): (r: Vehicle)
    requires |fields| == |values|
    requires forall i :: 0 <= i < |fields| ==> fields[i] in Mutable
    ensures r.vin == v.vin
    decreases |fields|
  {
    if fields == [] then v
    else Assigned(WithColumn(v, fields[0], values[0]), fields[1..], values[1..])
  }

  /** With distinct columns, each assigned column holds its value and the others are untouched. */
  lemma {:induction false} AssignedColumns(v: Vehicle, fields: seq<string>, values: seq<Value>)
    requires |fields| == |values|
    requires forall i :: 0 <= i < |fields| ==> fields[i] in Mutable
    requires Distinct(fields)
    ensures Assigned(v, fields, values).vin == v.vin
    ensures forall i :: 0 <= i < |fields| ==> Column(Assigned(v, fields, values), fields[i]) == values[i]
    ensures forall c | c in Mutable && c !in fields :: Column(Assigned(v, fields, values), c) == Column(v, c)
    decreases |fields|
  {
    if fields != [] {
      var w := WithColumn(v, fields[0], values[0]);
      var rest, restValues := fields[1..], values[1..];
      assert forall j, k :: 0 <= j < k < |rest| ==> rest[j] != rest[k] by {
        forall j, k | 0 <= j < k < |rest| ensures rest[j] != rest[k] {
          assert rest[j] == fields[j + 1] && rest[k] == fields[k + 1];
        }
      }
      AssignedColumns(w, rest, restValues);
      var a := Assigned(v, fields, values);
      assert a == Assigned(w, rest, restValues);
      assert fields[0] !in rest by {
        forall k | 0 <= k < |rest| ensures rest[k] != fields[0] {
          assert rest[k] == fields[k + 1];
        }
      }
      forall i | 0 <= i < |fields|
        ensures Column(a, fields[i]) == values[i]
      {
        if i > 0 {
          assert fields[i] == rest[i - 1] && values[i] == restValues[i - 1];
        }
      }
    }
  }

  /**
    Assigning exactly the updatable columns the body names, each to the
    body's value, gives the patched row.
   */
  lemma AssignedIsPatched(v: Vehicle, m: map<string, Value>, fields: seq<string>, values: seq<Value>)
    requires |fields| == |values| && Distinct(fields)
    requires forall i :: 0 <= i < |fields| ==> fields[i] in Mutable && fields[i] in m && values[i] == m[fields[i]]
    requires forall c | c in Mutable && c in m :: c in fields
    ensures Assigned(v, fields, values) == Patched(v, m)
  {
    AssignedColumns(v, fields, values);
    var a := Assigned(v, fields, values);
    var p := Patched(v, m);
    forall c | c in Mutable
      ensures Column(a, c) == Column(p, c)
    {
      if c in m {
        var i :| 0 <= i < |fields| && fields[i] == c;
        assert Column(a, fields[i]) == values[i];
      }
    }
    SameColumnsSameVehicle(a, p);
  }
}
