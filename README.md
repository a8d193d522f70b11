# Vehicle service core, modelled in Dafny

A model of the Vehicle CRUD service: a Flask application whose five
routes read and write a PostgreSQL table of vehicles keyed by VIN, and
the database bootstrap that creates that table and installs the trigger
that lowercases every VIN written.

The model has these parts:

- `values.dfy` (module `Values`): the Python objects a handler sees after
  `request.get_json()`: None, bool, int, float, str, list and dict, plus a
  Decimal stored back into the body. It defines the Python operations the
  handlers apply to them: `in`, subscription, item assignment, truth value,
  `isinstance(x, int)` (true for bool as well) and `Decimal(x)`.
- `decimals.dfy` (module `Decimals`): Python's `decimal.Decimal` values
  and the numeric-string grammar `Decimal(str)` accepts, after surrounding
  whitespace is stripped and every underscore dropped. It gives a
  canonical text of its own for every Decimal and proves that the text
  reads back.
- `text.dfy` (module `Text`): `str.strip`, `str.split` on one character,
  `join`, `str.replace` of one character by nothing, substring `in` and
  SQL `LOWER` on ASCII letters.
- `vehicles.dfy` (module `Vehicles`): the Vehicle row, the required and
  updatable column lists, and the partial-update reference `Patched`.
- `database.dfy` (module `Database`): `create_vehicle_table`'s loop over
  the `;`-separated pieces of the DDL script, and the
  `vin_case_insensitive` trigger.
- `routes.dfy` (module `Routes`): the checks each write route runs, in
  their order and with their exact messages and statuses. It has the
  update route's column loop as a method proved equal to a recursive
  definition, and each route as a transition over the table: pure
  `...Outcome` functions, and the class `VehicleTable` whose methods
  update a `rows` map in place and are proved equal to those functions.
- `scenarios.dfy` (module `Scenarios`): the request bodies the project's
  tests send, run through the routes.

The table is a map from VIN to row. Its invariant `WellKeyed` says every
row is stored under its own VIN and every stored VIN is lowercase, which
is what the trigger guarantees. Every route keeps this invariant.

Where the code departs from what its API suggests, the model follows the code:

- A body that is not a JSON object is not refused up front; it is run
  through the same checks. Python's `in` tests list elements and
  substrings, and raises a TypeError on null, numbers and booleans.
  - Create: null, a number or a boolean gets the outer handler's 400. A
    list or string that lacks some field names gets 422 listing them
    (`["vin"]` lists the six others). One that holds them all reaches
    `data['model_year']`, which raises, so it gets the outer 400.
  - Update: a falsy body (null, false, 0, `""`, `[]`, `{}`) gets 400 "No
    data provided for update". A non-zero number or true gets the outer
    400. A list or string that holds `model_year`, `horse_power` or
    `purchase_price` gets the outer 400 at its subscription. Any other
    list or string gets 404 on an unknown VIN. On a stored VIN it gets the
    outer 400 if it holds an updatable column's name, and 422 "No valid
    fields provided for update" otherwise.
- A create with a VIN holding capitals stores the row under the lowercase
  VIN. The create then reads it back with the VIN as sent, so it answers
  200 with `{"Vehicle": null}`, and a read with that VIN misses (400).
- The update's "no data" check is Python truthiness. The VIN is looked up
  before the "no valid fields" check, so an unknown VIN answers 404 even
  when the body names no updatable column.
- A read of an unknown VIN answers 400, not 404.
- `Decimal` of null or of an object raises a TypeError, which the price
  handler does not catch, so it gives 400. A string outside the grammar
  gives 422, and so does a list in the model (see Left out for the lists
  Python reads as a `(sign, digits, exponent)` tuple). A string with underscores, such as `"1_000"`,
  is read without them, and a float is read exactly from its ratio in
  lowest terms (`2.0` gives `Decimal('2')`).

## Model

| member | source | states |
|---|---|---|
| Values.Truthy | api/routes.py:164 | `not data` holds for None, False and 0, and a dict or list is truthy exactly when it is non-empty |
| Values.IsPyInt | api/routes.py:100-106 | `isinstance(v, int)` accepts True and False and refuses floats, Decimals and strings |
| Values.PyIn | api/routes.py:93 | `key in data` raises a TypeError exactly on a non-container; on a dict it is key membership |
| Values.PyIndex | api/routes.py:100 | `data[key]` succeeds exactly on a dict holding the key, giving its value; KeyError on a dict without it, TypeError otherwise |
| Values.PySetItem | api/routes.py:114 | item assignment succeeds exactly on a dict and yields the dict with that key updated |
| Values.ToDecimal | api/routes.py:114 | `Decimal(v)` raises a TypeError exactly for null and objects; it fails with InvalidOperation/ValueError exactly for lists and for strings the grammar refuses |
| Values.FloatDecimalExact | api/routes.py:114 | `Decimal(f)` of a finite float has the float's sign and exact value, with the fewest fraction digits (odd coefficient or exponent 0); an infinity stays an infinity and NaN gives a quiet NaN |
| Values.FloatSpellingIrrelevant | api/routes.py:114 | `Decimal(f)` depends only on the float's value, not on how its binary ratio is written |
| Values.NumericStringMatchesNumber | api/routes.py:118 | a price sent as an integer's decimal string converts to the same Decimal as the integer itself |
| Decimals.ParseDecimalText | api/routes.py:114 | the empty text is not a number |
| Decimals.BlankIsNotANumber | api/routes.py:114 | a text that is blank once stripped of surrounding whitespace and of every underscore (`" _ "`) is not a number |
| Decimals.GroupedDigits | api/routes.py:114 | an underscore between two groups of digits is dropped: `1_000` reads as the integer 1000 |
| Decimals.DecimalTextRoundTrip | api/routes.py:114 | every Decimal (finite, infinite, quiet or signalling NaN, either sign) is read back from the model's canonical text |
| Decimals.UnsignedTextRoundTrip | api/routes.py:114 | the text after the sign reads back as the value, for each kind of Decimal |
| Decimals.ParseSigned | api/routes.py:114 | a leading `-` makes the value negative; no sign leaves it non-negative |
| Decimals.IntTextParses | api/routes.py:114 | Python's text of an int reads as that int with exponent 0 |
| Decimals.NotANumber | api/routes.py:114-115 | a trimmed text that, with its underscores dropped, starts with an ASCII character that is no sign, digit or point, and is no special name, is refused |
| Decimals.WordIsNotANumber | api/routes.py:114-115 | a word starting with a lowercase letter other than `n` and `s` and holding a letter that `infinity` lacks is refused, whatever underscores it holds |
| Text.Remove | api/routes.py:114 | `replace('_', '')` leaves no underscore and shortens the text by the number of underscores |
| Text.RemoveMembers | api/routes.py:114 | a character survives the removal exactly when it occurs and is not the one removed |
| Text.RemoveAbsent | api/routes.py:114 | removing a character that does not occur changes nothing |
| Text.RemoveConcat | api/routes.py:114 | removal works piece by piece over a concatenation |
| Text.StripSlice | db/database.py:44 | `strip()` keeps a slice of the text and only whitespace is cut on either side |
| Text.StripUnchanged | db/database.py:44 | `strip()` leaves a text without surrounding whitespace unchanged |
| Text.Split | db/database.py:42 | `split(';')` yields at least one piece and no piece holds the separator |
| Text.JoinSplit | db/database.py:42 | joining the pieces of `split` with the separator gives back the text |
| Text.SplitJoin | db/database.py:42 | splitting a join of separator-free pieces gives back the pieces |
| Text.SplitLength | db/database.py:42 | `split` yields one piece more than the separator occurs |
| Text.Lower | db/database.py:64 | `LOWER` keeps the length and lowers each character, leaving no capital |
| Text.LowerIdempotent | db/database.py:64 | lowering twice is lowering once |
| Text.LowerFixedPoint | db/database.py:64 | a text is its own lowercase form exactly when it has no capital |
| Text.ContainsOccurs | api/routes.py:93 | substring `in` holds exactly when the needle occurs at some offset |
| Database.CreateVehicleTable | db/database.py:42-46 | the loop executes exactly `Statements(script)`: the stripped pieces of `split(';')` that are not empty |
| Database.StatementsInOrder | db/database.py:42-46 | each executed statement is the stripped form of a piece, in the pieces' order, and every piece that strips to something is executed |
| Database.StatementsAreTrimmed | db/database.py:44-45 | every executed statement is non-empty and has no surrounding whitespace |
| Database.StatementsHaveNoSemicolon | db/database.py:42-46 | no executed statement contains `;` |
| Database.StatementCountBound | db/database.py:42-46 | at most one statement more than the script has semicolons is executed |
| Database.SingleStatement | db/database.py:42-46 | a script without `;` executes its stripped text once, or nothing if that is empty |
| Database.VinCaseInsensitive | db/database.py:61-66 | the trigger lowers every character of the VIN and changes no other column |
| Database.VinCaseInsensitiveIdempotent | db/database.py:64 | firing the trigger on its own output changes nothing |
| Database.VinKeptIffLowercase | db/database.py:64 | the trigger keeps a VIN exactly when it has no capital |
| Vehicles.MutableDistinct | api/routes.py:191 | the update loop's column list names no column twice |
| Vehicles.WithColumn | api/routes.py:200-204 | `SET name = x` changes that column to `x`, and no other column or the VIN |
| Vehicles.NewVehicle | api/routes.py:124-136 | the inserted row has the given VIN and the body's value for each column, null for an absent description |
| Vehicles.Patched | api/routes.py:189-204 | the partial-update reference: each updatable column the body names takes its value, the rest and the VIN are kept |
| Vehicles.AssignedColumns | api/routes.py:200-204 | with distinct columns, each assigned column holds its value and every other column is kept |
| Vehicles.AssignedIsPatched | api/routes.py:189-204 | assigning exactly the updatable columns the body names gives the patched row |
| Routes.MissingFields | api/routes.py:89-93 | raises exactly on a non-container body; otherwise a subsequence of the required names holding exactly those not `in` the body |
| Routes.NotInteger | api/routes.py:100 | on an object: the key is present and its value is neither int nor bool; raises on non-containers and on lists/strings containing the key |
| Routes.ConvertPrice | api/routes.py:112-119 | an object without a price goes on unchanged; an unreadable price gives 422; null/object prices raise TypeError; otherwise the price is replaced by its Decimal |
| Routes.ValidateCreate | api/routes.py:89-119 | a body that is not a container is answered by the outer handler's 400 with a TypeError |
| Routes.CreateAcceptsObjects | api/routes.py:89-119 | only an object holding every required name passes the create checks, and what goes on is such an object too |
| Routes.CreateReportsMissing | api/routes.py:93-98 | an object lacking required names gets 422 with exactly those names, in the declared order |
| Routes.MissingAll | api/routes.py:93 | an object holding none of the names lacks all of them, in order |
| Routes.MissingNone | api/routes.py:93 | an object holding all the names lacks none |
| Routes.CreateCheckOrder | api/routes.py:100-119 | with all names present: model_year, then horse_power, then the price decide the answer, each with its own message; otherwise the body goes on with a Decimal price |
| Routes.CheckCreateRequest | api/routes.py:84-87 | a non-JSON request gets 400 with its message; malformed JSON gets the outer 400; an accepted body is an object holding every required name |
| Routes.ValidateUpdate | api/routes.py:164-177 | a falsy body gets 400; then model_year, horse_power and the price are checked in that order, each only when present |
| Routes.CheckUpdateRequest | api/routes.py:159-165 | a non-JSON request gets 400; malformed JSON gets the outer 400; an accepted body is truthy |
| Routes.AssembleUpdate | api/routes.py:189-194 | the column loop builds exactly the assembly the recursive definition `Assemble` gives |
| Routes.AssemblyFailure | api/routes.py:191-194 | the loop raises exactly when some column's `in` or subscription raises, always with a TypeError |
| Routes.AssemblySelects | api/routes.py:191-194 | a completed loop lists, in order, exactly the columns the body holds, each with the body's value |
| Routes.AssemblyDistinct | api/routes.py:191-194 | distinct columns give a `SET` clause that names no column twice |
| Routes.AssemblyStopsAtFailure | api/routes.py:191-194 | once a prefix of the columns raises, the whole loop raises with that exception |
| Routes.AssemblyOnObject | api/routes.py:191-194 | on an object the loop never raises and picks exactly the updatable columns the object names |
| Routes.AssemblyPatches | api/routes.py:189-204 | on an object, assigning the assembled columns gives the patched row |
| Routes.MixedCaseVinMisses | api/routes.py:62 | in a table the trigger keeps lowercase, an exact lookup with a capital in the VIN finds nothing |
| Routes.GetOutcome | api/routes.py:54-75 | 200 with the row stored under exactly that VIN, otherwise 400 "Vehicle not found" |
| Routes.InsertVehicle | api/routes.py:122-147 | the insert keeps the table's invariant and every existing row; a new row only appears under the lowercased string VIN, and only with a 200 (see Left out for the list VINs psycopg2 sends as text) |
| Routes.InsertAdds | api/routes.py:124-139 | a string VIN not yet stored adds exactly one row under its lowercase form; the answer carries the row only when the VIN was already lowercase |
| Routes.CreateOutcome | api/routes.py:78-150 | create keeps the invariant, keeps every existing row, and changes the table only when it answers 200 |
| Routes.ApplyUpdate | api/routes.py:189-215 | the update keeps the invariant and the set of VINs, touches no other row, and changes the table only when it answers 200 |
| Routes.UpdateOutcome | api/routes.py:153-218 | the update route keeps the invariant and the set of VINs, and touches no row but the path VIN's |
| Routes.DeleteOutcome | api/routes.py:221-239 | 204 exactly when the VIN is stored, which removes that row and nothing else; otherwise 404 "Vehicle not found" |
| Routes.CreateMissingFields | api/routes.py:93-98 | a create lacking names answers 422 with exactly those names, in order, and stores nothing |
| Routes.CreateRejected | api/routes.py:93-119 | a create whose body fails a check answers as that check says and stores nothing |
| Routes.CreateAccepted | api/routes.py:112-136 | a create passing its checks goes to the insert with the body, its price as a Decimal |
| Routes.CreateInserts | api/routes.py:122-147 | a fresh string VIN adds one row under its lowercase form with the body's columns and the Decimal price; the answer is that row, or null when the VIN had capitals |
| Routes.InsertedColumns | api/routes.py:127-136 | the inserted row holds the converted price and the body's value for every other column |
| Routes.CreateDuplicate | api/routes.py:124-150 | a VIN whose lowercase form is stored answers the outer 400 and leaves the table as it was |
| Routes.CreateNonStringVin | api/routes.py:137-150 | a VIN that is not a string answers the outer 400 and stores nothing |
| Routes.CreateWithCapitals | api/routes.py:137-139 | a VIN with capitals answers 200 with a null vehicle; reading it as sent misses, reading its lowercase form finds it |
| Routes.UpdateFalsyBody | api/routes.py:164-165 | any falsy body (null, false, 0, an empty string, list or object) answers 400 "No data provided for update" and changes nothing |
| Routes.UpdateEmptyBody | api/routes.py:164-165 | an empty object answers 400 "No data provided for update" and changes nothing |
| Routes.UpdateTypeChecksFirst | api/routes.py:166-177 | a failing type check answers with its error, stored VIN or not, and changes nothing |
| Routes.UpdateNotFound | api/routes.py:181-187 | a body passing the checks on an unknown VIN answers 404 and creates no row |
| Routes.UpdateExistenceFirst | api/routes.py:181-197 | a body naming no updatable column answers 404 on an unknown VIN and 422 on a stored one |
| Routes.UpdatePatches | api/routes.py:189-215 | an update naming an updatable column sets exactly the columns the body names, keeps the rest, and answers the patched row |
| Routes.DeleteTwice | api/routes.py:229-237 | deleting a stored VIN answers 204; deleting it again answers 404 |
| Routes.VehicleTable.GetAllVehicles | api/routes.py:32-51 | 200 with every stored row exactly once |
| Routes.VehicleTable.GetSpecificVehicle | api/routes.py:54-75 | answers as `GetOutcome` on the current table |
| Routes.VehicleTable.CreateVehicle | api/routes.py:78-150 | keeps the invariant; answer and new table are those of `CreateOutcome` |
| Routes.VehicleTable.UpdateVehicle | api/routes.py:153-218 | keeps the invariant; answer and new table are those of `UpdateOutcome` |
| Routes.VehicleTable.DeleteVehicle | api/routes.py:221-239 | keeps the invariant; answer and new table are those of `DeleteOutcome` |
| Scenarios.MockBodyAccepted | tests/test_routes.py:49-57 | the tests' vehicle body passes every create check, its price read as the Decimal 10000 |
| Scenarios.CreateThenRead | tests/test_routes.py:45-59 | creating the body with a lowercase fresh VIN answers 200 with that VIN, and a read returns the same answer |
| Scenarios.MixedCaseVin | api/routes.py:137-139 | a VIN sent with capitals: 200 with null, a miss as sent, a hit in lowercase |
| Scenarios.ReadInCapitals | tests/test_routes.py:38-43 | in a table whose VINs are lowercase, reading `TEST1` misses with 400 |
| Scenarios.DuplicateVin | api/routes.py:124-150 | after a create, a create with any capitalisation of the same VIN answers 400 and changes nothing |
| Scenarios.OnlyVin | tests/test_routes.py:61-69 | a body with only a VIN answers 422 listing the six other names in order |
| Scenarios.YearAsString | tests/test_routes.py:75-85 | `model_year` as a string answers 422 with its message |
| Scenarios.HorsePowerAsString | tests/test_routes.py:87-97 | `horse_power` as a string answers 422 with its message |
| Scenarios.PriceUnreadable | api/routes.py:112-119 | any price text outside the grammar answers 422 with the price message |
| Scenarios.UnreadablePriceRefused | api/routes.py:112-119 | the tests' body with a price the model cannot read as a Decimal (a list, or a string outside the ASCII decimal grammar) answers 422 with the price message and changes nothing; see Left out for the two forms Python reads |
| Scenarios.GroupedPrice | api/routes.py:114 | the price text `"1_000"` converts to the same Decimal as the number 1000 |
| Scenarios.PriceNotANumber | tests/test_routes.py:99-110 | the price `invalid_purchase_price` answers 422 with the price message |
| Scenarios.InvalidPriceText | tests/test_routes.py:105 | `invalid_purchase_price` is not a number |
| Scenarios.UpdateBodyAccepted | tests/test_routes.py:116-123 | the tests' update body passes every update check |
| Scenarios.UpdateStored | tests/test_routes.py:112-125 | updating the stored `test1` answers 200 with the new manufacturer name |
| Scenarios.UpdateUnknown | tests/test_routes.py:127-140 | the same update of an unknown VIN answers 404 and changes nothing |
| Scenarios.UpdateHorsePowerAsString | tests/test_routes.py:142-156 | an update with `horse_power` as a string answers 422, stored VIN or not |

## Left out

- Flask plumbing is not modelled: routing, `jsonify`, the `Response` objects, the `index` route listing the routes, and `app.py`. A response is a status and a payload value.
- JSON serialisation is not modelled. This covers `decimal_serializer`, the float it turns a Decimal into, and `json.dumps` formatting. Payloads carry the model's values.
- The psycopg2 connection lifecycle is not modelled: `connect_db`, cursors, commits and closes, and failures to connect. The connection left open by the "no valid fields" return of update_vehicle is one of these. The table is always reachable, and each route is one atomic step.
- Concurrency between requests is not modelled; routes are applied one at a time.
- PostgreSQL's coercion of each column's value to its SQL type is not modelled, nor the adaptation errors psycopg2 raises for values it cannot send. A VIN that is not a string is the one such failure modelled, as a store error before the commit; Routes.InsertVehicle below names the list VINs that psycopg2 does send as text.
- Values.ToDecimal: a JSON list is always read as a failed `Decimal(...)` (ValueError, 422). CPython's tuple form `Decimal((sign, digits, exponent))` also accepts a list, and the model does not have that form. A list of length other than 3 does raise ValueError (422). A well-formed three-element list is read, so `[0, [1, 0], 0]` is `Decimal('10')`. A three-element list whose sign, exponent or a digit is an integer that does not fit a C long (`[1, [], 9223372036854775808]`) raises OverflowError, which the price handler does not catch, so Python answers the outer 400. The same gap is in every member that reads a list price: Routes.ConvertPrice, Routes.CreateCheckOrder, Routes.ValidateUpdate, Routes.UpdateTypeChecksFirst and Scenarios.UnreadablePriceRefused.
- Text.Lower: SQL `LOWER` is modelled on ASCII letters only; other scripts' case mappings are not.
- A JSON float is modelled as the exact binary fraction it denotes; its digit-by-digit reading from JSON text is not.
- Values.ToDecimal: digits other than ASCII ones are not modelled. Python's `Decimal(str)` reads every Unicode decimal digit (`"٥"` is 5), where the model refuses them. The model's exponent is also unbounded, where CPython's exact conversion refuses exponents beyond its implementation limit (about 10^18). Both limits carry over to every member below that reads a price string.
- Decimals.ParseDecimalText: same two limits as Values.ToDecimal (ASCII digits only, unbounded exponent).
- Routes.ConvertPrice: a price string with non-ASCII digits is answered 422, and one with an exponent beyond CPython's limit is accepted, as for Values.ToDecimal; a three-element list is answered 422 where Python reads it or, for an integer beyond a C long, answers the outer 400.
- Routes.CreateCheckOrder: its price branch has the two string limits of Values.ToDecimal and answers 422 to every three-element list, which Python reads or, for an integer beyond a C long, sends to the outer 400.
- Routes.ValidateUpdate: its price branch has the two string limits of Values.ToDecimal and answers 422 to every three-element list, which Python reads or, for an integer beyond a C long, sends to the outer 400.
- Routes.UpdateTypeChecksFirst: its price branch has the two string limits of Values.ToDecimal and answers 422 to every three-element list, which Python reads or, for an integer beyond a C long, sends to the outer 400.
- Scenarios.PriceUnreadable: a price text with non-ASCII digits meets its requires, yet Python reads it; the limit of Values.ToDecimal.
- Scenarios.UnreadablePriceRefused: its requires admits three kinds of price on which Python does not answer this 422. A well-formed three-element list is read by the tuple form (`[0, [1, 0], 0]` is `Decimal('10')`, so the real handler stores the row). A three-element list with an integer beyond a C long (`[1, [], 9223372036854775808]`) raises OverflowError, answered with the outer 400. A string of non-ASCII decimal digits (`"٥"` is 5) is read. For every list of length other than 3, and every other string outside the grammar, the 422 is Python's too.
- Routes.InsertVehicle: every VIN that is not a string is a store error here. psycopg2 sends an empty list as the text `'{}'` and a list of nulls as `'{NULL,…}'`, which the VIN column stores. For `[]` the re-read finds the row, and the create commits and answers 200 with it. For `[null]` the row is stored under `{null}`, the re-read misses, and the create answers 200 with a null vehicle. The model answers the outer 400 and stores nothing for both.
- Routes.CreateNonStringVin: its requires admits the empty list and lists of nulls, which Python stores with a 200 as Routes.InsertVehicle describes; for those its 400 is the model's answer only.
- Routes.VehicleTable.GetAllVehicles: does not model the row order of `SELECT *`, which the table does not fix; it promises every row once, in some order.
- The bootstrap is not modelled: `create_database`, `init_db`, reading the DDL file, `load_csv_to_database` and environment configuration. Only the statement loop of `create_vehicle_table` and the trigger's effect are modelled. A statement is recorded as executed; SQL execution itself is not modelled.
- Database.CreateVehicleTable: does not model the `except` that prints and stops the loop when a statement fails; every statement is assumed to run.
