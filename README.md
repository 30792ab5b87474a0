# Vehicle CRUD service: validation, record store and response mapping

This project models the decision logic of a small Spring service that keeps vehicle records
keyed by their VIN (Vehicle Identification Number), and proves properties of that model in
Dafny. The model has three parts, one per source file:

- `vehicle.dfy` (module `VehicleModel`): the `Vehicle` record and its Bean Validation
  constraints. Every field is nullable, as in the Java bean. `Validate` returns one field
  error per violated constraint. It checks every field and never stops at the first failure.
  "Blank" means what `@NotBlank` means: nothing is left after `String.trim()`, which strips
  every character up to U+0020.
- `vehicle_dao.dfy` (module `VehicleStore`): the `vehicle` table as a `map<string, Vehicle>`
  keyed by VIN. The five DAO operations are pure functions on that map (`Find`, `Insert`,
  `Update`, `Delete`, and the listing predicate `IsListing`). The class `VehicleDAO` holds
  the map in a field and performs the same check-then-write sequences in place. A ghost call
  log records each call the controller makes, as a mock would. A write that breaks a column
  declaration (`@Column`: NOT NULL, VARCHAR(17) VIN, VARCHAR(50) fuel type, default length
  255, DECIMAL(10, 2) price) is refused, which stands for the database exception.
- `vehicle_controller.dfy` (module `VehicleApi`): the five handlers, the two exception
  handlers, and the framework's binding step: parse the body, then validate it, then run the
  handler. `Respond` is the whole pipeline for one request as a function of the table. The
  class `VehicleController` performs it over a `VehicleDAO`.
- `wrappers.dfy` (module `Wrappers`): `Option`, which stands for Java's `null`.

Behaviour kept as the code has it:

- `updateVehicle` checks whether the payload's VIN is stored, not the path VIN. So a payload
  carrying the VIN of the row it targets is always answered with 422 "Vin not found".
- A duplicate insert returns null, and POST still answers 201 with an empty body.
- GET of a missing VIN answers 422, although `VehicleControllerTest.java:187-188` expects 404.
- `handleValidationError` builds its map with `Collectors.toMap`, which throws on a repeated
  property. A string field that is blank and longer than its bound breaks two constraints at
  once, so no 422 is produced and the exception escapes the controller (`Escaped`).
- Validation only asks that the price be present, so a valid record whose price has more
  than eight integer digits reaches the INSERT or UPDATE, which throws.

## Model

| member | source | states |
|---|---|---|
| VehicleModel.FieldViolations | src/main/java/com/apollo/model/Vehicle.java:14-50 | every error reported for a field's annotations names that field |
| VehicleModel.Validate | src/main/java/com/apollo/model/Vehicle.java:14-50 | every error validation reports is a violation of one field's own annotations, reported under that field's property name |
| VehicleModel.ValidateErrorsOn | src/main/java/com/apollo/model/Vehicle.java:14-50 | the errors validation reports against a field are exactly the violations of that field's own annotations |
| VehicleModel.FieldViolationsIff | src/main/java/com/apollo/model/Vehicle.java:14-50 | a field has no violation iff it is acceptable: vin non-null, non-blank and at most 17 chars; manufacturer and model name non-blank and at most 255; description non-blank, unbounded; horse power non-null and at least 1; model year and price non-null only; fuel type non-blank and at most 50 |
| VehicleModel.ValidateFieldIndependent | src/main/java/com/apollo/model/Vehicle.java:14-50 | the errors reported against a field depend on that field's value alone, and are empty iff the field is acceptable |
| VehicleModel.ValidateNamesBadFields | src/main/java/com/apollo/model/Vehicle.java:14-50 | validation names a property iff its value breaks one of its constraints |
| VehicleModel.ValidIffNoErrors | src/main/java/com/apollo/model/Vehicle.java:14-50 | a record produces no error at all iff every field is acceptable |
| VehicleModel.BlankAndTooLongReportedTwice | src/main/java/com/apollo/model/Vehicle.java:14-50 | a string field that is blank and longer than its @Size bound (vin 17; manufacturer and model name 255; fuel type 50) is reported twice, once by @NotBlank and once by @Size |
| VehicleModel.FieldViolatedTwiceIff | src/main/java/com/apollo/model/Vehicle.java:14-50 | no field breaks more than two constraints, and a field breaks two iff it is blank and over its bound |
| VehicleModel.RepeatedIffBlankOverlong | src/main/java/com/apollo/model/Vehicle.java:14-50 | validation reports some property twice iff some string field is blank and over its bound; no other value (a null horse power, say) gives a property two errors |
| VehicleStore.ValidFitsColumns | src/main/java/com/apollo/model/Vehicle.java:14-50 | a record that passes validation fits every column declaration iff its price fits DECIMAL(10, 2): validation only asks that the price be present, so the database refuses exactly the over-large prices |
| VehicleStore.QueryAll | src/main/java/com/apollo/dao/VehicleDAO.java:35-38 | the query returns the stored rows, each exactly once, as many as there are keys, in no promised order |
| VehicleStore.Find | src/main/java/com/apollo/dao/VehicleDAO.java:40-48 | lookup answers null iff the VIN is null or not a key, and in a well-formed table the row found carries the VIN asked for and fits the columns |
| VehicleStore.FindIff | src/main/java/com/apollo/dao/VehicleDAO.java:40-48 | lookup by VIN answers null iff no row has that key, and otherwise that very row |
| VehicleStore.InsertRefusesDuplicate | src/main/java/com/apollo/dao/VehicleDAO.java:50-54 | inserting a stored VIN answers null and leaves the table unchanged |
| VehicleStore.InsertAddsExactlyOne | src/main/java/com/apollo/dao/VehicleDAO.java:55-66 | inserting a fresh VIN adds exactly that key, keeps every other row, and answers a record equal to the input in all eight fields |
| VehicleStore.InsertThenGet | src/main/java/com/apollo/dao/VehicleDAO.java:50-67 | a valid record inserted under a fresh VIN is read back unchanged, unless its price overflows the column, in which case nothing is stored |
| VehicleStore.Insert | src/main/java/com/apollo/dao/VehicleDAO.java:50-67 | an insert leaves the table unchanged iff it does not answer the input record; when it does, the VIN was fresh, the record fits the columns and exactly that key was added; it answers null iff the VIN is already stored; a refusal means the record breaks a column declaration |
| VehicleStore.Update | src/main/java/com/apollo/dao/VehicleDAO.java:69-87 | an update never adds or removes a row and never touches a row other than the path row; a record it answers is the path row read back, carrying the path VIN; if it changed the table it answers that row; a refusal means the path row exists and the payload breaks a non-key column |
| VehicleStore.Delete | src/main/java/com/apollo/dao/VehicleDAO.java:89-92 | delete leaves exactly the keys other than the VIN, each with its row unchanged |
| VehicleStore.InsertTwiceKeepsFirst | src/main/java/com/apollo/dao/VehicleDAO.java:50-54 | a second insert with the same VIN answers null and the first row stays |
| VehicleStore.UpdateRefusedWhenPayloadVinStored | src/main/java/com/apollo/dao/VehicleDAO.java:69-73 | an update whose payload VIN is stored answers null and changes nothing, also when it equals the path VIN |
| VehicleStore.UpdateOverwritesRow | src/main/java/com/apollo/dao/VehicleDAO.java:75-86 | otherwise, when the path VIN is stored, its seven non-key fields are replaced, its VIN and all other rows kept, and the row read back is answered |
| VehicleStore.UpdateMissingRow | src/main/java/com/apollo/dao/VehicleDAO.java:75-86 | when neither the payload VIN nor the path VIN is stored, nothing changes and null is answered |
| VehicleStore.DeleteIdempotent | src/main/java/com/apollo/dao/VehicleDAO.java:89-92 | delete removes exactly the key if present, leaves the table alone otherwise, and twice equals once |
| VehicleStore.WritesPreserveWellFormed | src/main/java/com/apollo/dao/VehicleDAO.java:50-92 | insert, update and delete keep every row under its own VIN and within its columns |
| VehicleStore.VehicleDAO.GetAllVehicles | src/main/java/com/apollo/dao/VehicleDAO.java:35-38 | answers a listing of the table and records one call |
| VehicleStore.VehicleDAO.GetVehicleByVin | src/main/java/com/apollo/dao/VehicleDAO.java:40-48 | answers null iff the VIN is absent, else the stored row; the table is untouched |
| VehicleStore.VehicleDAO.InsertVehicle | src/main/java/com/apollo/dao/VehicleDAO.java:50-66 | the new table and the answer are those of the check-then-insert, and the table stays well formed |
| VehicleStore.VehicleDAO.UpdateVehicle | src/main/java/com/apollo/dao/VehicleDAO.java:69-86 | the new table and the answer are those of the payload-VIN check followed by the update of the path row |
| VehicleStore.VehicleDAO.DeleteVehicle | src/main/java/com/apollo/dao/VehicleDAO.java:89-92 | the new table is the old one without the key |
| VehicleApi.ToMapMeaning | src/main/java/com/apollo/controller/VehicleController.java:80-86 | toMap succeeds iff no property is reported twice, and then maps exactly the reported properties to their messages, with "Invalid value" for a missing message |
| VehicleApi.ToMap | src/main/java/com/apollo/controller/VehicleController.java:80-86 | when toMap succeeds, its map has one entry per field error |
| VehicleApi.Admit | src/main/java/com/apollo/controller/VehicleController.java:36-59 | the binding step lets a body through to the handler iff it parses and the record is valid, and then passes that very record |
| VehicleApi.Respond | src/main/java/com/apollo/controller/VehicleController.java:30-90 | a request makes at most one DAO call; it makes none iff a POST or PUT body is rejected by binding, and then the table is unchanged; GET requests never change the table |
| VehicleApi.VehicleController.HandleValidationError | src/main/java/com/apollo/controller/VehicleController.java:75-90 | answers 422 with "Validation failed" and the field map iff no property repeats; otherwise the toMap exception escapes |
| VehicleApi.VehicleController.GetAllVehicles | src/main/java/com/apollo/controller/VehicleController.java:30-34 | answers 200 with a listing of the table |
| VehicleApi.VehicleController.CreateVehicle | src/main/java/com/apollo/controller/VehicleController.java:36-40 | a validated record is inserted; the answer is 201 with what the insert answered, and the INSERT's exception escapes exactly when the VIN is fresh and the price overflows its column |
| VehicleApi.VehicleController.GetVehicleByVin | src/main/java/com/apollo/controller/VehicleController.java:42-50 | answers 422 "Vin not found" iff the VIN is absent, else 200 with the row |
| VehicleApi.VehicleController.UpdateVehicle | src/main/java/com/apollo/controller/VehicleController.java:52-59 | a validated record goes to the DAO update; null becomes 422 "Vin not found", a record becomes 200, and the UPDATE's exception escapes exactly when the payload VIN is not stored, the path VIN is, and the price overflows |
| VehicleApi.VehicleController.DeleteVehicle | src/main/java/com/apollo/controller/VehicleController.java:61-65 | deletes the key and answers 204 with no body |
| VehicleApi.VehicleController.Serve | src/main/java/com/apollo/controller/VehicleController.java:30-90 | serving a request changes the table, logs the DAO calls and answers as the pipeline function says: parse, validate, then run the handler |
| VehicleApi.ListAnswersAllRows | src/main/java/com/apollo/controller/VehicleController.java:30-34 | GET /vehicle answers 200 with every stored row once, possibly none, and changes nothing |
| VehicleApi.MalformedPayloadAnswers400 | src/main/java/com/apollo/controller/VehicleController.java:67-73 | an unparsable POST or PUT body answers exactly 400 with "error" "Invalid JSON format" and the fixed "message", the table unchanged and the DAO never called |
| VehicleApi.InvalidPayloadNeverReachesStore | src/main/java/com/apollo/controller/VehicleController.java:75-90 | a body failing validation never reaches the DAO; the answer is 422 "Validation failed" whose error map names exactly the bad fields, each with the message of its error ("Invalid value" when it has none), or an escaped exception iff a property is reported twice |
| VehicleApi.MissingFieldsAllReported | src/main/java/com/apollo/controller/VehicleController.java:75-90 | a body missing both manufacturer name and horse power never reaches the DAO, and whenever it is answered the answer is 422 with both fields in the error map |
| VehicleApi.BlankOverlongFieldEscapes | src/main/java/com/apollo/controller/VehicleController.java:80-86 | a body with a string field that is blank and over its bound makes toMap throw: no 422, no DAO call, table unchanged |
| VehicleApi.CreateAnswers201 | src/main/java/com/apollo/controller/VehicleController.java:36-40 | a valid POST answers 201 with the stored record for a fresh VIN, and with an empty body and nothing written for a stored one; a fresh record whose price overflows DECIMAL(10, 2) makes the INSERT throw, and nothing is stored |
| VehicleApi.GetAnswersNotFoundIffAbsent | src/main/java/com/apollo/controller/VehicleController.java:42-50 | GET /vehicle/{vin} answers 422 "Vin not found" iff the VIN is absent, else 200 with the row |
| VehicleApi.UpdateAnswersNotFoundIff | src/main/java/com/apollo/controller/VehicleController.java:52-59 | a valid PUT answers 422 "Vin not found" iff the payload VIN is stored or the path VIN is not, and then changes nothing; otherwise it answers 200 with the path row carrying the payload's other fields, unless the price overflows and the UPDATE throws with nothing changed |
| VehicleApi.DeleteAlwaysAnswers204 | src/main/java/com/apollo/controller/VehicleController.java:61-65 | DELETE answers 204 with no body whether or not the row existed, and repeating it changes nothing |
| VehicleApi.RespondKeepsStoreValid | src/main/java/com/apollo/controller/VehicleController.java:36-59 | serving any request keeps every stored record valid, since records are written only after validation |
| VehicleApi.EscapesIff | src/main/java/com/apollo/controller/VehicleController.java:67-90 | against a well-formed table, a request escapes the controller in exactly two ways: toMap's IllegalStateException iff a bound body has a string field blank and over its bound, and the database's exception iff a validated record with an overflowing price reaches an INSERT or UPDATE |
| VehicleApi.HighlanderValid | src/test/java/com/apollo/controller/VehicleControllerTest.java:62-66 | the test fixture record passes validation |
| VehicleApi.CreateGetDeleteGet | src/main/java/com/apollo/controller/VehicleController.java:36-65 | POST of a fresh record answers 201, GET then answers 200 with it, DELETE answers 204, and a further GET answers 422 "Vin not found" |

## Left out

- Spring wiring, request routing and dependency injection: `Serve` stands for the dispatch, and the controller is built with the DAO it is given.
- What the client receives for an `Escaped` exception: the model records which exception leaves the controller, not the status. In Spring, the IllegalStateException thrown inside handleValidationError is logged and the original validation exception falls to the default handling, which answers 400; the database exception falls to the default handling too, which answers 500.
- JSON parsing and serialisation: a body is either `Unparsable` or an already bound record. Numbers outside Java's `Integer` range never bind (`Int32`).
- SQL, JdbcTemplate and `ResultSet`: the table is a map and the row mapper is the identity on stored rows. VIN comparison is exact string equality, with no database collation or padding rules.
- The database schema is read from the `@Column` declarations. The price's DECIMAL(10, 2) bound is modelled (`PriceFits`, rounding half away from zero), but the stored price is kept as given rather than rounded to two decimals.
- String lengths count Dafny characters (Unicode scalar values), not Java's UTF-16 code units.
- The race between the existence check and the write in insert and update: the model is sequential.
- The order in which Bean Validation reports violations is unspecified. The model uses declaration order, and `ToMapMeaning` shows the error map does not depend on it.
- `Vehicle.toString`, the no-argument constructor and the setters: the record is a datatype, its constructor keeps every argument as given, and a setter is a field update.
- VehicleApi.VehicleController.CreateVehicle: requires a validated record, because the framework only calls the handler after `@Valid` passes (`Serve` models that step).
- VehicleApi.VehicleController.UpdateVehicle: requires a validated record, for the same reason.
- VehicleApi.VehicleController.GetAllVehicles: states only that the answer is some listing of the table, since the source promises no order.
- VehicleApi.Highlander: the fixture's price is written as 12000.12 at scale 2. The test builds it from a `double`, which gives a longer binary expansion, but validation only asks that the price be non-null.
- VehicleStore.InsertThenGet: reads the record back exactly as given, whereas the database would round a price with more than two decimals to two.
