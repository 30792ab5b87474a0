/**
  The HTTP layer (com.apollo.controller.VehicleController): how each request under /vehicle
  becomes a status and a body, including the framework's binding step (JSON parsing, then
  Bean Validation) and the controller's two exception handlers.
 */
module VehicleApi {
  import opened Wrappers
  import opened VehicleModel
  import opened VehicleStore

  /** A request body as the JSON binder delivers it: unparsable, or a bound record. */
  datatype Payload = Unparsable | Parsed(vehicle: Vehicle)

  datatype Request =
    | ListVehicles                                  // GET /vehicle
    | CreateVehicle(payload: Payload)               // POST /vehicle
    | GetVehicle(vin: string)                       // GET /vehicle/{vin}
    | UpdateVehicle(vin: string, payload: Payload)  // PUT /vehicle/{vin}
    | DeleteVehicle(vin: string)                    // DELETE /vehicle/{vin}

  /** The values of the error bodies: a string, or a nested string-to-string object. */
  datatype Json = JText(text: string) | JObject(members: map<string, string>)

  datatype Body =
    | NoBody
    | VehicleList(vehicles: seq<Vehicle>)
    | VehicleJson(vehicle: Option<Vehicle>)   // a null record is sent as an empty body
    | PlainText(text: string)
    | JsonMap(members: map<string, Json>)

  /**
    What the controller produces: a status with a body, or an exception that escapes both the
    handler and the controller's exception handlers and is left to the framework's defaults.
   */
  datatype Response = Response(status: int, body: Body) | Escaped(exception: string)

  /** The answer of GET and PUT when the DAO answers null. */
  const NotFound: Response := Response(422, PlainText("Vin not found"))

  /** handleJsonParseError: 400 with a fixed error and message. */
  const JsonParseError: Response :=
    Response(400, JsonMap(map[
      "error" := JText("Invalid JSON format"),
      "message" := JText("The request body could not be parsed as a Vehicle JSON representation.")]))

  /** The message a field error is reported with: its default message, else "Invalid value". */
  function MessageOf(e: FieldError): string {
    if e.defaultMessage.Some? then e.defaultMessage.value else "Invalid value"
  }

  /**
    Collectors.toMap(field, message) over the field errors, in order: null (None) stands for
    the IllegalStateException it throws when a property comes a second time.
   */
  function ToMap(errs: seq<FieldError>): (r: Option<map<string, string>>)
    ensures r.Some? ==> |r.value| == |errs|
  {
    if errs == [] then Some(map[])
    else
      var e := errs[|errs| - 1];
      match ToMap(errs[..|errs| - 1])
      case None => None
      case Some(m) => if e.field in m then None else Some(m[e.field := MessageOf(e)])
  }

  lemma DistinctFieldsSnoc(init: seq<FieldError>, e: FieldError)
    ensures DistinctFields(init + [e]) <==> DistinctFields(init) && e.field !in FieldsOf(init)
  {
    var errs := init + [e];
    if DistinctFields(init) && e.field !in FieldsOf(init) {
      forall i, j | 0 <= i < j < |errs| ensures errs[i].field != errs[j].field {
        if j == |init| {
          assert errs[i] in init;
        }
      }
    }
    if DistinctFields(errs) {
      forall i, j | 0 <= i < j < |init| ensures init[i].field != init[j].field {
        assert errs[i] == init[i] && errs[j] == init[j];
      }
      forall x | x in init ensures x.field != e.field {
        var i :| 0 <= i < |init| && init[i] == x;
        assert errs[i] == x && errs[|init|] == e;
      }
      assert e.field !in FieldsOf(init);
    }
  }

  /**
    toMap succeeds iff no property is reported twice, and then maps exactly the reported
    properties, each to its error's message; the order of the errors does not matter.
   */
  lemma {:induction false} ToMapMeaning(errs: seq<FieldError>)
    ensures ToMap(errs).Some? <==> DistinctFields(errs)
    ensures ToMap(errs).Some? ==> ToMap(errs).value.Keys == FieldsOf(errs)
    ensures ToMap(errs).Some? ==>
      forall i :: 0 <= i < |errs| ==> ToMap(errs).value[errs[i].field] == MessageOf(errs[i])
  {
    if errs != [] {
      var n := |errs| - 1;
      var init, e := errs[..n], errs[n];
      assert errs == init + [e];
      ToMapMeaning(init);
      assert FieldsOf(errs) == FieldsOf(init) + {e.field};
      DistinctFieldsSnoc(init, e);
    }
  }

  /** Once toMap has thrown on a prefix, it throws on the whole sequence. */
  lemma {:induction false} ToMapThrowsOnExtension(errs: seq<FieldError>, n: nat)
    requires n <= |errs| && ToMap(errs[..n]).None?
    ensures ToMap(errs).None?
    decreases |errs| - n
  {
    if n < |errs| {
      assert errs[..n + 1][..n] == errs[..n];
      ToMapThrowsOnExtension(errs, n + 1);
    } else {
      assert errs[..n] == errs;
    }
  }

  /** One more field error: toMap either throws on it or adds its property. */
  lemma ToMapStep(errs: seq<FieldError>, i: nat)
    requires i < |errs| && ToMap(errs[..i]).Some?
    ensures var m := ToMap(errs[..i]).value;
      ToMap(errs[..i + 1]) == if errs[i].field in m then None else Some(m[errs[i].field := MessageOf(errs[i])])
  {
    assert errs[..i + 1][..i] == errs[..i];
  }

  /** handleValidationError: 422 with the property-to-message map, unless toMap throws. */
  function ValidationErrorResponse(errs: seq<FieldError>): Response {
    match ToMap(errs)
    case None => Escaped("IllegalStateException")
    case Some(m) => Response(422, JsonMap(map["error" := JText("Validation failed"), "errors" := JObject(m)]))
  }

  /** The binding step before a handler runs: parse the body, then validate the record. */
  datatype Admission = Admitted(vehicle: Vehicle) | Rejected(response: Response)

  function Admit(p: Payload): (r: Admission)
    ensures r.Admitted? <==> p.Parsed? && IsValid(p.vehicle)
    ensures r.Admitted? ==> r.vehicle == p.vehicle
    ensures p.Unparsable? ==> r == Rejected(JsonParseError)
  {
    match p
    case Unparsable => Rejected(JsonParseError)
    case Parsed(v) =>
      ValidIffNoErrors(v);
      var errs := Validate(v);
      if errs == [] then Admitted(v) else Rejected(ValidationErrorResponse(errs))
  }

  // How each handler turns the DAO's answer into a response.

  /** createVehicle: 201 with whatever the insert answered, null included. */
  function Created(o: Outcome): Response {
    match o
    case Returned(r) => Response(201, VehicleJson(r))
    case Refused => Escaped("DataIntegrityViolationException")
  }

  /** getVehicleByVin: 422 "Vin not found" for null, else 200 with the record. */
  function Found(r: Option<Vehicle>): Response {
    if r.None? then NotFound else Response(200, VehicleJson(r))
  }

  /** updateVehicle: 422 "Vin not found" for null, else 200 with the updated record. */
  function Updated(o: Outcome): Response {
    match o
    case Returned(r) => Found(r)
    case Refused => Escaped("DataIntegrityViolationException")
  }

  /** deleteVehicle: 204 with no body, always. */
  const Deleted: Response := Response(204, NoBody)

  /** Some order of the stored rows, each once: the one the pure model answers GET /vehicle with. */
  ghost function Listing(t: Table): seq<Vehicle>
    decreases t.Keys
  {
    if t == map[] then []
    else
      var k :| k in t;
      [t[k]] + Listing(t - {k})
  }

  lemma ListingStep(t: Table)
    requires t != map[]
    ensures exists k :: k in t && Listing(t) == [t[k]] + Listing(t - {k})
  {
  }

  lemma ListingCons(t: Table, k: string, rest: seq<Vehicle>)
    requires KeysMatch(t) && k in t && IsListing(t - {k}, rest)
    ensures IsListing(t, [t[k]] + rest)
  {
    var vs := [t[k]] + rest;
    forall j | j in t ensures exists i :: 0 <= i < |vs| && vs[i].vin == Some(j) {
      if j == k {
        assert vs[0].vin == Some(j);
      } else {
        assert j in t - {k};
        var i :| 0 <= i < |rest| && rest[i].vin == Some(j);
        assert vs[i + 1].vin == Some(j);
      }
    }
  }

  lemma {:induction false} ListingIsListing(t: Table)
    requires KeysMatch(t)
    ensures IsListing(t, Listing(t))
    decreases t.Keys
  {
    if t != map[] {
      ListingStep(t);
      var k :| k in t && Listing(t) == [t[k]] + Listing(t - {k});
      ListingIsListing(t - {k});
      ListingCons(t, k, Listing(t - {k}));
    }
  }

  /** One request served: the response, the table afterwards, and the DAO calls made. */
  datatype Exchange = Exchange(response: Response, table: Table, calls: seq<Call>)

  /** The whole pipeline for one request against a table, as one function. */
  ghost function Respond(t: Table, req: Request): (r: Exchange)
    ensures |r.calls| <= 1
    ensures r.calls == [] <==> (req.CreateVehicle? || req.UpdateVehicle?) && Admit(req.payload).Rejected?
    ensures r.calls == [] ==> r.table == t
    ensures req.ListVehicles? || req.GetVehicle? ==> r.table == t
  {
    match req
    case ListVehicles => Exchange(Response(200, VehicleList(Listing(t))), t, [GetAllCall])
    case CreateVehicle(p) =>
      (match Admit(p)
       case Rejected(r) => Exchange(r, t, [])
       case Admitted(v) =>
         var s := Insert(t, v);
         Exchange(Created(s.outcome), s.table, [InsertCall(v)]))
    case GetVehicle(vin) => Exchange(Found(Find(t, Some(vin))), t, [GetCall(vin)])
    case UpdateVehicle(vin, p) =>
      (match Admit(p)
       case Rejected(r) => Exchange(r, t, [])
       case Admitted(v) =>
         var s := Update(t, vin, v);
         Exchange(Updated(s.outcome), s.table, [UpdateCall(vin, v)]))
    case DeleteVehicle(vin) => Exchange(Deleted, Delete(t, vin), [DeleteCall(vin)])
  }

  /** A table whose rows are well formed and whose records all pass validation. */
  ghost predicate StoreValid(t: Table) {
    WellFormed(t) && forall k :: k in t ==> IsValid(t[k])
  }

  /** The controller, holding the DAO it was constructed with. */
  class VehicleController {
    const dao: VehicleDAO

    constructor (dao: VehicleDAO)
      ensures this.dao == dao
    {
      this.dao := dao;
    }

    method GetAllVehicles() returns (resp: Response)
      requires dao.Valid()
      modifies dao`calls
      ensures resp.Response? && resp.status == 200
      ensures resp.body.VehicleList? && IsListing(dao.rows, resp.body.vehicles)
      ensures dao.calls == old(dao.calls) + [GetAllCall]
    {
      var vehicles := dao.GetAllVehicles();
      resp := Response(200, VehicleList(vehicles));
    }

    /** Runs only once the framework has bound and validated the body. */
    method CreateVehicle(vehicle: Vehicle) returns (resp: Response)
      requires dao.Valid() && IsValid(vehicle)
      modifies dao
      ensures dao.Valid()
      ensures dao.rows == Insert(old(dao.rows), vehicle).table
      ensures resp == Created(Insert(old(dao.rows), vehicle).outcome)
      ensures resp.Response? ==> resp.status == 201
      ensures resp.Escaped? <==> Find(old(dao.rows), vehicle.vin).None? && PriceOverflows(vehicle)
      ensures dao.calls == old(dao.calls) + [InsertCall(vehicle)]
    {
      ValidFitsColumns(vehicle);
      var saved := dao.InsertVehicle(vehicle);
      resp := Created(saved);
    }

    method GetVehicleByVin(vin: string) returns (resp: Response)
      requires dao.Valid()
      modifies dao`calls
      ensures resp == NotFound <==> vin !in dao.rows
      ensures vin in dao.rows ==> resp == Response(200, VehicleJson(Some(dao.rows[vin])))
      ensures dao.calls == old(dao.calls) + [GetCall(vin)]
    {
      var vehicle := dao.GetVehicleByVin(vin);
      if vehicle.None? {
        resp := NotFound;
      } else {
        resp := Response(200, VehicleJson(vehicle));
      }
    }

    /** Runs only once the framework has bound and validated the body. */
    method UpdateVehicle(vin: string, vehicle: Vehicle) returns (resp: Response)
      requires dao.Valid() && IsValid(vehicle)
      modifies dao
      ensures dao.Valid()
      ensures dao.rows == Update(old(dao.rows), vin, vehicle).table
      ensures resp == Updated(Update(old(dao.rows), vin, vehicle).outcome)
      ensures resp.Escaped? <==>
        Find(old(dao.rows), vehicle.vin).None? && vin in old(dao.rows) && PriceOverflows(vehicle)
      ensures dao.calls == old(dao.calls) + [UpdateCall(vin, vehicle)]
    {
      ValidFitsColumns(vehicle);
      var updated := dao.UpdateVehicle(vin, vehicle);
      if updated.Returned? && updated.record.None? {
        resp := NotFound;
      } else {
        resp := Updated(updated);
      }
    }

    method DeleteVehicle(vin: string) returns (resp: Response)
      requires dao.Valid()
      modifies dao
      ensures dao.Valid()
      ensures dao.rows == Delete(old(dao.rows), vin)
      ensures resp == Deleted
      ensures dao.calls == old(dao.calls) + [DeleteCall(vin)]
    {
      dao.DeleteVehicle(vin);
      resp := Response(204, NoBody);
    }

    /**
      handleValidationError: put the error, collect the field errors into a map one by one
      (throwing on a property seen twice), put the map, answer 422.
     */
    method HandleValidationError(errs: seq<FieldError>) returns (resp: Response)
      ensures resp == ValidationErrorResponse(errs)
      ensures resp.Response? <==> DistinctFields(errs)
    {
      var errors: map<string, string> := map[];
      var i := 0;
      while i < |errs|
        invariant 0 <= i <= |errs|
        invariant ToMap(errs[..i]) == Some(errors)
      {
        var e := errs[i];
        ToMapStep(errs, i);
        if e.field in errors {
          ToMapThrowsOnExtension(errs, i + 1);
          ToMapMeaning(errs);
          return Escaped("IllegalStateException");
        }
        errors := errors[e.field := MessageOf(e)];
        i := i + 1;
      }
      assert errs[..i] == errs;
      ToMapMeaning(errs);
      resp := Response(422, JsonMap(map["error" := JText("Validation failed"), "errors" := JObject(errors)]));
    }

    /**
      The framework's dispatch of one request: bind the body (a parse failure goes to
      handleJsonParseError), validate it (a violation goes to handleValidationError), and
      only then call the handler.
     */
    method Serve(req: Request) returns (resp: Response)
      requires dao.Valid()
      modifies dao
      ensures dao.Valid()
      ensures dao.rows == Respond(old(dao.rows), req).table
      ensures dao.calls == old(dao.calls) + Respond(old(dao.rows), req).calls
      ensures !req.ListVehicles? ==> resp == Respond(old(dao.rows), req).response
      ensures req.ListVehicles? ==>
        resp.Response? && resp.status == 200 && resp.body.VehicleList? && IsListing(dao.rows, resp.body.vehicles)
    {
      match req
      case ListVehicles =>
        resp := GetAllVehicles();
      case GetVehicle(vin) =>
        resp := GetVehicleByVin(vin);
      case DeleteVehicle(vin) =>
        resp := DeleteVehicle(vin);
      case CreateVehicle(p) =>
        if p.Unparsable? {
          resp := JsonParseError;
        } else {
          var errs := Validate(p.vehicle);
          ValidIffNoErrors(p.vehicle);
          if errs != [] {
            resp := HandleValidationError(errs);
          } else {
            resp := CreateVehicle(p.vehicle);
          }
        }
      case UpdateVehicle(vin, p) =>
        if p.Unparsable? {
          resp := JsonParseError;
        } else {
          var errs := Validate(p.vehicle);
          ValidIffNoErrors(p.vehicle);
          if errs != [] {
            resp := HandleValidationError(errs);
          } else {
            resp := UpdateVehicle(vin, p.vehicle);
          }
        }
    }
  }

  /** GET /vehicle answers 200 with every stored row once, possibly none, and writes nothing. */
  lemma ListAnswersAllRows(t: Table)
    requires KeysMatch(t)
    ensures var x := Respond(t, ListVehicles);
      && x.response.Response? && x.response.status == 200
      && x.response.body.VehicleList? && IsListing(t, x.response.body.vehicles)
      && x.table == t && x.calls == [GetAllCall]
  {
    ListingIsListing(t);
  }

  /** An unparsable body on POST or PUT answers 400 "Invalid JSON format" and never reaches the DAO. */
  lemma MalformedPayloadAnswers400(t: Table, req: Request)
    requires (req.CreateVehicle? || req.UpdateVehicle?) && req.payload.Unparsable?
    ensures Respond(t, req) == Exchange(JsonParseError, t, [])
  {
  }

  /**
    A body that fails validation on POST or PUT never reaches the DAO. The answer is 422
    "Validation failed" whose error map names exactly the fields that break a constraint,
    unless one field breaks two constraints, in which case toMap throws.
   */
  lemma InvalidPayloadNeverReachesStore(t: Table, req: Request)
    requires (req.CreateVehicle? || req.UpdateVehicle?) && req.payload.Parsed?
    requires !IsValid(req.payload.vehicle)
    ensures var x := Respond(t, req);
      && x.table == t && x.calls == []
      && (x.response.Escaped? <==> !DistinctFields(Validate(req.payload.vehicle)))
      && (x.response.Response? ==>
            && x.response.status == 422
            && x.response.body.JsonMap?
            && x.response.body.members["error"] == JText("Validation failed")
            && x.response.body.members["errors"].JObject?
            && (forall f: Field ::
                 f.Name() in x.response.body.members["errors"].members <==> !FieldOk(req.payload.vehicle, f))
            && var errs, reported := Validate(req.payload.vehicle), x.response.body.members["errors"].members;
               forall i :: 0 <= i < |errs| ==> errs[i].field in reported && reported[errs[i].field] == MessageOf(errs[i]))
  {
    var v := req.payload.vehicle;
    var errs := Validate(v);
    ValidIffNoErrors(v);
    assert Respond(t, req) == Exchange(ValidationErrorResponse(errs), t, []);
    ToMapMeaning(errs);
    if DistinctFields(errs) {
      var m := ToMap(errs).value;
      var body := map["error" := JText("Validation failed"), "errors" := JObject(m)];
      assert Respond(t, req).response == Response(422, JsonMap(body));
      assert body["errors"].members == m;
      forall f: Field ensures f.Name() in m <==> !FieldOk(v, f) {
        ValidateNamesBadFields(v, f);
      }
    }
  }

  /** A payload missing both the manufacturer name and the horse power has both fields reported. */
  lemma MissingFieldsAllReported(t: Table, v: Vehicle)
    requires v.manufacturerName.None? && v.horsePower.None?
    ensures var x := Respond(t, CreateVehicle(Parsed(v)));
      && x.calls == []
      && (x.response.Response? ==>
            && x.response.status == 422
            && x.response.body.JsonMap? && "errors" in x.response.body.members
            && x.response.body.members["errors"].JObject?
            && "manufacturerName" in x.response.body.members["errors"].members
            && "horsePower" in x.response.body.members["errors"].members)
  {
    var errs := Validate(v);
    ValidateNamesBadFields(v, ManufacturerName);
    ValidateNamesBadFields(v, HorsePower);
    assert errs != [];
    assert Respond(t, CreateVehicle(Parsed(v))) == Exchange(ValidationErrorResponse(errs), t, []);
    ToMapMeaning(errs);
  }

  /**
    A string field that is blank and longer than its bound breaks both @NotBlank and @Size, so
    building the error map throws: no 422 is sent, and the DAO is not called.
   */
  lemma BlankOverlongFieldEscapes(t: Table, req: Request, f: Field)
    requires (req.CreateVehicle? || req.UpdateVehicle?) && req.payload.Parsed?
    requires BlankOverlong(req.payload.vehicle, f)
    ensures Respond(t, req) == Exchange(Escaped("IllegalStateException"), t, [])
  {
    var v := req.payload.vehicle;
    BlankAndTooLongReportedTwice(v, f);
    TwiceOnNotDistinct(Validate(v), f.Name());
    assert Validate(v) != [];
    ToMapMeaning(Validate(v));
  }

  /**
    A valid POST answers 201 with what the insert answered: the stored record for a fresh VIN,
    and an empty body with nothing written for a VIN already stored. The one exception is a
    fresh record whose price overflows DECIMAL(10, 2): the INSERT throws and nothing is stored.
   */
  lemma CreateAnswers201(t: Table, v: Vehicle)
    requires WellFormed(t) && IsValid(v)
    ensures var x := Respond(t, CreateVehicle(Parsed(v)));
      && x.calls == [InsertCall(v)]
      && (v.vin.value in t ==> x == Exchange(Response(201, VehicleJson(None)), t, [InsertCall(v)]))
      && (v.vin.value !in t && !PriceOverflows(v) ==>
            x.response == Response(201, VehicleJson(Some(v))) && x.table == t[v.vin.value := v])
      && (v.vin.value !in t && PriceOverflows(v) ==>
            x == Exchange(Escaped("DataIntegrityViolationException"), t, [InsertCall(v)]))
  {
    ValidIffNoErrors(v);
    ValidFitsColumns(v);
  }

  /** GET /vehicle/{vin} answers 422 "Vin not found" iff no row has the VIN, else 200 with the row. */
  lemma GetAnswersNotFoundIffAbsent(t: Table, vin: string)
    ensures var x := Respond(t, GetVehicle(vin));
      && (x.response == NotFound <==> vin !in t)
      && (vin in t ==> x.response == Response(200, VehicleJson(Some(t[vin]))))
      && x.table == t && x.calls == [GetCall(vin)]
  {
  }

  /**
    A valid PUT answers 422 "Vin not found" iff the payload's VIN is stored or the path VIN is
    not; otherwise the row under the path VIN takes the payload's other seven fields and is
    answered with 200, unless the price overflows DECIMAL(10, 2) and the UPDATE throws.
   */
  lemma UpdateAnswersNotFoundIff(t: Table, vin: string, v: Vehicle)
    requires WellFormed(t) && IsValid(v)
    ensures var x := Respond(t, UpdateVehicle(vin, Parsed(v)));
      && x.calls == [UpdateCall(vin, v)]
      && (x.response == NotFound <==> v.vin.value in t || vin !in t)
      && (x.response == NotFound ==> x.table == t)
      && (x.response != NotFound && !PriceOverflows(v) ==>
            && x.response == Response(200, VehicleJson(Some(v.(vin := Some(vin)))))
            && x.table == t[vin := v.(vin := Some(vin))])
      && (x.response != NotFound && PriceOverflows(v) ==>
            x == Exchange(Escaped("DataIntegrityViolationException"), t, [UpdateCall(vin, v)]))
  {
    ValidIffNoErrors(v);
    ValidFitsColumns(v);
  }

  /** DELETE answers 204 with no body whether or not the row existed; repeating it changes nothing. */
  lemma DeleteAlwaysAnswers204(t: Table, vin: string)
    ensures var x := Respond(t, DeleteVehicle(vin));
      && x.response == Response(204, NoBody)
      && x.table == t - {vin}
      && Respond(x.table, DeleteVehicle(vin)) == x
  {
  }

  /**
    Serving any request keeps every stored record valid: records reach the table only through
    validation, and an update keeps the row's own, already valid, VIN.
   */
  lemma RespondKeepsStoreValid(t: Table, req: Request)
    requires StoreValid(t)
    ensures StoreValid(Respond(t, req).table)
  {
    match req
    case CreateVehicle(Parsed(v)) =>
      ValidIffNoErrors(v);
      if IsValid(v) {
        ValidFitsColumns(v);
      }
    case UpdateVehicle(vin, Parsed(v)) =>
      ValidIffNoErrors(v);
      if IsValid(v) && vin in t {
        ValidFitsColumns(v);
        var u := v.(vin := Some(vin));
        assert FieldOk(t[vin], Vin);
        forall f: Field ensures FieldOk(u, f) {
          assert FieldOk(v, f);
        }
      }
    case _ =>
  }

  /** The body binds, and one of its string fields is blank and longer than its bound. */
  predicate BlankOverlongBody(req: Request) {
    && (req.CreateVehicle? || req.UpdateVehicle?) && req.payload.Parsed?
    && exists f: Field :: BlankOverlong(req.payload.vehicle, f)
  }

  /** A validated record whose price overflows its column reaches an INSERT or an UPDATE. */
  predicate WritesOverflowingPrice(t: Table, req: Request) {
    match req
    case CreateVehicle(Parsed(v)) => IsValid(v) && PriceOverflows(v) && Find(t, v.vin).None?
    case UpdateVehicle(vin, Parsed(v)) => IsValid(v) && PriceOverflows(v) && Find(t, v.vin).None? && vin in t
    case _ => false
  }

  /**
    Against a well-formed table, a request escapes the controller's handling in exactly two
    ways: toMap throws because a string field is blank and over its bound, or a validated
    record's price overflows the column and the write throws.
   */
  lemma EscapesIff(t: Table, req: Request)
    requires WellFormed(t)
    ensures Respond(t, req).response == Escaped("IllegalStateException") <==> BlankOverlongBody(req)
    ensures Respond(t, req).response == Escaped("DataIntegrityViolationException") <==>
      WritesOverflowingPrice(t, req)
    ensures Respond(t, req).response.Escaped? <==> BlankOverlongBody(req) || WritesOverflowingPrice(t, req)
  {
    if (req.CreateVehicle? || req.UpdateVehicle?) && req.payload.Parsed? {
      var v := req.payload.vehicle;
      var errs := Validate(v);
      ValidIffNoErrors(v);
      RepeatedIffBlankOverlong(v);
      if errs != [] {
        ToMapMeaning(errs);
        assert Respond(t, req).response == ValidationErrorResponse(errs);
      } else {
        ValidFitsColumns(v);
        assert !BlankOverlongBody(req);
      }
    }
  }

  /** The record of the documented end-to-end scenario. */
  const Highlander: Vehicle :=
    Vehicle(Some("abcd"), Some("Toyota"), Some("highlander"), Some(5),
            Some("highlander"), Some(2014), Some(Decimal(1200012, 2)), Some("gas"))

  lemma HighlanderValid()
    ensures IsValid(Highlander)
  {
    var v := Highlander;
    assert !IsBlank("abcd") by { assert "abcd"[0] > ' '; }
    assert !IsBlank("Toyota") by { assert "Toyota"[0] > ' '; }
    assert !IsBlank("highlander") by { assert "highlander"[0] > ' '; }
    assert !IsBlank("gas") by { assert "gas"[0] > ' '; }
    forall f: Field ensures FieldOk(v, f) {
    }
  }

  /**
    The documented round trip: POST a fresh record, GET it back unchanged, DELETE it, and a
    further GET answers 422 "Vin not found".
   */
  lemma CreateGetDeleteGet(t: Table)
    requires WellFormed(t) && "abcd" !in t
    ensures var posted := Respond(t, CreateVehicle(Parsed(Highlander)));
      var read := Respond(posted.table, GetVehicle("abcd"));
      var deleted := Respond(read.table, DeleteVehicle("abcd"));
      var reread := Respond(deleted.table, GetVehicle("abcd"));
      && posted.response == Response(201, VehicleJson(Some(Highlander)))
      && read.response == Response(200, VehicleJson(Some(Highlander)))
      && deleted.response == Response(204, NoBody)
      && reread.response == NotFound
  {
    HighlanderValid();
    CreateAnswers201(t, Highlander);
    var t1 := Respond(t, CreateVehicle(Parsed(Highlander))).table;
    assert t1 == t["abcd" := Highlander];
    GetAnswersNotFoundIffAbsent(t1, "abcd");
    DeleteAlwaysAnswers204(t1, "abcd");
    GetAnswersNotFoundIffAbsent(t1 - {"abcd"}, "abcd");
  }
}
