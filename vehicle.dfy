/**
  The vehicle record and the Bean Validation constraints declared on its fields
  (com.apollo.model.Vehicle).
 */
module VehicleModel {
  import opened Wrappers

  /** The range of java.lang.Integer; a JSON number outside it never binds to the record. */
  type Int32 = x: int | -0x8000_0000 <= x < 0x8000_0000

  /** java.math.BigDecimal: the value is unscaled * 10^(-scale). Only nullness is validated. */
  datatype Decimal = Decimal(unscaled: int, scale: int)

  /**
    The bean, every field nullable. The 8-argument constructor of the source is this
    datatype's constructor, which keeps each argument as it is; the setters are field updates
    `v.(vin := x)`.
   */
  datatype Vehicle = Vehicle(
    vin: Option<string>,
    manufacturerName: Option<string>,
    description: Option<string>,
    horsePower: Option<Int32>,
    modelName: Option<string>,
    modelYear: Option<Int32>,
    purchasePrice: Option<Decimal>,
    fuelType: Option<string>)

  /** The eight bean properties, in declaration order. */
  datatype Field =
    | Vin | ManufacturerName | Description | HorsePower
    | ModelName | ModelYear | PurchasePrice | FuelType
  {
    /** The property name a field error reports (FieldError.getField()). */
    function Name(): string {
      match this
      case Vin => "vin"
      case ManufacturerName => "manufacturerName"
      case Description => "description"
      case HorsePower => "horsePower"
      case ModelName => "modelName"
      case ModelYear => "modelYear"
      case PurchasePrice => "purchasePrice"
      case FuelType => "fuelType"
    }
  }

  /** The value a field holds, whatever its Java type. */
  datatype FieldValue = Text(s: Option<string>) | Whole(i: Option<Int32>) | Amount(d: Option<Decimal>)

  function Get(v: Vehicle, f: Field): FieldValue {
    match f
    case Vin => Text(v.vin)
    case ManufacturerName => Text(v.manufacturerName)
    case Description => Text(v.description)
    case HorsePower => Whole(v.horsePower)
    case ModelName => Text(v.modelName)
    case ModelYear => Whole(v.modelYear)
    case PurchasePrice => Amount(v.purchasePrice)
    case FuelType => Text(v.fuelType)
  }

  /** One violated constraint: the property and the annotation's message (null when it has none). */
  datatype FieldError = FieldError(field: string, defaultMessage: Option<string>)

  /**
    @NotBlank's notion of blank: nothing is left after String.trim(), which strips every
    character up to U+0020.
   */
  predicate IsBlank(s: string) {
    forall i :: 0 <= i < |s| ==> s[i] <= ' '
  }

  // One helper per annotation kind; each yields the violation it reports, or nothing.

  /** @NotBlank: null and blank strings are violations. */
  function NotBlank(f: Field, s: Option<string>, message: string): seq<FieldError> {
    if s.None? || IsBlank(s.value) then [FieldError(f.Name(), Some(message))] else []
  }

  /** @Size(max = max): null is valid. */
  function SizeAtMost(f: Field, s: Option<string>, max: nat, message: string): seq<FieldError> {
    if s.Some? && |s.value| > max then [FieldError(f.Name(), Some(message))] else []
  }

  /** @NotNull. */
  function NotNull<T>(f: Field, x: Option<T>, message: string): seq<FieldError> {
    if x.None? then [FieldError(f.Name(), Some(message))] else []
  }

  /** @Min(value = min): null is valid. */
  function AtLeast(f: Field, x: Option<Int32>, min: int, message: string): seq<FieldError> {
    if x.Some? && x.value < min then [FieldError(f.Name(), Some(message))] else []
  }

  /** The violations of the annotations on one field, in annotation order. */
  function FieldViolations(v: Vehicle, f: Field): (r: seq<FieldError>)
    ensures forall e :: e in r ==> e.field == f.Name()
  {
    match f
    case Vin =>
      NotBlank(f, v.vin, "VIN is required")
      + SizeAtMost(f, v.vin, 17, "VIN must be at most 17 characters")
    case ManufacturerName =>
      NotBlank(f, v.manufacturerName, "Manufacturer name is required")
      + SizeAtMost(f, v.manufacturerName, 255, "Manufacturer name must be at most 255 characters")
    case Description =>
      NotBlank(f, v.description, "Description is required")
    case HorsePower =>
      NotNull(f, v.horsePower, "Horse power is required")
      + AtLeast(f, v.horsePower, 1, "Horse power must be at least 1")
    case ModelName =>
      NotBlank(f, v.modelName, "Model name is required")
      + SizeAtMost(f, v.modelName, 255, "Model name must be at most 255 characters")
    case ModelYear =>
      NotNull(f, v.modelYear, "Model year is required")
    case PurchasePrice =>
      NotNull(f, v.purchasePrice, "Purchase price is required")
    case FuelType =>
      NotBlank(f, v.fuelType, "Fuel type is required")
      + SizeAtMost(f, v.fuelType, 50, "Fuel type must be at most 50 characters")
  }

  /** The eight fields in declaration order, each once. */
  const AllFields: seq<Field> :=
    [Vin, ManufacturerName, Description, HorsePower, ModelName, ModelYear, PurchasePrice, FuelType]

  /** The violations of the listed fields, field after field. */
  function ValidateFields(v: Vehicle, fs: seq<Field>): (r: seq<FieldError>)
    ensures forall e :: e in r ==> exists g :: g in fs && e in FieldViolations(v, g)
  {
    if fs == [] then [] else FieldViolations(v, fs[0]) + ValidateFields(v, fs[1..])
  }

  /**
    Validation of the whole record: every field is checked, none short-circuits another, and
    every violated constraint contributes one field error.
   */
  function Validate(v: Vehicle): (r: seq<FieldError>)
    ensures forall e :: e in r ==> exists f: Field :: e in FieldViolations(v, f) && e.field == f.Name()
  {
    ValidateFields(v, AllFields)
  }

  /** The field errors reported against one property. */
  function ErrorsOn(errs: seq<FieldError>, name: string): seq<FieldError> {
    if errs == [] then []
    else (if errs[0].field == name then [errs[0]] else []) + ErrorsOn(errs[1..], name)
  }

  /** The properties that have at least one error. */
  function FieldsOf(errs: seq<FieldError>): set<string> {
    set e | e in errs :: e.field
  }

  /** The reference reading of the annotations: when one field is acceptable. */
  predicate FieldOk(v: Vehicle, f: Field) {
    match f
    case Vin => v.vin.Some? && !IsBlank(v.vin.value) && |v.vin.value| <= 17
    case ManufacturerName =>
      v.manufacturerName.Some? && !IsBlank(v.manufacturerName.value) && |v.manufacturerName.value| <= 255
    case Description => v.description.Some? && !IsBlank(v.description.value)
    case HorsePower => v.horsePower.Some? && v.horsePower.value >= 1
    case ModelName => v.modelName.Some? && !IsBlank(v.modelName.value) && |v.modelName.value| <= 255
    case ModelYear => v.modelYear.Some?
    case PurchasePrice => v.purchasePrice.Some?
    case FuelType => v.fuelType.Some? && !IsBlank(v.fuelType.value) && |v.fuelType.value| <= 50
  }

  predicate IsValid(v: Vehicle) {
    forall f: Field :: FieldOk(v, f)
  }

  lemma {:induction false} ErrorsOnConcat(a: seq<FieldError>, b: seq<FieldError>, name: string)
    ensures ErrorsOn(a + b, name) == ErrorsOn(a, name) + ErrorsOn(b, name)
  {
    if a == [] {
      assert a + b == b;
    } else {
      assert (a + b)[0] == a[0];
      assert (a + b)[1..] == a[1..] + b;
      ErrorsOnConcat(a[1..], b, name);
    }
  }

  lemma {:induction false} ErrorsOnAll(errs: seq<FieldError>, name: string)
    requires forall e :: e in errs ==> e.field == name
    ensures ErrorsOn(errs, name) == errs
  {
    if errs != [] {
      ErrorsOnAll(errs[1..], name);
    }
  }

  lemma {:induction false} ErrorsOnNone(errs: seq<FieldError>, name: string)
    requires forall e :: e in errs ==> e.field != name
    ensures ErrorsOn(errs, name) == []
  {
    if errs != [] {
      ErrorsOnNone(errs[1..], name);
    }
  }

  /** What field g contributes to the errors on field f: all of its errors when g is f, else none. */
  lemma ErrorsOnField(v: Vehicle, g: Field, f: Field)
    ensures ErrorsOn(FieldViolations(v, g), f.Name()) == if g == f then FieldViolations(v, f) else []
  {
    NameInjective(g, f);
    if g == f {
      ErrorsOnAll(FieldViolations(v, g), f.Name());
    } else {
      ErrorsOnNone(FieldViolations(v, g), f.Name());
    }
  }

  lemma NameInjective(f: Field, g: Field)
    ensures f.Name() == g.Name() ==> f == g
  {
  }

  lemma {:induction false} ValidateFieldsErrorsOn(v: Vehicle, fs: seq<Field>, f: Field)
    requires forall i, j :: 0 <= i < j < |fs| ==> fs[i] != fs[j]
    ensures ErrorsOn(ValidateFields(v, fs), f.Name()) == if f in fs then FieldViolations(v, f) else []
  {
    if fs != [] {
      ErrorsOnConcat(FieldViolations(v, fs[0]), ValidateFields(v, fs[1..]), f.Name());
      ErrorsOnField(v, fs[0], f);
      ValidateFieldsErrorsOn(v, fs[1..], f);
      assert fs[0] == f ==> f !in fs[1..];
      assert f in fs <==> fs[0] == f || f in fs[1..];
    }
  }

  lemma AllFieldsListed(f: Field)
    ensures f in AllFields
    ensures forall i, j :: 0 <= i < j < |AllFields| ==> AllFields[i] != AllFields[j]
  {
  }

  /** The errors Validate reports against a field are exactly that field's own violations. */
  lemma ValidateErrorsOn(v: Vehicle, f: Field)
    ensures ErrorsOn(Validate(v), f.Name()) == FieldViolations(v, f)
  {
    AllFieldsListed(f);
    ValidateFieldsErrorsOn(v, AllFields, f);
  }

  /** A field is reported iff it breaks one of its constraints. */
  lemma FieldViolationsIff(v: Vehicle, f: Field)
    ensures FieldViolations(v, f) == [] <==> FieldOk(v, f)
  {
  }

  /**
    Each field is judged on its own: the errors reported against it depend on its value
    alone, whatever the other seven fields hold, and are empty iff the field is acceptable.
   */
  lemma ValidateFieldIndependent(v: Vehicle, w: Vehicle, f: Field)
    requires Get(v, f) == Get(w, f)
    ensures ErrorsOn(Validate(v), f.Name()) == ErrorsOn(Validate(w), f.Name())
    ensures ErrorsOn(Validate(v), f.Name()) == [] <==> FieldOk(v, f)
  {
    ValidateErrorsOn(v, f);
    ValidateErrorsOn(w, f);
    FieldViolationsIff(v, f);
  }

  lemma {:induction false} ErrorsOnMembers(errs: seq<FieldError>, name: string)
    ensures ErrorsOn(errs, name) == [] <==> name !in FieldsOf(errs)
  {
    if errs != [] {
      ErrorsOnMembers(errs[1..], name);
      assert FieldsOf(errs) == {errs[0].field} + FieldsOf(errs[1..]) by {
        assert errs == [errs[0]] + errs[1..];
      }
    }
  }

  /** The properties Validate names are exactly those whose value breaks a constraint. */
  lemma ValidateNamesBadFields(v: Vehicle, f: Field)
    ensures f.Name() in FieldsOf(Validate(v)) <==> !FieldOk(v, f)
  {
    ValidateErrorsOn(v, f);
    ErrorsOnMembers(Validate(v), f.Name());
    FieldViolationsIff(v, f);
  }

  lemma {:induction false} ValidateFieldsEmpty(v: Vehicle, fs: seq<Field>)
    requires forall f :: f in fs ==> FieldOk(v, f)
    ensures ValidateFields(v, fs) == []
  {
    if fs != [] {
      FieldViolationsIff(v, fs[0]);
      ValidateFieldsEmpty(v, fs[1..]);
    }
  }

  /** A record passes validation (no error at all) iff every field is acceptable. */
  lemma ValidIffNoErrors(v: Vehicle)
    ensures Validate(v) == [] <==> IsValid(v)
  {
    if Validate(v) == [] {
      forall f: Field ensures FieldOk(v, f) {
        ValidateNamesBadFields(v, f);
      }
    }
    if IsValid(v) {
      ValidateFieldsEmpty(v, AllFields);
    }
  }

  /**
    A string field that is blank (so @NotBlank fails) and longer than its @Size bound (so
    @Size fails too). Only the four fields carrying both annotations can be in this state.
   */
  predicate BlankOverlong(v: Vehicle, f: Field) {
    match f
    case Vin => v.vin.Some? && IsBlank(v.vin.value) && |v.vin.value| > 17
    case ManufacturerName =>
      v.manufacturerName.Some? && IsBlank(v.manufacturerName.value) && |v.manufacturerName.value| > 255
    case ModelName => v.modelName.Some? && IsBlank(v.modelName.value) && |v.modelName.value| > 255
    case FuelType => v.fuelType.Some? && IsBlank(v.fuelType.value) && |v.fuelType.value| > 50
    case _ => false
  }

  /** A field breaks two of its constraints at once iff it is blank and over its bound. */
  lemma FieldViolatedTwiceIff(v: Vehicle, f: Field)
    ensures |FieldViolations(v, f)| <= 2
    ensures |FieldViolations(v, f)| == 2 <==> BlankOverlong(v, f)
  {
  }

  /**
    A string field that is blank and longer than its bound breaks both of its field's
    constraints, so Validate reports that property twice.
   */
  lemma BlankAndTooLongReportedTwice(v: Vehicle, f: Field)
    requires BlankOverlong(v, f)
    ensures |ErrorsOn(Validate(v), f.Name())| == 2
  {
    ValidateErrorsOn(v, f);
    FieldViolatedTwiceIff(v, f);
  }

  /** No property is reported twice (what Collectors.toMap needs to succeed). */
  predicate DistinctFields(errs: seq<FieldError>) {
    forall i, j :: 0 <= i < j < |errs| ==> errs[i].field != errs[j].field
  }

  lemma {:induction false} TwiceOnNotDistinct(errs: seq<FieldError>, name: string)
    requires |ErrorsOn(errs, name)| >= 2
    ensures !DistinctFields(errs)
  {
    if errs[0].field == name {
      ErrorsOnMembers(errs[1..], name);
      var e :| e in errs[1..] && e.field == name;
      var j :| 0 <= j < |errs[1..]| && errs[1..][j] == e;
      assert errs[0].field == errs[j + 1].field;
    } else {
      TwiceOnNotDistinct(errs[1..], name);
      var i, j :| 0 <= i < j < |errs[1..]| && errs[1..][i].field == errs[1..][j].field;
      assert errs[i + 1].field == errs[j + 1].field;
    }
  }

  /** Two errors on the same property put at least two errors on it. */
  lemma {:induction false} SameFieldTwice(errs: seq<FieldError>, i: nat, j: nat)
    requires i < j < |errs| && errs[i].field == errs[j].field
    ensures |ErrorsOn(errs, errs[i].field)| >= 2
  {
    var name := errs[i].field;
    if i == 0 {
      assert errs[1..][j - 1] == errs[j];
      ErrorsOnMembers(errs[1..], name);
    } else {
      assert errs[1..][i - 1] == errs[i] && errs[1..][j - 1] == errs[j];
      SameFieldTwice(errs[1..], i - 1, j - 1);
    }
  }

  /**
    Validate reports some property twice iff some string field is blank and longer than its
    bound: no other combination of values gives a field two errors.
   */
  lemma RepeatedIffBlankOverlong(v: Vehicle)
    ensures !DistinctFields(Validate(v)) <==> exists f: Field :: BlankOverlong(v, f)
  {
    var errs := Validate(v);
    if !DistinctFields(errs) {
      var i, j :| 0 <= i < j < |errs| && errs[i].field == errs[j].field;
      SameFieldTwice(errs, i, j);
      var g: Field :| errs[i] in FieldViolations(v, g) && errs[i].field == g.Name();
      ValidateErrorsOn(v, g);
      FieldViolatedTwiceIff(v, g);
      assert BlankOverlong(v, g);
    }
    if f: Field :| BlankOverlong(v, f) {
      BlankAndTooLongReportedTwice(v, f);
      TwiceOnNotDistinct(errs, f.Name());
    }
  }
}
