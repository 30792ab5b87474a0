/**
  The record store (com.apollo.dao.VehicleDAO): the vehicle table as a map from VIN to row,
  the five DAO operations as pure functions on that map, and a class whose methods perform
  them in place.
 */
module VehicleStore {
  import opened Wrappers
  import opened VehicleModel

  /** The vehicle table, keyed by its primary key column. A stored row reads back as itself. */
  type Table = map<string, Vehicle>

  // The table's column declarations (@Column on Vehicle's fields): every column is NOT NULL,
  // vin is VARCHAR(17), fuel_type VARCHAR(50), manufacturer_name and model_name keep the
  // default length of 255, description is TEXT, purchase_price is DECIMAL(10, 2).

  function Pow10(n: nat): (r: nat)
    ensures r >= 1
  {
    if n == 0 then 1 else 10 * Pow10(n - 1)
  }

  /**
    DECIMAL(10, 2): the value, rounded half away from zero to two decimals, keeps at most
    eight integer digits, i.e. |unscaled * 10^(-scale)| < 99999999.995.
   */
  predicate PriceFits(d: Decimal) {
    var magnitude := if d.unscaled < 0 then -d.unscaled else d.unscaled;
    if d.scale >= 0 then 200 * magnitude < 19_999_999_999 * Pow10(d.scale)
    else 200 * magnitude * Pow10(-d.scale) < 19_999_999_999
  }

  /** The record has a price, and the price column cannot hold it. */
  predicate PriceOverflows(v: Vehicle) {
    v.purchasePrice.Some? && !PriceFits(v.purchasePrice.value)
  }

  predicate KeyFits(v: Vehicle) {
    v.vin.Some? && |v.vin.value| <= 17
  }

  predicate NonKeyFits(v: Vehicle) {
    && v.manufacturerName.Some? && |v.manufacturerName.value| <= 255
    && v.description.Some?
    && v.horsePower.Some?
    && v.modelName.Some? && |v.modelName.value| <= 255
    && v.modelYear.Some?
    && v.purchasePrice.Some? && PriceFits(v.purchasePrice.value)
    && v.fuelType.Some? && |v.fuelType.value| <= 50
  }

  predicate FitsColumns(v: Vehicle) {
    KeyFits(v) && NonKeyFits(v)
  }

  /** Each row sits under its own VIN. */
  predicate KeysMatch(t: Table) {
    forall k :: k in t ==> t[k].vin == Some(k)
  }

  /** Each row sits under its own VIN and satisfies the column declarations. */
  predicate WellFormed(t: Table) {
    KeysMatch(t) && forall k :: k in t ==> FitsColumns(t[k])
  }

  /**
    SELECT * FROM vehicle WHERE vin = ?, first row or null. A null VIN matches no row, as
    `vin = NULL` is never true in SQL.
   */
  function Find(t: Table, vin: Option<string>): (r: Option<Vehicle>)
    ensures r.None? <==> vin.None? || vin.value !in t
    ensures r.Some? ==> r.value in t.Values
    ensures WellFormed(t) && r.Some? ==> r.value.vin == vin && FitsColumns(r.value)
  {
    if vin.Some? && vin.value in t then Some(t[vin.value]) else None
  }

  /** What a DAO write hands back: a record or null, or the database's refusal of the statement. */
  datatype Outcome = Returned(record: Option<Vehicle>) | Refused

  /** The table after an operation, with the operation's outcome. */
  datatype Step = Step(table: Table, outcome: Outcome)

  /**
    insertVehicle: refuse (null) when a row already has the record's VIN; otherwise INSERT all
    eight columns and answer the row read back under that VIN.
   */
  function Insert(t: Table, v: Vehicle): (r: Step)
    ensures r.table == t <==> r.outcome != Returned(Some(v))
    ensures r.outcome == Returned(Some(v)) ==>
      v.vin.Some? && v.vin.value !in t && FitsColumns(v) && r.table == t[v.vin.value := v]
    ensures r.outcome == Returned(None) <==> Find(t, v.vin).Some?
    ensures r.outcome.Refused? ==> !FitsColumns(v)
  {
    if Find(t, v.vin).Some? then Step(t, Returned(None))
    else if !FitsColumns(v) then Step(t, Refused)
    else
      var t' := t[v.vin.value := v];
      Step(t', Returned(Find(t', v.vin)))
  }

  /**
    updateVehicle(vin, v): the existence check looks up the PAYLOAD's VIN, and answers null
    when it is found; otherwise UPDATE the seven non-key columns of the row under the path
    VIN (zero rows when there is none) and answer that row read back.
   */
  function Update(t: Table, vin: string, v: Vehicle): (r: Step)
    ensures r.table.Keys == t.Keys
    ensures forall k :: k in t && k != vin ==> r.table[k] == t[k]
    ensures r.outcome.Returned? && r.outcome.record.Some? ==>
      vin in t && r.outcome.record.value == r.table[vin] && r.table[vin].vin == Some(vin)
    ensures r.table != t ==> r.outcome == Returned(Some(r.table[vin]))
    ensures r.outcome.Refused? ==> vin in t && !NonKeyFits(v)
  {
    if Find(t, v.vin).Some? then Step(t, Returned(None))
    else if vin in t && !NonKeyFits(v) then Step(t, Refused)
    else
      var t' := if vin in t then t[vin := v.(vin := Some(vin))] else t;
      Step(t', Returned(Find(t', Some(vin))))
  }

  /** deleteVehicle: DELETE FROM vehicle WHERE vin = ?, whether or not such a row exists. */
  function Delete(t: Table, vin: string): (r: Table)
    ensures r.Keys == t.Keys - {vin}
    ensures forall k :: k in r ==> r[k] == t[k]
  {
    t - {vin}
  }

  /** vs holds the rows stored under the given keys, each once. */
  predicate ListsRowsOf(t: Table, keys: set<string>, vs: seq<Vehicle>) {
    && (forall i :: 0 <= i < |vs| ==>
          vs[i].vin.Some? && vs[i].vin.value in keys && vs[i].vin.value in t && t[vs[i].vin.value] == vs[i])
    && (forall i, j :: 0 <= i < j < |vs| ==> vs[i].vin != vs[j].vin)
    && (forall k :: k in keys ==> exists i :: 0 <= i < |vs| && vs[i].vin == Some(k))
  }

  /** The result of SELECT * FROM vehicle: the stored rows, each once, in no promised order. */
  predicate IsListing(t: Table, vs: seq<Vehicle>) {
    ListsRowsOf(t, t.Keys, vs)
  }

  /** Appending the row of one more key keeps the list a listing of the keys seen so far. */
  lemma ListsRowsOfExtend(t: Table, keys: set<string>, vs: seq<Vehicle>, k: string)
    requires KeysMatch(t) && ListsRowsOf(t, keys, vs) && k in t && k !in keys
    ensures ListsRowsOf(t, keys + {k}, vs + [t[k]])
  {
    var ws := vs + [t[k]];
    forall j | j in keys + {k} ensures exists i :: 0 <= i < |ws| && ws[i].vin == Some(j) {
      if j == k {
        assert ws[|vs|].vin == Some(j);
      } else {
        var i :| 0 <= i < |vs| && vs[i].vin == Some(j);
        assert ws[i] == vs[i];
      }
    }
  }

  /**
    The query loop of getAllVehicles: the driver walks the result set and the row mapper turns
    each row into a record. The rows come in whatever order the table yields.
   */
  method QueryAll(t: Table) returns (all: seq<Vehicle>)
    requires KeysMatch(t)
    ensures IsListing(t, all)
    ensures |all| == |t|
  {
    all := [];
    var pending := t.Keys;
    while pending != {}
      invariant pending <= t.Keys
      invariant |all| + |pending| == |t|
      invariant ListsRowsOf(t, t.Keys - pending, all)
      decreases pending
    {
      var k :| k in pending;
      ListsRowsOfExtend(t, t.Keys - pending, all, k);
      all := all + [t[k]];
      assert t.Keys - (pending - {k}) == (t.Keys - pending) + {k};
      pending := pending - {k};
    }
  }

  /**
    A record that passes validation satisfies every column declaration except, possibly, the
    price's: validation asks only that the price be present.
   */
  lemma ValidFitsColumns(v: Vehicle)
    requires IsValid(v)
    ensures FitsColumns(v) <==> !PriceOverflows(v)
  {
    assert FieldOk(v, Vin) && FieldOk(v, ManufacturerName) && FieldOk(v, Description);
    assert FieldOk(v, HorsePower) && FieldOk(v, ModelName) && FieldOk(v, ModelYear);
    assert FieldOk(v, PurchasePrice) && FieldOk(v, FuelType);
  }

  /** getVehicleByVin answers null iff no row has the key, and otherwise that very row. */
  lemma FindIff(t: Table, vin: string)
    ensures Find(t, Some(vin)).None? <==> vin !in t
    ensures vin in t ==> Find(t, Some(vin)) == Some(t[vin])
  {
  }

  /** Inserting a record whose VIN is already stored answers null and writes nothing. */
  lemma InsertRefusesDuplicate(t: Table, v: Vehicle)
    requires v.vin.Some? && v.vin.value in t
    ensures Insert(t, v) == Step(t, Returned(None))
  {
  }

  /**
    Inserting a record under a fresh VIN adds exactly that key, leaves every other row as it
    was, and answers a record equal to the input in all eight fields.
   */
  lemma InsertAddsExactlyOne(t: Table, v: Vehicle)
    requires FitsColumns(v) && v.vin.value !in t
    ensures Insert(t, v).outcome == Returned(Some(v))
    ensures Insert(t, v).table.Keys == t.Keys + {v.vin.value}
    ensures Insert(t, v).table[v.vin.value] == v
    ensures forall k :: k in t ==> Insert(t, v).table[k] == t[k]
  {
  }

  /**
    Round trip: a valid record inserted under a fresh VIN is read back unchanged, unless its
    price overflows the column, in which case nothing is stored.
   */
  lemma InsertThenGet(t: Table, v: Vehicle)
    requires IsValid(v) && v.vin.Some? && v.vin.value !in t
    ensures Find(Insert(t, v).table, v.vin) == if PriceOverflows(v) then None else Some(v)
  {
    ValidFitsColumns(v);
  }

  /** A second insert under the same VIN overwrites nothing: the table keeps the first row. */
  lemma InsertTwiceKeepsFirst(t: Table, v: Vehicle, w: Vehicle)
    requires FitsColumns(v) && v.vin.value !in t && w.vin == v.vin
    ensures Insert(Insert(t, v).table, w) == Step(Insert(t, v).table, Returned(None))
    ensures Insert(Insert(t, v).table, w).table[v.vin.value] == v
  {
  }

  /**
    An update whose payload VIN is stored answers null and changes nothing, even when that VIN
    is the path VIN: a record can never be updated with a payload carrying its own VIN.
   */
  lemma UpdateRefusedWhenPayloadVinStored(t: Table, vin: string, v: Vehicle)
    requires v.vin.Some? && v.vin.value in t
    ensures Update(t, vin, v) == Step(t, Returned(None))
  {
  }

  /**
    An update whose payload VIN is not stored, aimed at a stored row, replaces the seven
    non-key fields of that row, keeps its VIN and every other row, and answers the new row.
   */
  lemma UpdateOverwritesRow(t: Table, vin: string, v: Vehicle)
    requires Find(t, v.vin).None? && vin in t && NonKeyFits(v)
    ensures var s := Update(t, vin, v);
      && s.table.Keys == t.Keys
      && s.table[vin] == v.(vin := Some(vin))
      && (forall k :: k in t && k != vin ==> s.table[k] == t[k])
      && s.outcome == Returned(Some(s.table[vin]))
  {
  }

  /** An update aimed at no stored row, with an unstored payload VIN, changes nothing and answers null. */
  lemma UpdateMissingRow(t: Table, vin: string, v: Vehicle)
    requires Find(t, v.vin).None? && vin !in t
    ensures Update(t, vin, v) == Step(t, Returned(None))
  {
  }

  /** Delete removes the key when present, leaves the table alone otherwise, and is idempotent. */
  lemma DeleteIdempotent(t: Table, vin: string)
    ensures Delete(t, vin).Keys == t.Keys - {vin}
    ensures forall k :: k in Delete(t, vin) ==> Delete(t, vin)[k] == t[k]
    ensures vin !in t ==> Delete(t, vin) == t
    ensures Delete(Delete(t, vin), vin) == Delete(t, vin)
  {
  }

  /** Every write keeps each row under its own VIN and within its columns. */
  lemma WritesPreserveWellFormed(t: Table, vin: string, v: Vehicle)
    requires WellFormed(t)
    ensures WellFormed(Insert(t, v).table)
    ensures WellFormed(Update(t, vin, v).table)
    ensures WellFormed(Delete(t, vin))
  {
    var ins := Insert(t, v).table;
    forall k | k in ins ensures ins[k].vin == Some(k) && FitsColumns(ins[k]) {
      if k !in t {
        assert ins != t;
      }
    }
    var upd := Update(t, vin, v).table;
    forall k | k in upd ensures upd[k].vin == Some(k) && FitsColumns(upd[k]) {
      if k == vin && upd != t {
        assert upd[k] == v.(vin := Some(vin));
      }
    }
  }

  /** A call the controller makes on the DAO, as a mock would record it. */
  datatype Call =
    | GetAllCall
    | GetCall(vin: string)
    | InsertCall(vehicle: Vehicle)
    | UpdateCall(vin: string, vehicle: Vehicle)
    | DeleteCall(vin: string)

  /** The repository: the table it stands for, and a ghost log of the calls made on it. */
  class VehicleDAO {
    var rows: Table
    ghost var calls: seq<Call>

    ghost predicate Valid()
      reads this
    {
      WellFormed(rows)
    }

    constructor ()
      ensures Valid() && rows == map[] && calls == []
    {
      rows := map[];
      calls := [];
    }

    method GetAllVehicles() returns (all: seq<Vehicle>)
      requires Valid()
      modifies this`calls
      ensures IsListing(rows, all)
      ensures calls == old(calls) + [GetAllCall]
    {
      all := QueryAll(rows);
      calls := calls + [GetAllCall];
    }

    method GetVehicleByVin(vin: string) returns (vehicle: Option<Vehicle>)
      requires Valid()
      modifies this`calls
      ensures vehicle.None? <==> vin !in rows
      ensures vehicle.Some? ==> vehicle.value == rows[vin]
      ensures calls == old(calls) + [GetCall(vin)]
    {
      vehicle := Find(rows, Some(vin));
      calls := calls + [GetCall(vin)];
    }

    method InsertVehicle(vehicle: Vehicle) returns (saved: Outcome)
      requires Valid()
      modifies this
      ensures Valid()
      ensures Step(rows, saved) == Insert(old(rows), vehicle)
      ensures calls == old(calls) + [InsertCall(vehicle)]
    {
      calls := calls + [InsertCall(vehicle)];
      var existing := Find(rows, vehicle.vin);
      if existing.Some? {
        return Returned(None);
      }
      if !FitsColumns(vehicle) {
        // the INSERT statement violates a column declaration and the database refuses it
        return Refused;
      }
      rows := rows[vehicle.vin.value := vehicle];
      saved := Returned(Find(rows, vehicle.vin));
    }

    method UpdateVehicle(vin: string, vehicle: Vehicle) returns (updated: Outcome)
      requires Valid()
      modifies this
      ensures Valid()
      ensures Step(rows, updated) == Update(old(rows), vin, vehicle)
      ensures calls == old(calls) + [UpdateCall(vin, vehicle)]
    {
      calls := calls + [UpdateCall(vin, vehicle)];
      var existing := Find(rows, vehicle.vin);
      if existing.Some? {
        return Returned(None);
      }
      if vin in rows {
        if !NonKeyFits(vehicle) {
          return Refused;
        }
        rows := rows[vin := vehicle.(vin := Some(vin))];
      }
      updated := Returned(Find(rows, Some(vin)));
    }

    method DeleteVehicle(vin: string)
      requires Valid()
      modifies this
      ensures Valid()
      ensures rows == Delete(old(rows), vin)
      ensures calls == old(calls) + [DeleteCall(vin)]
    {
      rows := rows - {vin};
      calls := calls + [DeleteCall(vin)];
    }
  }
}
