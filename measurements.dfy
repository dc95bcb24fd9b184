/**
 * The measurement log and the threshold setting of the weight relay as values,
 * and what each request does to them. `WeightDatabase` (in database.dfy) performs
 * the same steps in place; its startup step and handlers are proved to agree with the
 * functions here.
 */
module Measurements {
  import opened JsValues

  /** The value the settings row is created with when the table is empty. */
  const DEFAULT_TARGET_WEIGHT: real := 5000.0

  /** One row of the `weight_measurements` table. */
  datatype Measurement = Measurement(
    id: nat,
    weight: real,
    status: JsValue,
    isAnomaly: bool,
    isSent: bool,
    timestamp: nat)

  /**
   * The whole database: the measurement rows in insertion order, the last id the
   * AUTOINCREMENT counter handed out, and the `targetWeight` of the single settings
   * row (`None` while the settings table is empty).
   */
  datatype Db = Db(records: seq<Measurement>, lastId: nat, targetWeight: Option<real>)

  /** What is posted to the downstream collector for a normal reading. */
  datatype Payload = Payload(weight: real, status: JsValue, targetWeight: real)

  /** The answer to `POST /api/data`. */
  datatype DataResponse =
    | InvalidData
    | Received(weight: real, targetWeight: real, status: JsValue, isAnomaly: bool)
      /** The settings lookup found no row: the request is never answered. */
    | Unanswered

  /** The answer to `POST /api/targetWeight`. */
  datatype TargetResponse = InvalidTarget | TargetUpdated

  /** The database after a reading, the answer, and the payload handed to delivery (if any). */
  datatype Handled = Handled(db: Db, response: DataResponse, delivery: Option<Payload>)

  /**
   * What the AUTOINCREMENT primary key and the handlers keep true of the log: ids are
   * positive, handed out in increasing order and never above the counter, and only a
   * normal reading is ever marked as sent.
   */
  ghost predicate WellFormed(db: Db)
  {
    && (forall i :: 0 <= i < |db.records| ==> 0 < db.records[i].id <= db.lastId)
    && (forall i, j :: 0 <= i < j < |db.records| ==> db.records[i].id < db.records[j].id)
    && (forall i :: 0 <= i < |db.records| ==> db.records[i].isSent ==> !db.records[i].isAnomaly)
  }

  /** The guard of `POST /api/data`: a truthy weight that parses as a number, and a truthy status. */
  predicate ValidReading(weight: JsValue, status: JsValue)
    // a reading passes exactly when weight and status are truthy and the weight is numeric
    ensures Truthy(weight) && Truthy(status) && ParseFloat(weight).Some? ==> ValidReading(weight, status)
    ensures !Truthy(weight) ==> !ValidReading(weight, status)
    ensures !Truthy(status) ==> !ValidReading(weight, status)
    // a missing, null or boolean weight never passes
    ensures weight in {Undefined, Null, Bool(false), Bool(true)} ==> !ValidReading(weight, status)
    // with a truthy status, a JSON number passes exactly when it is not zero, whatever its sign
    ensures weight.Number? && Truthy(status) ==> (ValidReading(weight, status) <==> weight.n != 0.0)
    // a passing weight always yields a number to store
    ensures ValidReading(weight, status) ==> ParseFloat(weight).Some?
  {
    Truthy(weight) && Truthy(status) && ParseFloat(weight).Some?
  }

  /** The guard of `POST /api/targetWeight`: a truthy target that parses as a number. */
  predicate ValidTarget(target: JsValue)
    // a target passes exactly when it is truthy and numeric
    ensures Truthy(target) && ParseFloat(target).Some? ==> ValidTarget(target)
    ensures !Truthy(target) ==> !ValidTarget(target)
    ensures target in {Undefined, Null, Bool(false), Bool(true)} ==> !ValidTarget(target)
    // a JSON number passes exactly when it is not zero: negative targets are accepted
    ensures target.Number? ==> (ValidTarget(target) <==> target.n != 0.0)
    ensures ValidTarget(target) ==> ParseFloat(target).Some?
  {
    Truthy(target) && ParseFloat(target).Some?
  }

  /** A reading is an anomaly when it is strictly heavier than the target. */
  predicate IsAnomaly(weight: real, targetWeight: real)
    // a reading at or below the target is normal, including one exactly at it
    ensures weight <= targetWeight ==> !IsAnomaly(weight, targetWeight)
    ensures weight > targetWeight ==> IsAnomaly(weight, targetWeight)
  {
    weight > targetWeight
  }

  /** `UPDATE weight_measurements SET is_sent_to_vps = 1 WHERE id = ?` */
  function MarkedSent(records: seq<Measurement>, id: nat): (r: seq<Measurement>)
    ensures |r| == |records|
    ensures forall i :: 0 <= i < |r| ==> r[i].(isSent := records[i].isSent) == records[i]
    ensures forall i :: 0 <= i < |r| ==> r[i].isSent == (records[i].isSent || records[i].id == id)
  {
    seq(|records|, i requires 0 <= i < |records| =>
      if records[i].id == id then records[i].(isSent := true) else records[i])
  }

  /** Marking the same id twice is the same as marking it once. */
  lemma MarkSentIdempotent(records: seq<Measurement>, id: nat)
    ensures MarkedSent(MarkedSent(records, id), id) == MarkedSent(records, id)
  {
  }

  /**
   * Startup: insert the default settings row only when the settings table is empty.
   */
  function WithDefaultTarget(db: Db): (r: Db)
    ensures r.targetWeight.Some?
    ensures db.targetWeight.Some? ==> r.targetWeight == db.targetWeight
    ensures db.targetWeight.None? ==> r.targetWeight == Some(DEFAULT_TARGET_WEIGHT)
    ensures r.records == db.records && r.lastId == db.lastId
  {
    if db.targetWeight.None? then db.(targetWeight := Some(DEFAULT_TARGET_WEIGHT)) else db
  }

  /** Running the startup initialisation again changes nothing. */
  lemma DefaultTargetIdempotent(db: Db)
    ensures WithDefaultTarget(WithDefaultTarget(db)) == WithDefaultTarget(db)
  {
  }

  /**
   * `POST /api/data`: validate, read the target, classify, append the row with the
   * sent flag clear, and for a normal reading hand a payload to delivery and set the
   * flag on the new row when `delivered` says delivery succeeded; answer with an echo.
   */
  function Ingest(db: Db, weight: JsValue, status: JsValue, now: nat, delivered: bool): (out: Handled)
    requires WellFormed(db)
    ensures WellFormed(out.db)
    ensures out.db.targetWeight == db.targetWeight
    // rejected input: nothing stored, nothing sent
    ensures out.response == InvalidData <==> !ValidReading(weight, status)
    ensures out.response == Unanswered <==> ValidReading(weight, status) && db.targetWeight.None?
    ensures !out.response.Received? ==> out.db == db && out.delivery == None
    // accepted input
    ensures out.response.Received? ==>
      var n := |db.records|;
      var value := ParseFloat(weight).value;
      var target := db.targetWeight.value;
      && ValidReading(weight, status) && db.targetWeight.Some?
      && (out.response.isAnomaly <==> value > target)
      && out.response == Received(value, target, status, out.response.isAnomaly)
      && out.db.lastId == db.lastId + 1
      && |out.db.records| == n + 1
      && out.db.records[..n] == db.records
      && out.db.records[n] == Measurement(db.lastId + 1, value, status, out.response.isAnomaly,
                                          !out.response.isAnomaly && delivered, now)
      && (out.delivery.Some? <==> !out.response.isAnomaly)
      && (out.delivery.Some? ==> out.delivery.value == Payload(value, status, target))
  {
    if !ValidReading(weight, status) then
      Handled(db, InvalidData, None)
    else if db.targetWeight.None? then
      Handled(db, Unanswered, None)
    else
      var value := ParseFloat(weight).value;
      var target := db.targetWeight.value;
      var anomaly := IsAnomaly(value, target);
      var id := db.lastId + 1;
      var inserted := db.(records := db.records + [Measurement(id, value, status, anomaly, false, now)],
                          lastId := id);
      if anomaly then
        Handled(inserted, Received(value, target, status, anomaly), None)
      else
        var stored := if delivered then inserted.(records := MarkedSent(inserted.records, id)) else inserted;
        assert stored.records[..|db.records|] == db.records;
        Handled(stored, Received(value, target, status, anomaly), Some(Payload(value, status, target)))
  }

  /**
   * `POST /api/targetWeight`: a valid target replaces the value of every settings row
   * (there is at most one); an invalid one changes nothing.
   */
  function UpdateTarget(db: Db, target: JsValue): (r: (Db, TargetResponse))
    ensures r.0.records == db.records && r.0.lastId == db.lastId
    ensures r.1 == TargetUpdated <==> ValidTarget(target)
    ensures !ValidTarget(target) ==> r.0 == db
    ensures ValidTarget(target) && db.targetWeight.Some? ==>
      r.0.targetWeight == Some(ParseFloat(target).value)
    ensures db.targetWeight.None? ==> r.0.targetWeight == None
  {
    if !ValidTarget(target) then
      (db, InvalidTarget)
    else if db.targetWeight.Some? then
      (db.(targetWeight := Some(ParseFloat(target).value)), TargetUpdated)
    else
      (db, TargetUpdated)
  }
}
