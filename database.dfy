/**
 * The server's database handle: the measurement rows, the AUTOINCREMENT counter and
 * the settings row, updated in place by the two request handlers. `InitSettings`,
 * `MarkSent`, `PostData` and `PostTargetWeight` are proved to reach the state that
 * `WithDefaultTarget`, `MarkedSent`, `Ingest` and `UpdateTarget` describe; `Insert` and
 * `SetTargetWeight` state their new state directly.
 */
module Database {
  import opened JsValues
  import opened Measurements

  class WeightDatabase {
    var records: seq<Measurement>
    var lastId: nat
    var targetWeight: Option<real>

    /** The database as a value. */
    function State(): Db
      reads this
    {
      Db(records, lastId, targetWeight)
    }

    ghost predicate Valid()
      reads this
    {
      WellFormed(State())
    }

    /** Opens a database file holding `persisted`. */
    constructor Open(persisted: Db)
      requires WellFormed(persisted)
      ensures Valid() && State() == persisted
    {
      records := persisted.records;
      lastId := persisted.lastId;
      targetWeight := persisted.targetWeight;
    }

    /** The startup step: create the settings row with the default only if there is none. */
    method InitSettings()
      requires Valid()
      modifies this
      ensures Valid()
      ensures State() == WithDefaultTarget(old(State()))
    {
      if targetWeight.None? {
        targetWeight := Some(DEFAULT_TARGET_WEIGHT);
      }
    }

    /** `getTargetWeight`: the target of the settings row, `None` when the table is empty. */
    method GetTargetWeight() returns (t: Option<real>)
      ensures t.Some? <==> targetWeight.Some?
      ensures t.Some? ==> t.value == targetWeight.value
    {
      t := targetWeight;
    }

    /** `setTargetWeight`: overwrite the target of every settings row. */
    method SetTargetWeight(newWeight: real)
      requires Valid()
      modifies this
      ensures Valid()
      ensures records == old(records) && lastId == old(lastId)
      ensures targetWeight == if old(targetWeight).Some? then Some(newWeight) else None
    {
      if targetWeight.Some? {
        targetWeight := Some(newWeight);
      }
    }

    /** The INSERT of a reading: a new row with a fresh id and the sent flag clear. */
    method Insert(weight: real, status: JsValue, isAnomaly: bool, now: nat) returns (id: nat)
      requires Valid()
      modifies this
      ensures Valid()
      ensures id == old(lastId) + 1 && lastId == id
      ensures records == old(records) + [Measurement(id, weight, status, isAnomaly, false, now)]
      ensures targetWeight == old(targetWeight)
    {
      id := lastId + 1;
      records := records + [Measurement(id, weight, status, isAnomaly, false, now)];
      lastId := id;
    }

    /** Set the sent flag of the row with the given id; only normal readings may be marked. */
    method MarkSent(id: nat)
      requires Valid()
      requires forall i :: 0 <= i < |records| && records[i].id == id ==> !records[i].isAnomaly
      modifies this
      ensures Valid()
      ensures records == MarkedSent(old(records), id)
      ensures lastId == old(lastId) && targetWeight == old(targetWeight)
    {
      records := MarkedSent(records, id);
    }

    /** The `POST /api/data` handler, `delivered` being what `sendToVPS` reported. */
    method PostData(weight: JsValue, status: JsValue, now: nat, delivered: bool)
      returns (response: DataResponse, delivery: Option<Payload>)
      requires Valid()
      modifies this
      ensures Valid()
      ensures Handled(State(), response, delivery) == Ingest(old(State()), weight, status, now, delivered)
    {
      delivery := None;
      if !ValidReading(weight, status) {
        response := InvalidData;
        return;
      }
      var target := GetTargetWeight();
      if target.None? {
        response := Unanswered;
        return;
      }
      var value := ParseFloat(weight).value;
      var anomaly := IsAnomaly(value, target.value);
      var id := Insert(value, status, anomaly, now);
      if !anomaly {
        delivery := Some(Payload(value, status, target.value));
        if delivered {
          MarkSent(id);
        }
      }
      response := Received(value, target.value, status, anomaly);
    }

    /** The `POST /api/targetWeight` handler. */
    method PostTargetWeight(target: JsValue) returns (response: TargetResponse)
      requires Valid()
      modifies this
      ensures Valid()
      ensures (State(), response) == UpdateTarget(old(State()), target)
    {
      if !ValidTarget(target) {
        response := InvalidTarget;
        return;
      }
      SetTargetWeight(ParseFloat(target).value);
      response := TargetUpdated;
    }
  }
}
