/**
 * Sequences of requests served one after another, and what holds of the log and the
 * threshold after any such sequence.
 */
module Requests {
  import opened JsValues
  import opened Measurements

  /** One request to the server, with the delivery outcome of a data request. */
  datatype Request =
    | DataRequest(weight: JsValue, status: JsValue, now: nat, delivered: bool)
    | TargetRequest(target: JsValue)

  function Serve(db: Db, r: Request): (out: Db)
    requires WellFormed(db)
    ensures WellFormed(out)
  {
    match r
    case DataRequest(w, s, now, delivered) => Ingest(db, w, s, now, delivered).db
    case TargetRequest(t) => UpdateTarget(db, t).0
  }

  /** The database after serving `reqs` in order. */
  function Run(db: Db, reqs: seq<Request>): (out: Db)
    requires WellFormed(db)
    ensures WellFormed(out)
    decreases |reqs|
  {
    if reqs == [] then db else Run(Serve(db, reqs[0]), reqs[1..])
  }

  /** How many of `reqs` are readings that pass validation. */
  function Accepted(reqs: seq<Request>): nat
  {
    if reqs == [] then 0
    else (if reqs[0].DataRequest? && ValidReading(reqs[0].weight, reqs[0].status) then 1 else 0)
         + Accepted(reqs[1..])
  }

  /** The threshold `t` becomes after the valid target updates among `reqs`, in order. */
  function LatestTarget(t: real, reqs: seq<Request>): real
    decreases |reqs|
  {
    if reqs == [] then t
    else if reqs[0].TargetRequest? && ValidTarget(reqs[0].target) then
      LatestTarget(ParseFloat(reqs[0].target).value, reqs[1..])
    else LatestTarget(t, reqs[1..])
  }

  /**
   * `after` is `before` with rows appended and, possibly, sent flags set: no row is
   * removed or reordered, no field other than the sent flag changes, and a set flag
   * stays set.
   */
  ghost predicate Evolved(before: seq<Measurement>, after: seq<Measurement>)
  {
    && |before| <= |after|
    && forall i :: 0 <= i < |before| ==>
         after[i].(isSent := before[i].isSent) == before[i] && (before[i].isSent ==> after[i].isSent)
  }

  lemma EvolvedTransitive(a: seq<Measurement>, b: seq<Measurement>, c: seq<Measurement>)
    requires Evolved(a, b) && Evolved(b, c)
    ensures Evolved(a, c)
  {
  }

  lemma ServeEvolves(db: Db, r: Request)
    requires WellFormed(db)
    ensures Evolved(db.records, Serve(db, r).records)
  {
  }

  /** The log is append-only: any run keeps every earlier row, changing at most its sent flag to set. */
  lemma {:induction false} RunOnlyAppends(db: Db, reqs: seq<Request>)
    requires WellFormed(db)
    ensures Evolved(db.records, Run(db, reqs).records)
    decreases |reqs|
  {
    if reqs == [] {
      assert Evolved(db.records, db.records);
    } else {
      var next := Serve(db, reqs[0]);
      ServeEvolves(db, reqs[0]);
      RunOnlyAppends(next, reqs[1..]);
      EvolvedTransitive(db.records, next.records, Run(next, reqs[1..]).records);
    }
  }

  /**
   * Once the settings row exists, every accepted reading adds exactly one row and
   * nothing else adds any, and the settings row stays.
   */
  lemma {:induction false} RunRecordCount(db: Db, reqs: seq<Request>)
    requires WellFormed(db) && db.targetWeight.Some?
    ensures Run(db, reqs).targetWeight.Some?
    ensures |Run(db, reqs).records| == |db.records| + Accepted(reqs)
    ensures Run(db, reqs).lastId == db.lastId + Accepted(reqs)
    decreases |reqs|
  {
    if reqs != [] {
      RunRecordCount(Serve(db, reqs[0]), reqs[1..]);
    }
  }

  /** Without a settings row (the startup step skipped) no request stores or changes anything. */
  lemma {:induction false} RunWithoutSettingsStoresNothing(db: Db, reqs: seq<Request>)
    requires WellFormed(db) && db.targetWeight.None?
    ensures Run(db, reqs) == db
    decreases |reqs|
  {
    if reqs != [] {
      RunWithoutSettingsStoresNothing(Serve(db, reqs[0]), reqs[1..]);
    }
  }

  /** After a run the threshold is the last valid target sent, or the one before the run. */
  lemma {:induction false} RunTarget(db: Db, reqs: seq<Request>)
    requires WellFormed(db) && db.targetWeight.Some?
    ensures Run(db, reqs).targetWeight == Some(LatestTarget(db.targetWeight.value, reqs))
    decreases |reqs|
  {
    if reqs != [] {
      RunTarget(Serve(db, reqs[0]), reqs[1..]);
    }
  }

  /** A reading after a run is classified against the latest valid target. */
  lemma ClassifiedAgainstLatestTarget(db: Db, reqs: seq<Request>, weight: JsValue, status: JsValue,
                                      now: nat, delivered: bool)
    requires WellFormed(db) && db.targetWeight.Some? && ValidReading(weight, status)
    ensures
      var out := Ingest(Run(db, reqs), weight, status, now, delivered);
      out.response.Received? &&
      (out.response.isAnomaly <==> ParseFloat(weight).value > LatestTarget(db.targetWeight.value, reqs))
  {
    RunTarget(db, reqs);
  }

  /**
   * The delivery outcome changes nothing but the sent flag of the new row: the answer,
   * the payload and every other row are the same either way.
   */
  lemma ResponseIgnoresDelivery(db: Db, weight: JsValue, status: JsValue, now: nat)
    requires WellFormed(db)
    ensures
      var ok := Ingest(db, weight, status, now, true);
      var failed := Ingest(db, weight, status, now, false);
      && ok.response == failed.response
      && ok.delivery == failed.delivery
      && |ok.db.records| == |failed.db.records|
      && ok.db.lastId == failed.db.lastId
      && ok.db.targetWeight == failed.db.targetWeight
      && (forall i :: 0 <= i < |ok.db.records| ==>
            ok.db.records[i] == failed.db.records[i].(isSent := ok.db.records[i].isSent))
      && (forall i :: 0 <= i < |ok.db.records| && i != |db.records| ==>
            ok.db.records[i] == failed.db.records[i])
  {
  }

  /**
   * A reading exactly at the target is normal: it is handed to delivery and its row is
   * marked sent exactly when delivery succeeds.
   */
  lemma ReadingAtTargetIsNormal(db: Db, status: JsValue, now: nat, delivered: bool)
    requires WellFormed(db) && db.targetWeight.Some? && db.targetWeight.value != 0.0 && Truthy(status)
    ensures
      var out := Ingest(db, Number(db.targetWeight.value), status, now, delivered);
      && out.response.Received? && !out.response.isAnomaly
      && out.delivery == Some(Payload(db.targetWeight.value, status, db.targetWeight.value))
      && out.db.records[|db.records|].isSent == delivered
  {
  }

  /** A weight of numeric zero is falsy and rejected, while the text "0" passes and is stored as 0. */
  lemma ZeroWeightIsFalsy(db: Db, now: nat, delivered: bool)
    requires WellFormed(db) && db.targetWeight.Some?
    ensures Ingest(db, Number(0.0), Text("ok", None), now, delivered) == Handled(db, InvalidData, None)
    ensures Ingest(db, Text("0", Some(0.0)), Text("ok", None), now, delivered).db.records[|db.records|].weight == 0.0
  {
  }

  /** A negative target is accepted and replaces the threshold: the handler checks only truthiness and NaN. */
  lemma NegativeTargetAccepted(db: Db)
    requires db.targetWeight.Some?
    ensures UpdateTarget(db, Number(-5.0)) == (db.(targetWeight := Some(-5.0)), TargetUpdated)
  {
  }

  /** The text "0" is truthy, so as a target it is accepted and sets the threshold to 0. */
  lemma ZeroTextTargetAccepted(db: Db)
    requires db.targetWeight.Some?
    ensures UpdateTarget(db, Text("0", Some(0.0))) == (db.(targetWeight := Some(0.0)), TargetUpdated)
  {
  }

  /**
   * From an empty database: startup creates the default target, a reading of 3000 is
   * normal, delivered and marked sent, and a reading of 6000 is an anomaly that is
   * stored unsent and not delivered.
   */
  lemma FreshServerScenario(status: JsValue)
    requires Truthy(status)
    ensures
      var start := WithDefaultTarget(Db([], 0, None));
      var first := Ingest(start, Number(3000.0), status, 1, true);
      var second := Ingest(first.db, Number(6000.0), status, 2, true);
      && first.response == Received(3000.0, 5000.0, status, false)
      && first.db.records == [Measurement(1, 3000.0, status, false, true, 1)]
      && second.response == Received(6000.0, 5000.0, status, true)
      && second.delivery == None
      && second.db.records == first.db.records + [Measurement(2, 6000.0, status, true, false, 2)]
  {
  }
}
