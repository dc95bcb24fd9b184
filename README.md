# Weight relay: measurement log and threshold

A Dafny model of the core of `server_raspi`, a small Express server that receives
weight readings from a sensor, stores each one in a SQLite log, classifies it against
a single target weight, and forwards normal readings to a remote collector.

What is modelled:

- **The database** (`Measurements.Db`, `Database.WeightDatabase`): the
  `weight_measurements` rows (id, weight, status, anomaly flag, sent flag, timestamp),
  the AUTOINCREMENT counter, and the single `settings` row holding `targetWeight`
  (absent while the settings table is empty).
- **Startup**: the settings row is created with 5000 only when the table is empty.
- **`POST /api/data`**: the input is validated with JavaScript's own rules: the weight
  must be truthy and parse as a number, and the status must be truthy. The target is
  then read. The reading is an anomaly exactly when it is strictly heavier than the
  target. A row is appended with the sent flag clear. A normal reading is handed to
  delivery, and its row alone is marked sent when delivery reports success. The answer
  echoes the weight, the target read, the status and the anomaly flag, whatever
  delivery did.
- **`POST /api/targetWeight`**: a truthy target that parses as a number overwrites
  the stored target; anything else is rejected and changes nothing. A valid target
  sent before the settings row exists is answered as updated but is not kept, because
  the UPDATE finds no row to change.

`Measurements` gives each request's effect as a function on the database value.
`WeightDatabase` performs the same steps in place. `InitSettings`, `MarkSent`,
`PostData` and `PostTargetWeight` are proved to reach the state that `WithDefaultTarget`,
`MarkedSent`, `Ingest` and `UpdateTarget` give. `Insert` and `SetTargetWeight` state
their new state directly, and `GetTargetWeight` changes nothing. `Requests` serves whole
sequences of requests and proves what holds after any of them. The log is append-only.
Only normal readings are ever marked sent. Once the settings row exists (after
startup), the row count grows by one per accepted reading. Once the settings row exists
(after startup), the threshold is the last valid target sent, and later readings are
classified against it. Before that row exists, no request stores or changes anything.

Request fields are JavaScript values (`JsValues.JsValue`), so the guards behave as the
server's do:

- A weight sent as the number `0` is falsy and is rejected. A weight sent as the text
  `"0"` is accepted and stored as 0 (app.js:83).
- Negative targets and the text `"0"` as a target are accepted. Only falsy or
  non-numeric targets are refused (app.js:136-140, `Requests.NegativeTargetAccepted`, `Requests.ZeroTextTargetAccepted`).
- Any truthy status passes, whether or not it is a string (app.js:83).
- An anomalous reading is stored and answered like a normal one: the answer echoes the
  reading itself, with the anomaly flag set (app.js:117-123).

## Model

| member | source | states |
|---|---|---|
| `JsValues.Truthy` | app.js:83 | the values `!x` treats as false are exactly undefined, null, false, the number 0 and the empty text; a number is truthy exactly when it is not zero |
| `JsValues.ParseFloat` | app.js:87 | a number parses to itself; undefined, null, true and false parse to NaN; only numbers, texts, arrays and objects can yield a number |
| `Measurements.ValidReading` | app.js:83 | a reading passes exactly when the weight and the status are truthy and the weight parses as a number; so a missing, null, boolean or empty-text weight, or a falsy status, is rejected; with a truthy status a numeric weight passes exactly when it is not zero, whatever its sign; a passing weight always parses to a number |
| `Measurements.ValidTarget` | app.js:136 | a target passes exactly when it is truthy and parses as a number, so a falsy target (missing, null, false, 0, empty text) is rejected, and so is true; a numeric target passes exactly when it is not zero, so negative targets pass; a passing target always parses to a number |
| `Measurements.IsAnomaly` | app.js:91 | a reading at or below the target, including exactly at it, is normal; one strictly above it is an anomaly |
| `Measurements.Ingest` | app.js:79-129 | invalid input (falsy or non-numeric weight, falsy status) stores nothing, sends nothing and answers "invalid"; with no settings row nothing is stored or answered; otherwise exactly one row is appended with a fresh id, the parsed weight, the status, anomaly iff weight > target, and sent iff normal and delivered; earlier rows are unchanged, the target is unchanged, a payload goes to delivery iff the reading is normal, and the answer echoes weight, target, status and anomaly flag |
| `Measurements.MarkedSent` | app.js:112 | setting the sent flag keeps the length, changes no field other than the sent flag, and the flag afterwards is set exactly for the rows already sent or carrying the given id |
| `Measurements.MarkSentIdempotent` | app.js:112 | marking the same id twice equals marking it once |
| `Measurements.WithDefaultTarget` | app.js:37-42 | after startup a settings row exists; an existing target is kept, an empty table gets 5000; the log is untouched |
| `Measurements.DefaultTargetIdempotent` | app.js:37-42 | running the startup initialisation a second time changes nothing |
| `Measurements.UpdateTarget` | app.js:131-147 | a truthy numeric target answers "updated" and replaces the stored target when a settings row exists (none is created when it does not); any other target answers "invalid" and changes nothing; the log is never touched |
| `Database.WeightDatabase.Open` | app.js:12-35 | opening an existing database yields exactly its persisted rows, counter and settings |
| `Database.WeightDatabase.InitSettings` | app.js:37-42 | the in-place startup step reaches the state `WithDefaultTarget` gives and keeps the log well-formed |
| `Database.WeightDatabase.GetTargetWeight` | app.js:46-53 | returns the stored target, and nothing when the settings table is empty |
| `Database.WeightDatabase.SetTargetWeight` | app.js:56-63 | replaces the target of the settings row if there is one, otherwise changes nothing; rows and counter unchanged |
| `Database.WeightDatabase.Insert` | app.js:94-97 | appends exactly one row with id one past the counter, the given fields and the sent flag clear; earlier rows and the target are unchanged |
| `Database.WeightDatabase.MarkSent` | app.js:111-113 | sets the sent flag of the rows with the given id (a normal reading) and nothing else; counter and target unchanged |
| `Database.WeightDatabase.PostData` | app.js:79-129 | the in-place handler reaches exactly the state, answer and delivery payload `Ingest` gives |
| `Database.WeightDatabase.PostTargetWeight` | app.js:132-147 | the in-place handler reaches exactly the state and answer `UpdateTarget` gives |
| `Requests.Run` | app.js:94-113 | after any sequence of requests the log stays well-formed: positive, increasing ids up to the counter, and no anomalous row marked sent |
| `Requests.ServeEvolves` | app.js:94-113 | one request only appends rows or sets the sent flag of a row |
| `Requests.RunOnlyAppends` | app.js:94-113 | after any sequence of requests every earlier row is still there, in place, with every field except the sent flag unchanged and a set flag still set |
| `Requests.RunRecordCount` | app.js:83-97 | once the settings row exists, a sequence of requests appends exactly one row per accepted reading, advances the counter by the same amount, and keeps the settings row |
| `Requests.RunWithoutSettingsStoresNothing` | app.js:46-53 | while the settings table is empty no request changes the database |
| `Requests.RunTarget` | app.js:56-63 | once the settings row exists, after a sequence of requests the target is the last valid target sent, or the original one if none was valid |
| `Requests.ClassifiedAgainstLatestTarget` | app.js:88-91 | once the settings row exists, a valid reading after any sequence of requests is accepted and is an anomaly iff its weight exceeds the latest valid target |
| `Requests.ResponseIgnoresDelivery` | app.js:103-123 | whether delivery succeeds changes only the new row's sent flag: the answer, the payload, the counter, the target, every earlier row and every other field of the new row are the same |
| `Requests.ReadingAtTargetIsNormal` | app.js:91 | a numeric reading equal to a non-zero target, with a truthy status, is normal, is handed to delivery, and is marked sent exactly when delivery succeeds |
| `Requests.ZeroWeightIsFalsy` | app.js:83 | the number 0 as weight is rejected with nothing stored, while the text "0" is accepted and stored as weight 0 |
| `Requests.NegativeTargetAccepted` | app.js:136-140 | a negative target replaces the stored target and is answered as updated |
| `Requests.ZeroTextTargetAccepted` | app.js:136-140 | the text "0" as a target is truthy, is answered as updated and sets the stored target to 0 |
| `Requests.FreshServerScenario` | app.js:37-123 | from an empty database: the default target is 5000, a delivered reading of 3000 is stored as normal and sent, and a reading of 6000 is stored as an anomaly, unsent and not delivered |

## Left out

- HTTP transport: Express routing, JSON body parsing, status codes (400, 500) and the listening port. The answers are modelled as datatypes.
- The SQLite engine: SQL text, durability, and database errors. The `throw err` after a failed insert and the rejected promises of `getTargetWeight` and `setTargetWeight` are not modelled.
- A database file whose settings table holds more than one row. Only the startup step adds rows to that table (app.js:40), and only when it is empty, so it holds at most one row.
- `sendToVPS` and its network call and logging. Its outcome (true exactly for an HTTP 200 answer) is the `delivered` parameter. The payload it is given is returned, without the ISO timestamp taken from the clock.
- The insert timestamp (`CURRENT_TIMESTAMP`) is the `now` parameter, a plain number.
- JSON numbers too large for a double, such as `1e999`, which `JSON.parse` turns into `Infinity` or `-Infinity`. They pass both guards (app.js:83, 136). An infinite weight would be stored as an anomaly against any finite target. An infinite target would make every later finite reading normal (`+Infinity`) or an anomaly (`-Infinity`). Weights and targets here are finite reals.
- The message texts of the answers. The answers are told apart by their datatype constructors.
- `parseFloat`'s scanning of text. A text or compound field carries the number parsed from its front, or nothing for NaN. The text `"Infinity"` and other floating-point effects (rounding, `-0`) are not modelled. Weights are exact reals.
- Type conversion by SQLite's TEXT column affinity. The status is stored as the value received.
- The order of callbacks in `POST /api/data`: the answer goes out before the insert completes. The handler is modelled as one sequential step.
- The SIGINT handler that closes the database.
- `Database.WeightDatabase.GetTargetWeight`: an empty settings table makes the source crash on `row.targetWeight`; the model returns nothing, and the handler then stores nothing and gives no answer (`Unanswered`).
