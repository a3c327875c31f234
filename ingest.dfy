/**
 * The ingestion endpoint: a device POSTs a JSON reading, the handler checks
 * the request in a fixed order of early exits (requestMethod, payload shape,
 * `sensorId`, station lookup), fills the absent fields with defaults and
 * appends one row to `water_data`.
 */
module Ingest {
  import opened Wrappers
  import opened PhpValue
  import opened Tables

  /** The JSON body of a response, or none (the preflight answer). */
  datatype Body =
    | NoBody
    | Failure(message: string, hint: Option<string>)
    | Success(message: string, waterdataId: int, stationId: int, timestamp: string)

  /** An HTTP status code with the JSON body sent with it. */
  datatype Reply = Reply(status: nat, body: Body)

  /** What the checks decide: answer at once, or insert this row. */
  datatype Decision =
    | Respond(reply: Reply)
    | Insert(stationId: int, sensorId: string, values: Measurements)

  /** How the database treats the INSERT statement: it succeeds, or fails to prepare, or fails to execute. */
  datatype DbOutcome = Ok | PrepareFailed(error: string) | InsertFailed(error: string)

  const MethodNotAllowed := Reply(405, Failure("Method not allowed. Use POST.", None))
  const InvalidPayload := Reply(400, Failure("Invalid JSON payload", None))
  const MissingSensorId := Reply(400, Failure("Missing required field: sensorId", None))
  const RegisterHint := "Please add this sensor to refilling_stations table first"

  /** The payload is a non-empty PHP array (a JSON object or list with at least one member). */
  predicate IsPayload(data: Value) {
    data.Array? && data.entries != map[]
  }

  /** The `sensorId` member is present, not null and not falsy ("" or "0", 0, false, ...). */
  predicate HasSensorId(data: Value) {
    IsSet(data, "sensorId") && Truthy(Get(data, "sensorId").value)
  }

  /** `isset($data[key]) ? (float)$data[key] : null`. */
  function NumberField(data: Value, key: string): (r: Option<Measure>)
    ensures r.None? <==> !IsSet(data, key)
    ensures r.Some? ==> Get(data, key) == Some(r.value.raw) && r.value.raw != Null
  {
    if IsSet(data, key) then Some(CastOf(Get(data, key).value)) else None
  }

  /** `$data[key] ?? 'Unknown'`, bound as a string. */
  function LabelField(data: Value, key: string): (r: string)
    ensures !IsSet(data, key) ==> r == "Unknown"
    ensures IsSet(data, key) ==> r == ToStr(Get(data, key).value)
  {
    ToStr(Coalesce(data, key, Str("Unknown")))
  }

  /** The measured columns taken from the payload, each from its own key. */
  function Extract(data: Value): (m: Measurements)
    ensures m.tdsValue.None? <==> !IsSet(data, "tds_val")
    ensures m.phValue.None? <==> !IsSet(data, "ph_val")
    ensures m.turbidityValue.None? <==> !IsSet(data, "turbidity_val")
    ensures m.leadValue.None? <==> !IsSet(data, "lead_val")
    ensures m.colorValue.None? <==> !IsSet(data, "color_val")
    ensures !IsSet(data, "tds_status") ==> m.tdsStatus == "Unknown"
    ensures !IsSet(data, "ph_status") ==> m.phStatus == "Unknown"
    ensures !IsSet(data, "turbidity_status") ==> m.turbidityStatus == "Unknown"
    ensures !IsSet(data, "lead_status") ==> m.leadStatus == "Unknown"
    ensures !IsSet(data, "color_status") ==> m.colorStatus == "Unknown"
    ensures !IsSet(data, "color_result") ==> m.colorResult == "Unknown"
  {
    Measurements(
      NumberField(data, "tds_val"), LabelField(data, "tds_status"),
      NumberField(data, "ph_val"), LabelField(data, "ph_status"),
      NumberField(data, "turbidity_val"), LabelField(data, "turbidity_status"),
      NumberField(data, "lead_val"), LabelField(data, "lead_status"),
      NumberField(data, "color_val"), LabelField(data, "color_status"),
      LabelField(data, "color_result"))
  }

  /**
   * The checks of the handler, in the order it makes them, up to the INSERT:
   * OPTIONS is answered at once; any method but POST gets 405; a payload
   * that is not a non-empty array gets 400; a missing or falsy `sensorId`
   * gets 400; a `sensorId` no station's device id equals gets 404; otherwise
   * the row for the first such station is to be inserted.
   */
  function Decide(requestMethod: string, data: Value, stations: seq<Station>): (d: Decision)
    ensures requestMethod == "OPTIONS" ==> d == Respond(Reply(200, NoBody))
    ensures requestMethod != "OPTIONS" && requestMethod != "POST" ==> d == Respond(MethodNotAllowed)
    ensures requestMethod == "POST" && !IsPayload(data) ==> d == Respond(InvalidPayload)
    ensures requestMethod == "POST" && IsPayload(data) && !HasSensorId(data) ==> d == Respond(MissingSensorId)
    ensures d.Respond? && d.reply.status == 404 <==>
      requestMethod == "POST" && IsPayload(data) && HasSensorId(data)
      && forall i :: 0 <= i < |stations| ==> stations[i].deviceSensorId != ToStr(Get(data, "sensorId").value)
    ensures d.Respond? && d.reply.status == 404 ==>
      d.reply.body == Failure("Station not found for sensor ID: " + ToStr(Get(data, "sensorId").value), Some(RegisterHint))
    ensures d.Insert? <==>
      requestMethod == "POST" && IsPayload(data) && HasSensorId(data)
      && exists i :: 0 <= i < |stations| && stations[i].deviceSensorId == ToStr(Get(data, "sensorId").value)
    ensures d.Insert? ==>
      && d.sensorId == ToStr(Get(data, "sensorId").value)
      && d.values == Extract(data)
      && exists i :: 0 <= i < |stations|
           && stations[i].deviceSensorId == d.sensorId && stations[i].stationId == d.stationId
           && forall j :: 0 <= j < i ==> stations[j].deviceSensorId != d.sensorId
  {
    if requestMethod == "OPTIONS" then Respond(Reply(200, NoBody))
    else if requestMethod != "POST" then Respond(MethodNotAllowed)
    else if !Truthy(data) || !data.Array? then Respond(InvalidPayload)
    else
      var sensorId := Coalesce(data, "sensorId", Null);
      if !Truthy(sensorId) then Respond(MissingSensorId)
      else
        var device := ToStr(sensorId);
        match StationByDevice(stations, device)
        case None =>
          Respond(Reply(404, Failure("Station not found for sensor ID: " + device, Some(RegisterHint))))
        case Some(i) =>
          Insert(stations[i].stationId, device, Extract(data))
  }

  /**
   * The falsy values PHP rejects as a `sensorId`: null, false, 0, 0.0, "",
   * "0" and an empty array all get the 400 for a missing field, present or not.
   */
  lemma FalsySensorIdIsMissing(data: Value, stations: seq<Station>)
    requires IsPayload(data)
    requires Get(data, "sensorId").Some? ==>
      Get(data, "sensorId").value in
        {Null, Bool(false), Int(0), Double(Float("0")), Double(Float("-0")), Str(""), Str("0"), Array(map[])}
    ensures Decide("POST", data, stations) == Respond(MissingSensorId)
  {
  }

  /** The row an Insert decision writes, with the id the counter hands out and the server's clock. */
  function NewReading(d: Decision, id: int, now: string): (r: Reading)
    requires d.Insert?
    ensures r.waterdataId == id && r.timestamp == now
    ensures r.stationId == d.stationId && r.sensorId == d.sensorId && r.values == d.values
  {
    Reading(id, d.stationId, d.sensorId, d.values, now)
  }

  /**
   * An accepted row names the first station registered for its device and
   * carries that device's id, so the tables stay valid and the new row is
   * backed.
   */
  lemma InsertKeepsTablesValid(
    requestMethod: string, data: Value, stations: seq<Station>, readings: seq<Reading>, nextId: int, now: string)
    requires TablesValid(stations, readings, nextId)
    requires Decide(requestMethod, data, stations).Insert?
    ensures TablesValid(stations, readings + [NewReading(Decide(requestMethod, data, stations), nextId, now)], nextId + 1)
    ensures AllBacked(stations, readings) ==>
      AllBacked(stations, readings + [NewReading(Decide(requestMethod, data, stations), nextId, now)])
  {
    var d := Decide(requestMethod, data, stations);
    var i :| 0 <= i < |stations| && stations[i].deviceSensorId == d.sensorId && stations[i].stationId == d.stationId;
    AppendKeepsTablesValid(stations, readings, nextId, i, NewReading(d, nextId, now));
  }

  /**
   * The database of the handler: the station table it reads, the reading
   * table it appends to, and the table's AUTO_INCREMENT counter.
   */
  class Store {
    var stations: seq<Station>
    var readings: seq<Reading>
    var nextId: int

    ghost predicate Valid()
      reads this
    {
      TablesValid(stations, readings, nextId)
    }

    constructor (stations: seq<Station>, readings: seq<Reading>, nextId: int)
      requires TablesValid(stations, readings, nextId)
      ensures Valid()
      ensures this.stations == stations && this.readings == readings && this.nextId == nextId
    {
      this.stations := stations;
      this.readings := readings;
      this.nextId := nextId;
    }

    /**
     * One request to the endpoint, with the decoded body, the server's clock
     * and what the database does with the INSERT. Every answer other than a
     * 200 for a POST leaves the tables as they were; a 200 for a POST appends
     * exactly the decided row under the next id and reports that id.
     */
    method Ingest(requestMethod: string, data: Value, now: string, db: DbOutcome) returns (reply: Reply)
      requires Valid()
      modifies this
      ensures Valid()
      ensures old(AllBacked(stations, readings)) ==> AllBacked(stations, readings)
      ensures stations == old(stations)
      ensures var d := Decide(requestMethod, data, old(stations));
        if d.Insert? && db.Ok? then
          && readings == old(readings) + [NewReading(d, old(nextId), now)]
          && nextId == old(nextId) + 1
          && reply == Reply(200, Success("Data saved successfully", old(nextId), d.stationId, now))
        else
          && readings == old(readings)
          && nextId == old(nextId)
          && (d.Respond? ==> reply == d.reply)
          && (d.Insert? && db.PrepareFailed? ==>
                reply == Reply(500, Failure("Database prepare error: " + db.error, None)))
          && (d.Insert? && db.InsertFailed? ==>
                reply == Reply(500, Failure("Database insert error: " + db.error, None)))
      ensures reply.status != 200 || requestMethod == "OPTIONS" ==> readings == old(readings)
    {
      var d := Decide(requestMethod, data, stations);
      if d.Respond? {
        return d.reply;
      }
      match db {
        case PrepareFailed(e) =>
          reply := Reply(500, Failure("Database prepare error: " + e, None));
        case InsertFailed(e) =>
          reply := Reply(500, Failure("Database insert error: " + e, None));
        case Ok =>
          InsertKeepsTablesValid(requestMethod, data, stations, readings, nextId, now);
          var row := NewReading(d, nextId, now);
          readings := readings + [row];
          reply := Reply(200, Success("Data saved successfully", nextId, d.stationId, now));
          nextId := nextId + 1;
      }
    }
  }
}
