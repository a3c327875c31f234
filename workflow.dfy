/**
 * How the two handlers meet: a reading the ingest endpoint accepts is the
 * one the report page finds under the new id and exports.
 */
module Workflow {
  import opened Wrappers
  import opened PhpString
  import opened PhpValue
  import opened Tables
  import opened Ingest
  import opened Download

  /**
   * After a reading is appended under the counter's value, the report's
   * join for its station and that id finds exactly it, with its station.
   */
  lemma {:induction false} JoinedAfterInsert(
    stations: seq<Station>, readings: seq<Reading>, nextId: int, r: Reading, i: nat)
    requires TablesValid(stations, readings, nextId)
    requires r.waterdataId == nextId
    requires i < |stations| && stations[i].stationId == r.stationId
    ensures FindJoined(stations, readings + [r], r.stationId, nextId)
      == Some(Joined(r, stations[i].stationName, stations[i].location, stations[i].deviceSensorId))
  {
    var rs := readings + [r];
    StationByIdOfMember(stations, i);
    assert rs[|readings|] == r;
    forall k | 0 <= k < |readings|
      ensures rs[k].waterdataId != nextId
    {
      assert rs[k] == readings[k];
    }
    assert ReadingByIds(rs, r.stationId, nextId) == Some(|readings|);
  }

  /**
   * After the endpoint accepts a payload under id `nextId`, the report's
   * download link for that station and id exports the new reading (whose
   * sensor id is the payload's `sensorId` and whose date is the server's
   * clock), joined with the station its device belongs to.
   */
  lemma IngestedReadingIsReported(
    requestMethod: string, data: Value, stations: seq<Station>, readings: seq<Reading>, nextId: int,
    now: string, floatText: Measure -> string, numberFormat: (Option<Measure>, nat) -> string)
    requires TablesValid(stations, readings, nextId)
    requires nextId <= IntMax
    requires Decide(requestMethod, data, stations).Insert?
    ensures
      var d := Decide(requestMethod, data, stations);
      var r := NewReading(d, nextId, now);
      var page := Report(DownloadQuery(d.stationId, nextId), stations, readings + [r], floatText, numberFormat);
      exists i :: 0 <= i < |stations| && stations[i].deviceSensorId == r.sensorId
        && page == CsvFile("water_test_" + IntToString(nextId) + ".csv",
             CsvText(Joined(r, stations[i].stationName, stations[i].location, stations[i].deviceSensorId), floatText))
  {
    var d := Decide(requestMethod, data, stations);
    var r := NewReading(d, nextId, now);
    var i :| 0 <= i < |stations| && stations[i].deviceSensorId == d.sensorId && stations[i].stationId == d.stationId;
    JoinedAfterInsert(stations, readings, nextId, r, i);
    ReportOfDownloadQuery(d.stationId, nextId, stations, readings + [r], floatText, numberFormat);
  }
}
