/**
 * The two tables the handlers share: `refilling_stations` and `water_data`,
 * kept in memory as sequences in storage order, with the lookups the
 * handlers' queries perform and the integrity the tables keep.
 */
module Tables {
  import opened Wrappers
  import opened PhpString
  import opened PhpValue
  import opened Search

  /** A row of `refilling_stations`. */
  datatype Station = Station(stationId: int, stationName: string, location: string, deviceSensorId: string)

  /** A DOUBLE column holding `(float)raw`; the double itself is not evaluated. */
  datatype Measure = CastOf(raw: Value)

  /** The measured columns of a reading: a nullable value and a status label per parameter. */
  datatype Measurements = Measurements(
    tdsValue: Option<Measure>, tdsStatus: string,
    phValue: Option<Measure>, phStatus: string,
    turbidityValue: Option<Measure>, turbidityStatus: string,
    leadValue: Option<Measure>, leadStatus: string,
    colorValue: Option<Measure>, colorStatus: string,
    colorResult: string)

  /** A row of `water_data`. */
  datatype Reading = Reading(
    waterdataId: int, stationId: int, sensorId: string,
    values: Measurements, timestamp: string)

  /** `SELECT station_id FROM refilling_stations WHERE device_sensor_id = ? LIMIT 1`. */
  function StationByDevice(stations: seq<Station>, device: string): (r: Option<nat>)
    ensures r.Some? ==> r.value < |stations| && stations[r.value].deviceSensorId == device
    ensures r.Some? ==> forall j :: 0 <= j < r.value ==> stations[j].deviceSensorId != device
    ensures r.None? <==> forall j :: 0 <= j < |stations| ==> stations[j].deviceSensorId != device
  {
    FirstMatch(stations, (st: Station) => st.deviceSensorId == device)
  }

  /** The station row a `station_id` joins with. */
  function StationById(stations: seq<Station>, id: int): (r: Option<nat>)
    ensures r.Some? ==> r.value < |stations| && stations[r.value].stationId == id
    ensures r.None? <==> forall j :: 0 <= j < |stations| ==> stations[j].stationId != id
  {
    FirstMatch(stations, (st: Station) => st.stationId == id)
  }

  /** The first reading with the given station and reading ids. */
  function ReadingByIds(readings: seq<Reading>, stationId: int, waterdataId: int): (r: Option<nat>)
    ensures r.Some? ==> r.value < |readings|
    ensures r.Some? ==> readings[r.value].stationId == stationId && readings[r.value].waterdataId == waterdataId
    ensures r.Some? ==> forall j :: 0 <= j < r.value ==>
      !(readings[j].stationId == stationId && readings[j].waterdataId == waterdataId)
    ensures r.None? <==> forall k :: 0 <= k < |readings| ==>
      !(readings[k].stationId == stationId && readings[k].waterdataId == waterdataId)
  {
    FirstMatch(readings, (rd: Reading) => rd.stationId == stationId && rd.waterdataId == waterdataId)
  }

  /** The primary key of `refilling_stations`: positive, distinct, within PHP's int range. */
  predicate StationIdsValid(stations: seq<Station>) {
    && (forall i :: 0 <= i < |stations| ==> 0 < stations[i].stationId <= IntMax)
    && (forall i, j :: 0 <= i < j < |stations| ==> stations[i].stationId != stations[j].stationId)
  }

  /**
   * A reading is backed by its station: the station it names exists, and the
   * reading's sensor id is that station's device id. The handlers never
   * change a station, so the copy taken at capture stays equal to it; the
   * schema does not enforce this, and the tables may hold readings that are
   * not backed.
   */
  predicate Backed(stations: seq<Station>, r: Reading) {
    var i := StationById(stations, r.stationId);
    i.Some? && stations[i.value].deviceSensorId == r.sensorId
  }

  /** Every reading is backed by its station. */
  predicate AllBacked(stations: seq<Station>, readings: seq<Reading>) {
    forall k :: 0 <= k < |readings| ==> Backed(stations, readings[k])
  }

  /**
   * The state of the two tables and the AUTO_INCREMENT counter of
   * `water_data`: station ids are a key, reading ids are positive, increase
   * in storage order and stay below the counter, and every reading names an
   * existing station (the foreign key).
   */
  predicate TablesValid(stations: seq<Station>, readings: seq<Reading>, nextId: int) {
    && StationIdsValid(stations)
    && 0 < nextId
    && (forall k :: 0 <= k < |readings| ==> 0 < readings[k].waterdataId < nextId)
    && (forall k, l :: 0 <= k < l < |readings| ==> readings[k].waterdataId < readings[l].waterdataId)
    && (forall k :: 0 <= k < |readings| ==> StationById(stations, readings[k].stationId).Some?)
  }

  /** With distinct station ids, a station's own id leads back to it. */
  lemma StationByIdOfMember(stations: seq<Station>, i: nat)
    requires StationIdsValid(stations)
    requires i < |stations|
    ensures StationById(stations, stations[i].stationId) == Some(i)
  {
  }

  /**
   * Appending a reading with the counter's value, for the station found by
   * `sensorId`, keeps the tables valid once the counter moves past it, and
   * keeps every reading backed if every reading was.
   */
  lemma AppendKeepsTablesValid(
    stations: seq<Station>, readings: seq<Reading>, nextId: int, i: nat, r: Reading)
    requires TablesValid(stations, readings, nextId)
    requires i < |stations|
    requires r.waterdataId == nextId
    requires r.stationId == stations[i].stationId && r.sensorId == stations[i].deviceSensorId
    ensures TablesValid(stations, readings + [r], nextId + 1)
    ensures AllBacked(stations, readings) ==> AllBacked(stations, readings + [r])
  {
    StationByIdOfMember(stations, i);
    assert Backed(stations, r);
    var rs := readings + [r];
    forall k | 0 <= k < |rs|
      ensures 0 < rs[k].waterdataId < nextId + 1 && StationById(stations, rs[k].stationId).Some?
      ensures AllBacked(stations, readings) ==> Backed(stations, rs[k])
    {
      if k < |readings| {
        assert rs[k] == readings[k];
      }
    }
  }
}
