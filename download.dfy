/**
 * The report page: given `station_id` and `test_id` in the query string it
 * looks up the reading joined with its station and renders it either as a
 * CSV attachment (`download=1`) or as an HTML view whose status cells are
 * styled by a CSS class derived from the stored status text.
 */
module Download {
  import opened Wrappers
  import opened PhpString
  import opened Tables

  /** A row of the report query: the reading's columns and its station's name, location and device id. */
  datatype Joined = Joined(reading: Reading, stationName: string, location: string, deviceSensorId: string)

  /**
   * `SELECT w.*, r.station_name, r.location, r.device_sensor_id FROM water_data w
   *  INNER JOIN refilling_stations r ON w.station_id = r.station_id
   *  WHERE w.station_id = ? AND w.waterdata_id = ? LIMIT 1`.
   */
  function FindJoined(stations: seq<Station>, readings: seq<Reading>, stationId: int, testId: int): (r: Option<Joined>)
    ensures r.None? <==>
      || (forall j :: 0 <= j < |stations| ==> stations[j].stationId != stationId)
      || (forall k :: 0 <= k < |readings| ==> !(readings[k].stationId == stationId && readings[k].waterdataId == testId))
    ensures r.Some? ==>
      && r.value.reading in readings
      && r.value.reading.stationId == stationId && r.value.reading.waterdataId == testId
    ensures r.Some? ==>
      exists j :: 0 <= j < |stations| && stations[j].stationId == stationId
        && r.value.stationName == stations[j].stationName && r.value.location == stations[j].location
        && r.value.deviceSensorId == stations[j].deviceSensorId
  {
    match StationById(stations, stationId)
    case None => None
    case Some(j) =>
      match ReadingByIds(readings, stationId, testId)
      case None => None
      case Some(k) =>
        Some(Joined(readings[k], stations[j].stationName, stations[j].location, stations[j].deviceSensorId))
  }

  /**
   * Under the tables' integrity the reading's own `sensor_id`, which the
   * report shows, equals the joined `device_sensor_id`, which it does not.
   */
  lemma {:induction false} JoinedSensorIdsAgree(
    stations: seq<Station>, readings: seq<Reading>, nextId: int, stationId: int, testId: int)
    requires TablesValid(stations, readings, nextId) && AllBacked(stations, readings)
    requires FindJoined(stations, readings, stationId, testId).Some?
    ensures var row := FindJoined(stations, readings, stationId, testId).value;
      row.reading.sensorId == row.deviceSensorId
  {
    var k := ReadingByIds(readings, stationId, testId).value;
    assert Backed(stations, readings[k]);
  }

  // ---------------------------------------------------------------------
  // Query parameters
  // ---------------------------------------------------------------------

  /** `isset($_GET[name]) ? (int)$_GET[name] : 0`. */
  function IntParam(query: map<string, string>, name: string): (i: int)
    ensures name !in query ==> i == 0
    ensures name in query ==> i == ToInt(query[name])
  {
    if name in query then ToInt(query[name]) else 0
  }

  /**
   * `isset($_GET['download']) && $_GET['download'] == '1'`: download mode is
   * on only for a numeric value that casts to 1, and a value written as an
   * int turns it on exactly when that int is 1.
   */
  function DownloadRequested(query: map<string, string>): (b: bool)
    ensures b ==> "download" in query && IsNumeric(query["download"]) && ToInt(query["download"]) == 1
    ensures "download" in query && query["download"] == IntToString(ToInt(query["download"])) ==>
      (b <==> ToInt(query["download"]) == 1)
  {
    if "download" in query then
      LooselyEqualsOneOfIntToString(ToInt(query["download"]));
      LooselyEqualsOne(query["download"])
    else false
  }

  // ---------------------------------------------------------------------
  // CSV export
  // ---------------------------------------------------------------------

  /** A DOUBLE column echoed into the CSV: nothing for NULL, PHP's float text otherwise. */
  function NumberText(v: Option<Measure>, floatText: Measure -> string): string {
    match v
    case None => ""
    case Some(x) => floatText(x)
  }

  /**
   * The report's layout line by line: a title, four header lines, a blank
   * line, the column header, one row per parameter with its unit, and the
   * colour classification.
   */
  function CsvLines(row: Joined, floatText: Measure -> string): (ls: seq<string>)
    ensures |ls| == 13
  {
    var r := row.reading;
    var m := r.values;
    [ "Water Quality Test Report",
      "Station," + row.stationName,
      "Location," + row.location,
      "Sensor ID," + r.sensorId,
      "Test Date," + r.timestamp,
      "",
      "Parameter,Value,Status",
      "TDS," + NumberText(m.tdsValue, floatText) + " mg/L," + m.tdsStatus,
      "pH," + NumberText(m.phValue, floatText) + "," + m.phStatus,
      "Turbidity," + NumberText(m.turbidityValue, floatText) + " NTU," + m.turbidityStatus,
      "Lead," + NumberText(m.leadValue, floatText) + " mg/L," + m.leadStatus,
      "Color," + NumberText(m.colorValue, floatText) + " TCU," + m.colorStatus,
      "Color Result," + m.colorResult ]
  }

  /** One echo of the export: a line of text and its line break. */
  function Line(s: string): string {
    s + "\n"
  }

  /** Each line followed by a line break. */
  function Unlines(ls: seq<string>): string {
    if ls == [] then "" else Line(ls[0]) + Unlines(ls[1..])
  }

  /**
   * The CSV body: each echo writes one line of the layout and its line break
   * (the fifth echo ends in two, which leaves the empty line). Fields go in
   * verbatim, without quoting.
   */
  function CsvText(row: Joined, floatText: Measure -> string): (t: string)
    ensures |t| >= |"Water Quality Test Report\n"|
    ensures t[..|"Water Quality Test Report\n"|] == "Water Quality Test Report\n"
    ensures t[|t| - 1] == '\n'
  {
    var ls := CsvLines(row, floatText);
    UnlinesEndsWithBreak(ls);
    Unlines(ls)
  }

  /** Echoing at least one line leaves the output ending in a line break. */
  lemma {:induction false} UnlinesEndsWithBreak(ls: seq<string>)
    requires ls != []
    ensures |Unlines(ls)| > 0 && Unlines(ls)[|Unlines(ls)| - 1] == '\n'
  {
    if ls[1..] != [] {
      UnlinesEndsWithBreak(ls[1..]);
    }
  }

  /** The index of the first line break at or after i, or |s| when there is none. */
  function LineEnd(s: string, i: nat): (j: nat)
    requires i <= |s|
    ensures i <= j <= |s|
    ensures forall k :: i <= k < j ==> s[k] != '\n'
    ensures j < |s| ==> s[j] == '\n'
    decreases |s| - i
  {
    if i < |s| && s[i] != '\n' then LineEnd(s, i + 1) else i
  }

  /** The lines a CSV reader sees: the text cut at each line break. */
  function Lines(s: string): seq<string>
    decreases |s|
  {
    if s == [] then []
    else
      var j := LineEnd(s, 0);
      if j == |s| then [s] else [s[..j]] + Lines(s[j + 1..])
  }

  lemma {:induction false} LinesOfUnlines(ls: seq<string>)
    requires forall k :: 0 <= k < |ls| ==> '\n' !in ls[k]
    ensures Lines(Unlines(ls)) == ls
  {
    if ls != [] {
      var s := Unlines(ls);
      var n := |ls[0]|;
      var rest := Unlines(ls[1..]);
      assert s == ls[0] + "\n" + rest;
      var j := LineEnd(s, 0);
      assert s[n] == '\n';
      assert j == n;
      assert s[..n] == ls[0];
      assert s[n + 1..] == rest;
      LinesOfUnlines(ls[1..]);
    }
  }

  /**
   * When no field holds a line break, a reader of the CSV text finds exactly
   * the thirteen lines of the layout, in order.
   */
  lemma CsvLayout(row: Joined, floatText: Measure -> string)
    requires forall k :: 0 <= k < 13 ==> '\n' !in CsvLines(row, floatText)[k]
    ensures Lines(CsvText(row, floatText)) == CsvLines(row, floatText)
  {
    LinesOfUnlines(CsvLines(row, floatText));
  }

  // ---------------------------------------------------------------------
  // HTML view
  // ---------------------------------------------------------------------

  /** The four status tiers the page's stylesheet colours (`.status-safe` ... `.status-failed`). */
  datatype Tier = Safe | Neutral | Warning | Failed

  function TierName(t: Tier): (name: string)
    ensures !HasHtmlSpecial(name)
  {
    match t
    case Safe => "safe"
    case Neutral => "neutral"
    case Warning => "warning"
    case Failed => "failed"
  }

  /** The characters HTML separates the tokens of a class attribute with. */
  predicate IsHtmlSpace(c: char) {
    c == ' ' || c == '\t' || c == '\n' || c == '\U{000C}' || c == '\r'
  }

  /** The attribute value lists `name` as one of its whitespace-separated class tokens. */
  predicate HasClass(attr: string, name: string) {
    exists i, j :: 0 <= i <= j <= |attr| && attr[i..j] == name
      && (i == 0 || IsHtmlSpace(attr[i - 1])) && (j == |attr| || IsHtmlSpace(attr[j]))
  }

  /** A cell with this class attribute is coloured by the tier's rule `.status-<tier>`. */
  predicate Styled(attr: string, t: Tier) {
    HasClass(attr, "status-" + TierName(t))
  }

  /**
   * A status the browser reads back unchanged from the class attribute: no
   * separator splits it into several tokens, and no quote, ampersand or
   * angle bracket ends the attribute or is decoded as a character reference.
   */
  predicate PlainStatus(status: string) {
    !HasHtmlSpecial(status) && forall i :: 0 <= i < |status| ==> !IsHtmlSpace(status[i])
  }

  /**
   * The class attribute of a status cell as the template writes it:
   * `status-` and the lower-cased stored status, with no escaping. A quote
   * in the status therefore closes the attribute.
   */
  function StatusClassAsWritten(status: string): (c: string)
    ensures |c| == |"status-"| + |status|
  {
    "status-" + Lower(status)
  }

  /** Lower-casing keeps exactly the characters HTML escaping cares about. */
  lemma {:induction false} LowerKeepsHtmlSpecial(s: string)
    ensures HasHtmlSpecial(Lower(s)) <==> HasHtmlSpecial(s)
  {
    var l := Lower(s);
    if HasHtmlSpecial(s) {
      var i :| 0 <= i < |s| && IsHtmlSpecial(s[i]);
      assert IsHtmlSpecial(l[i]);
    }
    if HasHtmlSpecial(l) {
      var i :| 0 <= i < |l| && IsHtmlSpecial(l[i]);
      assert IsHtmlSpecial(s[i]);
    }
  }

  /** A stored status holding a double quote puts that quote into the attribute as written. */
  lemma {:induction false} StatusClassAsWrittenLeaksQuote(status: string)
    requires '"' in status
    ensures '"' in StatusClassAsWritten(status)
  {
    var i :| 0 <= i < |status| && status[i] == '"';
    var c := StatusClassAsWritten(status);
    assert c[|"status-"| + i] == Lower(status)[i] == '"';
  }

  /** An attribute without separators holds one class token: itself. */
  lemma {:induction false} SingleToken(attr: string, name: string)
    requires forall i :: 0 <= i < |attr| ==> !IsHtmlSpace(attr[i])
    ensures HasClass(attr, name) <==> attr == name
  {
    if attr == name {
      assert attr[0..|attr|] == name;
    }
    if HasClass(attr, name) {
      var i, j :| 0 <= i <= j <= |attr| && attr[i..j] == name
        && (i == 0 || IsHtmlSpace(attr[i - 1])) && (j == |attr| || IsHtmlSpace(attr[j]));
      assert i == 0;
      assert j == |attr|;
      assert attr == attr[i..j];
    }
  }

  /** The class written for a plain status is a single token: it holds no separator. */
  lemma PlainClassHasNoSpace(status: string)
    requires PlainStatus(status)
    ensures forall i :: 0 <= i < |StatusClassAsWritten(status)| ==> !IsHtmlSpace(StatusClassAsWritten(status)[i])
  {
    var c := StatusClassAsWritten(status);
    forall i | 0 <= i < |c|
      ensures !IsHtmlSpace(c[i])
    {
      if i >= |"status-"| {
        assert c[i] == Lower(status)[i - |"status-"|];
        assert !IsHtmlSpace(status[i - |"status-"|]);
      }
    }
  }

  /**
   * A status whose lower-cased form is a tier's name colours its cell as that
   * tier ("Safe", "SAFE" and "safe" all select `.status-safe`); for a plain
   * status this is the only way, and nothing about the measured value takes part.
   */
  lemma TierOfStatus(status: string, t: Tier)
    ensures Lower(status) == TierName(t) ==> Styled(StatusClassAsWritten(status), t)
    ensures PlainStatus(status) ==> (Styled(StatusClassAsWritten(status), t) <==> Lower(status) == TierName(t))
  {
    var c := StatusClassAsWritten(status);
    if Lower(status) == TierName(t) {
      assert c[0..|c|] == "status-" + TierName(t);
    }
    if PlainStatus(status) {
      PlainClassHasNoSpace(status);
      SingleToken(c, "status-" + TierName(t));
      if c == "status-" + TierName(t) {
        assert Lower(status) == c[|"status-"|..];
      }
    }
  }

  /**
   * A status that only begins with a tier's name is still coloured as that
   * tier: with a trailing space, "Safe " selects `.status-safe` although it
   * is not the word "safe".
   */
  lemma TrailingSpaceIsStyled()
    ensures Lower("Safe ") != TierName(Safe)
    ensures Styled(StatusClassAsWritten("Safe "), Safe)
  {
    var c := StatusClassAsWritten("Safe ");
    assert Lower("Safe ") == "safe ";
    assert c[0..11] == "status-safe" && IsHtmlSpace(c[11]);
  }

  /** The stored default "Unknown" selects none of the four tiers. */
  lemma UnknownIsUnstyled(t: Tier)
    ensures !Styled(StatusClassAsWritten("Unknown"), t)
  {
    assert !HasHtmlSpecial("Unknown");
    assert PlainStatus("Unknown");
    TierOfStatus("Unknown", t);
    assert Lower("Unknown")[0] == 'u';
  }

  /**
   * The class attribute with the status escaped as the cell text already is:
   * no quote or angle bracket can reach the attribute, and for every status
   * without HTML-special characters it is the attribute as written.
   */
  function StatusClass(status: string): (c: string)
    ensures forall i :: 0 <= i < |c| ==> c[i] != '"' && c[i] != '\'' && c[i] != '<' && c[i] != '>'
    ensures !HasHtmlSpecial(status) ==> c == StatusClassAsWritten(status)
  {
    LowerKeepsHtmlSpecial(status);
    "status-" + HtmlEscape(Lower(status))
  }

  /** A row of the results table: parameter, formatted value with its unit, status cell class, status text. */
  datatype ResultRow = ResultRow(parameter: string, value: string, statusClass: string, status: string)

  /**
   * What the page shows: the test id, the four header cells, the five result
   * rows, the colour classification, and the query the "Download as CSV"
   * link sends back to this page.
   */
  datatype View = View(
    testId: string, stationName: string, location: string, sensorId: string, testDate: string,
    results: seq<ResultRow>, colorResult: string, downloadQuery: map<string, string>)

  /** The query string of `?station_id=<id>&test_id=<id>&download=1`. */
  function DownloadQuery(stationId: int, testId: int): (q: map<string, string>)
    ensures DownloadRequested(q)
  {
    OneLooselyEqualsOne();
    map["station_id" := IntToString(stationId), "test_id" := IntToString(testId), "download" := "1"]
  }

  /** The results table's parameters, in order, with the unit after each value and the decimals it is shown with. */
  const Parameters := ["TDS", "pH", "Turbidity", "Lead", "Color"]
  const Units := [" mg/L", "", " NTU", " mg/L", " TCU"]
  const Decimals: seq<nat> := [1, 2, 2, 4, 1]

  /** The five stored values, in the order of the results table. */
  function Values(m: Measurements): seq<Option<Measure>> {
    [m.tdsValue, m.phValue, m.turbidityValue, m.leadValue, m.colorValue]
  }

  /** The five stored statuses, in the order of the results table. */
  function Statuses(m: Measurements): seq<string> {
    [m.tdsStatus, m.phStatus, m.turbidityStatus, m.leadStatus, m.colorStatus]
  }

  /** A status row: the class `classOf` derives from the status, and the status escaped, which holds no quote. */
  function ResultRowOf(parameter: string, value: string, status: string, classOf: string -> string): (r: ResultRow)
    ensures '"' !in r.status
    ensures HtmlDecode(r.status) == status
    ensures r.parameter == parameter && r.value == value && r.statusClass == classOf(status)
  {
    HtmlDecodeOfEscape(status);
    ResultRow(parameter, value, classOf(status), HtmlEscape(status))
  }

  /**
   * The results table: per parameter its name, its value formatted with its
   * precision and unit, and its status. A reader sees each stored status as
   * stored, next to the class `classOf` derives from that status alone.
   */
  function ResultRows(m: Measurements, numberFormat: (Option<Measure>, nat) -> string, classOf: string -> string): (rows: seq<ResultRow>)
    ensures |rows| == 5
    ensures forall k :: 0 <= k < 5 ==> rows[k].parameter == Parameters[k]
    ensures forall k :: 0 <= k < 5 ==> rows[k].value == numberFormat(Values(m)[k], Decimals[k]) + Units[k]
    ensures forall k :: 0 <= k < 5 ==> HtmlDecode(rows[k].status) == Statuses(m)[k]
    ensures forall k :: 0 <= k < 5 ==> rows[k].statusClass == classOf(Statuses(m)[k])
  {
    var rows := seq(5, k requires 0 <= k < 5 =>
      ResultRowOf(Parameters[k], numberFormat(Values(m)[k], Decimals[k]) + Units[k], Statuses(m)[k], classOf));
    assert forall k :: 0 <= k < 5 ==>
      rows[k] == ResultRowOf(Parameters[k], numberFormat(Values(m)[k], Decimals[k]) + Units[k], Statuses(m)[k], classOf);
    rows
  }

  /**
   * The HTML report for a joined row, with the status classes `classOf`
   * writes: a reader sees every stored text exactly as stored, the sensor id
   * being the reading's own column.
   */
  function ViewOf(
    row: Joined, stationId: int, testId: int,
    numberFormat: (Option<Measure>, nat) -> string, classOf: string -> string): (v: View)
    ensures HtmlDecode(v.stationName) == row.stationName
    ensures HtmlDecode(v.location) == row.location
    ensures HtmlDecode(v.sensorId) == row.reading.sensorId
    ensures HtmlDecode(v.testDate) == row.reading.timestamp
    ensures HtmlDecode(v.colorResult) == row.reading.values.colorResult
    ensures v.results == ResultRows(row.reading.values, numberFormat, classOf)
  {
    HtmlDecodeOfEscape(row.stationName);
    HtmlDecodeOfEscape(row.location);
    HtmlDecodeOfEscape(row.reading.sensorId);
    HtmlDecodeOfEscape(row.reading.timestamp);
    HtmlDecodeOfEscape(row.reading.values.colorResult);
    View(
      IntToString(testId),
      HtmlEscape(row.stationName), HtmlEscape(row.location),
      HtmlEscape(row.reading.sensorId), HtmlEscape(row.reading.timestamp),
      ResultRows(row.reading.values, numberFormat, classOf),
      HtmlEscape(row.reading.values.colorResult),
      DownloadQuery(stationId, testId))
  }

  /**
   * The page as the template writes it: every stored text shown as stored,
   * and each status cell's class `status-` followed by the lower-cased
   * status, unescaped.
   */
  function RenderView(row: Joined, stationId: int, testId: int, numberFormat: (Option<Measure>, nat) -> string): (v: View)
    ensures HtmlDecode(v.stationName) == row.stationName && HtmlDecode(v.location) == row.location
    ensures HtmlDecode(v.sensorId) == row.reading.sensorId && HtmlDecode(v.testDate) == row.reading.timestamp
    ensures HtmlDecode(v.colorResult) == row.reading.values.colorResult
    ensures |v.results| == 5
    ensures forall k :: 0 <= k < 5 ==> HtmlDecode(v.results[k].status) == Statuses(row.reading.values)[k]
    ensures forall k :: 0 <= k < 5 ==> v.results[k].statusClass == "status-" + Lower(Statuses(row.reading.values)[k])
  {
    ViewOf(row, stationId, testId, numberFormat, StatusClassAsWritten)
  }

  /** A status holding a double quote reaches its cell's class attribute on the page as written. */
  lemma RenderViewLeaksQuote(row: Joined, stationId: int, testId: int, numberFormat: (Option<Measure>, nat) -> string, k: nat)
    requires k < 5 && '"' in Statuses(row.reading.values)[k]
    ensures '"' in RenderView(row, stationId, testId, numberFormat).results[k].statusClass
  {
    StatusClassAsWrittenLeaksQuote(Statuses(row.reading.values)[k]);
  }

  /**
   * The page with each status escaped in its class attribute as in its cell:
   * every stored text is still shown as stored, and no class attribute holds
   * a quote or an angle bracket, whatever a device stored.
   */
  function CorrectedRenderView(row: Joined, stationId: int, testId: int, numberFormat: (Option<Measure>, nat) -> string): (v: View)
    ensures HtmlDecode(v.stationName) == row.stationName && HtmlDecode(v.location) == row.location
    ensures HtmlDecode(v.sensorId) == row.reading.sensorId && HtmlDecode(v.testDate) == row.reading.timestamp
    ensures HtmlDecode(v.colorResult) == row.reading.values.colorResult
    ensures |v.results| == 5
    ensures forall k :: 0 <= k < 5 ==> HtmlDecode(v.results[k].status) == Statuses(row.reading.values)[k]
    ensures forall k :: 0 <= k < 5 ==> '"' !in v.results[k].statusClass && '<' !in v.results[k].statusClass
  {
    ViewOf(row, stationId, testId, numberFormat, StatusClass)
  }

  /** For statuses without HTML-special characters the corrected page is the page as written. */
  lemma CorrectedAgreesOnPlainStatuses(row: Joined, stationId: int, testId: int, numberFormat: (Option<Measure>, nat) -> string)
    requires forall k :: 0 <= k < 5 ==> !HasHtmlSpecial(Statuses(row.reading.values)[k])
    ensures CorrectedRenderView(row, stationId, testId, numberFormat) == RenderView(row, stationId, testId, numberFormat)
  {
    var m := row.reading.values;
    var a := ResultRows(m, numberFormat, StatusClass);
    var b := ResultRows(m, numberFormat, StatusClassAsWritten);
    forall k | 0 <= k < 5
      ensures a[k] == b[k]
    {
      HtmlDecodeOfEscape(Statuses(m)[k]);
    }
    assert a == b;
  }


  // ---------------------------------------------------------------------
  // The request
  // ---------------------------------------------------------------------

  /** What the request produces: a `die` message, a CSV attachment, or the HTML report. */
  datatype Page = Died(message: string) | CsvFile(filename: string, content: string) | HtmlPage(view: View)

  const MissingParameters := "Error: Missing parameters"
  const NotFound := "Error: Test data not found"

  /**
   * One request to the report page, given its query string and the tables.
   * PHP's text of a DOUBLE and `number_format` are parameters.
   */
  function Report(
    query: map<string, string>, stations: seq<Station>, readings: seq<Reading>,
    floatText: Measure -> string, numberFormat: (Option<Measure>, nat) -> string): (p: Page)
    ensures p == Died(MissingParameters) <==>
      IntParam(query, "station_id") == 0 || IntParam(query, "test_id") == 0
    ensures p == Died(NotFound) <==>
      && IntParam(query, "station_id") != 0 && IntParam(query, "test_id") != 0
      && FindJoined(stations, readings, IntParam(query, "station_id"), IntParam(query, "test_id")).None?
    ensures p.CsvFile? <==>
      && IntParam(query, "station_id") != 0 && IntParam(query, "test_id") != 0
      && FindJoined(stations, readings, IntParam(query, "station_id"), IntParam(query, "test_id")).Some?
      && DownloadRequested(query)
    ensures p.CsvFile? ==>
      && p.filename == "water_test_" + IntToString(IntParam(query, "test_id")) + ".csv"
      && p.content == CsvText(FindJoined(stations, readings, IntParam(query, "station_id"), IntParam(query, "test_id")).value, floatText)
    ensures p.HtmlPage? ==>
      var sid := IntParam(query, "station_id");
      var tid := IntParam(query, "test_id");
      && FindJoined(stations, readings, sid, tid).Some?
      && !DownloadRequested(query)
      && p.view == RenderView(FindJoined(stations, readings, sid, tid).value, sid, tid, numberFormat)
    ensures
      var sid := IntParam(query, "station_id");
      var tid := IntParam(query, "test_id");
      sid != 0 && tid != 0 && FindJoined(stations, readings, sid, tid).Some? && !DownloadRequested(query) ==>
        p == HtmlPage(RenderView(FindJoined(stations, readings, sid, tid).value, sid, tid, numberFormat))
  {
    var stationId := IntParam(query, "station_id");
    var testId := IntParam(query, "test_id");
    if stationId == 0 || testId == 0 then Died(MissingParameters)
    else
      match FindJoined(stations, readings, stationId, testId)
      case None => Died(NotFound)
      case Some(row) =>
        if DownloadRequested(query) then
          CsvFile("water_test_" + IntToString(testId) + ".csv", CsvText(row, floatText))
        else
          HtmlPage(RenderView(row, stationId, testId, numberFormat))
  }

  /** The page reads back from the download query the ids written into it. */
  lemma DownloadQueryParams(stationId: int, testId: int)
    requires IntMin <= stationId <= IntMax && IntMin <= testId <= IntMax
    ensures IntParam(DownloadQuery(stationId, testId), "station_id") == stationId
    ensures IntParam(DownloadQuery(stationId, testId), "test_id") == testId
  {
    var q := DownloadQuery(stationId, testId);
    assert IntParam(q, "station_id") == stationId by {
      assert q["station_id"] == IntToString(stationId);
      ToIntOfIntToString(stationId);
    }
    assert IntParam(q, "test_id") == testId by {
      assert q["test_id"] == IntToString(testId);
      ToIntOfIntToString(testId);
    }
  }

  /** The download query of a station and reading that join exports that row's CSV. */
  lemma ReportOfDownloadQuery(
    stationId: int, testId: int, stations: seq<Station>, readings: seq<Reading>,
    floatText: Measure -> string, numberFormat: (Option<Measure>, nat) -> string)
    requires stationId != 0 && IntMin <= stationId <= IntMax
    requires testId != 0 && IntMin <= testId <= IntMax
    requires FindJoined(stations, readings, stationId, testId).Some?
    ensures Report(DownloadQuery(stationId, testId), stations, readings, floatText, numberFormat)
      == CsvFile("water_test_" + IntToString(testId) + ".csv",
                 CsvText(FindJoined(stations, readings, stationId, testId).value, floatText))
  {
    DownloadQueryParams(stationId, testId);
  }

  /** Following the page's "Download as CSV" link yields the CSV of the very reading the page shows. */
  lemma DownloadLinkGivesCsv(
    query: map<string, string>, stations: seq<Station>, readings: seq<Reading>,
    floatText: Measure -> string, numberFormat: (Option<Measure>, nat) -> string)
    requires Report(query, stations, readings, floatText, numberFormat).HtmlPage?
    ensures var sid := IntParam(query, "station_id");
      var tid := IntParam(query, "test_id");
      Report(Report(query, stations, readings, floatText, numberFormat).view.downloadQuery,
             stations, readings, floatText, numberFormat)
      == CsvFile("water_test_" + IntToString(tid) + ".csv", CsvText(FindJoined(stations, readings, sid, tid).value, floatText))
  {
    var sid := IntParam(query, "station_id");
    var tid := IntParam(query, "test_id");
    ReportOfDownloadQuery(sid, tid, stations, readings, floatText, numberFormat);
  }
}
