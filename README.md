# Water monitoring: ingestion, report and current user, in Dafny

This project models the request handlers of a small PHP water-quality
monitoring site. The MySQL database is replaced by in-memory tables.

- **Ingestion endpoint** (`ingest.php`). A sensor device POSTs a JSON
  reading. The handler checks the request in a fixed order of early exits:
  request method, payload shape, `sensorId`, then the station whose
  `device_sensor_id` is that `sensorId`. It then fills absent fields with
  defaults and appends one row to `water_data`. The pure chain of checks is
  `Ingest.Decide`. The effect is the method `Ingest.Store.Ingest` on a
  `Store` class, which holds the `refilling_stations` rows, the `water_data`
  rows and the table's AUTO_INCREMENT counter.
- **Report page** (`download.php`). It reads `station_id`, `test_id` and
  `download` from the query string and looks up the reading joined with its
  station. It then produces a CSV attachment or an HTML view, or stops with
  an error message. This is the pure function `Download.Report`.
- **Current user** (`fetch_user.php`). This is the fallback that picks
  `$user`: the admin test record, the stored row, or a guest. It is the pure
  function `FetchUser.ResolveUser`.

The shared PHP semantics live in their own modules:

- `PhpValue`: decoded JSON values, truthiness, `isset`/`??`, and string
  conversion for a `'s'` binding.
- `PhpString`: the `(int)` cast of a string, loose `== '1'`, `strtolower`
  and `htmlspecialchars`.
- `Tables`: the rows, the `LIMIT 1` lookups (the first match in storage
  order) and the integrity the tables keep: distinct keys, ids below the
  AUTO_INCREMENT counter, and every reading's station existing. That a
  reading's `sensor_id` is its station's `device_sensor_id` is no schema
  constraint, so it is a separate invariant (`Tables.AllBacked`) that the
  endpoint preserves.
- `Workflow`: how the handlers meet. A reading the endpoint accepts is the
  one the report exports under the new id.

## Model

| member | source | states |
|---|---|---|
| Search.FirstMatch | ingest.php:52-56 | `LIMIT 1`: the index of the first row in storage order that satisfies the condition; none exactly when no row does |
| Tables.StationByDevice | ingest.php:52-59 | the first station whose `device_sensor_id` is the given id; none iff no station has it |
| Tables.StationById | download.php:22 | the station row a `station_id` joins with; none iff no station has that id |
| Tables.ReadingByIds | download.php:23-24 | the first reading in storage order with both the given station id and reading id; none iff there is none |
| Tables.StationByIdOfMember | download.php:22 | with distinct station ids, a station's own id finds that station |
| Tables.AppendKeepsTablesValid | ingest.php:86-91 | appending a row with the counter's id, for an existing station and with that station's device id, keeps the tables valid (distinct keys, ids below the counter, every reading's station exists) once the counter moves on, and keeps every reading's sensor id that of its station's device when all were so before |
| PhpValue.Truthy | ingest.php:37-45 | for every value but a float or an array, PHP's truth is that its string form is neither empty nor "0" |
| PhpValue.ToStr | ingest.php:53-103 | a string binds as itself, true as "1" and false as "", and a 64-bit int as text that `(int)` reads back as that int |
| Ingest.NumberField | ingest.php:72-76 | a numeric column is NULL iff the key is absent or null; otherwise it is the cast of the stored value, never a made-up zero |
| Ingest.LabelField | ingest.php:78-83 | a label is "Unknown" when the key is absent or null, otherwise the string form of the value |
| Ingest.Extract | ingest.php:72-83 | each of the five values is NULL iff its key is not set; each of the six labels is "Unknown" when its key is not set |
| Ingest.Decide | ingest.php:16-69 | OPTIONS gives 200 with no body; any other method but POST gives 405; a payload that is not a non-empty array gives 400; a missing or falsy `sensorId` gives 400; 404 with the hint iff no station has that device id; an insert iff one does, for the first such station, with `sensorId` as bound and the extracted values |
| Ingest.FalsySensorIdIsMissing | ingest.php:44-49 | null, false, 0, 0.0, -0.0, "", "0" and an empty array as `sensorId` all give the 400 for a missing field |
| Ingest.InsertKeepsTablesValid | ingest.php:52-91 | a decided insert keeps the tables valid, since the new row's station exists, and keeps every reading backed by its station's device id, since the new row's sensor id is that device id |
| Ingest.Store.Ingest | ingest.php:16-133 | the tables stay valid and, when every reading was backed by its station's device id, stay so; the stations are never changed; an answer other than 200 to a POST leaves the readings and the counter as they were; a successful insert appends exactly the decided row under the next id and reports that id, the station and the clock; a failed prepare or insert gives 500 with the database error |
| PhpString.NatToString | download.php:41 | decimal digits, non-empty, with no leading zero |
| PhpString.DigitsValueOfNatToString | download.php:149 | the digits printed for n read back as n |
| PhpString.NumericPrefix | download.php:10-11 | the numeric prefix PHP reads (whitespace, sign, digits, fraction, exponent) ends inside the string |
| PhpString.ToInt | download.php:10-11 | `(int)` of a string lies in the 64-bit range, and is 0 for a string with no leading number |
| PhpString.NumericPrefixOfIntToString | download.php:149 | a printed int parses as a single numeral that spans the whole string |
| PhpString.ToIntOfIntToString | download.php:10-11 | `(int)` of a printed 64-bit int gives that int back |
| PhpString.LooselyEqualsOne | download.php:12 | a string equals '1' exactly when it is numeric and denotes exactly one as a decimal, and its `(int)` cast is then 1; PHP's rounding through a double is left out |
| PhpString.LooselyEqualsOneOfIntToString | download.php:12 | a printed int equals '1' exactly when it is the int 1 |
| PhpString.OneLooselyEqualsOne | download.php:12 | "1" switches download mode on |
| PhpString.LeadingZeroLooselyEqualsOne | download.php:12 | "01" equals '1' under PHP's numeric comparison, so it also switches download mode on |
| PhpString.FractionLooselyEqualsOne | download.php:12 | "1.0" equals '1' as well |
| PhpString.LooselyEqualsOneRejects | download.php:12 | "2" and "-1" do not switch download mode on |
| PhpString.Lower | download.php:119 | `strtolower` keeps the length and lower-cases each character on its own |
| PhpString.HtmlEscape | download.php:90 | the escaped text holds no quote and no angle bracket; text without special characters is unchanged; a special character leaves an entity |
| PhpString.HtmlDecodeOfEscape | download.php:90-102 | decoding the entities gives back exactly the escaped text |
| Download.FindJoined | download.php:19-33 | a joined row exists iff a station has the id and a reading has both ids; the row's reading carries both ids and the station columns come from a station with that id |
| Download.JoinedSensorIdsAgree | download.php:46 | when the tables are valid and every reading is backed by its station's device id, the reading's own `sensor_id` (which the report shows) equals the joined `device_sensor_id` |
| Download.DownloadRequested | download.php:12 | download mode is on only for a numeric `download` value that casts to 1; a value written as an int turns it on exactly when that int is 1 |
| Download.CsvLines | download.php:43-54 | the CSV layout has exactly thirteen lines |
| Download.CsvText | download.php:43-54 | the exported text begins with the title line and its break, and ends with a line break |
| Download.LinesOfUnlines | download.php:43-54 | lines without breaks, each echoed with a break, are read back as the same lines |
| Download.CsvLayout | download.php:43-54 | when no field contains a line break, a reader of the CSV sees the thirteen lines in order: title, Station, Location, Sensor ID, Test Date, blank, header, the five parameter rows with their units, and Color Result |
| Download.TierName | download.php:71-74 | the four styled tier names hold no HTML-special character |
| Download.StatusClassAsWritten | download.php:119 | the class attribute as the template writes it: "status-" followed by the lower-cased status, one character per status character |
| Download.LowerKeepsHtmlSpecial | download.php:119 | lower-casing neither adds nor removes HTML-special characters |
| Download.StatusClassAsWrittenLeaksQuote | download.php:119 | a status that contains a double quote puts that quote into the attribute as written |
| Download.StatusClass | download.php:119-139 | the escaped class attribute holds no quote or angle bracket, and equals the attribute as written for every status without special characters |
| Download.TierOfStatus | download.php:71-74 | a status whose lower-cased form is a tier's name gives its cell that tier's class token; for a status without whitespace or HTML-special characters this is the only way; the measured value plays no part |
| Download.TrailingSpaceIsStyled | download.php:71-74 | "Safe ", which is not the word "safe", still carries the class token `status-safe` |
| Download.UnknownIsUnstyled | download.php:71-74 | the class written for the stored default "Unknown" carries none of the four tiers' class tokens |
| Download.DownloadQuery | download.php:149 | the "Download as CSV" link switches download mode on |
| Download.ResultRowOf | download.php:119 | a status cell's text decodes to the stored status and holds no quote; its class is the one the given class function derives from the status |
| Download.ResultRows | download.php:116-140 | five rows in table order, each with its parameter, its value formatted to its precision with its unit, its stored status, and the class derived from that status alone |
| Download.ViewOf | download.php:84-143 | the page shows the station name, location, the reading's own sensor id, date and colour result exactly as stored, and the five results rows |
| Download.RenderView | download.php:84-143 | the page as written shows every stored text exactly as stored, five status cells each showing its stored status, and each status cell's class `status-` followed by the lower-cased status, unescaped |
| Download.RenderViewLeaksQuote | download.php:119-139 | a stored status holding a double quote puts that quote into its cell's class attribute on the page as written |
| Download.CorrectedRenderView | download.php:84-143 | with the class escaped, the page still shows every stored text as stored, and no status cell's class holds a double quote or an angle bracket |
| Download.CorrectedAgreesOnPlainStatuses | download.php:119-139 | when no status holds an HTML-special character, the escaped page is the page as written |
| Download.Report | download.php:10-55 | "Error: Missing parameters" iff either id is 0 after the cast; "Error: Test data not found" iff the ids are non-zero and nothing joins; CSV iff a row joins and download mode is on, named `water_test_<test_id>.csv` with the row's CSV text; otherwise, when a row joins and download mode is off, exactly the HTML page as written of that row |
| Download.DownloadQueryParams | download.php:149 | the ids written into the download link are read back unchanged |
| Download.ReportOfDownloadQuery | download.php:149 | the download query of ids that join yields the CSV of that row |
| Download.DownloadLinkGivesCsv | download.php:149 | following the HTML page's download link yields the CSV of the very reading the page shows |
| FetchUser.AsAssoc | fetch_user.php:19-26 | a fetched row has exactly the five selected keys and carries its own user id |
| FetchUser.FindUser | fetch_user.php:19-25 | the first user row with the session id; none iff no row has it |
| FetchUser.ResolveUser | fetch_user.php:8-37 | no session user gives the admin record; a failed prepare leaves `$user` unassigned; a found id gives that row, with that user id; an unknown id gives the guest record |
| FetchUser.GuestIsNoRow | fetch_user.php:27-33 | the guest record has no `email` and no `full_name`, so it is neither a fetched row nor the admin record |
| FetchUser.AdminOnlyWithoutSession | fetch_user.php:8-33 | a logged-in user gets the admin record only when the table holds a row identical to it; an unknown user id never gets it |
| Workflow.JoinedAfterInsert | download.php:19-33 | after an append under the counter's id, the report's join for that station and id finds exactly the new reading with its station |
| Workflow.IngestedReadingIsReported | ingest.php:117-126 | after an accepted payload, the download link for the reported station and id exports the new row joined with the station its device belongs to |

## Left out

- Connection setup in `db.php` (credentials, charset, time zone), the HTTP and CORS headers, `error_log`, and JSON encoding of the responses. Responses are a status code with a `Body` datatype.
- JSON decoding. The payload is the value `json_decode($json, true)` returns, with a decoding failure as `Null`.
- Floating point. A decoded JSON float is kept as the text PHP prints for it, and a stored DOUBLE as "the cast of this value". The CSV's float text and `number_format` are parameters of `Download.Report`, and what `number_format` does with a NULL column is left to that parameter.
- The database's behaviour on the INSERT is a parameter (`Ok`, prepare failed, execute failed). A failure of the station lookup statement, and the server's own errors, are not modelled.
- `Ingest.Store.Ingest`: the counter does not advance on a failed insert. InnoDB may use up an id then, which only makes later ids larger.
- The `NOW()` of the INSERT and the `date()` of the response are one clock value, `now`.
- String comparison in the lookups is exact. The default collations compare otherwise: MariaDB's `utf8mb4_general_ci` (the XAMPP server) ignores case, accents and trailing spaces; MySQL 8's `utf8mb4_0900_ai_ci` ignores case and accents but is NO PAD, so trailing spaces count there.
- `Download.IntParam`: query parameters are strings only; PHP's array parameters (`station_id[]=...`) are not modelled.
- PhpString.ToInt: a numeral with a fraction or an exponent is rounded toward zero from its exact decimal value and saturated at the 64-bit bounds, while PHP first rounds it to a double. So `"1e400"` and an integer numeral of 310 or more digits become INF in PHP and then 0 (PHP 8 on 64-bit), where the model gives `IntMax`; and a numeral whose double rounds across an integer (`"0.99999999999999999"`) gives 1 in PHP and 0 in the model. `Download.IntParam` inherits both.
- PhpString.LooselyEqualsOne and Download.DownloadRequested: `== '1'` between two numeric strings compares them as doubles in PHP when either is not an integer numeral, so `"1.00000000000000001"` equals '1' in PHP; the model compares exact decimal values and answers false there.
- Ingest.Store.Ingest and FetchUser.ResolveUser: the 500 replies for a failed prepare or insert, and `$user` left unassigned after a failed prepare, assume mysqli error reporting is off (PHP before 8.1, or `mysqli_report(MYSQLI_REPORT_OFF)`). Since PHP 8.1 the default makes these calls throw `mysqli_sql_exception`, which ends the script with an uncaught error instead.
- Download.TierOfStatus: class tokens are modelled on the attribute text as written. For a status holding whitespace, a quote or an ampersand, the browser splits the attribute into several tokens, ends it early or decodes a character reference, and only the forward direction (a tier-named status is styled as that tier) is stated. Which rule wins when one cell carries several tiers' tokens is not modelled.
- `FetchUser.ResolveUser`: the session's `user_id` is taken as an int, and what the `'i'` binding does to other types is not modelled.
- `strtolower` is modelled for ASCII only, as in PHP 8.2 and later. `htmlspecialchars` is modelled with PHP 8.1's default flags, and invalid UTF-8 is not modelled.
- The HTML template's fixed markup, the stylesheet, and the "Back to Dashboard" link (`dashboard.php` is not part of this model) are left out. The view keeps only the values the template fills in.
- Column widths and types of the tables (VARCHAR lengths, truncation on insert).

## Findings

| source | as written | input that shows it | evidently intended | confidence | as-written member | corrected member |
|---|---|---|---|---|---|---|
| download.php:119 | each status cell's class attribute is `status-` followed by `strtolower` of the stored status, with no escaping. The cell text beside it is escaped | a device sends `"tds_status": "x\" onmouseover=\"alert(1)"`. It is stored as sent, and the report writes the quote into `class="..."`, which closes the attribute and injects markup | the status escaped in the attribute as it is in the cell text, so that no quote or angle bracket reaches the attribute, with unchanged output for ordinary statuses. `Download.Report` keeps the page as written; `Download.CorrectedRenderView` is the escaped page | medium, not executed | Download.RenderViewLeaksQuote | Download.CorrectedRenderView |
