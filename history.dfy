/**
 * The read side of the server: `GET /api/data-history` parses a day's files
 * back into rows, and `GET /api/download-csv` chooses between a stored file
 * and a header-only body.
 *
 * The target day is the `date` query parameter, or the day of the clock
 * reading `nowIso` when that is absent or empty. `Date.parse` of a server
 * timestamp, used by the sort, is the function `timeOf`.
 */
module History {
  import opened Js
  import opened Layout
  import opened Correlation
  import opened Ingest

  /** One parsed line. Fields past the end of the line are `undefined`: None.
      The sensor fields hold the text handed to `parseFloat`. The stream tag
      is present only on rows of an untyped query. */
  datatype HistoryRow = HistoryRow(
    serverTimestamp: string, esp32Timestamp: Option<string>, deviceId: Option<string>,
    sensor1: Option<string>, sensor2: Option<string>, sensor3: Option<string>,
    sensorType: Option<Stream>)

  function Field(values: seq<string>, i: nat): Option<string>
  {
    if i < |values| then Some(values[i]) else None
  }

  /** `line.split(',')` read by position. */
  function ParseLine(line: string, tag: Option<Stream>): (r: HistoryRow)
    ensures r.sensorType == tag
    ensures ',' !in r.serverTimestamp
    ensures |r.serverTimestamp| <= |line| && line[..|r.serverTimestamp|] == r.serverTimestamp
    ensures |r.serverTimestamp| < |line| ==> line[|r.serverTimestamp|] == ','
    ensures var values := Split(line, ',');
      && r.serverTimestamp == values[0]
      && r.esp32Timestamp == (if 1 < |values| then Some(values[1]) else None)
      && r.deviceId == (if 2 < |values| then Some(values[2]) else None)
      && r.sensor1 == (if 3 < |values| then Some(values[3]) else None)
      && r.sensor2 == (if 4 < |values| then Some(values[4]) else None)
      && r.sensor3 == (if 5 < |values| then Some(values[5]) else None)
    ensures r.deviceId.Some? <==> |Split(line, ',')| >= 3
  {
    PrefixBeforeFacts(line, ',');
    var values := Split(line, ',');
    HistoryRow(values[0], Field(values, 1), Field(values, 2),
               Field(values, 3), Field(values, 4), Field(values, 5), tag)
  }

  /** The lines after the header. */
  function DataLines(lines: seq<string>): seq<string>
  {
    if |lines| == 0 then [] else lines[1..]
  }

  /** `lines.slice(1).map(...)`: one row per data line, in file order. */
  function ParseFile(lines: seq<string>, tag: Option<Stream>): (r: seq<HistoryRow>)
    ensures |r| == |DataLines(lines)|
    ensures forall i :: 0 <= i < |r| ==> r[i] == ParseLine(DataLines(lines)[i], tag)
  {
    var d := DataLines(lines);
    seq(|d|, i requires 0 <= i < |d| => ParseLine(d[i], tag))
  }

  /** A raw row the server wrote reads back, by position, as the values it
      was written from; the header line is not read as data. */
  lemma ParseRawRow(stream: Stream, serverTs: string, esp32Ts: string, p: Payload, tag: Option<Stream>)
    requires stream.Current? ==> NoComma(CurrentRawFields(serverTs, esp32Ts, p))
    requires stream.Temperature? ==> NoComma(TemperatureRawFields(serverTs, esp32Ts, p))
    ensures var r := ParseLine(RawRow(stream, serverTs, esp32Ts, p), tag);
      && r.serverTimestamp == serverTs && r.esp32Timestamp == Some(esp32Ts)
      && r.deviceId == Some(Text(p.deviceId))
      && (stream.Current? ==>
            r.sensor1 == Some(Text(p.sensor1)) && r.sensor2 == Some(Text(p.sensor2)) &&
            r.sensor3 == Some(Text(p.sensor3)))
      && (stream.Temperature? ==>
            r.sensor1 == Some(Text(OrSentinel(p.sensor1))) && r.sensor2 == Some(Text(OrSentinel(p.sensor2))) &&
            r.sensor3 == Some(Text(OrSentinel(p.sensor3))))
  {
    match stream
    case Current => SplitJoin(CurrentRawFields(serverTs, esp32Ts, p), ',');
    case Temperature => SplitJoin(TemperatureRawFields(serverTs, esp32Ts, p), ',');
  }

  lemma ParseFileOfRows(header: string, rows: seq<string>, tag: Option<Stream>)
    ensures ParseFile([header] + rows, tag) == seq(|rows|, i requires 0 <= i < |rows| => ParseLine(rows[i], tag))
  {
    assert DataLines([header] + rows) == rows;
  }

  /** `data.filter(item => item.deviceId === deviceId)`. */
  function ByDevice(rows: seq<HistoryRow>, id: string): (r: seq<HistoryRow>)
    ensures forall x :: x in r <==> x in rows && x.deviceId == Some(id)
    ensures |r| <= |rows|
  {
    if |rows| == 0 then []
    else
      var rest := ByDevice(rows[1..], id);
      assert forall x :: x in rows <==> x == rows[0] || x in rows[1..];
      if rows[0].deviceId == Some(id) then [rows[0]] + rest else rest
  }

  /** The filter applies only when the query names a device (a non-empty string). */
  function DeviceFilter(rows: seq<HistoryRow>, deviceId: Option<string>): seq<HistoryRow>
  {
    if deviceId.Some? && deviceId.value != "" then ByDevice(rows, deviceId.value) else rows
  }

  lemma {:induction false} ByDeviceAppend(a: seq<HistoryRow>, b: seq<HistoryRow>, id: string)
    ensures ByDevice(a + b, id) == ByDevice(a, id) + ByDevice(b, id)
    decreases |a|
  {
    if |a| == 0 {
      assert a + b == b;
    } else {
      assert (a + b)[1..] == a[1..] + b;
      ByDeviceAppend(a[1..], b, id);
    }
  }

  // ---------------------------------------------------------------------
  // `data.sort((a, b) => new Date(a.serverTimestamp) - new Date(b.serverTimestamp))`:
  // ascending time, and stable, so rows with the same time keep their order.

  function Key(x: HistoryRow, timeOf: string -> int): int
  {
    timeOf(x.serverTimestamp)
  }

  predicate SortedByTime(s: seq<HistoryRow>, timeOf: string -> int)
  {
    forall i, j :: 0 <= i < j < |s| ==> Key(s[i], timeOf) <= Key(s[j], timeOf)
  }

  /** The rows of one server time, in order. */
  function AtTime(s: seq<HistoryRow>, k: int, timeOf: string -> int): seq<HistoryRow>
  {
    if |s| == 0 then []
    else (if Key(s[0], timeOf) == k then [s[0]] else []) + AtTime(s[1..], k, timeOf)
  }

  /** Put `x` before the first row that is not earlier. */
  function InsertByTime(x: HistoryRow, s: seq<HistoryRow>, timeOf: string -> int): (r: seq<HistoryRow>)
    ensures multiset(r) == multiset(s) + multiset{x}
    ensures |r| == |s| + 1
  {
    if |s| == 0 then [x]
    else if Key(x, timeOf) <= Key(s[0], timeOf) then [x] + s
    else
      assert s == [s[0]] + s[1..];
      [s[0]] + InsertByTime(x, s[1..], timeOf)
  }

  function SortByTime(s: seq<HistoryRow>, timeOf: string -> int): (r: seq<HistoryRow>)
    ensures multiset(r) == multiset(s)
  {
    if |s| == 0 then []
    else
      assert s == [s[0]] + s[1..];
      InsertByTime(s[0], SortByTime(s[1..], timeOf), timeOf)
  }

  /** A bound below `x` and every row of `s` bounds the insertion too. */
  lemma {:induction false} InsertByTimeBound(x: HistoryRow, s: seq<HistoryRow>, b: int, timeOf: string -> int)
    requires b <= Key(x, timeOf)
    requires forall j :: 0 <= j < |s| ==> b <= Key(s[j], timeOf)
    ensures forall j :: 0 <= j < |InsertByTime(x, s, timeOf)| ==> b <= Key(InsertByTime(x, s, timeOf)[j], timeOf)
    decreases |s|
  {
    if |s| > 0 && Key(x, timeOf) > Key(s[0], timeOf) {
      InsertByTimeBound(x, s[1..], b, timeOf);
      var u := InsertByTime(x, s[1..], timeOf);
      assert forall j :: 0 < j < |u| + 1 ==> ([s[0]] + u)[j] == u[j - 1];
    }
  }

  lemma SortedTail(s: seq<HistoryRow>, timeOf: string -> int)
    requires SortedByTime(s, timeOf) && |s| > 0
    ensures SortedByTime(s[1..], timeOf)
    ensures forall j :: 0 <= j < |s[1..]| ==> Key(s[0], timeOf) <= Key(s[1..][j], timeOf)
  {
    var t := s[1..];
    forall i, j | 0 <= i < j < |t| ensures Key(t[i], timeOf) <= Key(t[j], timeOf) {
      assert t[i] == s[i + 1] && t[j] == s[j + 1];
    }
    forall j | 0 <= j < |t| ensures Key(s[0], timeOf) <= Key(t[j], timeOf) {
      assert t[j] == s[j + 1];
    }
  }

  /** A sorted sequence with a row in front no later than any of its rows is sorted. */
  lemma SortedCons(y: HistoryRow, u: seq<HistoryRow>, timeOf: string -> int)
    requires SortedByTime(u, timeOf)
    requires forall j :: 0 <= j < |u| ==> Key(y, timeOf) <= Key(u[j], timeOf)
    ensures SortedByTime([y] + u, timeOf)
  {
    var r := [y] + u;
    forall i, j | 0 <= i < j < |r| ensures Key(r[i], timeOf) <= Key(r[j], timeOf) {
      assert r[j] == u[j - 1];
      if i > 0 {
        assert r[i] == u[i - 1];
      }
    }
  }

  lemma {:induction false} InsertByTimeSorted(x: HistoryRow, s: seq<HistoryRow>, timeOf: string -> int)
    requires SortedByTime(s, timeOf)
    ensures SortedByTime(InsertByTime(x, s, timeOf), timeOf)
    decreases |s|
  {
    if |s| > 0 {
      SortedTail(s, timeOf);
      if Key(x, timeOf) > Key(s[0], timeOf) {
        InsertByTimeSorted(x, s[1..], timeOf);
        InsertByTimeBound(x, s[1..], Key(s[0], timeOf), timeOf);
        SortedCons(s[0], InsertByTime(x, s[1..], timeOf), timeOf);
      } else {
        assert s == [s[0]] + s[1..];
        SortedCons(x, s, timeOf);
      }
    }
  }

  lemma {:induction false} SortByTimeSorted(s: seq<HistoryRow>, timeOf: string -> int)
    ensures SortedByTime(SortByTime(s, timeOf), timeOf)
    decreases |s|
  {
    if |s| > 0 {
      SortByTimeSorted(s[1..], timeOf);
      InsertByTimeSorted(s[0], SortByTime(s[1..], timeOf), timeOf);
    }
  }

  /** In a sorted sequence, the rows before a row of time at least `k` in
      front are all of some other time, so they add nothing at `k`. */
  lemma {:induction false} InsertByTimeAtTime(x: HistoryRow, s: seq<HistoryRow>, k: int, timeOf: string -> int)
    requires SortedByTime(s, timeOf)
    ensures AtTime(InsertByTime(x, s, timeOf), k, timeOf) ==
            (if Key(x, timeOf) == k then [x] else []) + AtTime(s, k, timeOf)
    decreases |s|
  {
    if |s| > 0 && Key(x, timeOf) > Key(s[0], timeOf) {
      var t := s[1..];
      assert SortedByTime(t, timeOf) by {
        forall i, j | 0 <= i < j < |t| ensures Key(t[i], timeOf) <= Key(t[j], timeOf) {
          assert t[i] == s[i + 1] && t[j] == s[j + 1];
        }
      }
      InsertByTimeAtTime(x, t, k, timeOf);
      var r := InsertByTime(x, s, timeOf);
      assert r[1..] == InsertByTime(x, t, timeOf);
      if Key(x, timeOf) == k {
        assert Key(s[0], timeOf) != k;
        assert AtTime(s, k, timeOf) == AtTime(t, k, timeOf);
      }
    } else if |s| > 0 {
      assert ([x] + s)[1..] == s;
    } else {
      assert AtTime([x], k, timeOf) == (if Key(x, timeOf) == k then [x] else []) + AtTime([], k, timeOf);
    }
  }

  /** The sort is stable: at every time, the rows come in their input order. */
  lemma {:induction false} SortByTimeStable(s: seq<HistoryRow>, k: int, timeOf: string -> int)
    ensures AtTime(SortByTime(s, timeOf), k, timeOf) == AtTime(s, k, timeOf)
    decreases |s|
  {
    if |s| > 0 {
      SortByTimeStable(s[1..], k, timeOf);
      SortByTimeSorted(s[1..], timeOf);
      InsertByTimeAtTime(s[0], SortByTime(s[1..], timeOf), k, timeOf);
    }
  }

  lemma {:induction false} AtTimeAppend(a: seq<HistoryRow>, b: seq<HistoryRow>, k: int, timeOf: string -> int)
    ensures AtTime(a + b, k, timeOf) == AtTime(a, k, timeOf) + AtTime(b, k, timeOf)
    decreases |a|
  {
    if |a| == 0 {
      assert a + b == b;
    } else {
      var ab := a + b;
      assert ab[0] == a[0];
      assert ab[1..] == a[1..] + b;
      AtTimeAppend(a[1..], b, k, timeOf);
      var head := if Key(a[0], timeOf) == k then [a[0]] else [];
      assert AtTime(ab, k, timeOf) == head + AtTime(a[1..] + b, k, timeOf);
      assert AtTime(a, k, timeOf) == head + AtTime(a[1..], k, timeOf);
    }
  }

  // ---------------------------------------------------------------------
  // The query.

  /** `date || getCurrentDate()`. */
  function TargetDate(date: Option<string>, nowIso: string): string
  {
    if date.Some? && date.value != "" then date.value else DatePart(nowIso)
  }

  /** A non-empty query string. */
  predicate Given(q: Option<string>)
  {
    q.Some? && q.value != ""
  }

  /** `{ data }`, or status 500 when the target day has no month part. */
  datatype HistoryAnswer = Data(rows: seq<HistoryRow>) | HistoryError

  /** The rows of one stream's file of the target day, tagged with the stream. */
  function StreamRows(files: map<FilePath, seq<string>>, target: string, ym: (string, string), s: Stream): seq<HistoryRow>
  {
    var p := FilePath(ym.0, ym.1, FileName(target, s.Name()));
    if p in files then ParseFile(files[p], Some(s)) else []
  }

  function DataHistory(deviceId: Option<string>, date: Option<string>, typ: Option<string>, nowIso: string,
                       months: set<(string, string)>, files: map<FilePath, seq<string>>,
                       timeOf: string -> int): HistoryAnswer
  {
    var target := TargetDate(date, nowIso);
    match Partition(target)
    case None => HistoryError
    case Some(ym) =>
      if Given(typ) then
        var p := FilePath(ym.0, ym.1, FileName(target, typ.value));
        if p in files then Data(DeviceFilter(ParseFile(files[p], None), deviceId)) else Data([])
      else if ym !in months then Data([])
      else
        var merged := StreamRows(files, target, ym, Current) + StreamRows(files, target, ym, Temperature);
        Data(SortByTime(DeviceFilter(merged, deviceId), timeOf))
  }

  /** The query fails exactly when the target day has no '-'; a missing file
      (typed query) or month directory (untyped query) gives no rows. */
  lemma DataHistoryEmptyCases(deviceId: Option<string>, date: Option<string>, typ: Option<string>, nowIso: string,
                              months: set<(string, string)>, files: map<FilePath, seq<string>>, timeOf: string -> int)
    ensures var target := TargetDate(date, nowIso);
      var h := DataHistory(deviceId, date, typ, nowIso, months, files, timeOf);
      && (h.HistoryError? <==> '-' !in target)
      && ('-' in target && Given(typ) &&
          FilePath(Partition(target).value.0, Partition(target).value.1, FileName(target, typ.value)) !in files
          ==> h == Data([]))
      && ('-' in target && !Given(typ) && Partition(target).value !in months ==> h == Data([]))
  {
  }

  /** A typed query: the file's data lines in file order, untagged, and only
      those of the named device when one is named. */
  lemma DataHistoryTyped(deviceId: Option<string>, date: Option<string>, typ: Option<string>, nowIso: string,
                         months: set<(string, string)>, files: map<FilePath, seq<string>>, timeOf: string -> int)
    requires Given(typ) && '-' in TargetDate(date, nowIso)
    ensures var target := TargetDate(date, nowIso);
      var ym := Partition(target).value;
      var p := FilePath(ym.0, ym.1, FileName(target, typ.value));
      var h := DataHistory(deviceId, date, typ, nowIso, months, files, timeOf);
      && h.Data?
      && (forall x :: x in h.rows ==> x.sensorType.None?)
      && (p in files && !Given(deviceId) ==> h.rows == ParseFile(files[p], None))
      && (p in files && Given(deviceId) ==>
            && h.rows == ByDevice(ParseFile(files[p], None), deviceId.value)
            && forall x :: x in h.rows <==> x in ParseFile(files[p], None) && x.deviceId == deviceId)
      && (p !in files ==> h.rows == [])
  {
  }

  /** An untyped query: the rows of both files, tagged, filtered, sorted by
      server time; at any one time the current rows come first, then the
      temperature rows, each in file order. */
  lemma DataHistoryUntyped(deviceId: Option<string>, date: Option<string>, nowIso: string,
                           months: set<(string, string)>, files: map<FilePath, seq<string>>,
                           timeOf: string -> int, k: int)
    requires '-' in TargetDate(date, nowIso) && Partition(TargetDate(date, nowIso)).value in months
    ensures var target := TargetDate(date, nowIso);
      var ym := Partition(target).value;
      var c := DeviceFilter(StreamRows(files, target, ym, Current), deviceId);
      var t := DeviceFilter(StreamRows(files, target, ym, Temperature), deviceId);
      var h := DataHistory(deviceId, date, None, nowIso, months, files, timeOf);
      && h.Data?
      && SortedByTime(h.rows, timeOf)
      && multiset(h.rows) == multiset(c + t)
      && AtTime(h.rows, k, timeOf) == AtTime(c, k, timeOf) + AtTime(t, k, timeOf)
  {
    var target := TargetDate(date, nowIso);
    var ym := Partition(target).value;
    var rc := StreamRows(files, target, ym, Current);
    var rt := StreamRows(files, target, ym, Temperature);
    if Given(deviceId) {
      ByDeviceAppend(rc, rt, deviceId.value);
    }
    var filtered := DeviceFilter(rc + rt, deviceId);
    SortByTimeSorted(filtered, timeOf);
    SortByTimeStable(filtered, k, timeOf);
    AtTimeAppend(DeviceFilter(rc, deviceId), DeviceFilter(rt, deviceId), k, timeOf);
  }

  /** The tag of an untyped row names the file it came from. */
  lemma StreamRowsTagged(files: map<FilePath, seq<string>>, target: string, ym: (string, string), s: Stream)
    ensures forall x :: x in StreamRows(files, target, ym, s) ==> x.sensorType == Some(s)
  {
  }

  /** Round trip through the store: after a reading is written, a typed query
      for its stream and day ends with that reading, read back field by
      field as it was written. */
  lemma WrittenReadingReadBack(w: World, stream: Stream, p: Payload, c: Clock, isoOfMs: int -> string,
                               nowIso: string, timeOf: string -> int)
    requires HeadersOk(w.files)
    requires p.timestamp.Some? && TimeValueOk(p.timestamp.value)
    requires '-' in DatePart(c.rawDateAt)
    requires var esp32Ts := isoOfMs(EspMillis(p.timestamp.value));
      && (stream.Current? ==> NoComma(CurrentRawFields(c.receivedAt, esp32Ts, p)))
      && (stream.Temperature? ==> NoComma(TemperatureRawFields(c.receivedAt, esp32Ts, p)))
    ensures var day := DatePart(c.rawDateAt);
      var esp32Ts := isoOfMs(EspMillis(p.timestamp.value));
      var w' := WriteSpec(w, stream, p, c, isoOfMs).0;
      var h := DataHistory(None, Some(day), Some(stream.Name()), nowIso, w'.months, w'.files, timeOf);
      && h.Data? && |h.rows| >= 1
      && h.rows[|h.rows| - 1] == ParseLine(RawRow(stream, c.receivedAt, esp32Ts, p), None)
      && h.rows[|h.rows| - 1].serverTimestamp == c.receivedAt
      && h.rows[|h.rows| - 1].esp32Timestamp == Some(esp32Ts)
      && h.rows[|h.rows| - 1].deviceId == Some(Text(p.deviceId))
  {
    var day := DatePart(c.rawDateAt);
    var esp32Ts := isoOfMs(EspMillis(p.timestamp.value));
    var row := RawRow(stream, c.receivedAt, esp32Ts, p);
    WriteRawFirst(w, stream, p, c, isoOfMs);
    ParseRawRow(stream, c.receivedAt, esp32Ts, p, None);
    var w' := WriteSpec(w, stream, p, c, isoOfMs).0;
    var rp := RawPath(stream, day, Partition(day).value);
    assert rp in w'.files && |w'.files[rp]| >= 2 && w'.files[rp][|w'.files[rp]| - 1] == row;
    TypedQueryOfFile(w'.months, w'.files, day, stream.Name(), nowIso, timeOf);
  }

  /** A typed query for a named day reads exactly the data lines of that file. */
  lemma TypedQueryOfFile(months: set<(string, string)>, files: map<FilePath, seq<string>>, day: string,
                         name: string, nowIso: string, timeOf: string -> int)
    requires '-' in day && name != ""
    requires var ym := Partition(day).value; FilePath(ym.0, ym.1, FileName(day, name)) in files
    ensures var ym := Partition(day).value;
      var lines := files[FilePath(ym.0, ym.1, FileName(day, name))];
      var h := DataHistory(None, Some(day), Some(name), nowIso, months, files, timeOf);
      && h == Data(ParseFile(lines, None))
      && (|lines| >= 2 ==> h.rows[|h.rows| - 1] == ParseLine(lines[|lines| - 1], None))
  {
    var ym := Partition(day).value;
    var lines := files[FilePath(ym.0, ym.1, FileName(day, name))];
    assert TargetDate(Some(day), nowIso) == day;
    if |lines| >= 2 {
      assert DataLines(lines)[|DataLines(lines)| - 1] == lines[|lines| - 1];
    }
  }

  // ---------------------------------------------------------------------
  // The download.

  /** The answer of `/api/download-csv`: 400, 500, the stored file streamed
      under its name, or a header-only body under the same name. */
  datatype Download = BadRequest | DownloadError
                    | FileBody(filename: string, lines: seq<string>)
                    | HeaderOnly(filename: string, header: string)

  /** The header-only body of a missing file. */
  function FallbackHeader(typ: string): string
  {
    if typ == CombinedName then CombinedHeader
    else if typ == Temperature.Name() then TemperatureFallbackHeader
    else CurrentFallbackHeader
  }

  function DownloadCsv(date: Option<string>, typ: Option<string>, nowIso: string,
                       files: map<FilePath, seq<string>>): Download
  {
    var target := TargetDate(date, nowIso);
    match Partition(target)
    case None => DownloadError
    case Some(ym) =>
      if !Given(typ) then BadRequest
      else if typ.value == CombinedName then
        var name := target + "_combined.csv";
        var p := FilePath(ym.0, ym.1, name);
        if p in files then FileBody(name, files[p]) else HeaderOnly(name, CombinedHeader)
      else
        var name := FileName(target, typ.value);
        var p := FilePath(ym.0, ym.1, name);
        if p in files then FileBody(name, files[p])
        else HeaderOnly(name, if typ.value == Temperature.Name() then TemperatureFallbackHeader else CurrentFallbackHeader)
  }

  /** The month path is built before `type` is checked: a day without '-' is a
      500 even when `type` is missing, and a missing `type` is a 400 otherwise. */
  lemma DownloadStatus(date: Option<string>, typ: Option<string>, nowIso: string, files: map<FilePath, seq<string>>)
    ensures var d := DownloadCsv(date, typ, nowIso, files);
      && (d.DownloadError? <==> '-' !in TargetDate(date, nowIso))
      && (d.BadRequest? <==> '-' in TargetDate(date, nowIso) && !Given(typ))
  {
  }

  /** With a type given: the stored file when it exists, otherwise the
      fallback header of that type, always under the name `<day>_<type>.csv`. */
  lemma DownloadBody(date: Option<string>, typ: Option<string>, nowIso: string, files: map<FilePath, seq<string>>)
    requires Given(typ) && '-' in TargetDate(date, nowIso)
    ensures var target := TargetDate(date, nowIso);
      var ym := Partition(target).value;
      var p := FilePath(ym.0, ym.1, FileName(target, typ.value));
      var d := DownloadCsv(date, typ, nowIso, files);
      && (p in files ==> d == FileBody(FileName(target, typ.value), files[p]))
      && (p !in files ==> d == HeaderOnly(FileName(target, typ.value), FallbackHeader(typ.value)))
  {
    var target := TargetDate(date, nowIso);
    assert FileName(target, CombinedName) == target + "_combined.csv";
  }

  /** A stored file is sent starting with the header it was written with,
      while the header-only body of a missing raw file carries camelCase
      column names that differ from it; for the combined file they agree. */
  lemma DownloadHeaders(date: Option<string>, typ: Option<string>, nowIso: string, files: map<FilePath, seq<string>>)
    requires HeadersOk(files) && Given(typ) && '-' in TargetDate(date, nowIso)
    ensures var target := TargetDate(date, nowIso);
      var d := DownloadCsv(date, typ, nowIso, files);
      && (d.FileBody? ==> |d.lines| >= 1 && d.lines[0] == HeaderFor(d.filename))
      && (d.HeaderOnly? && typ.value == CombinedName ==> d.header == HeaderFor(d.filename))
      && (d.HeaderOnly? && (typ.value == Current.Name() || typ.value == Temperature.Name()) ==>
            d.header != HeaderFor(d.filename))
  {
    var target := TargetDate(date, nowIso);
    HeaderForFileName(target);
    DownloadBody(date, typ, nowIso, files);
    assert |CurrentFallbackHeader| < |CurrentHeader| && |TemperatureFallbackHeader| < |TemperatureHeader|;
  }
}
