/**
 * Where the server keeps its files: the day string taken from the server
 * clock, the year/month partition directory, the per-day file names, the
 * header line of each kind of file, and the file-name pattern the
 * available-dates listing recognises.
 */
module Layout {
  import opened Js

  /** The two sensor streams; `Name` is the `sensorType` string of the handlers. */
  datatype Stream = Current | Temperature {
    function Name(): string
    {
      match this
      case Current => "current"
      case Temperature => "temperature"
    }
  }

  const CombinedName: string := "combined"

  /** Header lines written into new files (without the trailing newline). */
  const CurrentHeader: string := "server_timestamp,esp32_timestamp,deviceId,sensor1,sensor2,sensor3"
  const TemperatureHeader: string := "server_timestamp,esp32_timestamp,deviceId,sensor1,sensor2,sensor3,devTemp,devHumi"
  const CombinedHeader: string := "server_timestamp,esp32_timestamp,temp_deviceId,current_deviceId,temp1,temp2,temp3,current1,current2,current3,devTemp,devHumi"

  /** Header sent by the download endpoint when a raw file does not exist:
      camelCase column names, unlike the headers written into the files. */
  const CurrentFallbackHeader: string := "serverTimestamp,esp32Timestamp,deviceId,sensor1,sensor2,sensor3"
  const TemperatureFallbackHeader: string := "serverTimestamp,esp32Timestamp,deviceId,sensor1,sensor2,sensor3,devTemp,devHumi"

  function RawHeader(s: Stream): string
  {
    match s
    case Current => CurrentHeader
    case Temperature => TemperatureHeader
  }

  /** A file under the data directory: `<year>/<month>/<name>`. */
  datatype FilePath = FilePath(year: string, month: string, name: string)

  /** `getCurrentDate()`: the part of an ISO-8601 instant before the first 'T'. */
  function DatePart(iso: string): (d: string)
    ensures 'T' !in d && |d| <= |iso| && iso[..|d|] == d
  {
    FirstPiece(iso, 'T')
  }

  /** `const [year, month] = date.split('-')`. When the date has no '-',
      `month` is undefined and the following `path.join` throws: None. */
  function Partition(date: string): (r: Option<(string, string)>)
    ensures r.Some? <==> '-' in date
    ensures r.Some? ==> '-' !in r.value.0 && '-' !in r.value.1
    ensures r.Some? ==> |r.value.0| < |date| && date[..|r.value.0|] == r.value.0 && date[|r.value.0|] == '-'
  {
    var parts := Split(date, '-');
    PrefixBeforeFacts(date, '-');
    if |parts| >= 2 then Some((parts[0], parts[1])) else None
  }

  /** `${date}_${tag}.csv`. */
  function FileName(date: string, tag: string): string
  {
    date + "_" + tag + ".csv"
  }

  predicate IsDigit(ch: char)
  {
    '0' <= ch <= '9'
  }

  /** Text matching `\d{4}-\d{2}-\d{2}` (JavaScript's `\d` is ASCII only). */
  predicate IsDateText(d: string)
  {
    && |d| == 10
    && IsDigit(d[0]) && IsDigit(d[1]) && IsDigit(d[2]) && IsDigit(d[3])
    && d[4] == '-'
    && IsDigit(d[5]) && IsDigit(d[6])
    && d[7] == '-'
    && IsDigit(d[8]) && IsDigit(d[9])
  }

  /** The labels the available-dates pattern accepts after the underscore. */
  predicate IsListedLabel(tag: string)
  {
    tag == "current" || tag == "temperature" || tag == "combined"
  }

  /** The match of `^(\d{4}-\d{2}-\d{2})_(current|temperature|combined)\.csv$`
      against a file name, giving the captured date. JavaScript's `$` without
      the `m` flag matches only at the very end, so nothing may follow ".csv". */
  function DateFile(name: string): Option<string>
  {
    if |name| >= 11 && IsDateText(name[..10]) && name[10] == '_'
       && (name[11..] == "current.csv" || name[11..] == "temperature.csv" || name[11..] == "combined.csv")
    then Some(name[..10])
    else None
  }

  /** The pattern accepts exactly the names the server gives its files for a
      well-formed day, and captures that day. */
  lemma DateFileIff(name: string, d: string)
    ensures DateFile(name) == Some(d) <==>
            IsDateText(d) && exists tag :: IsListedLabel(tag) && name == FileName(d, tag)
  {
    if DateFile(name) == Some(d) {
      DateFileMatch(name);
    }
    if IsDateText(d) && exists tag :: IsListedLabel(tag) && name == FileName(d, tag) {
      var tag :| IsListedLabel(tag) && name == FileName(d, tag);
      FileNameParts(d, tag);
    }
  }

  /** A recognised name is its captured day, '_', a listed label and ".csv". */
  lemma DateFileMatch(name: string)
    requires DateFile(name).Some?
    ensures IsDateText(DateFile(name).value)
    ensures IsListedLabel(name[11..|name| - 4]) && name == FileName(DateFile(name).value, name[11..|name| - 4])
  {
    var tag := name[11..|name| - 4];
    assert name[11..] == tag + ".csv";
    assert name == name[..10] + "_" + name[11..];
  }

  lemma FileNameParts(d: string, tag: string)
    requires |d| == 10
    ensures FileName(d, tag)[..10] == d && FileName(d, tag)[10] == '_' && FileName(d, tag)[11..] == tag + ".csv"
  {
  }

  /** A server-written file name for a listed kind is recognised with its day. */
  lemma DateFileOfFileName(d: string, tag: string)
    requires IsDateText(d) && IsListedLabel(tag)
    ensures DateFile(FileName(d, tag)) == Some(d)
  {
    DateFileIff(FileName(d, tag), d);
  }

  /** A well-formed day is partitioned into its year and its month. */
  lemma PartitionOfDate(d: string)
    requires IsDateText(d)
    ensures Partition(d) == Some((d[..4], d[5..7]))
  {
    var parts := [d[..4], d[5..7], d[8..10]];
    assert d == Join(parts, '-') by {
      assert Join(parts[1..], '-') == d[5..7] + ['-'] + d[8..10];
    }
    assert forall i :: 0 <= i < |parts| ==> '-' !in parts[i] by {
      assert forall k :: 0 <= k < 10 && k != 4 && k != 7 ==> d[k] != '-';
    }
    SplitJoin(parts, '-');
  }

  /** An instant in `toISOString` form: a well-formed day, then 'T'. */
  predicate IsIsoInstant(iso: string)
  {
    |iso| >= 11 && IsDateText(iso[..10]) && iso[10] == 'T'
  }

  /** The day of an ISO instant is its first ten characters. */
  lemma DatePartOfIso(iso: string)
    requires IsIsoInstant(iso)
    ensures DatePart(iso) == iso[..10]
    ensures IsDateText(DatePart(iso))
  {
    var d := DatePart(iso);
    assert forall k :: 0 <= k < 10 ==> iso[k] != 'T' by {
      assert forall k :: 0 <= k < 10 ==> iso[k] == iso[..10][k];
    }
  }
}
