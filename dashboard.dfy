/**
 * The dashboard's buffers: each chart's labels and values, the table of the
 * most recent readings, and the options of the date selector. Rendering,
 * `toFixed(2)`, `toLocaleTimeString` and the network are not modelled: time
 * labels arrive as strings, and a number shown with two decimals is kept as
 * the number's own text.
 */
module Dashboard {
  import opened Js

  /** `maxDataPoints`. */
  const MaxDataPoints: nat := 50
  /** The length of the recent-readings table. */
  const MaxRecent: nat := 20

  // ---------------------------------------------------------------------
  // Charts.

  /** The last `n` elements of `s` (all of them when there are fewer). */
  function Last<T>(s: seq<T>, n: nat): (r: seq<T>)
    ensures |r| == if |s| <= n then |s| else n
  {
    if |s| <= n then s else s[|s| - n..]
  }

  /** `addDataToChart` on the two arrays: push the label and the value, then,
      if the labels are longer than 50, shift both once. */
  function AddPoint(labels: seq<string>, data: seq<JsValue>, timeLabel: string, value: JsValue): (seq<string>, seq<JsValue>)
  {
    var l, d := labels + [timeLabel], data + [value];
    if |l| > MaxDataPoints then (l[1..], d[1..]) else (l, d)
  }

  /** Labels and values stay paired: equal lengths stay equal and each array
      becomes the last 50 of itself with the new element appended. */
  lemma AddPointWindow(labels: seq<string>, data: seq<JsValue>, timeLabel: string, value: JsValue)
    requires |labels| == |data| <= MaxDataPoints
    ensures var (l, d) := AddPoint(labels, data, timeLabel, value);
      && |l| == |d| <= MaxDataPoints
      && l == Last(labels + [timeLabel], MaxDataPoints)
      && d == Last(data + [value], MaxDataPoints)
      && l[|l| - 1] == timeLabel && d[|d| - 1] == value
      && (|labels| < MaxDataPoints ==> l == labels + [timeLabel] && d == data + [value])
      && (|labels| == MaxDataPoints ==> l == labels[1..] + [timeLabel] && d == data[1..] + [value])
  {
    if |labels| == MaxDataPoints {
      assert (labels + [timeLabel])[1..] == labels[1..] + [timeLabel];
      assert (data + [value])[1..] == data[1..] + [value];
    }
  }

  /** A run of points added one after another. */
  function AddPoints(labels: seq<string>, data: seq<JsValue>, points: seq<(string, JsValue)>): (seq<string>, seq<JsValue>)
    decreases |points|
  {
    if |points| == 0 then (labels, data)
    else
      var (l, d) := AddPoint(labels, data, points[0].0, points[0].1);
      AddPoints(l, d, points[1..])
  }

  function LabelsOf(points: seq<(string, JsValue)>): (r: seq<string>)
    ensures |r| == |points|
    ensures forall i :: 0 <= i < |points| ==> r[i] == points[i].0
  {
    seq(|points|, i requires 0 <= i < |points| => points[i].0)
  }

  function ValuesOf(points: seq<(string, JsValue)>): (r: seq<JsValue>)
    ensures |r| == |points|
    ensures forall i :: 0 <= i < |points| ==> r[i] == points[i].1
  {
    seq(|points|, i requires 0 <= i < |points| => points[i].1)
  }

  lemma LastAppend<T>(s: seq<T>, x: T, n: nat)
    requires n >= 1
    ensures Last(Last(s, n) + [x], n) == Last(s + [x], n)
  {
    if |s| > n {
      assert Last(s, n) + [x] == s[|s| - n..] + [x];
      assert (s[|s| - n..] + [x])[1..] == (s + [x])[|s| + 1 - n..];
    }
  }

  /** Starting from at most 50 paired points, a chart always shows the last 50
      points added, oldest first. */
  lemma {:induction false} AddPointsWindow(labels: seq<string>, data: seq<JsValue>, points: seq<(string, JsValue)>)
    requires |labels| == |data| <= MaxDataPoints
    ensures AddPoints(labels, data, points).0 == Last(labels + LabelsOf(points), MaxDataPoints)
    ensures AddPoints(labels, data, points).1 == Last(data + ValuesOf(points), MaxDataPoints)
    decreases |points|
  {
    if |points| > 0 {
      var p, rest := points[0], points[1..];
      var step := AddPoint(labels, data, p.0, p.1);
      AddPointWindow(labels, data, p.0, p.1);
      AddPointsWindow(step.0, step.1, rest);
      assert AddPoints(labels, data, points) == AddPoints(step.0, step.1, rest);
      PointsCons(labels, data, points);
      LastConcat(labels + [p.0], LabelsOf(rest), MaxDataPoints);
      LastConcat(data + [p.1], ValuesOf(rest), MaxDataPoints);
    }
  }

  lemma PointsCons(labels: seq<string>, data: seq<JsValue>, points: seq<(string, JsValue)>)
    requires |points| > 0
    ensures labels + LabelsOf(points) == (labels + [points[0].0]) + LabelsOf(points[1..])
    ensures data + ValuesOf(points) == (data + [points[0].1]) + ValuesOf(points[1..])
  {
    LabelsCons(points);
    ValuesCons(points);
    assert labels + ([points[0].0] + LabelsOf(points[1..])) == (labels + [points[0].0]) + LabelsOf(points[1..]);
    assert data + ([points[0].1] + ValuesOf(points[1..])) == (data + [points[0].1]) + ValuesOf(points[1..]);
  }

  lemma LabelsCons(points: seq<(string, JsValue)>)
    requires |points| > 0
    ensures LabelsOf(points) == [points[0].0] + LabelsOf(points[1..])
  {
    var l, l' := LabelsOf(points), [points[0].0] + LabelsOf(points[1..]);
    forall i | 0 <= i < |l| ensures l[i] == l'[i] {
      if i > 0 {
        assert l'[i] == LabelsOf(points[1..])[i - 1] == points[1..][i - 1].0;
      }
    }
  }

  lemma ValuesCons(points: seq<(string, JsValue)>)
    requires |points| > 0
    ensures ValuesOf(points) == [points[0].1] + ValuesOf(points[1..])
  {
    var v, v' := ValuesOf(points), [points[0].1] + ValuesOf(points[1..]);
    forall i | 0 <= i < |v| ensures v[i] == v'[i] {
      if i > 0 {
        assert v'[i] == ValuesOf(points[1..])[i - 1] == points[1..][i - 1].1;
      }
    }
  }

  /** Taking the last `n` first and then appending loses nothing that the
      last `n` of the whole would keep. */
  lemma {:induction false} LastConcat<T>(s: seq<T>, t: seq<T>, n: nat)
    requires n >= 1
    ensures Last(Last(s, n) + t, n) == Last(s + t, n)
    decreases |t|
  {
    if |t| > 0 {
      var t' := t[..|t| - 1];
      var x := t[|t| - 1];
      assert t == t' + [x];
      LastConcat(s, t', n);
      assert Last(s, n) + t == (Last(s, n) + t') + [x];
      assert s + t == (s + t') + [x];
      LastAppend(Last(s, n) + t', x, n);
      LastAppend(s + t', x, n);
    } else {
      assert Last(s, n) + t == Last(s, n) && s + t == s;
    }
  }

  /** One chart: `chart.data.labels` and `chart.data.datasets[0].data`. */
  class Chart {
    var labels: seq<string>
    var data: seq<JsValue>

    constructor ()
      ensures labels == [] && data == []
    {
      labels, data := [], [];
    }

    /** `addDataToChart(chart, timeLabel, value)`. */
    method AddDataToChart(timeLabel: string, value: JsValue)
      modifies this
      ensures (labels, data) == AddPoint(old(labels), old(data), timeLabel, value)
    {
      labels := labels + [timeLabel];
      data := data + [value];
      if |labels| > MaxDataPoints {
        labels := labels[1..];
        data := data[1..];
      }
    }
  }

  // ---------------------------------------------------------------------
  // The recent-readings table.

  /** The `data` object of a broadcast message; absent fields are `undefined`. */
  datatype SensorData = SensorData(sensor1: JsValue, sensor2: JsValue, sensor3: JsValue,
                                   devTemp: JsValue, devHumi: JsValue)

  /** A cell of the device columns: a number shown with two decimals, or '--'. */
  datatype Cell = Fixed(number: string) | Dashes

  datatype RecentRow = RecentRow(
    time: string, kind: string, macAddress: JsValue,
    sensor1: string, sensor2: string, sensor3: string,
    devTemp: Cell, devHumi: Cell)

  /** `toFixed` exists only on numbers: calling it on anything else throws. */
  predicate Formattable(data: SensorData)
  {
    && data.sensor1.Num? && data.sensor2.Num? && data.sensor3.Num?
    && (Truthy(data.devTemp) ==> data.devTemp.Num?)
    && (Truthy(data.devHumi) ==> data.devHumi.Num?)
  }

  /** `v ? v.toFixed(2) : '--'`, for a value that is a number when truthy. */
  function DeviceCell(v: JsValue): (c: Cell)
    requires Truthy(v) ==> v.Num?
    ensures c == Dashes <==> !Truthy(v)
    ensures Truthy(v) ==> c == Fixed(v.text)
  {
    if Truthy(v) then Fixed(v.text) else Dashes
  }

  /** The table row built for a message, or None when building it throws. */
  function RowOf(msgType: string, timeLabel: string, data: SensorData, deviceId: JsValue): (r: Option<RecentRow>)
    ensures r.Some? <==> Formattable(data)
    ensures r.Some? ==> r.value.macAddress == (if Truthy(deviceId) then deviceId else Str("N/A"))
    ensures r.Some? ==> r.value.kind == (if msgType == "current" then "전류" else "온도")
    ensures r.Some? ==>
      && r.value.sensor1 == data.sensor1.text && r.value.sensor2 == data.sensor2.text
      && r.value.sensor3 == data.sensor3.text
      && (r.value.devTemp == Dashes <==> !Truthy(data.devTemp))
      && (r.value.devHumi == Dashes <==> !Truthy(data.devHumi))
      && (Truthy(data.devTemp) ==> r.value.devTemp == Fixed(data.devTemp.text))
      && (Truthy(data.devHumi) ==> r.value.devHumi == Fixed(data.devHumi.text))
  {
    if !Formattable(data) then None
    else Some(RecentRow(timeLabel, if msgType == "current" then "전류" else "온도",
                        OrElse(deviceId, Str("N/A")),
                        data.sensor1.text, data.sensor2.text, data.sensor3.text,
                        DeviceCell(data.devTemp), DeviceCell(data.devHumi)))
  }

  /** `a || b`. */
  function OrElse(a: JsValue, b: JsValue): (r: JsValue)
    ensures Truthy(a) ==> r == a
    ensures !Truthy(a) ==> r == b
  {
    if Truthy(a) then a else b
  }

  /** `unshift` the row, then `pop` once if the table is longer than 20. */
  function Unshifted(rows: seq<RecentRow>, row: RecentRow): seq<RecentRow>
  {
    var t := [row] + rows;
    if |t| > MaxRecent then t[..|t| - 1] else t
  }

  /** The first `n` elements of `s`. */
  function First<T>(s: seq<T>, n: nat): (r: seq<T>)
    ensures |r| == if |s| <= n then |s| else n
  {
    if |s| <= n then s else s[..n]
  }

  /** Newest first, at most 20: the new row is at the top and the others are
      the previous rows, the oldest dropped when the table was full. */
  lemma UnshiftedNewestFirst(rows: seq<RecentRow>, row: RecentRow)
    requires |rows| <= MaxRecent
    ensures var r := Unshifted(rows, row);
      && |r| <= MaxRecent && r[0] == row
      && r == First([row] + rows, MaxRecent)
      && r[1..] == First(rows, MaxRecent - 1)
  {
    var r := Unshifted(rows, row);
    if |rows| == MaxRecent {
      assert r[1..] == rows[..MaxRecent - 1];
    } else {
      assert r[1..] == rows;
    }
  }

  function UnshiftAll(rows: seq<RecentRow>, news: seq<RecentRow>): seq<RecentRow>
    decreases |news|
  {
    if |news| == 0 then rows else UnshiftAll(Unshifted(rows, news[0]), news[1..])
  }

  lemma FirstCons<T>(x: T, s: seq<T>, n: nat)
    requires n >= 1
    ensures First([x] + First(s, n), n) == First([x] + s, n)
  {
    if |s| > n {
      assert [x] + First(s, n) == [x] + s[..n];
      assert ([x] + s[..n])[..n] == ([x] + s)[..n];
    }
  }

  /** From a table of at most 20 rows, the table is the 20 newest rows, newest
      first, of the rows added and then the rows it held. */
  lemma {:induction false} UnshiftAllTable(rows: seq<RecentRow>, news: seq<RecentRow>)
    requires |rows| <= MaxRecent
    ensures UnshiftAll(rows, news) == First(Reverse(news) + rows, MaxRecent)
    decreases |news|
  {
    if |news| == 0 {
      assert Reverse(news) + rows == rows;
    } else {
      var r1 := Unshifted(rows, news[0]);
      UnshiftedNewestFirst(rows, news[0]);
      UnshiftAllTable(r1, news[1..]);
      FirstPrefix(Reverse(news[1..]), [news[0]] + rows, MaxRecent);
      assert Reverse(news) + rows == Reverse(news[1..]) + ([news[0]] + rows);
    }
  }

  /** Cutting the tail to `n` first does not change the first `n` of a concatenation. */
  lemma FirstPrefix<T>(a: seq<T>, b: seq<T>, n: nat)
    ensures First(a + First(b, n), n) == First(a + b, n)
  {
    if |b| > n {
      var c := a + b[..n];
      assert forall i :: 0 <= i < n && i < |c| ==> c[i] == (a + b)[i];
    }
  }

  // ---------------------------------------------------------------------
  // The page state.

  class Page {
    const sensor1Temp: Chart
    const sensor2Temp: Chart
    const sensor3Temp: Chart
    const sensor1Current: Chart
    const sensor2Current: Chart
    const sensor3Current: Chart
    const deviceTemp: Chart
    const deviceHumi: Chart
    var recentData: seq<RecentRow>

    ghost function Charts(): set<Chart>
      reads this
    {
      {sensor1Temp, sensor2Temp, sensor3Temp, sensor1Current, sensor2Current, sensor3Current,
       deviceTemp, deviceHumi}
    }

    /** Eight distinct charts. */
    ghost predicate Valid()
      reads this
    {
      && sensor1Temp != sensor2Temp && sensor1Temp != sensor3Temp && sensor2Temp != sensor3Temp
      && sensor1Current != sensor2Current && sensor1Current != sensor3Current && sensor2Current != sensor3Current
      && deviceTemp != deviceHumi
      && {sensor1Temp, sensor2Temp, sensor3Temp} !! {sensor1Current, sensor2Current, sensor3Current}
      && {sensor1Temp, sensor2Temp, sensor3Temp, sensor1Current, sensor2Current, sensor3Current} !! {deviceTemp, deviceHumi}
    }

    constructor ()
      ensures Valid() && recentData == []
      ensures forall c :: c in Charts() ==> fresh(c) && c.labels == [] && c.data == []
    {
      sensor1Temp := new Chart();
      sensor2Temp := new Chart();
      sensor3Temp := new Chart();
      sensor1Current := new Chart();
      sensor2Current := new Chart();
      sensor3Current := new Chart();
      deviceTemp := new Chart();
      deviceHumi := new Chart();
      recentData := [];
    }

    /** The value a message adds to chart `c`, if any: the three sensors go to
        the three charts of the message's stream, and a temperature message
        with both `devTemp` and `devHumi` defined also feeds the device charts. */
    function Routed(c: Chart, msgType: string, data: SensorData): Option<JsValue>
      reads this
    {
      if msgType == "current" then
        if c == sensor1Current then Some(data.sensor1)
        else if c == sensor2Current then Some(data.sensor2)
        else if c == sensor3Current then Some(data.sensor3)
        else None
      else if msgType == "temperature" then
        if c == sensor1Temp then Some(data.sensor1)
        else if c == sensor2Temp then Some(data.sensor2)
        else if c == sensor3Temp then Some(data.sensor3)
        else if data.devTemp != Undefined && data.devHumi != Undefined && c == deviceTemp then Some(data.devTemp)
        else if data.devTemp != Undefined && data.devHumi != Undefined && c == deviceHumi then Some(data.devHumi)
        else None
      else None
    }

    /** Only a current or temperature message feeds charts. A current message
        feeds exactly the three current charts, each with its own channel; a
        temperature message feeds the three temperature charts with their
        channels, never a current chart, and the two device charts exactly
        when both device values are defined. */
    lemma RoutedCharts(msgType: string, data: SensorData)
      requires Valid()
      ensures forall c :: Routed(c, msgType, data).Some? ==> c in Charts()
      ensures msgType != "current" && msgType != "temperature" ==> forall c :: Routed(c, msgType, data).None?
      ensures msgType == "current" ==>
        && Routed(sensor1Current, msgType, data) == Some(data.sensor1)
        && Routed(sensor2Current, msgType, data) == Some(data.sensor2)
        && Routed(sensor3Current, msgType, data) == Some(data.sensor3)
        && Routed(sensor1Temp, msgType, data).None? && Routed(sensor2Temp, msgType, data).None?
        && Routed(sensor3Temp, msgType, data).None?
        && Routed(deviceTemp, msgType, data).None? && Routed(deviceHumi, msgType, data).None?
      ensures msgType == "temperature" ==>
        && Routed(sensor1Temp, msgType, data) == Some(data.sensor1)
        && Routed(sensor2Temp, msgType, data) == Some(data.sensor2)
        && Routed(sensor3Temp, msgType, data) == Some(data.sensor3)
        && Routed(sensor1Current, msgType, data).None? && Routed(sensor2Current, msgType, data).None?
        && Routed(sensor3Current, msgType, data).None?
        && (data.devTemp != Undefined && data.devHumi != Undefined ==>
              Routed(deviceTemp, msgType, data) == Some(data.devTemp) &&
              Routed(deviceHumi, msgType, data) == Some(data.devHumi))
        && (data.devTemp == Undefined || data.devHumi == Undefined ==>
              Routed(deviceTemp, msgType, data).None? && Routed(deviceHumi, msgType, data).None?)
    {
    }

    /** `addToChart`: the label and value are added to each chart the message
        feeds; the other charts are unchanged. */
    method AddToChart(msgType: string, timeLabel: string, data: SensorData)
      requires Valid()
      modifies Charts()
      ensures forall c :: c in Charts() && Routed(c, msgType, data).Some? ==>
        (c.labels, c.data) == AddPoint(old(c.labels), old(c.data), timeLabel, Routed(c, msgType, data).value)
      ensures forall c :: c in Charts() && Routed(c, msgType, data).None? ==>
        c.labels == old(c.labels) && c.data == old(c.data)
    {
      if msgType == "current" {
        FeedCurrentCharts(timeLabel, data);
      } else if msgType == "temperature" {
        FeedTemperatureCharts(timeLabel, data);
      }
    }

    /** The current branch of `addToChart`. */
    method FeedCurrentCharts(timeLabel: string, data: SensorData)
      requires Valid()
      modifies sensor1Current, sensor2Current, sensor3Current
      ensures (sensor1Current.labels, sensor1Current.data) ==
              AddPoint(old(sensor1Current.labels), old(sensor1Current.data), timeLabel, data.sensor1)
      ensures (sensor2Current.labels, sensor2Current.data) ==
              AddPoint(old(sensor2Current.labels), old(sensor2Current.data), timeLabel, data.sensor2)
      ensures (sensor3Current.labels, sensor3Current.data) ==
              AddPoint(old(sensor3Current.labels), old(sensor3Current.data), timeLabel, data.sensor3)
    {
      sensor1Current.AddDataToChart(timeLabel, data.sensor1);
      sensor2Current.AddDataToChart(timeLabel, data.sensor2);
      sensor3Current.AddDataToChart(timeLabel, data.sensor3);
    }

    /** The temperature branch of `addToChart`: the device charts only when
        both device values are defined. */
    method FeedTemperatureCharts(timeLabel: string, data: SensorData)
      requires Valid()
      modifies sensor1Temp, sensor2Temp, sensor3Temp, deviceTemp, deviceHumi
      ensures (sensor1Temp.labels, sensor1Temp.data) ==
              AddPoint(old(sensor1Temp.labels), old(sensor1Temp.data), timeLabel, data.sensor1)
      ensures (sensor2Temp.labels, sensor2Temp.data) ==
              AddPoint(old(sensor2Temp.labels), old(sensor2Temp.data), timeLabel, data.sensor2)
      ensures (sensor3Temp.labels, sensor3Temp.data) ==
              AddPoint(old(sensor3Temp.labels), old(sensor3Temp.data), timeLabel, data.sensor3)
      ensures data.devTemp != Undefined && data.devHumi != Undefined ==>
              (deviceTemp.labels, deviceTemp.data) ==
              AddPoint(old(deviceTemp.labels), old(deviceTemp.data), timeLabel, data.devTemp) &&
              (deviceHumi.labels, deviceHumi.data) ==
              AddPoint(old(deviceHumi.labels), old(deviceHumi.data), timeLabel, data.devHumi)
      ensures !(data.devTemp != Undefined && data.devHumi != Undefined) ==>
              deviceTemp.labels == old(deviceTemp.labels) && deviceTemp.data == old(deviceTemp.data) &&
              deviceHumi.labels == old(deviceHumi.labels) && deviceHumi.data == old(deviceHumi.data)
    {
      sensor1Temp.AddDataToChart(timeLabel, data.sensor1);
      sensor2Temp.AddDataToChart(timeLabel, data.sensor2);
      sensor3Temp.AddDataToChart(timeLabel, data.sensor3);
      if data.devTemp != Undefined && data.devHumi != Undefined {
        deviceTemp.AddDataToChart(timeLabel, data.devTemp);
        deviceHumi.AddDataToChart(timeLabel, data.devHumi);
      }
    }

    /** `addToRecentData`: nothing changes when formatting throws. */
    method AddToRecentData(msgType: string, timeLabel: string, data: SensorData, deviceId: JsValue) returns (ok: bool)
      modifies this
      ensures ok <==> Formattable(data)
      ensures ok ==> recentData == Unshifted(old(recentData), RowOf(msgType, timeLabel, data, deviceId).value)
      ensures !ok ==> recentData == old(recentData)
    {
      var row := RowOf(msgType, timeLabel, data, deviceId);
      if row.None? {
        return false;
      }
      recentData := [row.value] + recentData;
      if |recentData| > MaxRecent {
        recentData := recentData[..|recentData| - 1];
      }
      ok := true;
    }

    /** `clearChartData`: every chart and the table emptied. */
    method ClearChartData()
      requires Valid()
      modifies this, Charts()
      ensures recentData == []
      ensures forall c :: c in Charts() ==> c.labels == [] && c.data == []
    {
      sensor1Temp.labels, sensor1Temp.data := [], [];
      sensor2Temp.labels, sensor2Temp.data := [], [];
      sensor3Temp.labels, sensor3Temp.data := [], [];
      sensor1Current.labels, sensor1Current.data := [], [];
      sensor2Current.labels, sensor2Current.data := [], [];
      sensor3Current.labels, sensor3Current.data := [], [];
      deviceTemp.labels, deviceTemp.data := [], [];
      deviceHumi.labels, deviceHumi.data := [], [];
      recentData := [];
    }
  }

  // ---------------------------------------------------------------------
  // The date selector.

  datatype SelectOption = SelectOption(value: string, text: string, disabled: bool)

  /** The option shown when no day has data. */
  const Placeholder: SelectOption := SelectOption("", "데이터 없음", true)

  /** What the available-dates request gave: it failed, it answered without a
      `dates` list (an error object), or it answered with the days. */
  datatype Fetched = FetchFailed | NoDates | Dates(days: seq<string>)

  function DayOptions(days: seq<string>): (r: seq<SelectOption>)
    ensures |r| == |days|
    ensures forall i :: 0 <= i < |days| ==> r[i] == SelectOption(days[i], days[i], false)
  {
    seq(|days|, i requires 0 <= i < |days| => SelectOption(days[i], days[i], false))
  }

  /** The options after `populateDateSelector`: unchanged when the request
      failed; otherwise only the first option is kept, and then, if the answer
      has dates, one option per day follows, or the placeholder when there
      are none. An answer without `dates` throws after the options were
      removed. */
  function Rebuilt(options: seq<SelectOption>, f: Fetched): seq<SelectOption>
  {
    var head := if |options| == 0 then [] else [options[0]];
    match f
    case FetchFailed => options
    case NoDates => head
    case Dates(days) => head + DayOptions(days) + (if |days| == 0 then [Placeholder] else [])
  }

  function CountDisabled(s: seq<SelectOption>): nat
  {
    if |s| == 0 then 0 else (if s[0].disabled then 1 else 0) + CountDisabled(s[1..])
  }

  lemma {:induction false} CountDisabledDays(days: seq<string>)
    ensures CountDisabled(DayOptions(days)) == 0
    decreases |days|
  {
    if |days| > 0 {
      assert DayOptions(days)[1..] == DayOptions(days[1..]);
      CountDisabledDays(days[1..]);
    }
  }

  /** The first option is kept, the days follow in the given order, and a
      single disabled placeholder is added exactly when there are no days. */
  lemma RebuiltOptions(options: seq<SelectOption>, days: seq<string>)
    requires |options| >= 1 && !options[0].disabled
    ensures var r := Rebuilt(options, Dates(days));
      && r[0] == options[0]
      && |r| == 1 + (if |days| == 0 then 1 else |days|)
      && (forall i :: 0 <= i < |days| ==> r[i + 1] == SelectOption(days[i], days[i], false))
      && (CountDisabled(r) == 1 <==> |days| == 0)
      && CountDisabled(r) <= 1
  {
    var r := Rebuilt(options, Dates(days));
    CountDisabledDays(days);
    assert r[1..] == DayOptions(days) + (if |days| == 0 then [Placeholder] else []);
    if |days| == 0 {
      assert r[1..][1..] == [];
    } else {
      assert r[1..] == DayOptions(days);
    }
  }

  /** Rebuilding twice from the same answer gives the same options as once. */
  lemma RebuiltIdempotent(options: seq<SelectOption>, f: Fetched)
    requires |options| >= 1
    ensures Rebuilt(Rebuilt(options, f), f) == Rebuilt(options, f)
  {
  }

  class Selector {
    var options: seq<SelectOption>

    constructor (first: SelectOption)
      ensures options == [first]
    {
      options := [first];
    }

    /** `populateDateSelector`, given the answer of the request. */
    method PopulateDateSelector(f: Fetched)
      modifies this
      ensures options == Rebuilt(old(options), f)
    {
      if f.FetchFailed? {
        return;
      }
      ghost var k := 1;
      while |options| > 1
        invariant |old(options)| == 0 ==> options == []
        invariant |old(options)| >= 1 ==> 1 <= k <= |old(options)| && options == [old(options)[0]] + old(options)[k..]
        decreases |options|
      {
        options := options[..1] + options[2..];
        k := k + 1;
      }
      if f.NoDates? {
        return;
      }
      ghost var head := options;
      var days := f.days;
      var i := 0;
      while i < |days|
        invariant 0 <= i <= |days|
        invariant options == head + DayOptions(days[..i])
      {
        options := options + [SelectOption(days[i], days[i], false)];
        i := i + 1;
        assert DayOptions(days[..i]) == DayOptions(days[..i - 1]) + [SelectOption(days[i - 1], days[i - 1], false)];
      }
      assert days[..i] == days;
      if |days| == 0 {
        options := options + [Placeholder];
      }
    }
  }
}
