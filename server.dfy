/**
 * Ingestion on the server: `writeToCSV` appends the raw row of a reading to
 * its day's per-type file and then hands the reading to `writeToCombinedCSV`,
 * which runs the correlation step and appends the combined row it produces;
 * the two POST handlers call `writeToCSV` and, if it did not throw, broadcast
 * the reading and answer with success.
 *
 * The clock is read four times (the server timestamp, the day of the raw
 * file, the day of the combined file, and the broadcast fallback timestamp);
 * the readings are inputs. `Date.prototype.toISOString` applied to the
 * device time is the function `isoOfMs`, given when the server is created.
 */
module Ingest {
  import opened Js
  import opened Layout
  import opened PendingSet
  import opened Correlation
  import opened Store

  /** The four `new Date().toISOString()` readings one request makes. */
  datatype Clock = Clock(receivedAt: string, rawDateAt: string, combinedDateAt: string, broadcastAt: string)

  /** Why `writeToCSV` threw. `InvalidTime`: the device timestamp is missing
      or outside the range of a `Date`, so `toISOString` throws a RangeError
      before anything is written. `NoMonth`: the clock's day has no '-', so
      `path.join` is given an undefined month and throws a TypeError. */
  datatype Failure = InvalidTime | NoMonth

  datatype Outcome = Written | Thrown(failure: Failure)

  /** The largest time value a `Date` holds, in milliseconds. */
  const MaxTimeMs: int := 8_640_000_000_000_000

  /** `new Date(t / 1000)` is a valid date: the time value `t / 1000`, in
      milliseconds, is at most 8.64e15 in magnitude. */
  predicate TimeValueOk(t: int)
  {
    -MaxTimeMs * 1000 <= t <= MaxTimeMs * 1000
  }

  /** The millisecond time value `new Date(t / 1000)` holds: the quotient
      truncated toward zero. */
  function EspMillis(t: int): (ms: int)
    ensures TimeValueOk(t) ==> -MaxTimeMs <= ms <= MaxTimeMs
    ensures t >= 0 ==> 0 <= ms * 1000 <= t < ms * 1000 + 1000
    ensures t < 0 ==> ms * 1000 - 1000 < t <= ms * 1000 <= 0
  {
    if t >= 0 then t / 1000 else -((-t) / 1000)
  }

  /** The columns of a raw current row: values printed as they came. */
  function CurrentRawFields(serverTs: string, esp32Ts: string, p: Payload): seq<string>
  {
    [serverTs, esp32Ts, Text(p.deviceId), Text(p.sensor1), Text(p.sensor2), Text(p.sensor3)]
  }

  /** The columns of a raw temperature row: every value falls back to -999. */
  function TemperatureRawFields(serverTs: string, esp32Ts: string, p: Payload): seq<string>
  {
    [serverTs, esp32Ts, Text(p.deviceId),
     Text(OrSentinel(p.sensor1)), Text(OrSentinel(p.sensor2)), Text(OrSentinel(p.sensor3)),
     Text(OrSentinel(p.devTemp)), Text(OrSentinel(p.devHumi))]
  }

  function RawRow(stream: Stream, serverTs: string, esp32Ts: string, p: Payload): string
  {
    match stream
    case Current => Join(CurrentRawFields(serverTs, esp32Ts, p), ',')
    case Temperature => Join(TemperatureRawFields(serverTs, esp32Ts, p), ',')
  }

  /** Read back by position, a raw row gives the values it was written from:
      a current row keeps a falsy value (0 is written as "0", a missing one as
      "undefined"), a temperature row has -999 in its place. */
  lemma RawRowColumns(stream: Stream, serverTs: string, esp32Ts: string, p: Payload)
    requires stream.Current? ==> NoComma(CurrentRawFields(serverTs, esp32Ts, p))
    requires stream.Temperature? ==> NoComma(TemperatureRawFields(serverTs, esp32Ts, p))
    ensures stream.Current? ==> Split(RawRow(stream, serverTs, esp32Ts, p), ',') == CurrentRawFields(serverTs, esp32Ts, p)
    ensures stream.Temperature? ==> Split(RawRow(stream, serverTs, esp32Ts, p), ',') == TemperatureRawFields(serverTs, esp32Ts, p)
    ensures var cols := Split(RawRow(stream, serverTs, esp32Ts, p), ',');
      && |cols| == (if stream.Current? then 6 else 8)
      && cols[0] == serverTs && cols[1] == esp32Ts && cols[2] == Text(p.deviceId)
      && (stream.Current? ==>
            cols[3] == Text(p.sensor1) && cols[4] == Text(p.sensor2) && cols[5] == Text(p.sensor3))
      && (stream.Temperature? ==>
            && cols[3] == Text(OrSentinel(p.sensor1)) && cols[4] == Text(OrSentinel(p.sensor2))
            && cols[5] == Text(OrSentinel(p.sensor3))
            && cols[6] == Text(OrSentinel(p.devTemp)) && cols[7] == Text(OrSentinel(p.devHumi)))
      && (stream.Temperature? && !Truthy(p.devHumi) ==> cols[7] == "-999")
  {
    match stream
    case Current => SplitJoin(CurrentRawFields(serverTs, esp32Ts, p), ',');
    case Temperature => SplitJoin(TemperatureRawFields(serverTs, esp32Ts, p), ',');
  }

  /** The pending entry built for a reading, tagged with its stream. */
  function ArrivalOf(stream: Stream, serverTs: string, esp32Ts: string, p: Payload): Arrival
  {
    match stream
    case Current => CurrentArrival(CurrentEntryOf(serverTs, esp32Ts, p))
    case Temperature => TemperatureArrival(TempEntryOf(serverTs, esp32Ts, p))
  }

  // ---------------------------------------------------------------------
  // Which header a file carries, by its name.

  predicate EndsWith(s: string, suffix: string)
  {
    |suffix| <= |s| && s[|s| - |suffix|..] == suffix
  }

  /** The header a file of this name is created with. */
  function HeaderFor(name: string): string
  {
    if EndsWith(name, "_temperature.csv") then TemperatureHeader
    else if EndsWith(name, "_combined.csv") then CombinedHeader
    else CurrentHeader
  }

  /** The fifth character from the end of a file name is the last of its tag. */
  lemma FileNameTagEnd(d: string, tag: string)
    requires |tag| >= 1
    ensures var n := FileName(d, tag); |n| >= 5 && n[|n| - 5] == tag[|tag| - 1]
  {
    var n := FileName(d, tag);
    assert n == d + "_" + tag + ".csv";
    assert n[|n| - 5] == (d + "_" + tag)[|d| + |tag|];
  }

  /** A name whose character at some position of the suffix differs does not
      end with that suffix. */
  lemma NotEndsWith(s: string, suffix: string, k: nat)
    requires k < |suffix| && (|suffix| <= |s| ==> s[|s| - |suffix| + k] != suffix[k])
    ensures !EndsWith(s, suffix)
  {
    assert |suffix| <= |s| ==> s[|s| - |suffix|..][k] == s[|s| - |suffix| + k];
  }

  /** Each file the server creates gets the header of its kind. */
  lemma HeaderForFileName(d: string)
    ensures HeaderFor(FileName(d, Current.Name())) == CurrentHeader
    ensures HeaderFor(FileName(d, Temperature.Name())) == TemperatureHeader
    ensures HeaderFor(FileName(d, CombinedName)) == CombinedHeader
  {
    var c, t, m := FileName(d, "current"), FileName(d, "temperature"), FileName(d, "combined");
    FileNameTagEnd(d, "current");
    FileNameTagEnd(d, "temperature");
    FileNameTagEnd(d, "combined");
    assert t[|t| - 16..] == "_temperature.csv";
    assert m[|m| - 13..] == "_combined.csv";
    NotEndsWith(c, "_temperature.csv", 11);
    NotEndsWith(c, "_combined.csv", 8);
    NotEndsWith(m, "_temperature.csv", 11);
  }

  lemma RawHeaderForFileName(d: string, stream: Stream)
    ensures HeaderFor(FileName(d, stream.Name())) == RawHeader(stream)
  {
    HeaderForFileName(d);
  }

  /** A raw file and a combined file never share a name. */
  lemma RawNameNotCombined(d1: string, d2: string, stream: Stream)
    ensures FileName(d1, stream.Name()) != FileName(d2, CombinedName)
  {
    HeaderForFileName(d1);
    HeaderForFileName(d2);
    assert RawHeader(stream) != CombinedHeader by {
      assert |CurrentHeader| < |CombinedHeader| && |TemperatureHeader| < |CombinedHeader|;
    }
  }

  /** Every file starts with the header of its kind. */
  ghost predicate HeadersOk(files: map<FilePath, seq<string>>)
  {
    forall q :: q in files ==> |files[q]| >= 1 && files[q][0] == HeaderFor(q.name)
  }

  lemma AppendedHeaders(files: map<FilePath, seq<string>>, p: FilePath, header: string, line: string)
    requires HeadersOk(files) && header == HeaderFor(p.name)
    ensures HeadersOk(Appended(files, p, header, line))
  {
  }

  // ---------------------------------------------------------------------
  // The effect of one `writeToCSV` call on the whole server state.

  /** The pending sets, the directories and the files. */
  datatype World = World(pending: Pending, years: set<string>, months: set<(string, string)>,
                         files: map<FilePath, seq<string>>)

  ghost predicate WorldValid(w: World)
  {
    && w.pending.Valid()
    && (forall ym :: ym in w.months ==> ym.0 in w.years)
    && (forall q :: q in w.files ==> (q.year, q.month) in w.months)
    && HeadersOk(w.files)
  }

  /** The raw file of a reading received on `day`, under the partition `ym`. */
  function RawPath(stream: Stream, day: string, ym: (string, string)): FilePath
  {
    FilePath(ym.0, ym.1, FileName(day, stream.Name()))
  }

  function CombinedPath(day: string, ym: (string, string)): FilePath
  {
    FilePath(ym.0, ym.1, FileName(day, CombinedName))
  }

  /** `writeToCombinedCSV`: the correlation step, and the combined row appended
      to the day's combined file when there is one. */
  function CombineSpec(w: World, a: Arrival, t: int, combinedAt: string): (World, Outcome)
  {
    var day := DatePart(combinedAt);
    match Partition(day)
    case None => (w, Thrown(NoMonth))
    case Some(ym) =>
      var s := Correlate(w.pending, t, a);
      var files := if s.combined.Some? then Appended(w.files, CombinedPath(day, ym), CombinedHeader, s.combined.value)
                   else w.files;
      (World(s.after, w.years + {ym.0}, w.months + {ym}, files), Written)
  }

  /** `writeToCSV`: the raw row first, then the correlation step. */
  function WriteSpec(w: World, stream: Stream, p: Payload, c: Clock, isoOfMs: int -> string): (World, Outcome)
  {
    if p.timestamp.None? || !TimeValueOk(p.timestamp.value) then (w, Thrown(InvalidTime))
    else
      var t := p.timestamp.value;
      var esp32Ts := isoOfMs(EspMillis(t));
      var day := DatePart(c.rawDateAt);
      match Partition(day)
      case None => (w, Thrown(NoMonth))
      case Some(ym) =>
        var files := Appended(w.files, RawPath(stream, day, ym), RawHeader(stream),
                              RawRow(stream, c.receivedAt, esp32Ts, p));
        var w1 := World(w.pending, w.years + {ym.0}, w.months + {ym}, files);
        CombineSpec(w1, ArrivalOf(stream, c.receivedAt, esp32Ts, p), t, c.combinedDateAt)
  }

  /** A reading without a usable device timestamp is rejected before anything
      is written, and only then does `writeToCSV` throw a RangeError. */
  lemma WriteRejectsBadTime(w: World, stream: Stream, p: Payload, c: Clock, isoOfMs: int -> string)
    ensures var (w', r) := WriteSpec(w, stream, p, c, isoOfMs);
      && (r == Thrown(InvalidTime) <==> p.timestamp.None? || !TimeValueOk(p.timestamp.value))
      && (r.Thrown? && (r.failure == InvalidTime || '-' !in DatePart(c.rawDateAt)) ==> w' == w)
  {
  }

  /** The raw row is appended, exactly once and with the header only when the
      file is new, whatever the correlation step then does; if the combined
      step throws, the pending sets are untouched. */
  lemma WriteRawFirst(w: World, stream: Stream, p: Payload, c: Clock, isoOfMs: int -> string)
    requires p.timestamp.Some? && TimeValueOk(p.timestamp.value)
    requires '-' in DatePart(c.rawDateAt)
    ensures var day := DatePart(c.rawDateAt);
      var rp := RawPath(stream, day, Partition(day).value);
      var row := RawRow(stream, c.receivedAt, isoOfMs(EspMillis(p.timestamp.value)), p);
      var (w', r) := WriteSpec(w, stream, p, c, isoOfMs);
      && rp in w'.files
      && w'.files[rp] == (if rp in w.files then w.files[rp] else [RawHeader(stream)]) + [row]
      && (r == Written <==> '-' in DatePart(c.combinedDateAt))
      && (r.Thrown? ==> w'.pending == w.pending)
  {
    var day := DatePart(c.rawDateAt);
    var ym := Partition(day).value;
    var t := p.timestamp.value;
    var esp32Ts := isoOfMs(EspMillis(t));
    var rp := RawPath(stream, day, ym);
    var files := Appended(w.files, rp, RawHeader(stream), RawRow(stream, c.receivedAt, esp32Ts, p));
    var w1 := World(w.pending, w.years + {ym.0}, w.months + {ym}, files);
    var a := ArrivalOf(stream, c.receivedAt, esp32Ts, p);
    assert WriteSpec(w, stream, p, c, isoOfMs) == CombineSpec(w1, a, t, c.combinedDateAt);
    var cday := DatePart(c.combinedDateAt);
    if '-' in cday {
      RawNameNotCombined(day, cday, stream);
      var s := Correlate(w1.pending, t, a);
      if s.combined.Some? {
        var cp := CombinedPath(cday, Partition(cday).value);
        assert cp != rp;
        assert CombineSpec(w1, a, t, c.combinedDateAt).0.files == Appended(files, cp, CombinedHeader, s.combined.value);
      }
    }
  }

  /** At most one combined row per call: it is appended exactly when the
      correlation step found a partner, and no file other than the raw file
      and the combined file changes. */
  lemma WriteCombinedAtMostOnce(w: World, stream: Stream, p: Payload, c: Clock, isoOfMs: int -> string)
    requires p.timestamp.Some? && TimeValueOk(p.timestamp.value)
    requires '-' in DatePart(c.rawDateAt) && '-' in DatePart(c.combinedDateAt)
    ensures var day := DatePart(c.rawDateAt);
      var cday := DatePart(c.combinedDateAt);
      var rp := RawPath(stream, day, Partition(day).value);
      var cp := CombinedPath(cday, Partition(cday).value);
      var t := p.timestamp.value;
      var a := ArrivalOf(stream, c.receivedAt, isoOfMs(EspMillis(t)), p);
      var s := Correlate(w.pending, t, a);
      var (w', r) := WriteSpec(w, stream, p, c, isoOfMs);
      && r == Written
      && w'.pending == s.after
      && (s.combined.Some? ==>
            cp in w'.files &&
            w'.files[cp] == (if cp in w.files then w.files[cp] else [CombinedHeader]) + [s.combined.value])
      && (s.combined.None? ==> (cp in w'.files <==> cp in w.files) && (cp in w.files ==> w'.files[cp] == w.files[cp]))
      && (forall q :: q in w.files && q != rp && q != cp ==> q in w'.files && w'.files[q] == w.files[q])
      && w'.files.Keys <= w.files.Keys + {rp, cp}
  {
    var day := DatePart(c.rawDateAt);
    var cday := DatePart(c.combinedDateAt);
    RawNameNotCombined(day, cday, stream);
  }

  /** The combined step keeps the state well-formed. */
  lemma CombineKeepsValid(w: World, a: Arrival, t: int, combinedAt: string)
    requires WorldValid(w)
    ensures WorldValid(CombineSpec(w, a, t, combinedAt).0)
  {
    var cday := DatePart(combinedAt);
    if '-' in cday {
      var cym := Partition(cday).value;
      CorrelateInvariants(w.pending, t, a);
      var s := Correlate(w.pending, t, a);
      var w' := CombineSpec(w, a, t, combinedAt).0;
      assert w'.pending == s.after;
      assert w'.years == w.years + {cym.0} && w'.months == w.months + {cym};
      if s.combined.Some? {
        var cp := CombinedPath(cday, cym);
        HeaderForFileName(cday);
        AppendedHeaders(w.files, cp, CombinedHeader, s.combined.value);
        assert w'.files == Appended(w.files, cp, CombinedHeader, s.combined.value);
        assert w'.files.Keys == w.files.Keys + {cp};
      } else {
        assert w'.files == w.files;
      }
    }
  }

  /** Every call keeps the state well-formed: ordered pending sets, files in
      existing directories, and each file starting with the header of its kind. */
  lemma WriteKeepsValid(w: World, stream: Stream, p: Payload, c: Clock, isoOfMs: int -> string)
    requires WorldValid(w)
    ensures WorldValid(WriteSpec(w, stream, p, c, isoOfMs).0)
  {
    if p.timestamp.Some? && TimeValueOk(p.timestamp.value) && '-' in DatePart(c.rawDateAt) {
      var t := p.timestamp.value;
      var esp32Ts := isoOfMs(EspMillis(t));
      var day := DatePart(c.rawDateAt);
      var ym := Partition(day).value;
      var row := RawRow(stream, c.receivedAt, esp32Ts, p);
      RawHeaderForFileName(day, stream);
      var files := Appended(w.files, RawPath(stream, day, ym), RawHeader(stream), row);
      AppendedHeaders(w.files, RawPath(stream, day, ym), RawHeader(stream), row);
      var w1 := World(w.pending, w.years + {ym.0}, w.months + {ym}, files);
      assert files.Keys == w.files.Keys + {RawPath(stream, day, ym)};
      assert WorldValid(w1);
      CombineKeepsValid(w1, ArrivalOf(stream, c.receivedAt, esp32Ts, p), t, c.combinedDateAt);
      assert WriteSpec(w, stream, p, c, isoOfMs) == CombineSpec(w1, ArrivalOf(stream, c.receivedAt, esp32Ts, p), t, c.combinedDateAt);
    }
  }

  // ---------------------------------------------------------------------
  // The loops of `writeToCombinedCSV`.

  /** The `for…in` scan with `break`: the position of the first key within
      tolerance of `t`. */
  method FindPartner<E>(s: seq<(int, E)>, t: int) returns (m: Option<nat>)
    ensures m == FirstWithin(s, t)
  {
    var i := 0;
    while i < |s|
      invariant 0 <= i <= |s|
      invariant forall j :: 0 <= j < i ==> !Within(s[j].0, t)
    {
      if Within(s[i].0, t) {
        m := Some(i);
        ghost var f := FirstWithin(s, t);
        assert f.Some?;
        return;
      }
      i := i + 1;
    }
    m := None;
  }

  /** The eviction loop: every key `k` with `now - k > maxAge` is deleted while
      the set is enumerated. */
  method EvictStale<E>(s: seq<(int, E)>, now: int) returns (r: seq<(int, E)>)
    requires PropertyOrder(s)
    ensures r == KeepFresh(s, now)
  {
    r := s;
    var i := 0;
    while i < |s|
      invariant 0 <= i <= |s|
      invariant r == KeepFresh(s[..i], now) + s[i..]
    {
      SweepStep(s, now, i);
      if Stale(s[i].0, now) {
        r := RemoveKey(r, s[i].0);
      }
      i := i + 1;
    }
    assert s[..|s|] == s;
  }

  /** One iteration of the eviction loop moves the sweep point by one entry. */
  lemma SweepStep<E>(s: seq<(int, E)>, now: int, i: nat)
    requires PropertyOrder(s) && i < |s|
    ensures var r := KeepFresh(s[..i], now) + s[i..];
      (if Stale(s[i].0, now) then RemoveKey(r, s[i].0) else r) == KeepFresh(s[..i + 1], now) + s[i + 1..]
  {
    assert s[..i + 1][..i] == s[..i];
    if Stale(s[i].0, now) {
      DeleteAtSweepPoint(s, now, i);
    } else {
      assert s[i..] == [s[i]] + s[i + 1..];
    }
  }

  /** Deleting the key under the sweep position removes exactly that entry. */
  lemma DeleteAtSweepPoint<E>(s: seq<(int, E)>, now: int, i: nat)
    requires PropertyOrder(s) && i < |s|
    ensures RemoveKey(KeepFresh(s[..i], now) + s[i..], s[i].0) == KeepFresh(s[..i], now) + s[i + 1..]
  {
    var k := s[i].0;
    var kept := KeepFresh(s[..i], now);
    KeepFreshEntries(s[..i], now);
    forall j | 0 <= j < |kept| ensures kept[j].0 != k {
      var j' :| 0 <= j' < |s[..i]| && kept[j] == s[..i][j'];
      assert Precedes(s[j'], s[i]);
    }
    RemoveAbsent(kept, k);
    RemoveKeyAppend(kept, s[i..], k);
    assert PropertyOrder(s[i..]) by {
      forall a, b | 0 <= a < b < |s[i..]| ensures Precedes(s[i..][a], s[i..][b]) {
        assert s[i..][a] == s[i + a] && s[i..][b] == s[i + b];
      }
    }
    RemoveKeyAt(s[i..], 0);
    assert s[i..][1..] == s[i + 1..];
  }

  /** One branch of `writeToCombinedCSV`: store the entry under its key, scan
      the other set for a partner, delete both keys on a match, then run the
      eviction loop over both sets. */
  method MeetStep<A, B>(own: seq<(int, A)>, other: seq<(int, B)>, t: int, e: A) returns (m: Meeting<A, B>)
    requires PropertyOrder(own) && PropertyOrder(other)
    ensures m == Meet(own, other, t, e)
  {
    PutOrder(own, t, e);
    var mine := Put(own, t, e);
    var theirs := other;
    var i := FindPartner(other, t);
    var partner: Option<(int, B)> := None;
    if i.Some? {
      partner := Some(other[i.value]);
      RemoveKeyOrder(theirs, other[i.value].0);
      theirs := RemoveKey(theirs, other[i.value].0);
      RemoveKeyOrder(mine, t);
      mine := RemoveKey(mine, t);
    }
    KeepFreshOrder(mine, t);
    mine := EvictStale(mine, t);
    KeepFreshOrder(theirs, t);
    theirs := EvictStale(theirs, t);
    m := Meeting(mine, theirs, partner);
  }

  /** The two symmetric branches of `writeToCombinedCSV` on the pending sets;
      the combined row is built from the temperature entry and the current
      entry whichever arrived second. */
  method CorrelateStep(p: Pending, t: int, a: Arrival) returns (s: Step)
    requires p.Valid()
    ensures s == Correlate(p, t, a)
  {
    match a
    case TemperatureArrival(te) =>
      var m := MeetStep(p.temperature, p.current, t, te);
      var row := if m.partner.Some? then Some(CombinedRow(te, m.partner.value.1)) else None;
      s := Step(Pending(m.other, m.own), row);
    case CurrentArrival(ce) =>
      var m := MeetStep(p.current, p.temperature, t, ce);
      var row := if m.partner.Some? then Some(CombinedRow(m.partner.value.1, ce)) else None;
      s := Step(Pending(m.own, m.other), row);
  }

  // ---------------------------------------------------------------------
  // The handlers' side: broadcast message and HTTP answer.

  /** The `timestamp` field of a broadcast: the device timestamp, or the server
      clock when the device timestamp is falsy (0). */
  datatype Stamp = DeviceTime(t: int) | ServerTime(iso: string)

  /** The message sent to every open WebSocket client. `devTemp`/`devHumi` are
      present only on temperature messages; values are sent as received. */
  datatype Broadcast = Broadcast(
    stream: Stream, stamp: Stamp, deviceId: JsValue,
    sensor1: JsValue, sensor2: JsValue, sensor3: JsValue,
    devTemp: Option<JsValue>, devHumi: Option<JsValue>)

  function BroadcastOf(stream: Stream, t: int, p: Payload, now: string): (b: Broadcast)
    ensures b.stamp == (if t == 0 then ServerTime(now) else DeviceTime(t))
    ensures b.devTemp.Some? <==> stream == Temperature
  {
    Broadcast(stream, if t != 0 then DeviceTime(t) else ServerTime(now), p.deviceId,
              p.sensor1, p.sensor2, p.sensor3,
              if stream == Temperature then Some(p.devTemp) else None,
              if stream == Temperature then Some(p.devHumi) else None)
  }

  /** The JSON answer: success with the stream and device id, or status 500. */
  datatype Response = Accepted(sensorType: string, deviceId: JsValue) | ServerError

  class Server {
    var current: seq<(int, CurrentEntry)>
    var temperature: seq<(int, TempEntry)>
    /** Messages broadcast so far, in order. */
    var broadcasts: seq<Broadcast>
    const store: Store
    const isoOfMs: int -> string

    ghost function State(): World
      reads this, store
    {
      World(Pending(current, temperature), store.years, store.months, store.files)
    }

    ghost predicate Valid()
      reads this, store
    {
      store.Valid() && WorldValid(State())
    }

    constructor (store: Store, isoOfMs: int -> string)
      requires store.Valid() && HeadersOk(store.files)
      ensures Valid()
      ensures this.store == store && this.isoOfMs == isoOfMs
      ensures current == [] && temperature == [] && broadcasts == []
      ensures store.files == old(store.files)
    {
      this.store := store;
      this.isoOfMs := isoOfMs;
      current, temperature, broadcasts := [], [], [];
    }

    /** `writeToCombinedCSV`. */
    method WriteToCombinedCsv(a: Arrival, t: int, combinedAt: string) returns (r: Outcome)
      requires Valid()
      modifies this, store
      ensures Valid()
      ensures (State(), r) == CombineSpec(old(State()), a, t, combinedAt)
      ensures broadcasts == old(broadcasts)
    {
      ghost var w := State();
      CombineKeepsValid(w, a, t, combinedAt);
      var day := DatePart(combinedAt);
      var ym := Partition(day);
      if ym.None? {
        return Thrown(NoMonth);
      }
      store.CreateDirectoryStructure(ym.value.0, ym.value.1);
      var path := CombinedPath(day, ym.value);
      var step := CorrelateStep(Pending(current, temperature), t, a);
      if step.combined.Some? {
        store.Append(path, CombinedHeader, step.combined.value);
      }
      current, temperature := step.after.current, step.after.temperature;
      r := Written;
      assert State() == CombineSpec(w, a, t, combinedAt).0;
    }

    /** `writeToCSV`. */
    method WriteToCsv(stream: Stream, p: Payload, c: Clock) returns (r: Outcome)
      requires Valid()
      modifies this, store
      ensures Valid()
      ensures (State(), r) == WriteSpec(old(State()), stream, p, c, isoOfMs)
      ensures broadcasts == old(broadcasts)
    {
      var serverTs := c.receivedAt;
      if p.timestamp.None? || !TimeValueOk(p.timestamp.value) {
        return Thrown(InvalidTime);
      }
      var t := p.timestamp.value;
      var esp32Ts := isoOfMs(EspMillis(t));
      var day := DatePart(c.rawDateAt);
      var ym := Partition(day);
      if ym.None? {
        return Thrown(NoMonth);
      }
      store.CreateDirectoryStructure(ym.value.0, ym.value.1);
      var path := RawPath(stream, day, ym.value);
      RawHeaderForFileName(day, stream);
      AppendedHeaders(store.files, path, RawHeader(stream), RawRow(stream, serverTs, esp32Ts, p));
      store.Append(path, RawHeader(stream), RawRow(stream, serverTs, esp32Ts, p));
      r := WriteToCombinedCsv(ArrivalOf(stream, serverTs, esp32Ts, p), t, c.combinedDateAt);
    }

    /** `POST /api/current-sensor` and `POST /api/temperature-sensor`: write,
        then broadcast, then answer; a throw skips the broadcast and answers 500. */
    method PostSensorData(stream: Stream, p: Payload, c: Clock) returns (resp: Response)
      requires Valid()
      modifies this, store
      ensures Valid()
      ensures var (w, r) := WriteSpec(old(State()), stream, p, c, isoOfMs);
        && State() == w
        && (r == Written ==>
              resp == Accepted(stream.Name(), p.deviceId) &&
              broadcasts == old(broadcasts) + [BroadcastOf(stream, p.timestamp.value, p, c.broadcastAt)])
        && (r.Thrown? ==> resp == ServerError && broadcasts == old(broadcasts))
    {
      var r := WriteToCsv(stream, p, c);
      if r.Thrown? {
        return ServerError;
      }
      broadcasts := broadcasts + [BroadcastOf(stream, p.timestamp.value, p, c.broadcastAt)];
      resp := Accepted(stream.Name(), p.deviceId);
    }
  }
}
