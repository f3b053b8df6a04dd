/**
 * The correlation step of `writeToCombinedCSV`: the two pending sets, the
 * entries they hold, the combined CSV row, and one call's effect on them as a
 * function. First the new reading is stored under its own timestamp; then the
 * other stream's set is scanned in enumeration order for the first key within
 * one second; on a match one combined row is produced and both entries are
 * deleted; finally every entry more than ten seconds older than the new
 * reading is evicted from both sets.
 */
module Correlation {
  import opened Js
  import opened PendingSet

  /** A pending current reading (`recentData.current[key]`). */
  datatype CurrentEntry = CurrentEntry(
    serverTimestamp: string, esp32Timestamp: string, deviceId: JsValue,
    current1: JsValue, current2: JsValue, current3: JsValue)

  /** A pending temperature reading (`recentData.temperature[key]`). */
  datatype TempEntry = TempEntry(
    serverTimestamp: string, esp32Timestamp: string, deviceId: JsValue,
    temp1: JsValue, temp2: JsValue, temp3: JsValue, devTemp: JsValue, devHumi: JsValue)

  /** The fields of a request body the server reads. `timestamp` is the device
      timestamp as the server reads it, an integer count of microseconds, or
      None when it is missing or not a number. */
  datatype Payload = Payload(
    deviceId: JsValue, timestamp: Option<int>,
    sensor1: JsValue, sensor2: JsValue, sensor3: JsValue,
    devTemp: JsValue, devHumi: JsValue)

  /** The pending entry for a current reading: both timestamps and the device
      id as given, every channel the reading's value when truthy and -999 otherwise. */
  function CurrentEntryOf(serverTs: string, esp32Ts: string, p: Payload): (e: CurrentEntry)
    ensures e.serverTimestamp == serverTs && e.esp32Timestamp == esp32Ts
    ensures e.deviceId == p.deviceId
    ensures Truthy(e.current1) && Truthy(e.current2) && Truthy(e.current3)
    ensures Truthy(p.sensor1) ==> e.current1 == p.sensor1
    ensures Truthy(p.sensor2) ==> e.current2 == p.sensor2
    ensures Truthy(p.sensor3) ==> e.current3 == p.sensor3
    ensures !Truthy(p.sensor1) ==> e.current1 == Sentinel
    ensures !Truthy(p.sensor2) ==> e.current2 == Sentinel
    ensures !Truthy(p.sensor3) ==> e.current3 == Sentinel
  {
    CurrentEntry(serverTs, esp32Ts, p.deviceId,
                 OrSentinel(p.sensor1), OrSentinel(p.sensor2), OrSentinel(p.sensor3))
  }

  /** The pending entry for a temperature reading: both timestamps and the
      device id as given, every channel and both device fields the reading's
      value when truthy and -999 otherwise. */
  function TempEntryOf(serverTs: string, esp32Ts: string, p: Payload): (e: TempEntry)
    ensures e.serverTimestamp == serverTs && e.esp32Timestamp == esp32Ts
    ensures e.deviceId == p.deviceId
    ensures Truthy(e.temp1) && Truthy(e.temp2) && Truthy(e.temp3)
    ensures Truthy(e.devTemp) && Truthy(e.devHumi)
    ensures Truthy(p.sensor1) ==> e.temp1 == p.sensor1
    ensures Truthy(p.sensor2) ==> e.temp2 == p.sensor2
    ensures Truthy(p.sensor3) ==> e.temp3 == p.sensor3
    ensures Truthy(p.devTemp) ==> e.devTemp == p.devTemp
    ensures Truthy(p.devHumi) ==> e.devHumi == p.devHumi
    ensures !Truthy(p.sensor1) ==> e.temp1 == Sentinel
    ensures !Truthy(p.sensor2) ==> e.temp2 == Sentinel
    ensures !Truthy(p.sensor3) ==> e.temp3 == Sentinel
    ensures !Truthy(p.devTemp) ==> e.devTemp == Sentinel
    ensures !Truthy(p.devHumi) ==> e.devHumi == Sentinel
  {
    TempEntry(serverTs, esp32Ts, p.deviceId,
              OrSentinel(p.sensor1), OrSentinel(p.sensor2), OrSentinel(p.sensor3),
              OrSentinel(p.devTemp), OrSentinel(p.devHumi))
  }

  /** The fields of a combined row, in column order: the temperature reading's
      server and device timestamps, both device ids, the three temperature
      channels, the three current channels, the device temperature and humidity. */
  function CombinedFields(te: TempEntry, ce: CurrentEntry): seq<string>
  {
    [te.serverTimestamp, te.esp32Timestamp, Text(te.deviceId), Text(ce.deviceId),
     Text(te.temp1), Text(te.temp2), Text(te.temp3),
     Text(ce.current1), Text(ce.current2), Text(ce.current3),
     Text(te.devTemp), Text(te.devHumi)]
  }

  /** The combined CSV line (without its newline). */
  function CombinedRow(te: TempEntry, ce: CurrentEntry): string
  {
    Join(CombinedFields(te, ce), ',')
  }

  predicate NoComma(fields: seq<string>)
  {
    forall i :: 0 <= i < |fields| ==> ',' !in fields[i]
  }

  /** Read back by position, a combined row gives back exactly its twelve
      fields, the first three taken from the temperature reading, as long as
      no value holds a comma. */
  lemma CombinedRowColumns(te: TempEntry, ce: CurrentEntry)
    requires NoComma(CombinedFields(te, ce))
    ensures Split(CombinedRow(te, ce), ',') == CombinedFields(te, ce)
    ensures var cols := Split(CombinedRow(te, ce), ',');
      && |cols| == 12
      && cols[0] == te.serverTimestamp && cols[1] == te.esp32Timestamp
      && cols[2] == Text(te.deviceId) && cols[3] == Text(ce.deviceId)
      && cols[4] == Text(te.temp1) && cols[5] == Text(te.temp2) && cols[6] == Text(te.temp3)
      && cols[7] == Text(ce.current1) && cols[8] == Text(ce.current2) && cols[9] == Text(ce.current3)
      && cols[10] == Text(te.devTemp) && cols[11] == Text(te.devHumi)
  {
    SplitJoin(CombinedFields(te, ce), ',');
  }

  // ---------------------------------------------------------------------
  // One call, independent of which stream arrived.

  /** The two pending sets after one call and the partner found, if any. */
  datatype Meeting<A, B> = Meeting(own: seq<(int, A)>, other: seq<(int, B)>, partner: Option<(int, B)>)

  /** Both pending sets after a sweep at `now`. */
  function Sweep<A>(s: seq<(int, A)>, now: int): seq<(int, A)>
  {
    KeepFresh(s, now)
  }

  /** Insert `e` under `t` into `own`, take the first entry of `other` within
      tolerance, delete both on a match, then sweep both sets at `t`. */
  function Meet<A, B>(own: seq<(int, A)>, other: seq<(int, B)>, t: int, e: A): Meeting<A, B>
  {
    var mine := Put(own, t, e);
    match FirstWithin(other, t)
    case None => Meeting(Sweep(mine, t), Sweep(other, t), None)
    case Some(i) =>
      Meeting(Sweep(RemoveKey(mine, t), t), Sweep(RemoveKey(other, other[i].0), t), Some(other[i]))
  }

  /** Both sets keep their enumeration order. */
  lemma MeetOrder<A, B>(own: seq<(int, A)>, other: seq<(int, B)>, t: int, e: A)
    requires PropertyOrder(own) && PropertyOrder(other)
    ensures PropertyOrder(Meet(own, other, t, e).own)
    ensures PropertyOrder(Meet(own, other, t, e).other)
  {
    PutOrder(own, t, e);
    var mine := Put(own, t, e);
    match FirstWithin(other, t)
    case None =>
      KeepFreshOrder(mine, t);
      KeepFreshOrder(other, t);
    case Some(i) =>
      RemoveKeyOrder(mine, t);
      RemoveKeyOrder(other, other[i].0);
      KeepFreshOrder(RemoveKey(mine, t), t);
      KeepFreshOrder(RemoveKey(other, other[i].0), t);
  }

  /** Bounded age: after the call no entry in either set is more than ten
      seconds older than the reading that made the call. */
  lemma MeetBoundedAge<A, B>(own: seq<(int, A)>, other: seq<(int, B)>, t: int, e: A)
    ensures forall j :: 0 <= j < |Meet(own, other, t, e).own| ==> !Stale(Meet(own, other, t, e).own[j].0, t)
    ensures forall j :: 0 <= j < |Meet(own, other, t, e).other| ==> !Stale(Meet(own, other, t, e).other[j].0, t)
  {
    var mine := Put(own, t, e);
    match FirstWithin(other, t)
    case None =>
      KeepFreshEntries(mine, t);
      KeepFreshEntries(other, t);
    case Some(i) =>
      KeepFreshEntries(RemoveKey(mine, t), t);
      KeepFreshEntries(RemoveKey(other, other[i].0), t);
  }

  /** First fit with an inclusive tolerance: a partner is found exactly when
      some key of the other set is within one second, and it is the first such
      entry in enumeration order. */
  lemma MeetFirstFit<A, B>(own: seq<(int, A)>, other: seq<(int, B)>, t: int, e: A)
    ensures Meet(own, other, t, e).partner.None? <==> forall j :: 0 <= j < |other| ==> !Within(other[j].0, t)
    ensures Meet(own, other, t, e).partner.Some? ==>
      exists i :: 0 <= i < |other| && Meet(own, other, t, e).partner == Some(other[i])
        && Within(other[i].0, t) && forall j :: 0 <= j < i ==> !Within(other[j].0, t)
  {
  }

  /** The matched partner is deleted and is not pending any more. */
  lemma {:induction false} MeetConsumesPartner<A, B>(own: seq<(int, A)>, other: seq<(int, B)>, t: int, e: A)
    requires PropertyOrder(other)
    ensures var m := Meet(own, other, t, e);
      m.partner.Some? ==> !HasKey(m.other, m.partner.value.0)
  {
    var m := Meet(own, other, t, e);
    match FirstWithin(other, t)
    case None =>
    case Some(i) =>
      var k := other[i].0;
      var removed := RemoveKey(other, k);
      RemoveKeyEntries(other, k);
      KeepFreshEntries(removed, t);
      forall j | 0 <= j < |m.other| ensures m.other[j].0 != k {
        var j' :| 0 <= j' < |removed| && m.other[j] == removed[j'];
      }
  }

  /** The new reading stays pending, under its own timestamp, exactly when no
      partner was found. */
  lemma {:induction false} MeetOwnPending<A, B>(own: seq<(int, A)>, other: seq<(int, B)>, t: int, e: A)
    requires PropertyOrder(own)
    ensures var m := Meet(own, other, t, e);
      && (m.partner.None? <==> HasKey(m.own, t))
      && (m.partner.None? ==> Lookup(m.own, t) == Some(e))
  {
    var mine := Put(own, t, e);
    PutOrder(own, t, e);
    PutLookup(own, t, e, t);
    var m := Meet(own, other, t, e);
    match FirstWithin(other, t)
    case None =>
      assert HasKey(mine, t);
      var i :| 0 <= i < |mine| && mine[i].0 == t;
      KeepFreshKeeps(mine, t, i);
      var j :| 0 <= j < |m.own| && m.own[j] == mine[i];
      KeepFreshOrder(mine, t);
      LookupAt(m.own, j);
      LookupAt(mine, i);
    case Some(_) =>
      var removed := RemoveKey(mine, t);
      RemoveKeyEntries(mine, t);
      KeepFreshEntries(removed, t);
      forall j | 0 <= j < |m.own| ensures m.own[j].0 != t {
        var j' :| 0 <= j' < |removed| && m.own[j] == removed[j'];
      }
  }

  /** Nothing is invented: after the call each set holds only entries it held
      before, except for the new reading itself, and the partner is an entry
      the other set held. */
  lemma MeetAddsNothing<A, B>(own: seq<(int, A)>, other: seq<(int, B)>, t: int, e: A)
    ensures var m := Meet(own, other, t, e);
      && (forall x :: x in m.own ==> x == (t, e) || x in own)
      && (forall x :: x in m.other ==> x in other)
      && (m.partner.Some? ==> m.partner.value in other)
  {
    var mine := Put(own, t, e);
    PutEntries(own, t, e);
    match FirstWithin(other, t)
    case None =>
      KeepFreshEntries(mine, t);
      EntriesIn(KeepFresh(mine, t), mine);
      KeepFreshEntries(other, t);
      EntriesIn(KeepFresh(other, t), other);
    case Some(i) =>
      var removedMine := RemoveKey(mine, t);
      var removedOther := RemoveKey(other, other[i].0);
      RemoveKeyEntries(mine, t);
      EntriesIn(removedMine, mine);
      KeepFreshEntries(removedMine, t);
      EntriesIn(KeepFresh(removedMine, t), removedMine);
      RemoveKeyEntries(other, other[i].0);
      EntriesIn(removedOther, other);
      KeepFreshEntries(removedOther, t);
      EntriesIn(KeepFresh(removedOther, t), removedOther);
  }

  lemma EntriesIn<E>(d: seq<(int, E)>, s: seq<(int, E)>)
    requires EntriesOf(d, s)
    ensures forall x :: x in d ==> x in s
  {
    forall x | x in d ensures x in s {
      var j :| 0 <= j < |d| && d[j] == x;
      var i :| 0 <= i < |s| && d[j] == s[i];
    }
  }

  /** In an ordered set the lookup of a present key finds its entry. */
  lemma {:induction false} LookupAt<E>(s: seq<(int, E)>, i: nat)
    requires PropertyOrder(s) && i < |s|
    ensures Lookup(s, s[i].0) == Some(s[i].1)
  {
    if i > 0 {
      assert Precedes(s[0], s[i]);
      OrderTail(s);
      assert s[1..][i - 1] == s[i];
      LookupAt(s[1..], i - 1);
    }
  }

  /** Nothing else is lost: an entry of the other set that is not the partner
      and is at most ten seconds older than the new reading is still pending
      with the same value; likewise for the reading's own set, except under its
      own key. */
  lemma {:induction false} MeetKeepsOthers<A, B>(own: seq<(int, A)>, other: seq<(int, B)>, t: int, e: A)
    requires PropertyOrder(own) && PropertyOrder(other)
    ensures var m := Meet(own, other, t, e);
      forall j :: 0 <= j < |other| && !Stale(other[j].0, t) &&
                  (m.partner.None? || other[j].0 != m.partner.value.0) ==>
        Lookup(m.other, other[j].0) == Some(other[j].1)
    ensures var m := Meet(own, other, t, e);
      forall j :: 0 <= j < |own| && !Stale(own[j].0, t) && own[j].0 != t ==>
        Lookup(m.own, own[j].0) == Some(own[j].1)
  {
    var m := Meet(own, other, t, e);
    MeetOrder(own, other, t, e);
    var mine := Put(own, t, e);
    PutOrder(own, t, e);
    var otherKept := if m.partner.None? then other else RemoveKey(other, m.partner.value.0);
    var mineKept := if m.partner.None? then mine else RemoveKey(mine, t);
    assert m.other == Sweep(otherKept, t) && m.own == Sweep(mineKept, t);
    forall j | 0 <= j < |other| && !Stale(other[j].0, t) && (m.partner.None? || other[j].0 != m.partner.value.0)
      ensures Lookup(m.other, other[j].0) == Some(other[j].1)
    {
      var k := other[j].0;
      LookupAt(other, j);
      if m.partner.Some? {
        RemoveKeyOrder(other, m.partner.value.0);
        RemoveLookup(other, m.partner.value.0, k);
      }
      SweepLookup(otherKept, t, k);
    }
    forall j | 0 <= j < |own| && !Stale(own[j].0, t) && own[j].0 != t
      ensures Lookup(m.own, own[j].0) == Some(own[j].1)
    {
      var k := own[j].0;
      LookupAt(own, j);
      PutLookup(own, t, e, k);
      if m.partner.Some? {
        RemoveKeyOrder(mine, t);
        RemoveLookup(mine, t, k);
      }
      SweepLookup(mineKept, t, k);
    }
  }

  /** `delete obj[k]` leaves every other key readable as before. */
  lemma {:induction false} RemoveLookup<E>(s: seq<(int, E)>, k: int, k': int)
    requires k' != k
    ensures Lookup(RemoveKey(s, k), k') == Lookup(s, k')
  {
    if |s| > 0 {
      RemoveLookup(s[1..], k, k');
      if s[0].0 != k {
        assert RemoveKey(s, k) == [s[0]] + RemoveKey(s[1..], k);
        assert ([s[0]] + RemoveKey(s[1..], k))[1..] == RemoveKey(s[1..], k);
      } else {
        assert RemoveKey(s, k) == RemoveKey(s[1..], k);
        assert Lookup(s, k') == Lookup(s[1..], k');
      }
    }
  }

  /** A sweep leaves a fresh key readable as before. */
  lemma SweepLookup<E>(s: seq<(int, E)>, now: int, k: int)
    requires PropertyOrder(s) && HasKey(s, k) && !Stale(k, now)
    ensures Lookup(Sweep(s, now), k) == Lookup(s, k)
  {
    var i :| 0 <= i < |s| && s[i].0 == k;
    KeepFreshKeeps(s, now, i);
    var j :| 0 <= j < |KeepFresh(s, now)| && KeepFresh(s, now)[j] == s[i];
    KeepFreshOrder(s, now);
    LookupAt(s, i);
    LookupAt(KeepFresh(s, now), j);
  }

  // ---------------------------------------------------------------------
  // The two streams.

  /** `recentData`: the pending current and temperature readings. */
  datatype Pending = Pending(current: seq<(int, CurrentEntry)>, temperature: seq<(int, TempEntry)>)
  {
    predicate Valid()
    {
      PropertyOrder(current) && PropertyOrder(temperature)
    }

    /** The reading `x` is pending under key `k`. */
    ghost predicate Holds(k: int, x: Arrival)
    {
      match x
      case CurrentArrival(ce) => (k, ce) in current
      case TemperatureArrival(te) => (k, te) in temperature
    }
  }

  /** A reading handed to the correlator, already turned into its entry. */
  datatype Arrival = CurrentArrival(ce: CurrentEntry) | TemperatureArrival(te: TempEntry)

  /** The pending sets after one call and the combined row it appends, if any. */
  datatype Step = Step(after: Pending, combined: Option<string>)

  /** One call of the correlator for a reading stamped `t`. Whichever stream
      arrives second, the combined row is laid out from the temperature entry
      and then the current entry. */
  function Correlate(p: Pending, t: int, a: Arrival): Step
  {
    match a
    case TemperatureArrival(te) =>
      var m := Meet(p.temperature, p.current, t, te);
      Step(Pending(m.other, m.own),
           if m.partner.Some? then Some(CombinedRow(te, m.partner.value.1)) else None)
    case CurrentArrival(ce) =>
      var m := Meet(p.current, p.temperature, t, ce);
      Step(Pending(m.own, m.other),
           if m.partner.Some? then Some(CombinedRow(m.partner.value.1, ce)) else None)
  }

  /** The invariants of the pending sets, one call at a time: both stay
      ordered, no entry is older than ten seconds relative to the reading
      just received, and the reading is pending iff no row was produced. */
  lemma CorrelateInvariants(p: Pending, t: int, a: Arrival)
    requires p.Valid()
    ensures Correlate(p, t, a).after.Valid()
    ensures var q := Correlate(p, t, a).after;
      && (forall j :: 0 <= j < |q.current| ==> !Stale(q.current[j].0, t))
      && (forall j :: 0 <= j < |q.temperature| ==> !Stale(q.temperature[j].0, t))
    ensures var s := Correlate(p, t, a);
      match a
      case CurrentArrival(ce) =>
        (s.combined.None? <==> Lookup(s.after.current, t) == Some(ce))
      case TemperatureArrival(te) =>
        (s.combined.None? <==> Lookup(s.after.temperature, t) == Some(te))
  {
    match a
    case TemperatureArrival(te) =>
      MeetOrder(p.temperature, p.current, t, te);
      MeetBoundedAge(p.temperature, p.current, t, te);
      MeetOwnPending(p.temperature, p.current, t, te);
    case CurrentArrival(ce) =>
      MeetOrder(p.current, p.temperature, t, ce);
      MeetBoundedAge(p.current, p.temperature, t, ce);
      MeetOwnPending(p.current, p.temperature, t, ce);
  }

  /** A temperature reading is paired with the first pending current reading
      within one second, if there is one; that partner is then gone. */
  lemma CorrelateTemperature(p: Pending, t: int, te: TempEntry)
    requires p.Valid()
    ensures var s := Correlate(p, t, TemperatureArrival(te));
      && (s.combined.None? <==> forall j :: 0 <= j < |p.current| ==> !Within(p.current[j].0, t))
      && (s.combined.Some? ==>
           exists i :: 0 <= i < |p.current| && Within(p.current[i].0, t)
             && (forall j :: 0 <= j < i ==> !Within(p.current[j].0, t))
             && s.combined == Some(CombinedRow(te, p.current[i].1))
             && !HasKey(s.after.current, p.current[i].0))
  {
    MeetFirstFit(p.temperature, p.current, t, te);
    MeetConsumesPartner(p.temperature, p.current, t, te);
  }

  /** A current reading is paired with the first pending temperature reading
      within one second, if there is one; that partner is then gone. The row
      still starts with the temperature reading's columns. */
  lemma CorrelateCurrent(p: Pending, t: int, ce: CurrentEntry)
    requires p.Valid()
    ensures var s := Correlate(p, t, CurrentArrival(ce));
      && (s.combined.None? <==> forall j :: 0 <= j < |p.temperature| ==> !Within(p.temperature[j].0, t))
      && (s.combined.Some? ==>
           exists i :: 0 <= i < |p.temperature| && Within(p.temperature[i].0, t)
             && (forall j :: 0 <= j < i ==> !Within(p.temperature[j].0, t))
             && s.combined == Some(CombinedRow(p.temperature[i].1, ce))
             && !HasKey(s.after.temperature, p.temperature[i].0))
  {
    MeetFirstFit(p.current, p.temperature, t, ce);
    MeetConsumesPartner(p.current, p.temperature, t, ce);
  }

  /** The entry of the other stream that a call pairs its reading with. */
  function Partner(p: Pending, t: int, a: Arrival): Option<(int, Arrival)>
  {
    match a
    case TemperatureArrival(te) =>
      var m := Meet(p.temperature, p.current, t, te);
      if m.partner.Some? then Some((m.partner.value.0, CurrentArrival(m.partner.value.1))) else None
    case CurrentArrival(ce) =>
      var m := Meet(p.current, p.temperature, t, ce);
      if m.partner.Some? then Some((m.partner.value.0, TemperatureArrival(m.partner.value.1))) else None
  }

  /** A row is produced exactly when a partner is found; the partner was
      pending in the other stream's set, and the row is laid out from the
      temperature reading and then the current reading. */
  lemma CorrelatePartner(p: Pending, t: int, a: Arrival)
    ensures var s := Correlate(p, t, a);
      var q := Partner(p, t, a);
      && (q.Some? <==> s.combined.Some?)
      && (q.Some? ==> p.Holds(q.value.0, q.value.1))
      && (q.Some? && a.TemperatureArrival? ==>
            q.value.1.CurrentArrival? && s.combined == Some(CombinedRow(a.te, q.value.1.ce)))
      && (q.Some? && a.CurrentArrival? ==>
            q.value.1.TemperatureArrival? && s.combined == Some(CombinedRow(q.value.1.te, a.ce)))
  {
    match a
    case TemperatureArrival(te) =>
      MeetAddsNothing(p.temperature, p.current, t, te);
    case CurrentArrival(ce) =>
      MeetAddsNothing(p.current, p.temperature, t, ce);
  }

  /** Nothing is invented: after a call a reading is pending only if it was
      pending before or is the reading the call received. */
  lemma CorrelateAddsNothing(p: Pending, t: int, a: Arrival)
    ensures forall k, x :: Correlate(p, t, a).after.Holds(k, x) ==> p.Holds(k, x) || (k, x) == (t, a)
  {
    var q := Correlate(p, t, a).after;
    match a
    case TemperatureArrival(te) =>
      MeetAddsNothing(p.temperature, p.current, t, te);
      forall k, x | q.Holds(k, x) ensures p.Holds(k, x) || (k, x) == (t, a) {
        match x
        case CurrentArrival(ce) =>
        case TemperatureArrival(te') =>
          assert (k, te') == (t, te) || (k, te') in p.temperature;
      }
    case CurrentArrival(ce) =>
      MeetAddsNothing(p.current, p.temperature, t, ce);
      forall k, x | q.Holds(k, x) ensures p.Holds(k, x) || (k, x) == (t, a) {
        match x
        case TemperatureArrival(te) =>
        case CurrentArrival(ce') =>
          assert (k, ce') == (t, ce) || (k, ce') in p.current;
      }
  }

  /** The pending sets after a sequence of calls, each a timestamp and the
      reading received. */
  function Run(p: Pending, calls: seq<(int, Arrival)>): Pending
    decreases |calls|
  {
    if |calls| == 0 then p
    else
      var n := |calls| - 1;
      Correlate(Run(p, calls[..n]), calls[n].0, calls[n].1).after
  }

  /** Once a reading is not pending, no later call pairs with it and it does
      not come back, unless that same reading arrives again under the same
      timestamp. */
  lemma {:induction false} GoneStaysGone(p: Pending, calls: seq<(int, Arrival)>, k: int, x: Arrival)
    requires !p.Holds(k, x)
    requires forall i :: 0 <= i < |calls| ==> calls[i] != (k, x)
    ensures !Run(p, calls).Holds(k, x)
    ensures forall i :: 0 <= i < |calls| ==> Partner(Run(p, calls[..i]), calls[i].0, calls[i].1) != Some((k, x))
    decreases |calls|
  {
    if |calls| > 0 {
      var n := |calls| - 1;
      var init := calls[..n];
      forall i | 0 <= i < |init| ensures init[i] != (k, x) {
        assert init[i] == calls[i];
      }
      GoneStaysGone(p, init, k, x);
      var q := Run(p, init);
      CorrelateAddsNothing(q, calls[n].0, calls[n].1);
      CorrelatePartner(q, calls[n].0, calls[n].1);
      forall i | 0 <= i < |calls| ensures Partner(Run(p, calls[..i]), calls[i].0, calls[i].1) != Some((k, x)) {
        if i < n {
          assert calls[..i] == init[..i] && calls[i] == init[i];
        } else {
          assert calls[..i] == init;
        }
      }
    }
  }

  /** A reading evicted by a later reading's sweep is never paired afterwards
      and never pending again, unless that same reading arrives again under
      the same timestamp. */
  lemma EvictedNeverPaired(p: Pending, t: int, a: Arrival, k: int, x: Arrival, calls: seq<(int, Arrival)>)
    requires Stale(k, t)
    requires forall i :: 0 <= i < |calls| ==> calls[i] != (k, x)
    ensures var q := Correlate(p, t, a).after;
      && !q.Holds(k, x)
      && !Run(q, calls).Holds(k, x)
      && forall i :: 0 <= i < |calls| ==> Partner(Run(q, calls[..i]), calls[i].0, calls[i].1) != Some((k, x))
  {
    var q := Correlate(p, t, a).after;
    CorrelateFresh(p, t, a);
    NotHeldWhenStale(q, t, k, x);
    GoneStaysGone(q, calls, k, x);
  }

  lemma CorrelateFresh(p: Pending, t: int, a: Arrival)
    ensures var q := Correlate(p, t, a).after;
      && (forall j :: 0 <= j < |q.current| ==> !Stale(q.current[j].0, t))
      && (forall j :: 0 <= j < |q.temperature| ==> !Stale(q.temperature[j].0, t))
  {
    match a
    case TemperatureArrival(te) =>
      MeetBoundedAge(p.temperature, p.current, t, te);
    case CurrentArrival(ce) =>
      MeetBoundedAge(p.current, p.temperature, t, ce);
  }

  lemma NotHeldWhenStale(q: Pending, t: int, k: int, x: Arrival)
    requires forall j :: 0 <= j < |q.current| ==> !Stale(q.current[j].0, t)
    requires forall j :: 0 <= j < |q.temperature| ==> !Stale(q.temperature[j].0, t)
    requires Stale(k, t)
    ensures !q.Holds(k, x)
  {
    match x
    case CurrentArrival(ce) =>
      forall j | 0 <= j < |q.current| ensures q.current[j] != (k, ce) {
        assert !Stale(q.current[j].0, t);
      }
    case TemperatureArrival(te) =>
      forall j | 0 <= j < |q.temperature| ensures q.temperature[j] != (k, te) {
        assert !Stale(q.temperature[j].0, t);
      }
  }

  // ---------------------------------------------------------------------
  // Two readings arriving at an empty correlator.

  const Empty: Pending := Pending([], [])

  /** Two readings of different streams within one second produce exactly one
      combined row, laid out the same whichever came first, and leave both
      sets empty. */
  lemma PairWithinTolerance(t1: int, t2: int, ce: CurrentEntry, te: TempEntry)
    requires Within(t1, t2)
    ensures var s1 := Correlate(Empty, t1, CurrentArrival(ce));
      var s2 := Correlate(s1.after, t2, TemperatureArrival(te));
      && s1.combined.None? && s1.after == Pending([(t1, ce)], [])
      && s2.combined == Some(CombinedRow(te, ce)) && s2.after == Empty
    ensures var s1 := Correlate(Empty, t1, TemperatureArrival(te));
      var s2 := Correlate(s1.after, t2, CurrentArrival(ce));
      && s1.combined.None? && s1.after == Pending([], [(t1, te)])
      && s2.combined == Some(CombinedRow(te, ce)) && s2.after == Empty
  {
    SingleEntry(t1, ce, t1);
    SingleEntry(t1, te, t1);
    SingleEntry(t2, te, t2);
    SingleEntry(t2, ce, t2);
    SingleEntry(t1, ce, t2);
    SingleEntry(t1, te, t2);
  }

  /** Two readings more than one second apart produce no row; the first stays
      pending unless the second is more than ten seconds newer. */
  lemma PairOutsideTolerance(t1: int, t2: int, ce: CurrentEntry, te: TempEntry)
    requires !Within(t1, t2)
    ensures var s1 := Correlate(Empty, t1, CurrentArrival(ce));
      var s2 := Correlate(s1.after, t2, TemperatureArrival(te));
      && s2.combined.None?
      && s2.after == Pending(if Stale(t1, t2) then [] else [(t1, ce)], [(t2, te)])
  {
    SingleEntry(t1, ce, t1);
    SingleEntry(t2, te, t2);
    SingleEntry(t1, ce, t2);
  }

  /** A current reading evicted by a later reading's sweep is not paired with
      a temperature reading carrying its own timestamp. */
  lemma EvictionExample(ce: CurrentEntry, te1: TempEntry, te2: TempEntry)
    ensures var s1 := Correlate(Empty, 0, CurrentArrival(ce));
      var s2 := Correlate(s1.after, 20_000_000, TemperatureArrival(te1));
      var s3 := Correlate(s2.after, 0, TemperatureArrival(te2));
      && s2.combined.None? && s2.after.current == []
      && s3.combined.None?
  {
    SingleEntry(0, ce, 0);
    SingleEntry(0, ce, 20_000_000);
    SingleEntry(20_000_000, te1, 20_000_000);
    SingleEntry(20_000_000, te1, 0);
  }

  /** The example pair: current readings 1, 2, 3 from "AA" and temperature
      readings 10, 20, 30 with 25 and 50 from "BB", half a second apart. */
  lemma ExamplePair(sTs: string, eTs: string, sTs': string, eTs': string)
    ensures var cp := Payload(Str("AA"), Some(1_000_000), Num("1"), Num("2"), Num("3"), Undefined, Undefined);
      var tp := Payload(Str("BB"), Some(1_500_000), Num("10"), Num("20"), Num("30"), Num("25"), Num("50"));
      var ce := CurrentEntryOf(sTs, eTs, cp);
      var te := TempEntryOf(sTs', eTs', tp);
      var s1 := Correlate(Empty, 1_000_000, CurrentArrival(ce));
      var s2 := Correlate(s1.after, 1_500_000, TemperatureArrival(te));
      && s2.combined == Some(Join([sTs', eTs', "BB", "AA", "10", "20", "30", "1", "2", "3", "25", "50"], ','))
      && s2.after == Empty
  {
    var cp := Payload(Str("AA"), Some(1_000_000), Num("1"), Num("2"), Num("3"), Undefined, Undefined);
    var tp := Payload(Str("BB"), Some(1_500_000), Num("10"), Num("20"), Num("30"), Num("25"), Num("50"));
    var ce := CurrentEntryOf(sTs, eTs, cp);
    var te := TempEntryOf(sTs', eTs', tp);
    assert ce == CurrentEntry(sTs, eTs, Str("AA"), Num("1"), Num("2"), Num("3"));
    assert te == TempEntry(sTs', eTs', Str("BB"), Num("10"), Num("20"), Num("30"), Num("25"), Num("50"));
    assert CombinedFields(te, ce) == [sTs', eTs', "BB", "AA", "10", "20", "30", "1", "2", "3", "25", "50"];
    PairWithinTolerance(1_000_000, 1_500_000, ce, te);
  }
}
