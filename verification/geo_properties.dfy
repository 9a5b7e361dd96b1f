/** Properties of the geolocation cache that relate stored records, several
    calls, or two storages to each other. */
module GeoProperties {
  import opened Wrappers
  import opened JsValues
  import opened GeoCache

  /** The position the hit path synthesizes from a record the write paths stored. */
  function ServedFix(fix: SensorFix, now: int): Position {
    Position(Val(JNum(fix.latitude)), Val(JNum(fix.longitude)),
             Val(JNum(if fix.accuracy != 0.0 then fix.accuracy else DEFAULT_ACCURACY)),
             Val(JNull), Val(JNull), Val(JNull), Val(JNull),
             now)
  }

  /** A record written at `w` is served exactly while `now - w` is strictly
      below thirty days; at exactly thirty days it is a miss. Its own
      coordinates are what a hit serves. */
  lemma FreshnessBoundary(js: JsRuntime, storage: Storage, fix: SensorFix, w: int, now: int)
    requires RoundTrips(js, Record(fix, w))
    requires CACHE_KEY in storage && storage[CACHE_KEY] == js.stringify(Record(fix, w))
    ensures Decide(js, storage, now).Hit? <==> now - w < EXPIRY_MS
    ensures now - w == EXPIRY_MS ==> Decide(js, storage, now) == Miss
    ensures Decide(js, storage, now).Hit? ==> Decide(js, storage, now).coords == Record(fix, w).fields["coords"]
  {
  }

  /** A parsed record whose `timestamp` is missing or falsy is aged from the
      epoch: it can only be served while `now` itself is below thirty days. */
  lemma FalsyTimestampReadsAsEpoch(js: JsRuntime, storage: Storage, parsed: Json, now: int)
    requires CACHE_KEY in storage && storage[CACHE_KEY] != ""
    requires js.parse(storage[CACHE_KEY]) == Some(parsed) && !parsed.JNull?
    requires !Truthy(Get(parsed, "timestamp"))
    ensures Decide(js, storage, now).Hit? <==> now < EXPIRY_MS && Truthy(Get(parsed, "coords"))
    ensures now >= EXPIRY_MS ==> Decide(js, storage, now) == Miss
  {
  }

  /** Any parsed record with a non-zero numeric `timestamp`, whoever wrote
      it, is served exactly while it is younger than thirty days and its
      `coords` are truthy; the served coordinates are those `coords`. */
  lemma NumericTimestampAge(js: JsRuntime, storage: Storage, parsed: Json, t: real, now: int)
    requires CACHE_KEY in storage && storage[CACHE_KEY] != ""
    requires js.parse(storage[CACHE_KEY]) == Some(parsed) && parsed.JObj?
    requires "timestamp" in parsed.fields && parsed.fields["timestamp"] == JNum(t) && t != 0.0
    ensures Decide(js, storage, now).Hit? <==> (now as real) - t < EXPIRY_MS as real && Truthy(Get(parsed, "coords"))
    ensures (now as real) - t >= EXPIRY_MS as real ==> Decide(js, storage, now) == Miss
    ensures Decide(js, storage, now).Hit? ==> Val(Decide(js, storage, now).coords) == Get(parsed, "coords")
  {
  }

  /** A fresh record without truthy coordinates still reads the sensor. */
  lemma FreshWithoutCoordsReadsSensor(js: JsRuntime, storage: Storage, parsed: Json, t: real, call: Call)
    requires CACHE_KEY in storage && storage[CACHE_KEY] != ""
    requires js.parse(storage[CACHE_KEY]) == Some(parsed) && parsed.JObj?
    requires "timestamp" in parsed.fields && parsed.fields["timestamp"] == JNum(t)
    requires (call.now as real) - t < EXPIRY_MS as real
    requires !Truthy(Get(parsed, "coords"))
    ensures Decide(js, storage, call.now) == Miss
    ensures GetCurrentPosition(js, storage, call) == ReadSensor(js, storage, call)
    ensures GetCurrentPosition(js, storage, call).events[0] == SensorRequested
  {
  }

  /** An unparsable stored string behaves exactly like no stored record: the
      same trace, and the same storage apart from the untouched bad entry,
      which a successful read overwrites. The call returns normally. */
  lemma UnparsableIsAbsent(js: JsRuntime, storage: Storage, call: Call)
    requires CACHE_KEY in storage && js.parse(storage[CACHE_KEY]) == None
    ensures Decide(js, storage, call.now) == Miss
    ensures Decide(js, storage - {CACHE_KEY}, call.now) == Miss
    ensures GetCurrentPosition(js, storage, call).events == GetCurrentPosition(js, storage - {CACHE_KEY}, call).events
    ensures GetCurrentPosition(js, storage, call).storage - {CACHE_KEY}
         == GetCurrentPosition(js, storage - {CACHE_KEY}, call).storage - {CACHE_KEY}
    ensures call.sensor.Fixed? ==>
      GetCurrentPosition(js, storage, call).storage == GetCurrentPosition(js, storage - {CACHE_KEY}, call).storage
  {
  }

  /** After any write of a fix at time `w`, a call serves that fix at once
      (stored latitude and longitude, accuracy defaulted when zero) while it
      is fresh, and reads the sensor first once it has expired. */
  lemma ServedAfterWrite(js: JsRuntime, storage: Storage, fix: SensorFix, w: int, call: Call)
    requires RoundTrips(js, Record(fix, w))
    ensures call.now - w < EXPIRY_MS ==>
      GetCurrentPosition(js, Write(js, storage, fix, w), call).events[0] == SuccessCalled(ServedFix(fix, call.now))
    ensures call.now - w >= EXPIRY_MS ==>
      GetCurrentPosition(js, Write(js, storage, fix, w), call).events[0] == SensorRequested
  {
  }

  /** A second write replaces the first wholesale: one record remains under
      the cache key, and it is the second fix that is served. */
  lemma SecondWriteWins(js: JsRuntime, storage: Storage, fix1: SensorFix, t1: int,
                                           fix2: SensorFix, t2: int, call: Call)
    requires RoundTrips(js, Record(fix2, t2))
    requires call.now - t2 < EXPIRY_MS
    ensures Write(js, Write(js, storage, fix1, t1), fix2, t2) == Write(js, storage, fix2, t2)
    ensures GetCurrentPosition(js, Write(js, Write(js, storage, fix1, t1), fix2, t2), call).events[0]
         == SuccessCalled(ServedFix(fix2, call.now))
  {
    var once := Write(js, storage, fix2, t2);
    assert Write(js, Write(js, storage, fix1, t1), fix2, t2) == once;
    ServedAfterWrite(js, storage, fix2, t2, call);
  }

  /** A miss answered by the sensor stores the fix, so the next call within
      thirty days of the answer is served from the cache without waiting for
      the sensor. */
  lemma MissThenHit(js: JsRuntime, storage: Storage, first: Call, second: Call)
    requires Decide(js, storage, first.now) == Miss && first.sensor.Fixed?
    requires RoundTrips(js, Record(first.sensor.fix, first.answeredAt))
    requires second.now - first.answeredAt < EXPIRY_MS
    ensures GetCurrentPosition(js, GetCurrentPosition(js, storage, first).storage, second).events[0]
         == SuccessCalled(ServedFix(first.sensor.fix, second.now))
  {
  }

  /** A record of latitude 1, longitude 2 and accuracy 50 written five days
      ago is handed to the success callback first, before any sensor
      activity, with the current time as its timestamp. */
  lemma FiveDayOldRecordServedFirst(js: JsRuntime, storage: Storage, call: Call)
    requires RoundTrips(js, Record(SensorFix(1.0, 2.0, 50.0, None, None, None, None, 0), call.now - 5 * MS_PER_DAY))
    requires CACHE_KEY in storage
    requires storage[CACHE_KEY] == js.stringify(Record(SensorFix(1.0, 2.0, 50.0, None, None, None, None, 0), call.now - 5 * MS_PER_DAY))
    ensures GetCurrentPosition(js, storage, call).events[0]
         == SuccessCalled(Position(Val(JNum(1.0)), Val(JNum(2.0)), Val(JNum(50.0)),
                                   Val(JNull), Val(JNull), Val(JNull), Val(JNull), call.now))
  {
  }
}
