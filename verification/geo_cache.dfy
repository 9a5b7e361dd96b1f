/** The geolocation cache that replaces `navigator.geolocation.getCurrentPosition`
    (pwa-loader.js:17-86). One call is a pure transition from the stored
    `localStorage` contents and the call's environment (clock, connectivity,
    sensor answer) to the new storage plus the trace of what the call did. */
module GeoCache {
  import opened Wrappers
  import opened JsValues

  const CACHE_KEY: string := "cached_geolocation"
  const CACHE_EXPIRY_DAYS: int := 30
  /** The expiry window in milliseconds; the day arithmetic of the source is
      done here on exact integers. */
  const EXPIRY_MS: int := CACHE_EXPIRY_DAYS * MS_PER_DAY
  /** Accuracy substituted when the stored one is falsy. */
  const DEFAULT_ACCURACY: real := 100.0

  datatype PositionError = PermissionDenied | PositionUnavailable | Timeout

  /** What the platform sensor reports on success. */
  datatype SensorFix = SensorFix(
    latitude: real, longitude: real, accuracy: real,
    altitude: Option<real>, altitudeAccuracy: Option<real>,
    heading: Option<real>, speed: Option<real>,
    timestamp: int)

  datatype SensorOutcome = Fixed(fix: SensorFix) | Failed(error: PositionError)

  /** A position object as the caller's success callback receives it. */
  datatype Position = Position(
    latitude: JsValue, longitude: JsValue, accuracy: JsValue,
    altitude: JsValue, altitudeAccuracy: JsValue,
    heading: JsValue, speed: JsValue,
    timestamp: int)

  /** Observable effects of one call, in the order they happen. */
  datatype Event =
    | SensorRequested
    | Stored(text: string)
    | SuccessCalled(position: Position)
    | ErrorCalled(error: PositionError)

  /** One call's environment: `Date.now()` when called, `navigator.onLine`,
      what the sensor answers if it is asked, and `Date.now()` when it answers. */
  datatype Call = Call(now: int, online: bool, sensor: SensorOutcome, answeredAt: int)

  datatype Outcome = Outcome(storage: Storage, events: seq<Event>)

  /** The decision of lines 23-46: serve these stored coordinates, or read the sensor. */
  datatype Lookup = Hit(coords: Json) | Miss

  predicate IsCallback(e: Event) {
    e.SuccessCalled? || e.ErrorCalled?
  }

  /** How many times the caller's callbacks were invoked. */
  function CallbackCount(events: seq<Event>): nat {
    if |events| == 0 then 0
    else (if IsCallback(events[0]) then 1 else 0) + CallbackCount(events[1..])
  }

  /** How many sensor reads were issued. */
  function SensorReads(events: seq<Event>): nat {
    if |events| == 0 then 0
    else (if events[0].SensorRequested? then 1 else 0) + SensorReads(events[1..])
  }

  /** The storage that results from applying the trace's writes in order. */
  function Replay(storage: Storage, events: seq<Event>): Storage
    decreases |events|
  {
    if |events| == 0 then storage
    else Replay(if events[0].Stored? then storage[CACHE_KEY := events[0].text] else storage, events[1..])
  }

  /** Traces compose: counts add up and writes replay in order. */
  lemma {:induction false} TraceAppend(storage: Storage, a: seq<Event>, b: seq<Event>)
    ensures CallbackCount(a + b) == CallbackCount(a) + CallbackCount(b)
    ensures SensorReads(a + b) == SensorReads(a) + SensorReads(b)
    ensures Replay(storage, a + b) == Replay(Replay(storage, a), b)
    decreases |a|
  {
    if |a| == 0 {
      assert a + b == b;
    } else {
      assert (a + b)[1..] == a[1..] + b;
      var s' := if a[0].Stored? then storage[CACHE_KEY := a[0].text] else storage;
      TraceAppend(s', a[1..], b);
    }
  }

  /** The counts and the replay of a one-event trace. */
  lemma Single(storage: Storage, e: Event)
    ensures CallbackCount([e]) == (if IsCallback(e) then 1 else 0)
    ensures SensorReads([e]) == (if e.SensorRequested? then 1 else 0)
    ensures Replay(storage, [e]) == (if e.Stored? then storage[CACHE_KEY := e.text] else storage)
  {
  }

  function NumberOrNull(x: Option<real>): JsValue {
    match x
    case None => Val(JNull)
    case Some(v) => Val(JNum(v))
  }

  /** The platform's own position object for a sensor fix. */
  function FixPosition(fix: SensorFix): Position {
    Position(Val(JNum(fix.latitude)), Val(JNum(fix.longitude)), Val(JNum(fix.accuracy)),
             NumberOrNull(fix.altitude), NumberOrNull(fix.altitudeAccuracy),
             NumberOrNull(fix.heading), NumberOrNull(fix.speed),
             fix.timestamp)
  }

  /** The record both write paths store: the fix's latitude, longitude and
      accuracy, stamped with the clock at write time (not the fix's own time). */
  function Record(fix: SensorFix, writtenAt: int): Json {
    JObj(map[
      "coords" := JObj(map[
        "latitude" := JNum(fix.latitude),
        "longitude" := JNum(fix.longitude),
        "accuracy" := JNum(fix.accuracy)]),
      "timestamp" := JNum(writtenAt as real)])
  }

  /** `localStorage.setItem(CACHE_KEY, JSON.stringify(record))`: the single
      entry under the cache key is replaced wholesale and nothing else changes. */
  function Write(js: JsRuntime, storage: Storage, fix: SensorFix, writtenAt: int): (s: Storage)
    ensures s.Keys == storage.Keys + {CACHE_KEY}
    ensures s[CACHE_KEY] == js.stringify(Record(fix, writtenAt))
    ensures forall k :: k in storage && k != CACHE_KEY ==> s[k] == storage[k]
  {
    storage[CACHE_KEY := js.stringify(Record(fix, writtenAt))]
  }

  /** Lines 23-46. A missing or empty entry is a miss. A parse error and a
      parsed `null` (reading `.timestamp` of it throws) are caught as a miss.
      Otherwise the record is fresh when `now - timestamp` is strictly below
      the window, with a falsy timestamp read as 0; a NaN age fails the `<`
      test. A fresh record is served only if its `coords` are truthy. */
  function Decide(js: JsRuntime, storage: Storage, now: int): (r: Lookup)
    ensures r.Hit? ==> Truthy(Val(r.coords))
    ensures r.Hit? ==> CACHE_KEY in storage && storage[CACHE_KEY] != ""
    ensures r.Hit? ==> js.parse(storage[CACHE_KEY]).Some?
    ensures r.Hit? ==> Get(js.parse(storage[CACHE_KEY]).value, "coords") == Val(r.coords)
  {
    if CACHE_KEY !in storage || storage[CACHE_KEY] == "" then Miss
    else
      match js.parse(storage[CACHE_KEY])
      case None => Miss
      case Some(parsed) =>
        if parsed.JNull? then Miss
        else
          match ToNumber(js, Or(Get(parsed, "timestamp"), Val(JNum(0.0))))
          case None => Miss
          case Some(t) =>
            if (now as real) - t < EXPIRY_MS as real then
              var coords := Get(parsed, "coords");
              if Truthy(coords) then Hit(coords.json) else Miss
            else Miss
  }

  /** The mock position of lines 48-59. */
  function Synthesize(coords: Json, now: int): Position {
    Position(Get(coords, "latitude"), Get(coords, "longitude"),
             Or(Get(coords, "accuracy"), Val(JNum(DEFAULT_ACCURACY))),
             Val(JNull), Val(JNull), Val(JNull), Val(JNull),
             now)
  }

  /** The silent refresh of lines 65-73: only when online; a fix overwrites
      the record, a failure is swallowed by the empty error callback. */
  function Refresh(js: JsRuntime, storage: Storage, call: Call): (o: Outcome)
    ensures !call.online || call.sensor.Failed? ==> o.storage == storage
    ensures call.online && call.sensor.Fixed? ==> o.storage == Write(js, storage, call.sensor.fix, call.answeredAt)
    ensures SensorRequested in o.events <==> call.online
    ensures forall e :: e in o.events ==> !IsCallback(e)
  {
    if !call.online then Outcome(storage, [])
    else
      match call.sensor
      case Fixed(fix) =>
        var s := Write(js, storage, fix, call.answeredAt);
        Outcome(s, [SensorRequested, Stored(s[CACHE_KEY])])
      case Failed(_) => Outcome(storage, [SensorRequested])
  }

  /** The hit path (lines 46-73): the caller's success callback is invoked
      first and exactly once, with the stored latitude and longitude, the
      stored accuracy or 100 when it is falsy, null altitude, altitude
      accuracy, heading and speed, and the current time as timestamp; a
      sensor read follows only when online and never reaches the caller. */
  function ServeFromCache(js: JsRuntime, storage: Storage, coords: Json, call: Call): (o: Outcome)
    ensures |o.events| >= 1 && o.events[0].SuccessCalled?
    ensures o.events[0].position.latitude == Get(coords, "latitude")
    ensures o.events[0].position.longitude == Get(coords, "longitude")
    ensures Truthy(Get(coords, "accuracy")) ==> o.events[0].position.accuracy == Get(coords, "accuracy")
    ensures !Truthy(Get(coords, "accuracy")) ==> o.events[0].position.accuracy == Val(JNum(DEFAULT_ACCURACY))
    ensures o.events[0].position.altitude == Val(JNull) && o.events[0].position.altitudeAccuracy == Val(JNull)
    ensures o.events[0].position.heading == Val(JNull) && o.events[0].position.speed == Val(JNull)
    ensures o.events[0].position.timestamp == call.now
    ensures forall i :: 1 <= i < |o.events| ==> !IsCallback(o.events[i])
    ensures SensorRequested in o.events <==> call.online
    ensures !call.online || call.sensor.Failed? ==> o.storage == storage
    ensures call.online && call.sensor.Fixed? ==> o.storage == Write(js, storage, call.sensor.fix, call.answeredAt)
  {
    var refresh := Refresh(js, storage, call);
    Outcome(refresh.storage, [SuccessCalled(Synthesize(coords, call.now))] + refresh.events)
  }

  /** The miss path (lines 75-85): one sensor read; on a fix the record
      stamped with the answer time replaces the stored entry before the
      success callback receives the genuine position; on failure the error
      callback receives the genuine error and storage is untouched. */
  function ReadSensor(js: JsRuntime, storage: Storage, call: Call): (o: Outcome)
    ensures |o.events| >= 2 && o.events[0] == SensorRequested
    ensures call.sensor.Fixed? ==>
      && o.storage == Write(js, storage, call.sensor.fix, call.answeredAt)
      && o.events == [SensorRequested, Stored(o.storage[CACHE_KEY]), SuccessCalled(FixPosition(call.sensor.fix))]
    ensures call.sensor.Failed? ==>
      && o.storage == storage
      && o.events == [SensorRequested, ErrorCalled(call.sensor.error)]
  {
    match call.sensor
    case Fixed(fix) =>
      var s := Write(js, storage, fix, call.answeredAt);
      Outcome(s, [SensorRequested, Stored(s[CACHE_KEY]), SuccessCalled(FixPosition(fix))])
    case Failed(e) =>
      Outcome(storage, [SensorRequested, ErrorCalled(e)])
  }

  /** The replacement `getCurrentPosition` (lines 22-86): only the entry
      under the cache key can change. */
  function GetCurrentPosition(js: JsRuntime, storage: Storage, call: Call): (o: Outcome)
    ensures forall k :: k != CACHE_KEY ==> (k in o.storage <==> k in storage)
    ensures forall k :: k != CACHE_KEY && k in storage ==> o.storage[k] == storage[k]
  {
    match Decide(js, storage, call.now)
    case Hit(coords) => ServeFromCache(js, storage, coords, call)
    case Miss => ReadSensor(js, storage, call)
  }

  /** Whatever is stored and whatever the sensor answers, the caller's
      callbacks fire exactly once in total, at most one sensor read is
      issued, and the new storage is exactly the trace's writes applied in
      order. */
  lemma {:induction false} CallbacksFireExactlyOnce(js: JsRuntime, storage: Storage, call: Call)
    ensures CallbackCount(GetCurrentPosition(js, storage, call).events) == 1
    ensures SensorReads(GetCurrentPosition(js, storage, call).events) <= 1
    ensures GetCurrentPosition(js, storage, call).storage == Replay(storage, GetCurrentPosition(js, storage, call).events)
  {
    var o := GetCurrentPosition(js, storage, call);
    match Decide(js, storage, call.now)
    case Hit(coords) =>
      var r := Refresh(js, storage, call);
      var success := SuccessCalled(Synthesize(coords, call.now));
      Single(storage, success);
      TraceAppend(storage, [success], r.events);
      RefreshTrace(js, storage, call);
    case Miss =>
      match call.sensor
      case Fixed(fix) =>
        var s := Write(js, storage, fix, call.answeredAt);
        var e1, e2, e3 := SensorRequested, Stored(s[CACHE_KEY]), SuccessCalled(FixPosition(fix));
        assert o.events == [e1] + ([e2] + [e3]);
        Single(storage, e1);
        Single(storage, e2);
        Single(s, e3);
        TraceAppend(storage, [e2], [e3]);
        TraceAppend(storage, [e1], [e2] + [e3]);
      case Failed(e) =>
        assert o.events == [SensorRequested] + [ErrorCalled(e)];
        Single(storage, SensorRequested);
        Single(storage, ErrorCalled(e));
        TraceAppend(storage, [SensorRequested], [ErrorCalled(e)]);
  }

  /** The silent refresh never calls back, reads the sensor once exactly
      when online, and its writes are the ones its trace records. */
  lemma {:induction false} RefreshTrace(js: JsRuntime, storage: Storage, call: Call)
    ensures CallbackCount(Refresh(js, storage, call).events) == 0
    ensures SensorReads(Refresh(js, storage, call).events) == (if call.online then 1 else 0)
    ensures Refresh(js, storage, call).storage == Replay(storage, Refresh(js, storage, call).events)
  {
    var r := Refresh(js, storage, call);
    if call.online {
      match call.sensor
      case Fixed(fix) =>
        var s := Write(js, storage, fix, call.answeredAt);
        assert r.events == [SensorRequested] + [Stored(s[CACHE_KEY])];
        Single(storage, SensorRequested);
        Single(storage, Stored(s[CACHE_KEY]));
        TraceAppend(storage, [SensorRequested], [Stored(s[CACHE_KEY])]);
      case Failed(_) =>
        Single(storage, SensorRequested);
    }
  }
}
