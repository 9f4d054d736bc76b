/** The per-reading part of `processSensorData` (app/api/data/route.ts):
    the exact `switch` over the sensor name and the per-kind field list in
    which every field is `values.a || values.b || 0`. */
module Normalizer {
  import opened Wrappers
  import opened Seqs
  import opened Strings
  import opened SensorTypes

  /** The `switch (reading.name)`: exact, case-sensitive string matching. */
  function KindOf(name: string): Option<Kind> {
    if name == "accelerometer" then Some(Accelerometer)
    else if name == "gyroscope" then Some(Gyroscope)
    else if name == "gravity" then Some(Gravity)
    else if name == "orientation" then Some(Orientation)
    else if name == "wrist motion" then Some(WristMotion)
    else if name == "magnetometer" then Some(Magnetometer)
    else if name == "compass" then Some(Compass)
    else if name == "microphone" then Some(Microphone)
    else if name == "accelerometeruncalibrated" then Some(AccelerometerUncalibrated)
    else if name == "gyroscopeuncalibrated" then Some(GyroscopeUncalibrated)
    else if name == "magnetometeruncalibrated" then Some(MagnetometerUncalibrated)
    else if name == "heart rate" || name == "heartrate" then Some(HeartRate)
    else if name == "motion" then Some(WatchMotion)
    else if name == "location" || name == "gps" then Some(Location)
    else if name == "barometer" || name == "pressure" then Some(Barometer)
    else None
  }

  /** The case labels that lead to each kind, as an alias table. */
  function Aliases(k: Kind): seq<string> {
    match k
    case Accelerometer => ["accelerometer"]
    case Gyroscope => ["gyroscope"]
    case Gravity => ["gravity"]
    case Orientation => ["orientation"]
    case WristMotion => ["wrist motion"]
    case Magnetometer => ["magnetometer"]
    case Compass => ["compass"]
    case Microphone => ["microphone"]
    case AccelerometerUncalibrated => ["accelerometeruncalibrated"]
    case GyroscopeUncalibrated => ["gyroscopeuncalibrated"]
    case MagnetometerUncalibrated => ["magnetometeruncalibrated"]
    case HeartRate => ["heart rate", "heartrate"]
    case WatchMotion => ["motion"]
    case Location => ["location", "gps"]
    case Barometer => ["barometer", "pressure"]
  }

  /** The switch recognises a name as kind `k` exactly when the name is one
      of the aliases of `k`: no other spelling, no other kind. */
  lemma KindOfMatchesAliases(name: string, k: Kind)
    ensures KindOf(name) == Some(k) <==> name in Aliases(k)
  {
    if KindOf(name).Some? {
      KindOfIsAlias(name);
    }
    if name in Aliases(k) {
      AliasesRecognised(k);
    }
  }

  /** Every name the switch accepts is an alias of the kind it yields. */
  lemma KindOfIsAlias(name: string)
    requires KindOf(name).Some?
    ensures name in Aliases(KindOf(name).value)
  {
  }

  /** Every alias of `k` is recognised as `k`. */
  lemma AliasesRecognised(k: Kind)
    ensures forall name :: name in Aliases(k) ==> KindOf(name) == Some(k)
  {
    match k
    case Accelerometer => AccelerometerNamesRecognised();
    case Gyroscope => AccelerometerNamesRecognised();
    case Gravity => GravityNamesRecognised();
    case Orientation => GravityNamesRecognised();
    case WristMotion => WristNamesRecognised();
    case Magnetometer => WristNamesRecognised();
    case Compass => CompassNamesRecognised();
    case Microphone => CompassNamesRecognised();
    case AccelerometerUncalibrated => UncalibratedNamesRecognised();
    case GyroscopeUncalibrated => UncalibratedNamesRecognised();
    case MagnetometerUncalibrated => MagnetometerNamesRecognised();
    case HeartRate => HeartRateNamesRecognised();
    case WatchMotion => MagnetometerNamesRecognised();
    case Location => LocationNamesRecognised();
    case Barometer => BarometerNamesRecognised();
  }

  lemma AccelerometerNamesRecognised()
    ensures KindOf("accelerometer") == Some(Accelerometer) && KindOf("gyroscope") == Some(Gyroscope)
  {
  }

  lemma GravityNamesRecognised()
    ensures KindOf("gravity") == Some(Gravity) && KindOf("orientation") == Some(Orientation)
  {
  }

  lemma WristNamesRecognised()
    ensures KindOf("wrist motion") == Some(WristMotion) && KindOf("magnetometer") == Some(Magnetometer)
  {
  }

  lemma CompassNamesRecognised()
    ensures KindOf("compass") == Some(Compass) && KindOf("microphone") == Some(Microphone)
  {
  }

  lemma UncalibratedNamesRecognised()
    ensures KindOf("accelerometeruncalibrated") == Some(AccelerometerUncalibrated) && KindOf("gyroscopeuncalibrated") == Some(GyroscopeUncalibrated)
  {
  }

  lemma MagnetometerNamesRecognised()
    ensures KindOf("magnetometeruncalibrated") == Some(MagnetometerUncalibrated) && KindOf("motion") == Some(WatchMotion)
  {
  }

  lemma HeartRateNamesRecognised()
    ensures KindOf("heart rate") == Some(HeartRate) && KindOf("heartrate") == Some(HeartRate)
  {
  }

  lemma LocationNamesRecognised()
    ensures KindOf("location") == Some(Location) && KindOf("gps") == Some(Location)
  {
  }

  lemma BarometerNamesRecognised()
    ensures KindOf("barometer") == Some(Barometer) && KindOf("pressure") == Some(Barometer)
  {
  }

  /** Matching is case-sensitive: capitalised spellings fall to `default`. */
  lemma MatchingIsCaseSensitive()
    ensures KindOf("GPS") == None && KindOf("Accelerometer") == None
    ensures KindOf("Heart Rate") == None && KindOf("Wrist Motion") == None
  {
    assert KindOf("GPS") == None && KindOf("Accelerometer") == None by {
      CapitalisedShortNames();
    }
    CapitalisedSpacedNames();
  }

  lemma CapitalisedShortNames()
    ensures KindOf("GPS") == None && KindOf("Accelerometer") == None
  {
  }

  lemma CapitalisedSpacedNames()
    ensures KindOf("Heart Rate") == None && KindOf("Wrist Motion") == None
  {
  }

  /** JS truthiness of `values[key]` on a JSON number: present and non-zero. */
  predicate Truthy(values: Values, key: string) {
    key in values && values[key] != 0.0
  }

  /** `values[keys[0]] || values[keys[1]] || ... || 0`: the first truthy
      source key's value, else 0. */
  function Pick(values: Values, keys: seq<string>): (r: real)
    ensures r != 0.0 ==> exists i :: 0 <= i < |keys| && Truthy(values, keys[i]) && values[keys[i]] == r
                                     && forall j :: 0 <= j < i ==> !Truthy(values, keys[j])
    ensures r == 0.0 <==> forall i :: 0 <= i < |keys| ==> !Truthy(values, keys[i])
  {
    if keys == [] then 0.0
    else if Truthy(values, keys[0]) then values[keys[0]]
    else
      var r := Pick(values, keys[1..]);
      assert forall i :: 1 <= i < |keys| ==> keys[1..][i - 1] == keys[i];
      r
  }

  /** The fields of the object literal each `case` assigns, in source order. */
  function Fields(k: Kind): seq<string> {
    match k
    case Accelerometer => ["x", "y", "z"]
    case Gyroscope => ["x", "y", "z"]
    case Gravity => ["x", "y", "z"]
    case Orientation => ["yaw", "pitch", "roll", "qx", "qy", "qz", "qw"]
    case WristMotion =>
      ["rotationRateX", "rotationRateY", "rotationRateZ", "gravityX", "gravityY", "gravityZ",
       "accelerationX", "accelerationY", "accelerationZ", "quaternionW", "quaternionX", "quaternionY", "quaternionZ"]
    case Magnetometer => ["magneticBearing"]
    case Compass => ["magneticBearing"]
    case Microphone => ["dBFS"]
    case AccelerometerUncalibrated => ["x", "y", "z"]
    case GyroscopeUncalibrated => ["x", "y", "z"]
    case MagnetometerUncalibrated => ["x", "y", "z"]
    case HeartRate => ["bpm", "confidence"]
    case WatchMotion => ["x", "y", "z", "intensity"]
    case Location => ["latitude", "longitude", "altitude", "accuracy", "speed", "bearing"]
    case Barometer => ["pressure", "altitude"]
  }

  /** The value keys a field is read from, in `||` order: the field's own
      name, then the aliases the source accepts for it. */
  function Sources(k: Kind, field: string): seq<string> {
    match k
    case HeartRate => if field == "bpm" then ["bpm", "heartRate"] else [field]
    case Location =>
      if field == "latitude" then ["latitude", "lat"]
      else if field == "longitude" then ["longitude", "lng", "lon"]
      else if field == "altitude" then ["altitude", "alt"]
      else [field]
    case Barometer => if field == "pressure" then ["pressure", "hPa"] else [field]
    case _ => [field]
  }

  lemma FieldsDistinct(k: Kind)
    ensures NoDuplicates(Fields(k))
  {
  }

  /** The fragment a reading of kind `k` contributes: every field of the
      kind and no other, each the first truthy source key or else 0 —
      never `undefined`, never `null`. */
  function Normalize(k: Kind, values: Values): (f: Fragment)
    ensures f.Keys == Elements(Fields(k))
    ensures forall field :: field in f ==> f[field] == Some(Pick(values, Sources(k, field)))
  {
    map field | field in Fields(k) :: Some(Pick(values, Sources(k, field)))
  }

  /** A GPS reading sent as `"gps"` with `lat`/`lng`: the aliases fill
      latitude and longitude. */
  lemma GpsAliasKeys(v: Values)
    requires v == map["lat" := 10.0, "lng" := 20.0]
    ensures "latitude" in Normalize(Location, v) && Normalize(Location, v)["latitude"] == Some(10.0)
    ensures "longitude" in Normalize(Location, v) && Normalize(Location, v)["longitude"] == Some(20.0)
  {
    GpsLatitude(v);
    GpsLongitude(v);
  }

  /** The other fields of that reading default to 0. */
  lemma GpsOtherFieldsZero(v: Values)
    requires v == map["lat" := 10.0, "lng" := 20.0]
    ensures "altitude" in Normalize(Location, v) && Normalize(Location, v)["altitude"] == Some(0.0)
    ensures "speed" in Normalize(Location, v) && Normalize(Location, v)["speed"] == Some(0.0)
    ensures "accuracy" in Normalize(Location, v) && Normalize(Location, v)["accuracy"] == Some(0.0)
    ensures "bearing" in Normalize(Location, v) && Normalize(Location, v)["bearing"] == Some(0.0)
  {
    GpsAltitude(v);
    GpsPlainFields(v);
  }

  lemma GpsLatitude(v: Values)
    requires v == map["lat" := 10.0, "lng" := 20.0]
    ensures Pick(v, Sources(Location, "latitude")) == 10.0
  {
    assert Pick(v, ["lat"]) == 10.0;
  }

  lemma GpsLongitude(v: Values)
    requires v == map["lat" := 10.0, "lng" := 20.0]
    ensures Pick(v, Sources(Location, "longitude")) == 20.0
  {
    assert Pick(v, ["lon"]) == 0.0;
    assert Pick(v, ["lng", "lon"]) == 20.0;
  }

  lemma GpsAltitude(v: Values)
    requires v == map["lat" := 10.0, "lng" := 20.0]
    ensures Pick(v, Sources(Location, "altitude")) == 0.0
  {
    assert Pick(v, ["alt"]) == 0.0;
  }

  lemma GpsPlainFields(v: Values)
    requires v == map["lat" := 10.0, "lng" := 20.0]
    ensures Pick(v, Sources(Location, "speed")) == 0.0
    ensures Pick(v, Sources(Location, "accuracy")) == 0.0
    ensures Pick(v, Sources(Location, "bearing")) == 0.0
  {
    assert Pick(v, ["speed"]) == 0.0;
    assert Pick(v, ["accuracy"]) == 0.0;
    assert Pick(v, ["bearing"]) == 0.0;
  }

  /** A primary key present with value 0 falls through to its alias. */
  lemma ZeroPrimaryFallsThrough()
    ensures Normalize(HeartRate, map["bpm" := 0.0, "heartRate" := 72.0])["bpm"] == Some(72.0)
  {
    var v := map["bpm" := 0.0, "heartRate" := 72.0];
    assert Pick(v, ["heartRate"]) == 72.0;
  }
}
