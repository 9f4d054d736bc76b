/** The data model of the sensor stream (types/sensor.ts): raw readings as
    the loggers send them and the merged per-timestamp records the data
    route produces, stores and serves. */
module SensorTypes {
  import opened Wrappers

  /** The sensor kinds a merged record can carry, one optional fragment each. */
  datatype Kind =
    | Accelerometer | Gyroscope | Gravity | Orientation | WristMotion
    | Magnetometer | Compass | Microphone
    | AccelerometerUncalibrated | GyroscopeUncalibrated | MagnetometerUncalibrated
    | HeartRate | WatchMotion | Location | Barometer

  /** The property name under which a record carries the fragment of `k`. */
  function KindKey(k: Kind): string {
    match k
    case Accelerometer => "accelerometer"
    case Gyroscope => "gyroscope"
    case Gravity => "gravity"
    case Orientation => "orientation"
    case WristMotion => "wristMotion"
    case Magnetometer => "magnetometer"
    case Compass => "compass"
    case Microphone => "microphone"
    case AccelerometerUncalibrated => "accelerometerUncalibrated"
    case GyroscopeUncalibrated => "gyroscopeUncalibrated"
    case MagnetometerUncalibrated => "magnetometerUncalibrated"
    case HeartRate => "heartRate"
    case WatchMotion => "watchMotion"
    case Location => "location"
    case Barometer => "barometer"
  }

  /** A JS number, or `null` (what a nullable store column reads back as). */
  type Num = Option<real>

  /** One sensor's values inside a record: field name to number. */
  type Fragment = map<string, Num>

  /** `ProcessedSensorData`: the instant in milliseconds since the epoch and
      the fragments of the kinds that are present. */
  datatype Record = Record(timestamp: int, fragments: map<Kind, Fragment>)

  /** The free-form key/value payload of one reading. */
  type Values = map<string, real>

  /** `SensorReading`: a sensor name, a nanosecond time and its values. */
  datatype Reading = Reading(name: string, time: int, values: Values)

  /** `SensorMessage`: one ingest batch. */
  datatype SensorMessage = SensorMessage(messageId: int, sessionId: string, deviceId: string, payload: seq<Reading>)

  /** `new Date(ns / 1e6)`: the millisecond instant of a nanosecond time, the
      fraction cut off toward zero as `Date` does. */
  function MsOfNs(ns: int): (ms: int)
    ensures ns >= 0 ==> 0 <= ms && 0 <= ns - ms * 1000000 < 1000000
    ensures ns < 0 ==> ms <= 0 && 0 <= ms * 1000000 - ns < 1000000
  {
    if ns >= 0 then ns / 1000000 else -((-ns) / 1000000)
  }
}
