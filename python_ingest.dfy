/** The Flask ingest endpoint of main.py: `receive_data` walks the payload
    and appends values to module-level `deque(maxlen=1000)` channels, one
    deque per plotted quantity, plus the shared `time` deque. */
module PythonIngest {
  import opened Wrappers
  import opened Seqs
  import opened SensorTypes
  import opened Normalizer

  /** `MAX_DATA_POINTS`, the `maxlen` of every deque. */
  const MaxDataPoints: nat := 1000

  /** One reading of `data_json['payload']`: `d.get("name")`, `d["time"]`
      and `d.get("values", {})`, each of which may be missing. */
  datatype PyReading = PyReading(name: Option<string>, time: Option<int>, values: Option<Values>)

  /** `d.get("values", {})`. */
  function ValuesOf(d: PyReading): Values {
    d.values.GetOr(map[])
  }

  /** `values.get(key, 0)`: the stored value when the key is present, even
      0, and 0 only when it is missing. */
  function ValueGet(values: Values, key: string): (r: real)
    ensures key in values ==> r == values[key]
    ensures key !in values ==> r == 0.0
  {
    if key in values then values[key] else 0.0
  }

  /** The `if`/`elif` chain: exact string comparison on eleven names. */
  function PyKindOf(name: Option<string>): Option<Kind> {
    match name
    case None => None
    case Some(n) =>
      if n == "accelerometer" then Some(Accelerometer)
      else if n == "gyroscope" then Some(Gyroscope)
      else if n == "gravity" then Some(Gravity)
      else if n == "orientation" then Some(Orientation)
      else if n == "magnetometer" then Some(Magnetometer)
      else if n == "compass" then Some(Compass)
      else if n == "microphone" then Some(Microphone)
      else if n == "wrist motion" then Some(WristMotion)
      else if n == "accelerometeruncalibrated" then Some(AccelerometerUncalibrated)
      else if n == "gyroscopeuncalibrated" then Some(GyroscopeUncalibrated)
      else if n == "magnetometeruncalibrated" then Some(MagnetometerUncalibrated)
      else None
  }

  /** The value keys each branch reads, in append order; the `j`-th key
      feeds the kind's `j`-th deque (`accel_x`, `accel_y`, `accel_z`;
      `orientation_yaw` … `quat_w`; `wrist_rotation_x` … `wrist_quat_z`;
      `magnetic_bearing`; `compass_bearing`; `microphone_dbfs`; …). Kinds
      without an `elif` branch have no deques. */
  function PyKeys(k: Kind): seq<string> {
    match k
    case Accelerometer => ["x", "y", "z"]
    case Gyroscope => ["x", "y", "z"]
    case Gravity => ["x", "y", "z"]
    case Orientation => ["yaw", "pitch", "roll", "qx", "qy", "qz", "qw"]
    case Magnetometer => ["magneticBearing"]
    case Compass => ["magneticBearing"]
    case Microphone => ["dBFS"]
    case WristMotion =>
      ["rotationRateX", "rotationRateY", "rotationRateZ", "gravityX", "gravityY", "gravityZ",
       "accelerationX", "accelerationY", "accelerationZ", "quaternionW", "quaternionX", "quaternionY", "quaternionZ"]
    case AccelerometerUncalibrated => ["x", "y", "z"]
    case GyroscopeUncalibrated => ["x", "y", "z"]
    case MagnetometerUncalibrated => ["x", "y", "z"]
    case _ => []
  }

  /** A deque: the `slot`-th quantity of sensor kind `kind`. */
  datatype Channel = Channel(kind: Kind, slot: nat)

  /** The content of a deque, empty before its first append. */
  function SeriesIn(series: map<Channel, seq<real>>, ch: Channel): seq<real> {
    if ch in series then series[ch] else []
  }

  /** The first nanosecond time `datetime.fromtimestamp(time / 1e9)`
      accepts: 0001-01-01 00:00:00 UTC. */
  const MinTimeNs: int := -62135596800 * 1000000000

  /** The first nanosecond time it rejects: 10000-01-01 00:00:00 UTC, the
      end of the year range of `datetime`. */
  const MaxTimeNs: int := 253402300800 * 1000000000

  /** `d["time"]` exists and `datetime.fromtimestamp(d["time"] / 1e9)`
      returns: a missing `time` raises `KeyError`, a time outside the
      `datetime` range raises `ValueError` or `OverflowError`. */
  predicate Converts(d: PyReading) {
    d.time.Some? && MinTimeNs <= d.time.value < MaxTimeNs
  }

  /** The readings `receive_data` gets through: all of them up to the first
      one whose `time` is missing or cannot be converted. */
  function TimedPrefix(r: seq<PyReading>): (p: seq<PyReading>)
    ensures |p| <= |r| && p == r[..|p|]
    ensures forall j :: 0 <= j < |p| ==> Converts(r[j])
    ensures |p| < |r| ==> !Converts(r[|p|])
  {
    if r == [] || !Converts(r[0]) then []
    else
      var p := TimedPrefix(r[1..]);
      assert forall j :: 1 <= j <= |p| ==> r[1..][j - 1] == r[j];
      [r[0]] + p
  }

  /** The prefix ends at the first reading whose `time` is missing or out
      of range. */
  lemma TimedPrefixStops(r: seq<PyReading>, i: nat)
    requires i <= |r| && forall j :: 0 <= j < i ==> Converts(r[j])
    requires i < |r| ==> !Converts(r[i])
    ensures TimedPrefix(r) == r[..i]
  {
  }

  /** A reading stamped at or after year 10000, or before year 1, ends the
      batch like one without `time`, and the readings before it stay
      applied. */
  lemma OutOfRangeTimeStops(r: seq<PyReading>, d: PyReading, rest: seq<PyReading>)
    requires forall j :: 0 <= j < |r| ==> Converts(r[j])
    requires d.time == Some(MaxTimeNs) || d.time == Some(MinTimeNs - 1)
    ensures TimedPrefix(r + [d] + rest) == r
  {
    var s := r + [d] + rest;
    assert s[..|r|] == r;
    TimedPrefixStops(s, |r|);
  }

  /** What reading `d` appends to deque `ch`: one value when `d` is of the
      deque's kind, nothing otherwise. */
  function Contribution(d: PyReading, ch: Channel): seq<real> {
    if PyKindOf(d.name) == Some(ch.kind) && ch.slot < |PyKeys(ch.kind)| then
      [ValueGet(ValuesOf(d), PyKeys(ch.kind)[ch.slot])]
    else []
  }

  /** Everything the readings append to deque `ch`, oldest first. */
  function Appended(r: seq<PyReading>, ch: Channel): seq<real> {
    if r == [] then [] else Appended(r[..|r| - 1], ch) + Contribution(r[|r| - 1], ch)
  }

  /** Everything the readings append to `time`: accelerometer times only. */
  function TimesAppended(r: seq<PyReading>): seq<int>
    requires forall j :: 0 <= j < |r| ==> r[j].time.Some?
  {
    if r == [] then []
    else
      TimesAppended(r[..|r| - 1]) + AccelTime(r[|r| - 1])
  }

  /** What reading `d` appends to `time`: its time if it is an
      accelerometer reading, nothing otherwise. */
  function AccelTime(d: PyReading): seq<int>
    requires d.time.Some?
  {
    if PyKindOf(d.name) == Some(Accelerometer) then [d.time.value] else []
  }

  /** The first `j` values the branch for kind `k` has appended when it
      has gone through `j` of its `keys`. */
  function Pending(values: Values, k: Kind, keys: seq<string>, ch: Channel, j: nat): seq<real>
    requires j <= |keys|
  {
    if ch.kind == k && ch.slot < j then [ValueGet(values, keys[ch.slot])] else []
  }

  /** The number of readings of kind `k`. */
  function CountKind(r: seq<PyReading>, k: Kind): nat {
    if r == [] then 0 else CountKind(r[..|r| - 1], k) + if PyKindOf(r[|r| - 1].name) == Some(k) then 1 else 0
  }

  /** The module-level deques as one object. `time` holds the reading's
      nanosecond time (the conversion to `datetime` is not modelled). */
  class Dashboard {
    var time: seq<int>
    var series: map<Channel, seq<real>>

    /** Every deque is capped at `MAX_DATA_POINTS`. */
    ghost predicate Valid()
      reads this
    {
      |time| <= MaxDataPoints && Bounded(series)
    }

    constructor ()
      ensures Valid() && time == [] && series == map[]
    {
      time := [];
      series := map[];
    }

    /** `deque.append(x)` on a full deque drops its oldest entry. */
    method Append(ch: Channel, x: real)
      requires Valid()
      modifies this
      ensures Valid()
      ensures time == old(time)
      ensures series == old(series)[ch := Last(SeriesIn(old(series), ch) + [x], MaxDataPoints)]
    {
      series := series[ch := Last(SeriesIn(series, ch) + [x], MaxDataPoints)];
    }

    /** The `if`/`elif` chain for one reading: the branch of its kind
        appends one value to each of the kind's deques (and, for the
        accelerometer, its time to `time`); no branch, no append. */
    method Dispatch(d: PyReading)
      requires Valid() && d.time.Some?
      modifies this
      ensures Valid()
      ensures time == Last(old(time) + AccelTime(d), MaxDataPoints)
      ensures forall ch :: SeriesIn(series, ch) == Last(SeriesIn(old(series), ch) + Contribution(d, ch), MaxDataPoints)
    {
      var kind := PyKindOf(d.name);
      if kind.None? {
        forall ch ensures SeriesIn(series, ch) == Last(SeriesIn(series, ch) + Contribution(d, ch), MaxDataPoints) {
          LastOfShort(SeriesIn(series, ch));
        }
        LastOfShort(time);
        return;
      }
      var k := kind.value;
      if k == Accelerometer {
        time := Last(time + [d.time.value], MaxDataPoints);
      } else {
        LastOfShort(time);
      }
      AppendFields(k, PyKeys(k), ValuesOf(d));
      forall ch ensures Pending(ValuesOf(d), k, PyKeys(k), ch, |PyKeys(k)|) == Contribution(d, ch) {
        PendingComplete(d, k, ch);
      }
    }

    /** The appends of one branch: `values.get(keys[j], 0)` to the `j`-th
        deque of kind `k`, for each `j` in turn. */
    method AppendFields(k: Kind, keys: seq<string>, values: Values)
      requires Valid()
      modifies this
      ensures Valid() && time == old(time)
      ensures AppendedSoFar(old(series), series, values, k, keys, |keys|)
    {
      AppendedSoFarStart(series, values, k, keys);
      for j := 0 to |keys|
        invariant Valid() && time == old(time)
        invariant AppendedSoFar(old(series), series, values, k, keys, j)
      {
        AppendedSoFarStep(old(series), series, values, k, keys, j);
        Append(Channel(k, j), ValueGet(values, keys[j]));
      }
    }

    /** `receive_data`: a missing `payload` is an empty one; the readings
        are dispatched in order; the first reading whose `time` is missing
        or outside the `datetime` range ends the request with an error (`ok` false), the readings before it staying
        applied; unrecognised names append nothing. */
    method ReceiveData(payload: Option<seq<PyReading>>) returns (ok: bool)
      requires Valid()
      modifies this
      ensures Valid()
      ensures var r := payload.GetOr([]);
        var p := TimedPrefix(r);
        && (ok <==> p == r)
        && time == Last(old(time) + TimesAppended(p), MaxDataPoints)
        && forall ch :: SeriesIn(series, ch) == Last(SeriesIn(old(series), ch) + Appended(p, ch), MaxDataPoints)
    {
      var r := payload.GetOr([]);
      IngestedStart(series);
      for i := 0 to |r|
        invariant Valid()
        invariant forall j :: 0 <= j < i ==> Converts(r[j])
        invariant time == Last(old(time) + TimesAppended(r[..i]), MaxDataPoints)
        invariant Ingested(old(series), series, r[..i])
      {
        var d := r[i];
        if !Converts(d) {
          TimedPrefixStops(r, i);
          return false;
        }
        ghost var time0, series0 := time, series;
        Dispatch(d);
        assert r[..i + 1] == r[..i] + [d];
        ReceiveStep(old(time), time0, time, r[..i], d);
        IngestedStep(old(series), series0, series, r[..i], d);
      }
      TimedPrefixStops(r, |r|);
      ok := true;
    }
  }

  /** No deque is longer than `MAX_DATA_POINTS`. */
  ghost predicate Bounded(series: map<Channel, seq<real>>) {
    forall ch :: ch in series ==> |series[ch]| <= MaxDataPoints
  }

  lemma BoundedSeriesIn(series: map<Channel, seq<real>>, ch: Channel)
    requires Bounded(series)
    ensures |SeriesIn(series, ch)| <= MaxDataPoints
  {
  }

  /** Every deque of `s` holds its content in `s0` followed by the first
      `j` appends of the branch for kind `k`, trimmed to the cap. */
  ghost predicate AppendedSoFar(s0: map<Channel, seq<real>>, s: map<Channel, seq<real>>,
                                values: Values, k: Kind, keys: seq<string>, j: nat)
    requires j <= |keys|
  {
    forall ch :: SeriesIn(s, ch) == Last(SeriesIn(s0, ch) + Pending(values, k, keys, ch, j), MaxDataPoints)
  }

  lemma AppendedSoFarStart(s0: map<Channel, seq<real>>, values: Values, k: Kind, keys: seq<string>)
    requires Bounded(s0)
    ensures AppendedSoFar(s0, s0, values, k, keys, 0)
  {
    forall ch ensures SeriesIn(s0, ch) == Last(SeriesIn(s0, ch) + Pending(values, k, keys, ch, 0), MaxDataPoints) {
      BoundedSeriesIn(s0, ch);
      LastOfShort(SeriesIn(s0, ch));
    }
  }

  lemma AppendedSoFarStep(s0: map<Channel, seq<real>>, s1: map<Channel, seq<real>>,
                          values: Values, k: Kind, keys: seq<string>, j: nat)
    requires Bounded(s0) && j < |keys| && AppendedSoFar(s0, s1, values, k, keys, j)
    ensures var c := Channel(k, j);
      AppendedSoFar(s0, s1[c := Last(SeriesIn(s1, c) + [ValueGet(values, keys[j])], MaxDataPoints)], values, k, keys, j + 1)
  {
    var c := Channel(k, j);
    var s2 := s1[c := Last(SeriesIn(s1, c) + [ValueGet(values, keys[j])], MaxDataPoints)];
    forall ch ensures SeriesIn(s2, ch) == Last(SeriesIn(s0, ch) + Pending(values, k, keys, ch, j + 1), MaxDataPoints) {
      BoundedSeriesIn(s0, ch);
      AppendedAt(s0, s1, values, k, keys, j, ch);
    }
  }

  /** `AppendedSoFarStep` for one deque. */
  lemma AppendedAt(s0: map<Channel, seq<real>>, s1: map<Channel, seq<real>>,
                   values: Values, k: Kind, keys: seq<string>, j: nat, ch: Channel)
    requires j < |keys| && |SeriesIn(s0, ch)| <= MaxDataPoints
    requires SeriesIn(s1, ch) == Last(SeriesIn(s0, ch) + Pending(values, k, keys, ch, j), MaxDataPoints)
    ensures var c := Channel(k, j);
      var s2 := s1[c := Last(SeriesIn(s1, c) + [ValueGet(values, keys[j])], MaxDataPoints)];
      SeriesIn(s2, ch) == Last(SeriesIn(s0, ch) + Pending(values, k, keys, ch, j + 1), MaxDataPoints)
  {
    var c := Channel(k, j);
    var s2 := s1[c := Last(SeriesIn(s1, c) + [ValueGet(values, keys[j])], MaxDataPoints)];
    PendingStep(SeriesIn(s0, ch), SeriesIn(s1, ch), SeriesIn(s2, ch), values, k, keys, j, ch);
  }

  /** Every deque of `s` holds its content in `s0` followed by what the
      readings `p` append to it, trimmed to the cap. */
  ghost predicate Ingested(s0: map<Channel, seq<real>>, s: map<Channel, seq<real>>, p: seq<PyReading>) {
    forall ch :: SeriesIn(s, ch) == Last(SeriesIn(s0, ch) + Appended(p, ch), MaxDataPoints)
  }

  lemma IngestedStart(s0: map<Channel, seq<real>>)
    requires Bounded(s0)
    ensures Ingested(s0, s0, [])
  {
    forall ch ensures SeriesIn(s0, ch) == Last(SeriesIn(s0, ch) + Appended([], ch), MaxDataPoints) {
      BoundedSeriesIn(s0, ch);
      LastOfShort(SeriesIn(s0, ch));
    }
  }

  lemma IngestedStep(s0: map<Channel, seq<real>>, s1: map<Channel, seq<real>>, s2: map<Channel, seq<real>>,
                     p: seq<PyReading>, d: PyReading)
    requires Ingested(s0, s1, p)
    requires forall ch :: SeriesIn(s2, ch) == Last(SeriesIn(s1, ch) + Contribution(d, ch), MaxDataPoints)
    ensures Ingested(s0, s2, p + [d])
  {
    forall ch ensures SeriesIn(s2, ch) == Last(SeriesIn(s0, ch) + Appended(p + [d], ch), MaxDataPoints) {
      SeriesStep(SeriesIn(s0, ch), SeriesIn(s1, ch), SeriesIn(s2, ch), p, d, ch);
    }
  }

  /** Trimming a deque that is already short enough changes nothing. */
  lemma LastOfShort<T>(s: seq<T>)
    requires |s| <= MaxDataPoints
    ensures Last(s + [], MaxDataPoints) == s
  {
    assert s + [] == s;
  }

  /** One `append` of the branch, folded into the values appended so far. */
  lemma PendingStep(s0: seq<real>, s1: seq<real>, s2: seq<real>, values: Values, k: Kind, keys: seq<string>, j: nat, ch: Channel)
    requires j < |keys| && |s0| <= MaxDataPoints
    requires s1 == Last(s0 + Pending(values, k, keys, ch, j), MaxDataPoints)
    requires s2 == if ch == Channel(k, j) then Last(s1 + [ValueGet(values, keys[j])], MaxDataPoints) else s1
    ensures s2 == Last(s0 + Pending(values, k, keys, ch, j + 1), MaxDataPoints)
  {
    if ch == Channel(k, j) {
      assert s0 + [] == s0;
      LastOfConcat(s0, [ValueGet(values, keys[j])], MaxDataPoints);
    }
  }

  /** After its last key the branch has appended exactly the reading's
      contribution to every deque. */
  lemma PendingComplete(d: PyReading, k: Kind, ch: Channel)
    requires PyKindOf(d.name) == Some(k)
    ensures Pending(ValuesOf(d), k, PyKeys(k), ch, |PyKeys(k)|) == Contribution(d, ch)
  {
  }

  /** One reading's effect on `time`, folded into the running total. */
  lemma ReceiveStep(t0: seq<int>, t1: seq<int>, t2: seq<int>, p: seq<PyReading>, d: PyReading)
    requires forall j :: 0 <= j < |p| ==> p[j].time.Some?
    requires d.time.Some?
    requires t1 == Last(t0 + TimesAppended(p), MaxDataPoints)
    requires t2 == Last(t1 + AccelTime(d), MaxDataPoints)
    ensures forall j :: 0 <= j < |p + [d]| ==> (p + [d])[j].time.Some?
    ensures t2 == Last(t0 + TimesAppended(p + [d]), MaxDataPoints)
  {
    var e := AccelTime(d);
    assert (p + [d])[..|p|] == p;
    LastOfConcat(t0 + TimesAppended(p), e, MaxDataPoints);
    assert t0 + TimesAppended(p) + e == t0 + (TimesAppended(p) + e);
  }

  /** One reading's effect on a deque, folded into the running total. */
  lemma SeriesStep(s0: seq<real>, s1: seq<real>, s2: seq<real>, p: seq<PyReading>, d: PyReading, ch: Channel)
    requires s1 == Last(s0 + Appended(p, ch), MaxDataPoints)
    requires s2 == Last(s1 + Contribution(d, ch), MaxDataPoints)
    ensures s2 == Last(s0 + Appended(p + [d], ch), MaxDataPoints)
  {
    assert (p + [d])[..|p|] == p;
    LastOfConcat(s0 + Appended(p, ch), Contribution(d, ch), MaxDataPoints);
    assert s0 + Appended(p, ch) + Contribution(d, ch) == s0 + (Appended(p, ch) + Contribution(d, ch));
  }

  /** Each deque of a kind receives exactly one value per reading of that
      kind; a quantity the kind does not have receives nothing. */
  lemma {:induction false} AppendedLength(r: seq<PyReading>, ch: Channel)
    ensures |Appended(r, ch)| == if ch.slot < |PyKeys(ch.kind)| then CountKind(r, ch.kind) else 0
  {
    if r != [] {
      AppendedLength(r[..|r| - 1], ch);
    }
  }

  /** `time` receives one entry per accelerometer reading and no other, so
      it stays aligned with `accel_x`, `accel_y` and `accel_z` whatever the
      other sensors send. */
  lemma {:induction false} TimesAppendedLength(r: seq<PyReading>)
    requires forall j :: 0 <= j < |r| ==> r[j].time.Some?
    ensures |TimesAppended(r)| == CountKind(r, Accelerometer)
    ensures forall j :: 0 <= j < 3 ==> |Appended(r, Channel(Accelerometer, j))| == |TimesAppended(r)|
  {
    if r != [] {
      TimesAppendedLength(r[..|r| - 1]);
    }
    forall j | 0 <= j < 3 ensures |Appended(r, Channel(Accelerometer, j))| == CountKind(r, Accelerometer) {
      AppendedLength(r, Channel(Accelerometer, j));
    }
  }

  /** A reading whose name has no branch appends to no deque; this covers
      case variants and the names only the data route knows. */
  lemma UnrecognisedAppendsNothing(r: seq<PyReading>, d: PyReading, ch: Channel)
    requires PyKindOf(d.name).None?
    ensures Appended(r + [d], ch) == Appended(r, ch)
  {
    assert (r + [d])[..|r|] == r;
  }

  /** Names that the data route accepts but this loop ignores. */
  lemma DataRouteOnlyNames()
    ensures PyKindOf(Some("heart rate")) == None && PyKindOf(Some("gps")) == None
    ensures PyKindOf(Some("pressure")) == None && PyKindOf(Some("motion")) == None
    ensures PyKindOf(Some("Accelerometer")) == None && PyKindOf(None) == None
  {
  }

  /** Magnetometer and compass both read `magneticBearing`, into two
      different deques: a magnetometer reading leaves `compass_bearing`
      alone. */
  lemma MagnetometerAndCompassApart(v: Values, t: int)
    ensures var d := PyReading(Some("magnetometer"), Some(t), Some(v));
      && Contribution(d, Channel(Magnetometer, 0)) == [ValueGet(v, "magneticBearing")]
      && Contribution(d, Channel(Compass, 0)) == []
    ensures PyKeys(Magnetometer) == PyKeys(Compass) == ["magneticBearing"]
  {
  }

  /** The branches read the very fields the data route's normaliser
      produces for the same kinds, in the same order. */
  lemma KeysMatchNormalizer(k: Kind)
    requires PyKeys(k) != []
    ensures PyKeys(k) == Fields(k)
    ensures |PyKeys(Orientation)| == 7 && |PyKeys(WristMotion)| == 13
  {
  }

  /** On those kinds the two ingest paths agree value for value: none of
      their fields has an alias, and `values.get(key, 0)` equals
      `values[key] || 0` on numbers (a present 0 gives 0 either way). */
  lemma AgreesWithNormalizer(k: Kind, v: Values, j: nat)
    requires PyKeys(k) != [] && j < |PyKeys(k)|
    ensures Normalize(k, v)[PyKeys(k)[j]] == Some(ValueGet(v, PyKeys(k)[j]))
  {
    KeysMatchNormalizer(k);
    var f := PyKeys(k)[j];
    assert Sources(k, f) == [f];
    assert Pick(v, [f]) == ValueGet(v, f) by {
      assert [f][1..] == [];
    }
  }
}
