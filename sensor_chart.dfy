/** The data logic of components/SensorChart.tsx: the dot-path lookup
    `getNestedValue`, the chart points of `formatChartData`, the recency
    test `hasRecentData`, and the rule that decides whether a chart is
    drawn. The current time is a parameter. */
module SensorChart {
  import opened Wrappers
  import opened Seqs
  import opened Strings
  import opened Json

  // ---- getNestedValue ----

  /** The value reached by following `keys` from `v`: each step needs the
      current value to be an object (`value && typeof value === 'object'`)
      holding the key; `None` as soon as one step fails. */
  function Walk(v: Value, keys: seq<string>): Option<Value>
    decreases |keys|
  {
    if keys == [] then Some(v)
    else if v.Obj? && keys[0] in v.fields then Walk(v.fields[keys[0]], keys[1..])
    else None
  }

  /** What `getNestedValue(obj, path)` returns: the number at the end of
      the dot-separated path, or `None` (`null`) when the path breaks off or
      ends at anything but a number. */
  function NestedValue(obj: Value, path: string): Option<real> {
    match Walk(obj, Split(path, '.'))
    case Some(Num(x)) => Some(x)
    case _ => None
  }

  /** `getNestedValue`: the loop that reassigns `value` key by key and
      returns `null` early. */
  method GetNestedValue(obj: Value, path: string) returns (r: Option<real>)
    ensures r == NestedValue(obj, path)
  {
    var keys := Split(path, '.');
    var value := obj;
    for i := 0 to |keys|
      invariant Walk(obj, keys) == Walk(value, keys[i..])
    {
      var key := keys[i];
      if value.Obj? && key in value.fields {
        assert keys[i..][1..] == keys[i + 1..];
        value := value.fields[key];
      } else {
        return None;
      }
    }
    assert keys[|keys|..] == [];
    r := if value.Num? then Some(value.n) else None;
  }

  /** Following `a + b` is following `a`, then `b` from where `a` ended. */
  lemma {:induction false} WalkConcat(v: Value, a: seq<string>, b: seq<string>)
    ensures Walk(v, a + b) == match Walk(v, a) case None => None case Some(u) => Walk(u, b)
    decreases |a|
  {
    if a != [] {
      assert a + b != [] && (a + b)[0] == a[0] && (a + b)[1..] == a[1..] + b;
      if v.Obj? && a[0] in v.fields {
        WalkConcat(v.fields[a[0]], a[1..], b);
      }
    } else {
      assert a + b == b;
    }
  }

  /** The walk stops for good at the first segment that is absent or that
      meets a value which is not an object: whatever follows, the answer is
      `null`. */
  lemma WalkStops(v: Value, keys: seq<string>, i: nat, u: Value)
    requires i < |keys| && Walk(v, keys[..i]) == Some(u)
    requires !u.Obj? || keys[i] !in u.fields
    ensures Walk(v, keys) == None
  {
    assert keys == keys[..i] + keys[i..];
    WalkConcat(v, keys[..i], keys[i..]);
  }

  /** A path answers a number exactly when it walks to a number; a walk
      ending at an object, a string, a Boolean or `null` answers `null`. */
  lemma NestedValueIsNumber(obj: Value, path: string)
    ensures NestedValue(obj, path).Some? <==>
      Walk(obj, Split(path, '.')).Some? && Walk(obj, Split(path, '.')).value.Num?
    ensures NestedValue(obj, path).Some? ==> Walk(obj, Split(path, '.')) == Some(Num(NestedValue(obj, path).value))
  {
  }

  /** With segments free of dots, `a.f` reads field `f` of the object
      under `a`: its number, and `null` for anything else or when either
      step is missing. */
  lemma TwoSegmentPath(doc: Value, a: string, f: string)
    requires '.' !in a && '.' !in f
    ensures NestedValue(doc, a + "." + f) ==
      if doc.Obj? && a in doc.fields && doc.fields[a].Obj? && f in doc.fields[a].fields
         && doc.fields[a].fields[f].Num?
      then Some(doc.fields[a].fields[f].n) else None
  {
    SplitTwo(a, f, '.');
    assert a + "." + f == a + ['.'] + f;
    assert [a, f][1..] == [f] && [f][1..] == [];
    if doc.Obj? && a in doc.fields {
      var inner := doc.fields[a];
      assert Walk(doc, [a, f]) == Walk(inner, [f]);
      if inner.Obj? && f in inner.fields {
        assert Walk(inner, [f]) == Walk(inner.fields[f], []);
      }
    }
  }

  // ---- formatChartData ----

  /** The part of a sensor configuration the logic reads is its key. */
  datatype SensorConfig = SensorConfig(key: string, name: string, color: string)

  /** One data point as the client holds it: the instant its `timestamp`
      denotes (`new Date(point.timestamp)`, in milliseconds) and the whole
      object as parsed JSON. */
  datatype Point = Point(timestamp: int, doc: Value)

  /** One chart point: the millisecond timestamp, the position in the
      data, and the looked-up value (or `null`) per configured key. The
      formatted `time` label is left out. */
  datatype ChartPoint = ChartPoint(timestamp: int, index: nat, values: map<string, Option<real>>)

  /** The configured keys. */
  function Keys(sensors: seq<SensorConfig>): set<string> {
    set j | 0 <= j < |sensors| :: sensors[j].key
  }

  /** `formatChartData`: one point per data point, with its position as
      `index`, its timestamp, and one entry per configured key holding that
      key's nested value (a key configured twice is set twice, to the same
      value). */
  function FormatChartData(data: seq<Point>, sensors: seq<SensorConfig>): (points: seq<ChartPoint>)
    ensures |points| == |data|
    ensures forall i :: 0 <= i < |data| ==>
      && points[i].index == i && points[i].timestamp == data[i].timestamp
      && points[i].values.Keys == Keys(sensors)
      && (forall j :: 0 <= j < |sensors| ==>
            points[i].values[sensors[j].key] == NestedValue(data[i].doc, sensors[j].key))
  {
    seq(|data|, i requires 0 <= i < |data| =>
      ChartPoint(data[i].timestamp, i, map key | key in Keys(sensors) :: NestedValue(data[i].doc, key)))
  }

  // ---- hasRecentData ----

  /** `sensors.some(s => s.key.includes('wristMotion'))`. */
  function AnyWristMotion(sensors: seq<SensorConfig>): (b: bool)
    ensures b <==> exists j :: 0 <= j < |sensors| && Contains(sensors[j].key, "wristMotion")
  {
    if sensors == [] then false
    else
      var rest := AnyWristMotion(sensors[1..]);
      assert rest <==> exists j :: 1 <= j < |sensors| && Contains(sensors[j].key, "wristMotion") by {
        if rest {
          var j :| 0 <= j < |sensors| - 1 && Contains(sensors[1..][j].key, "wristMotion");
          assert sensors[j + 1] == sensors[1..][j];
        }
        if exists j :: 1 <= j < |sensors| && Contains(sensors[j].key, "wristMotion") {
          var j :| 1 <= j < |sensors| && Contains(sensors[j].key, "wristMotion");
          assert sensors[1..][j - 1] == sensors[j];
        }
      }
      Contains(sensors[0].key, "wristMotion") || rest
  }

  /** The window `hasRecentData` uses: 20 s when a key mentions wrist
      motion, 15 s otherwise. */
  function EffectiveWindow(sensors: seq<SensorConfig>): nat {
    if AnyWristMotion(sensors) then 20000 else 15000
  }

  /** The points no older than `window` at `now` (later ones included). */
  function Recent(data: seq<Point>, now: int, window: int): (r: seq<Point>)
    ensures IsSubsequence(r, data)
    ensures forall i :: 0 <= i < |r| ==> now - r[i].timestamp <= window
    ensures forall i :: 0 <= i < |data| && now - data[i].timestamp <= window ==> data[i] in r
    ensures |r| > 0 <==> exists i :: 0 <= i < |data| && now - data[i].timestamp <= window
  {
    if data == [] then []
    else
      var rest := Recent(data[1..], now, window);
      assert forall i :: 1 <= i < |data| && now - data[i].timestamp <= window ==> data[i] in rest by {
        forall i | 1 <= i < |data| && now - data[i].timestamp <= window ensures data[i] in rest {
          assert data[1..][i - 1] == data[i];
        }
      }
      assert (exists i :: 1 <= i < |data| && now - data[i].timestamp <= window) ==> |rest| > 0 by {
        if exists i :: 1 <= i < |data| && now - data[i].timestamp <= window {
          var i :| 1 <= i < |data| && now - data[i].timestamp <= window;
          assert data[1..][i - 1] == data[i];
        }
      }
      assert |rest| > 0 ==> exists i :: 1 <= i < |data| && now - data[i].timestamp <= window by {
        if |rest| > 0 {
          var i :| 0 <= i < |data| - 1 && now - data[1..][i].timestamp <= window;
          assert data[i + 1] == data[1..][i];
        }
      }
      if now - data[0].timestamp <= window then [data[0]] + rest else rest
  }

  /** `hasRecentData(data, sensors, timeWindowMs)` at the instant `now`. */
  function HasRecentData(data: seq<Point>, sensors: seq<SensorConfig>, timeWindowMs: int, now: int): bool {
    if |data| == 0 then false
    else |Recent(data, now, EffectiveWindow(sensors))| > 0
  }

  /** Recent data is some point within the window, counting points from
      the future; no data is never recent. */
  lemma HasRecentDataIff(data: seq<Point>, sensors: seq<SensorConfig>, timeWindowMs: int, now: int)
    ensures HasRecentData(data, sensors, timeWindowMs, now) <==>
      exists i :: 0 <= i < |data| && now - data[i].timestamp <= EffectiveWindow(sensors)
    ensures data == [] ==> !HasRecentData(data, sensors, timeWindowMs, now)
  {
  }

  /** The window argument has no effect. */
  lemma TimeWindowIgnored(data: seq<Point>, sensors: seq<SensorConfig>, w1: int, w2: int, now: int)
    ensures HasRecentData(data, sensors, w1, now) == HasRecentData(data, sensors, w2, now)
  {
  }

  /** A point stamped later than `now` counts as recent. */
  lemma FutureIsRecent(data: seq<Point>, sensors: seq<SensorConfig>, timeWindowMs: int, now: int, i: nat)
    requires i < |data| && data[i].timestamp >= now
    ensures HasRecentData(data, sensors, timeWindowMs, now)
  {
    HasRecentDataIff(data, sensors, timeWindowMs, now);
  }

  /** The two window lengths. */
  lemma WindowLengths(sensors: seq<SensorConfig>)
    ensures EffectiveWindow(sensors) == 20000 <==>
      exists j :: 0 <= j < |sensors| && Contains(sensors[j].key, "wristMotion")
    ensures EffectiveWindow(sensors) == 15000 <==>
      !exists j :: 0 <= j < |sensors| && Contains(sensors[j].key, "wristMotion")
  {
  }

  // ---- Whether the chart is drawn ----

  /** Some point resolves `key` to a number. */
  predicate HasValue(data: seq<Point>, key: string) {
    exists i :: 0 <= i < |data| && NestedValue(data[i].doc, key).Some?
  }

  /** `sensorsWithData`: the configured sensors that some point has a
      number for, in configuration order. */
  function SensorsWithData(data: seq<Point>, sensors: seq<SensorConfig>): (r: seq<SensorConfig>)
    ensures IsSubsequence(r, sensors)
    ensures forall j :: 0 <= j < |r| ==> HasValue(data, r[j].key)
    ensures forall j :: 0 <= j < |sensors| && HasValue(data, sensors[j].key) ==> sensors[j] in r
  {
    if sensors == [] then []
    else
      var rest := SensorsWithData(data, sensors[1..]);
      assert forall j :: 1 <= j < |sensors| && HasValue(data, sensors[j].key) ==> sensors[j] in rest by {
        forall j | 1 <= j < |sensors| && HasValue(data, sensors[j].key) ensures sensors[j] in rest {
          assert sensors[1..][j - 1] == sensors[j];
        }
      }
      if HasValue(data, sensors[0].key) then [sensors[0]] + rest else rest
  }

  /** The 30-second test of the chart itself (`Date.now()` is `now`). */
  function WithinThirtySeconds(data: seq<Point>, now: int): bool {
    |data| > 0 && |Recent(data, now, 30000)| > 0
  }

  /** The chart is drawn unless there is no recent data or no sensor with data. */
  function ShowChart(data: seq<Point>, sensors: seq<SensorConfig>, now: int): bool {
    WithinThirtySeconds(data, now) && |SensorsWithData(data, sensors)| > 0
  }

  /** The chart is drawn exactly when some point is at most 30 s old and
      some configured key resolves to a number in some point. */
  lemma ShowChartIff(data: seq<Point>, sensors: seq<SensorConfig>, now: int)
    ensures ShowChart(data, sensors, now) <==>
      && (exists i :: 0 <= i < |data| && now - data[i].timestamp <= 30000)
      && (exists j :: 0 <= j < |sensors| && HasValue(data, sensors[j].key))
  {
    var r := SensorsWithData(data, sensors);
    if |r| > 0 {
      assert HasValue(data, r[0].key);
      SubsequenceMember(r, sensors, 0);
    }
  }

  /** Every element of a subsequence is an element of the sequence. */
  lemma {:induction false} SubsequenceMember<T>(sub: seq<T>, s: seq<T>, i: nat)
    requires IsSubsequence(sub, s) && i < |sub|
    ensures exists j :: 0 <= j < |s| && s[j] == sub[i]
  {
    if sub[0] == s[0] {
      if i > 0 {
        SubsequenceMember(sub[1..], s[1..], i - 1);
        var j :| 0 <= j < |s| - 1 && s[1..][j] == sub[1..][i - 1];
        assert s[j + 1] == sub[i];
      } else {
        assert s[0] == sub[i];
      }
    } else {
      SubsequenceMember(sub, s[1..], i);
      var j :| 0 <= j < |s| - 1 && s[1..][j] == sub[i];
      assert s[j + 1] == sub[i];
    }
  }
}
