/** The time-grouping engine `processSensorData` (app/api/data/route.ts):
    readings are grouped by their exact nanosecond `time`, each group is one
    merged record, and the records come out in first-seen order. */
module Aggregator {
  import opened Wrappers
  import opened Seqs
  import opened SensorTypes
  import opened Normalizer

  /** The `time` of each reading, in payload order. */
  function Times(p: seq<Reading>): (ts: seq<int>)
    ensures |ts| == |p| && forall i :: 0 <= i < |p| ==> ts[i] == p[i].time
  {
    if p == [] then [] else Times(p[..|p| - 1]) + [p[|p| - 1].time]
  }

  /** The record created on the first sight of time key `t`: `{ timestamp }`. */
  function Fresh(t: int): Record {
    Record(MsOfNs(t), map[])
  }

  /** One reading applied to the record of its time key: a recognised name
      assigns its kind's whole fragment, an unrecognised one changes nothing. */
  function Apply(rec: Record, r: Reading): Record {
    match KindOf(r.name)
    case None => rec
    case Some(k) => rec.(fragments := rec.fragments[k := Normalize(k, r.values)])
  }

  /** The record that payload `p` builds for the time key `t`: the readings
      with exactly that time applied in payload order. */
  function Group(p: seq<Reading>, t: int): Record {
    if p == [] then Fresh(t)
    else
      var g := Group(p[..|p| - 1], t);
      if p[|p| - 1].time == t then Apply(g, p[|p| - 1]) else g
  }

  /** What `processSensorData` returns for a payload: the record of each
      distinct time key, in the order the keys were first seen. */
  function Aggregate(p: seq<Reading>): seq<Record> {
    Records(p, Distinct(Times(p)))
  }

  /** The record of each of `keys`, in that order. */
  function Records(p: seq<Reading>, keys: seq<int>): (recs: seq<Record>)
    ensures |recs| == |keys| && forall j :: 0 <= j < |keys| ==> recs[j] == Group(p, keys[j])
  {
    seq(|keys|, j requires 0 <= j < |keys| => Group(p, keys[j]))
  }

  lemma TimesSnoc(p: seq<Reading>, r: Reading)
    ensures Times(p + [r]) == Times(p) + [r.time]
  {
    assert (p + [r])[..|p|] == p;
  }

  lemma GroupSnoc(p: seq<Reading>, r: Reading, t: int)
    ensures Group(p + [r], t) == if r.time == t then Apply(Group(p, t), r) else Group(p, t)
  {
    assert (p + [r])[..|p|] == p;
  }

  /** A time key no reading carries has only the fresh record. */
  lemma {:induction false} GroupUnseen(p: seq<Reading>, t: int)
    requires t !in Times(p)
    ensures Group(p, t) == Fresh(t)
  {
    if p != [] {
      var init := p[..|p| - 1];
      assert Times(p) == Times(init) + [p[|p| - 1].time];
      GroupUnseen(init, t);
    }
  }

  /** Every record's timestamp is the millisecond instant of its time key,
      whatever the readings. */
  lemma {:induction false} GroupTimestamp(p: seq<Reading>, t: int)
    ensures Group(p, t).timestamp == MsOfNs(t)
  {
    if p != [] {
      GroupTimestamp(p[..|p| - 1], t);
    }
  }

  /** Reading `i` writes the fragment of kind `k` into the record of `t`. */
  predicate Writes(p: seq<Reading>, t: int, k: Kind, i: int) {
    0 <= i < |p| && p[i].time == t && KindOf(p[i].name) == Some(k)
  }

  /** Last writer wins: when reading `i` is the last reading of kind `k` at
      time `t`, the record of `t` carries exactly that reading's fragment. */
  lemma {:induction false} GroupLastWriterWins(p: seq<Reading>, t: int, k: Kind, i: int)
    requires Writes(p, t, k, i)
    requires forall j :: i < j < |p| ==> !Writes(p, t, k, j)
    ensures k in Group(p, t).fragments && Group(p, t).fragments[k] == Normalize(k, p[i].values)
  {
    var init, last := p[..|p| - 1], p[|p| - 1];
    assert p == init + [last];
    GroupSnoc(init, last, t);
    if i < |p| - 1 {
      LastWriterInPrefix(p, init, t, k, i);
      GroupLastWriterWins(init, t, k, i);
    }
  }

  /** A last writer before the final reading is the last writer of the
      payload without that reading, and the final reading does not write. */
  lemma LastWriterInPrefix(p: seq<Reading>, init: seq<Reading>, t: int, k: Kind, i: int)
    requires |p| >= 1 && init == p[..|p| - 1]
    requires Writes(p, t, k, i) && i < |p| - 1
    requires forall j :: i < j < |p| ==> !Writes(p, t, k, j)
    ensures Writes(init, t, k, i)
    ensures forall j :: i < j < |init| ==> !Writes(init, t, k, j)
    ensures !Writes(p, t, k, |p| - 1)
  {
    assert init[i] == p[i];
    forall j | i < j < |init| ensures !Writes(init, t, k, j) {
      assert init[j] == p[j] && !Writes(p, t, k, j);
    }
  }

  /** A kind no reading at time `t` names is absent from the record of `t`. */
  lemma {:induction false} GroupKindAbsent(p: seq<Reading>, t: int, k: Kind)
    requires forall j :: !Writes(p, t, k, j)
    ensures k !in Group(p, t).fragments
  {
    if p != [] {
      var init, last := p[..|p| - 1], p[|p| - 1];
      assert p == init + [last];
      GroupSnoc(init, last, t);
      assert forall j :: Writes(init, t, k, j) ==> Writes(p, t, k, j);
      GroupKindAbsent(init, t, k);
      assert !Writes(p, t, k, |p| - 1);
    }
  }

  /** The record of `t` carries kind `k` exactly when some reading at `t`
      has a name of that kind; its fragment is that of the last such reading. */
  lemma GroupKinds(p: seq<Reading>, t: int, k: Kind)
    ensures k in Group(p, t).fragments <==> exists i :: Writes(p, t, k, i)
  {
    if exists i :: Writes(p, t, k, i) {
      var i :| Writes(p, t, k, i);
      var last := LastWriter(p, t, k, i);
      GroupLastWriterWins(p, t, k, last);
    } else {
      GroupKindAbsent(p, t, k);
    }
  }

  /** The last reading writing kind `k` at `t`, at or after `i`. */
  function LastWriter(p: seq<Reading>, t: int, k: Kind, i: int): (last: int)
    requires Writes(p, t, k, i)
    ensures i <= last && Writes(p, t, k, last)
    ensures forall j :: last < j < |p| ==> !Writes(p, t, k, j)
    decreases |p| - i
  {
    if exists j :: i < j < |p| && Writes(p, t, k, j) then
      var j :| i < j < |p| && Writes(p, t, k, j);
      LastWriter(p, t, k, j)
    else
      i
  }

  /** One record per distinct `time` value of the payload. */
  lemma AggregateLength(p: seq<Reading>)
    ensures |Aggregate(p)| == |Elements(Times(p))|
  {
    DistinctCardinality(Times(p));
  }

  /** An unrecognised reading adds no fragment: the batch with it appended
      has the same records, plus a timestamp-only record when its time key
      is new. */
  lemma UnrecognisedReading(p: seq<Reading>, r: Reading)
    requires KindOf(r.name).None?
    ensures Aggregate(p + [r]) == Aggregate(p) + if r.time in Times(p) then [] else [Fresh(r.time)]
  {
    var keys := Distinct(Times(p));
    assert Distinct(Times(p + [r])) == if r.time in Times(p) then keys else keys + [r.time] by {
      TimesSnoc(p, r);
      DistinctSnoc(Times(p), r.time);
    }
    UnrecognisedRecords(p, r, Distinct(Times(p + [r])));
    if r.time !in Times(p) {
      RecordsSnocKey(p, keys, r.time);
      GroupUnseen(p, r.time);
    }
  }

  /** An unrecognised reading changes no record. */
  lemma UnrecognisedRecords(p: seq<Reading>, r: Reading, keys: seq<int>)
    requires KindOf(r.name).None?
    ensures Records(p + [r], keys) == Records(p, keys)
  {
    forall t ensures Group(p + [r], t) == Group(p, t) {
      UnrecognisedKeepsGroup(p, r, t);
    }
  }

  lemma RecordsSnocKey(p: seq<Reading>, keys: seq<int>, t: int)
    ensures Records(p, keys + [t]) == Records(p, keys) + [Group(p, t)]
  {
  }

  lemma UnrecognisedKeepsGroup(p: seq<Reading>, r: Reading, t: int)
    requires KindOf(r.name).None?
    ensures Group(p + [r], t) == Group(p, t)
  {
    GroupSnoc(p, r, t);
  }

  /** The keys of `timeGroups` in insertion order: each time once,
      appended when its first reading comes. */
  function KeyOrder(p: seq<Reading>): seq<int> {
    if p == [] then []
    else
      var o, t := KeyOrder(p[..|p| - 1]), p[|p| - 1].time;
      if t in o then o else o + [t]
  }

  lemma KeyOrderSnoc(p: seq<Reading>, r: Reading)
    ensures KeyOrder(p + [r]) == if r.time in KeyOrder(p) then KeyOrder(p) else KeyOrder(p) + [r.time]
  {
    assert (p + [r])[..|p|] == p;
  }

  /** The insertion order is the first-seen order of the times. */
  lemma {:induction false} KeyOrderIsDistinct(p: seq<Reading>)
    ensures KeyOrder(p) == Distinct(Times(p))
    decreases |p|
  {
    if p != [] {
      var init, r := p[..|p| - 1], p[|p| - 1];
      assert p == init + [r];
      KeyOrderIsDistinct(init);
      KeyOrderSnoc(init, r);
      TimesSnoc(init, r);
      DistinctSnoc(Times(init), r.time);
      DistinctMembers(Times(init), r.time);
    }
  }

  lemma DistinctMembers(s: seq<int>, x: int)
    ensures x in Distinct(s) <==> x in s
  {
    if x in s {
      var k :| 0 <= k < |s| && s[k] == x;
      assert s[k] in Distinct(s);
    }
  }

  /** The loop state of `processSensorData` after the readings `p`: the
      key order is the insertion order of their times and each key maps to
      the record of that time. */
  ghost predicate Grouped(p: seq<Reading>, timeGroups: map<int, Record>, keys: seq<int>) {
    && keys == KeyOrder(p)
    && (forall t :: t in timeGroups <==> t in keys)
    && (forall t :: t in timeGroups ==> timeGroups[t] == Group(p, t))
  }

  /** A time key is among the keys exactly when some reading carries it. */
  lemma GroupedKeys(p: seq<Reading>, timeGroups: map<int, Record>, keys: seq<int>, t: int)
    requires Grouped(p, timeGroups, keys)
    ensures t in timeGroups <==> t in Times(p)
  {
    KeyOrderIsDistinct(p);
    DistinctMembers(Times(p), t);
  }

  /** The turn changes the record of `t` alone. */
  lemma UpdateShape(g0: map<int, Record>, r: Reading, g1: map<int, Record>)
    requires var g := if r.time in g0 then g0 else g0[r.time := Fresh(r.time)];
      g1 == g[r.time := Apply(g[r.time], r)]
    ensures g1.Keys == g0.Keys + {r.time}
    ensures g1[r.time] == Apply(if r.time in g0 then g0[r.time] else Fresh(r.time), r)
    ensures forall t :: t in g0 && t != r.time ==> g1[t] == g0[t]
  {
  }

  /** One iteration of the loop keeps `Grouped`: the map `g1` and key order
      `keys1` after reading `r` are those of `p + [r]`. */
  lemma GroupedStep(p: seq<Reading>, r: Reading, g0: map<int, Record>, keys0: seq<int>,
                    g1: map<int, Record>, keys1: seq<int>)
    requires Grouped(p, g0, keys0)
    requires keys1 == if r.time in g0 then keys0 else keys0 + [r.time]
    requires var g := if r.time in g0 then g0 else g0[r.time := Fresh(r.time)];
      g1 == g[r.time := Apply(g[r.time], r)]
    ensures Grouped(p + [r], g1, keys1)
  {
    UpdateShape(g0, r, g1);
    assert keys1 == KeyOrder(p + [r]) by {
      KeyOrderSnoc(p, r);
    }
    forall t | t in g1 ensures g1[t] == Group(p + [r], t) {
      StepValue(p, r, g0, keys0, g1, t);
    }
  }

  lemma StepValue(p: seq<Reading>, r: Reading, g0: map<int, Record>, keys0: seq<int>,
                  g1: map<int, Record>, t: int)
    requires Grouped(p, g0, keys0)
    requires g1.Keys == g0.Keys + {r.time}
    requires g1[r.time] == Apply(if r.time in g0 then g0[r.time] else Fresh(r.time), r)
    requires forall t :: t in g0 && t != r.time ==> g1[t] == g0[t]
    requires t in g1
    ensures g1[t] == Group(p + [r], t)
  {
    GroupSnoc(p, r, t);
    if t == r.time && r.time !in g0 {
      GroupedKeys(p, g0, keys0, t);
      GroupUnseen(p, t);
    }
  }

  /** One turn of the loop over the payload. */
  lemma GroupedNext(payload: seq<Reading>, i: nat, g0: map<int, Record>, keys0: seq<int>,
                    g1: map<int, Record>, keys1: seq<int>)
    requires i < |payload| && Grouped(payload[..i], g0, keys0)
    requires var r := payload[i];
      && keys1 == (if r.time in g0 then keys0 else keys0 + [r.time])
      && var g := if r.time in g0 then g0 else g0[r.time := Fresh(r.time)];
         g1 == g[r.time := Apply(g[r.time], r)]
    ensures Grouped(payload[..i + 1], g1, keys1)
  {
    assert payload[..i + 1] == payload[..i] + [payload[i]];
    GroupedStep(payload[..i], payload[i], g0, keys0, g1, keys1);
  }

  lemma KeysInMap(p: seq<Reading>, timeGroups: map<int, Record>, keys: seq<int>)
    requires Grouped(p, timeGroups, keys)
    ensures forall m :: 0 <= m < |keys| ==> keys[m] in timeGroups
  {
    forall m | 0 <= m < |keys| ensures keys[m] in timeGroups {
      var t := keys[m];
      assert t in keys;
      assert t in timeGroups <==> t in keys;
    }
  }

  /** The map's records listed in key order are the aggregate. */
  lemma GroupedAggregate(p: seq<Reading>, timeGroups: map<int, Record>, keys: seq<int>, processed: seq<Record>)
    requires Grouped(p, timeGroups, keys)
    requires |processed| == |keys|
    requires forall m :: 0 <= m < |keys| ==> keys[m] in timeGroups && processed[m] == timeGroups[keys[m]]
    ensures processed == Aggregate(p)
  {
    KeyOrderIsDistinct(p);
  }

  /** `processSensorData`: one pass over the payload, keeping a map from
      time key to record and the order in which the keys were inserted. */
  method ProcessSensorData(message: SensorMessage) returns (processed: seq<Record>)
    ensures processed == Aggregate(message.payload)
  {
    var payload := message.payload;
    var timeGroups: map<int, Record> := map[];
    var keys: seq<int> := [];
    for i := 0 to |payload|
      invariant Grouped(payload[..i], timeGroups, keys)
    {
      var reading := payload[i];
      var timeKey := reading.time;
      ghost var g0, keys0 := timeGroups, keys;
      if timeKey !in timeGroups {
        timeGroups := timeGroups[timeKey := Record(MsOfNs(timeKey), map[])];
        keys := keys + [timeKey];
      }
      var dataPoint := timeGroups[timeKey];
      timeGroups := timeGroups[timeKey := Apply(dataPoint, reading)];
      GroupedNext(payload, i, g0, keys0, timeGroups, keys);
    }
    assert payload[..|payload|] == payload;
    KeysInMap(payload, timeGroups, keys);
    processed := [];
    for j := 0 to |keys|
      invariant |processed| == j
      invariant forall m :: 0 <= m < j ==> keys[m] in timeGroups && processed[m] == timeGroups[keys[m]]
    {
      processed := processed + [timeGroups[keys[j]]];
    }
    GroupedAggregate(payload, timeGroups, keys, processed);
  }

  /** Two readings at one instant merge into one record whose timestamp is
      the instant in milliseconds; missing fields are 0. */
  lemma SameInstantMerges()
    ensures Aggregate([SampleAccel(), SampleGyro()])
            == [Record(1000, map[Accelerometer := map["x" := Some(1.0), "y" := Some(2.0), "z" := Some(3.0)],
                                 Gyroscope := map["x" := Some(0.1), "y" := Some(0.0), "z" := Some(0.0)]])]
  {
    var p := [SampleAccel(), SampleGyro()];
    SampleKeys();
    SampleGroup();
    assert Aggregate(p) == [Group(p, 1000000000)];
  }

  function SampleAccel(): Reading {
    Reading("accelerometer", 1000000000, map["x" := 1.0, "y" := 2.0, "z" := 3.0])
  }

  function SampleGyro(): Reading {
    Reading("gyroscope", 1000000000, map["x" := 0.1])
  }

  lemma SampleKeys()
    ensures Distinct(Times([SampleAccel(), SampleGyro()])) == [1000000000]
  {
    assert Times([SampleAccel(), SampleGyro()]) == [1000000000, 1000000000];
    DistinctPair(1000000000);
  }

  lemma DistinctPair(t: int)
    ensures Distinct([t, t]) == [t]
  {
    DistinctSnoc([], t);
    DistinctSnoc([t], t);
    assert [] + [t] == [t];
    assert [t] + [t] == [t, t];
  }

  lemma SampleFragments()
    ensures Normalize(Accelerometer, SampleAccel().values) == map["x" := Some(1.0), "y" := Some(2.0), "z" := Some(3.0)]
    ensures Normalize(Gyroscope, SampleGyro().values) == map["x" := Some(0.1), "y" := Some(0.0), "z" := Some(0.0)]
  {
    AccelFragment();
    GyroFragment();
  }

  lemma AccelFragment()
    ensures Normalize(Accelerometer, SampleAccel().values) == map["x" := Some(1.0), "y" := Some(2.0), "z" := Some(3.0)]
  {
    var v := SampleAccel().values;
    assert Pick(v, ["x"]) == 1.0;
    assert Pick(v, ["y"]) == 2.0;
    assert Pick(v, ["z"]) == 3.0;
  }

  lemma GyroFragment()
    ensures Normalize(Gyroscope, SampleGyro().values) == map["x" := Some(0.1), "y" := Some(0.0), "z" := Some(0.0)]
  {
    var v := SampleGyro().values;
    assert Pick(v, ["x"]) == 0.1;
    assert Pick(v, ["y"]) == 0.0;
    assert Pick(v, ["z"]) == 0.0;
  }

  lemma SampleGroup()
    ensures Group([SampleAccel(), SampleGyro()], 1000000000)
            == Record(1000, map[Accelerometer := map["x" := Some(1.0), "y" := Some(2.0), "z" := Some(3.0)],
                                Gyroscope := map["x" := Some(0.1), "y" := Some(0.0), "z" := Some(0.0)]])
  {
    var t := 1000000000;
    SampleFragments();
    GroupSnoc([SampleAccel()], SampleGyro(), t);
    GroupSnoc([], SampleAccel(), t);
    assert [] + [SampleAccel()] == [SampleAccel()];
    assert [SampleAccel()] + [SampleGyro()] == [SampleAccel(), SampleGyro()];
    assert MsOfNs(t) == 1000;
  }
}
