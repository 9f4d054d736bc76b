/** The flat storage row of a merged record (app/api/data/route.ts): `POST`
    writes one nullable column per field, `GET` rebuilds each kind from its
    columns when the kind's first column is non-null. */
module RowCodec {
  import opened Wrappers
  import opened Seqs
  import opened SensorTypes
  import opened Normalizer
  import opened Aggregator

  /** A value column of a `processedSensorData` row: the `slot`-th column of
      the group written from kind `kind` (its name is `ColumnNames`). */
  datatype Col = Col(kind: Kind, slot: nat)

  /** A stored row: the ids of the batch, the timestamp, and the non-null
      columns (a column absent from `cells` is NULL). */
  datatype Row = Row(deviceId: string, sessionId: string, timestamp: int, cells: map<Col, real>)

  /** The columns of each kind's group, in the order of the `create` call;
      watch motion has none. */
  function ColumnNames(k: Kind): (names: seq<string>)
    ensures |names| == |StoredFields(k)|
  {
    match k
    case Accelerometer => ["accelerometerX", "accelerometerY", "accelerometerZ"]
    case Gyroscope => ["gyroscopeX", "gyroscopeY", "gyroscopeZ"]
    case Gravity => ["gravityX", "gravityY", "gravityZ"]
    case Orientation =>
      ["orientationYaw", "orientationPitch", "orientationRoll", "quaternionX", "quaternionY", "quaternionZ", "quaternionW"]
    case Magnetometer => ["magneticBearing"]
    case Compass => ["compassBearing"]
    case Microphone => ["microphoneDbfs"]
    case WristMotion =>
      ["wristRotationX", "wristRotationY", "wristRotationZ", "wristAccelX", "wristAccelY", "wristAccelZ",
       "wristGravityX", "wristGravityY", "wristGravityZ",
       "wristQuaternionX", "wristQuaternionY", "wristQuaternionZ", "wristQuaternionW"]
    case HeartRate => ["heartRateBpm", "heartRateConfidence"]
    case Location => ["locationLat", "locationLng", "locationAlt", "locationAccuracy", "locationSpeed", "locationBearing"]
    case Barometer => ["barometerPressure", "barometerAltitude"]
    case AccelerometerUncalibrated => ["accelUncalX", "accelUncalY", "accelUncalZ"]
    case GyroscopeUncalibrated => ["gyroUncalX", "gyroUncalY", "gyroUncalZ"]
    case MagnetometerUncalibrated => ["magnetUncalX", "magnetUncalY", "magnetUncalZ"]
    case WatchMotion => []
  }

  /** The fragment field `create` writes into each column of the group
      (`<column>: data.<kind>?.<field>`). */
  function StoredFields(k: Kind): seq<string> {
    match k
    case Accelerometer => ["x", "y", "z"]
    case Gyroscope => ["x", "y", "z"]
    case Gravity => ["x", "y", "z"]
    case Orientation => ["yaw", "pitch", "roll", "qx", "qy", "qz", "qw"]
    case Magnetometer => ["magneticBearing"]
    case Compass => ["magneticBearing"]
    case Microphone => ["dBFS"]
    case WristMotion =>
      ["rotationRateX", "rotationRateY", "rotationRateZ", "accelerationX", "accelerationY", "accelerationZ",
       "gravityX", "gravityY", "gravityZ", "quaternionX", "quaternionY", "quaternionZ", "quaternionW"]
    case HeartRate => ["bpm", "confidence"]
    case Location => ["latitude", "longitude", "altitude", "accuracy", "speed", "bearing"]
    case Barometer => ["pressure", "altitude"]
    case AccelerometerUncalibrated => ["x", "y", "z"]
    case GyroscopeUncalibrated => ["x", "y", "z"]
    case MagnetometerUncalibrated => ["x", "y", "z"]
    case WatchMotion => []
  }

  /** The fragment field `GET` fills from each column of the group
      (`<field>: item.<column>`); the first column is the presence test. */
  function ReadFields(k: Kind): seq<string> {
    match k
    case Accelerometer => ["x", "y", "z"]
    case Gyroscope => ["x", "y", "z"]
    case Gravity => ["x", "y", "z"]
    case Orientation => ["yaw", "pitch", "roll", "qx", "qy", "qz", "qw"]
    case Magnetometer => ["magneticBearing"]
    case Compass => ["magneticBearing"]
    case Microphone => ["dBFS"]
    case WristMotion =>
      ["rotationRateX", "rotationRateY", "rotationRateZ", "accelerationX", "accelerationY", "accelerationZ",
       "gravityX", "gravityY", "gravityZ", "quaternionX", "quaternionY", "quaternionZ", "quaternionW"]
    case HeartRate => ["bpm", "confidence"]
    case Location => ["latitude", "longitude", "altitude", "accuracy", "speed", "bearing"]
    case Barometer => ["pressure", "altitude"]
    case AccelerometerUncalibrated => ["x", "y", "z"]
    case GyroscopeUncalibrated => ["x", "y", "z"]
    case MagnetometerUncalibrated => ["x", "y", "z"]
    case WatchMotion => []
  }

  /** The two mappings agree column by column, each kind but watch motion
      has columns for exactly the fields `processSensorData` fills, and no
      field twice. */
  lemma Schema(k: Kind)
    ensures StoredFields(k) == ReadFields(k)
    ensures k == WatchMotion <==> ReadFields(k) == []
    ensures k != WatchMotion ==> Elements(ReadFields(k)) == Elements(Fields(k))
    ensures NoDuplicates(ReadFields(k))
  {
    if k == WristMotion {
      WristSchema();
    } else if k == Orientation || k == Location {
      LongSchema(k);
    } else {
      ShortSchema(k);
    }
  }

  lemma WristSchema()
    ensures Elements(ReadFields(WristMotion)) == Elements(Fields(WristMotion))
    ensures NoDuplicates(ReadFields(WristMotion))
  {
    FieldsDistinct(WristMotion);
  }

  lemma LongSchema(k: Kind)
    requires k == Orientation || k == Location
    ensures Elements(ReadFields(k)) == Elements(Fields(k))
    ensures NoDuplicates(ReadFields(k))
  {
  }

  lemma ShortSchema(k: Kind)
    requires k != WristMotion && k != Orientation && k != Location
    ensures k == WatchMotion <==> ReadFields(k) == []
    ensures k != WatchMotion ==> Elements(ReadFields(k)) == Elements(Fields(k))
    ensures NoDuplicates(ReadFields(k))
  {
  }

  /** `data.<kind>?.<field>` for column `c`: the fragment's value, or NULL
      (`undefined`) when the kind or the field is missing. */
  function Cell(rec: Record, c: Col): Num {
    var fields := StoredFields(c.kind);
    if c.kind in rec.fragments && c.slot < |fields| && fields[c.slot] in rec.fragments[c.kind]
    then rec.fragments[c.kind][fields[c.slot]]
    else None
  }

  /** The `prisma.processedSensorData.create` data of one record. */
  function Encode(deviceId: string, sessionId: string, rec: Record): (row: Row)
    ensures row.deviceId == deviceId && row.sessionId == sessionId && row.timestamp == rec.timestamp
    ensures forall c :: c in row.cells <==> Cell(rec, c).Some?
    ensures forall c :: c in row.cells ==> Some(row.cells[c]) == Cell(rec, c)
  {
    var cols := set k, i | k in rec.fragments && 0 <= i < |StoredFields(k)| :: Col(k, i);
    assert forall c :: Cell(rec, c).Some? ==> c in cols;
    Row(deviceId, sessionId, rec.timestamp, map c | c in cols && Cell(rec, c).Some? :: Cell(rec, c).value)
  }

  /** A column read back: its number, or `null`. */
  function Column(row: Row, c: Col): Num {
    if c in row.cells then Some(row.cells[c]) else None
  }

  /** The fragment `GET` rebuilds for kind `k`: one field per column of the
      group, each the column's value, `null` where the column is NULL. */
  function DecodeFragment(row: Row, k: Kind): (f: Fragment)
    ensures f.Keys == Elements(ReadFields(k))
    ensures forall i :: 0 <= i < |ReadFields(k)| ==> f[ReadFields(k)[i]] == Column(row, Col(k, i))
  {
    Schema(k);
    var fields := ReadFields(k);
    var r := map f | f in fields :: Column(row, Col(k, FirstIndex(fields, f)));
    assert forall i :: 0 <= i < |fields| ==> FirstIndex(fields, fields[i]) == i by {
      forall i | 0 <= i < |fields| ensures FirstIndex(fields, fields[i]) == i {
        FirstIndexOfDistinct(fields, i);
      }
    }
    r
  }

  lemma FirstIndexOfDistinct<T>(s: seq<T>, i: nat)
    requires NoDuplicates(s) && i < |s|
    ensures FirstIndex(s, s[i]) == i
  {
    var j := FirstIndex(s, s[i]);
    assert s[j] == s[i];
  }

  /** The record `GET` rebuilds from a row: the row's timestamp and every
      kind whose first column is non-null (watch motion has no column). */
  function Decode(row: Row): (rec: Record)
    ensures rec.timestamp == row.timestamp
    ensures forall k :: k in rec.fragments <==> k != WatchMotion && Col(k, 0) in row.cells
    ensures forall k | k in rec.fragments :: rec.fragments[k] == DecodeFragment(row, k)
  {
    var kinds := set c | c in row.cells && c.slot == 0 && c.kind != WatchMotion :: c.kind;
    assert forall k :: k != WatchMotion && Col(k, 0) in row.cells ==> k in kinds by {
      forall k | k != WatchMotion && Col(k, 0) in row.cells ensures k in kinds {
        var c := Col(k, 0);
        assert c in row.cells && c.slot == 0 && c.kind != WatchMotion;
      }
    }
    Record(row.timestamp, map k | k in kinds :: DecodeFragment(row, k))
  }

  /** The shape `processSensorData` gives every record: each fragment has
      exactly its kind's fields, none of them null. */
  ghost predicate Processed(rec: Record) {
    forall k | k in rec.fragments ::
      rec.fragments[k].Keys == Elements(Fields(k)) && forall f | f in rec.fragments[k] :: rec.fragments[k][f].Some?
  }

  /** Decoding a stored record gives back the record without its watch-motion
      fragment: the one hole of the round trip. */
  lemma DecodeEncode(deviceId: string, sessionId: string, rec: Record)
    requires Processed(rec)
    ensures Decode(Encode(deviceId, sessionId, rec)) == rec.(fragments := rec.fragments - {WatchMotion})
  {
    var row := Encode(deviceId, sessionId, rec);
    RoundTripFragments(rec, row, Decode(row).fragments);
  }

  /** `row` holds what `create` writes for `rec`. */
  ghost predicate Stored(rec: Record, row: Row) {
    && (forall c :: c in row.cells <==> Cell(rec, c).Some?)
    && (forall c :: c in row.cells ==> Some(row.cells[c]) == Cell(rec, c))
  }

  /** `back` holds the fragments `GET` rebuilds from `row`. */
  ghost predicate ReadBack(row: Row, back: map<Kind, Fragment>) {
    && (forall k :: k in back <==> k != WatchMotion && Col(k, 0) in row.cells)
    && (forall k | k in back :: back[k] == DecodeFragment(row, k))
  }

  /** The fragments read back from a row that holds what `create` writes
      for `rec`: those of `rec` but watch motion. */
  lemma RoundTripFragments(rec: Record, row: Row, back: map<Kind, Fragment>)
    requires Processed(rec) && Stored(rec, row) && ReadBack(row, back)
    ensures back == rec.fragments - {WatchMotion}
  {
    DecodedKinds(rec, row, back);
    DecodedValues(rec, row, back);
    MapExtensionality(back, rec.fragments - {WatchMotion});
  }

  /** The kinds read back are the stored kinds but watch motion. */
  lemma DecodedKinds(rec: Record, row: Row, back: map<Kind, Fragment>)
    requires Processed(rec) && Stored(rec, row) && ReadBack(row, back)
    ensures forall k :: k in back <==> k in rec.fragments && k != WatchMotion
  {
    forall k | k != WatchMotion ensures k in back <==> k in rec.fragments {
      FirstCellPresent(rec, k);
      assert k in back <==> Col(k, 0) in row.cells;
    }
  }

  /** Every kind read back holds the stored fragment of that kind. */
  lemma DecodedValues(rec: Record, row: Row, back: map<Kind, Fragment>)
    requires Processed(rec) && Stored(rec, row) && ReadBack(row, back)
    requires forall k :: k in back <==> k in rec.fragments && k != WatchMotion
    ensures forall k | k in back :: back[k] == rec.fragments[k]
  {
    forall k | k in back ensures back[k] == rec.fragments[k] {
      DecodedFragment(rec, row, k);
    }
  }

  lemma MapExtensionality<K, V>(a: map<K, V>, b: map<K, V>)
    requires forall k :: k in a <==> k in b
    requires forall k | k in a :: a[k] == b[k]
    ensures a == b
  {
  }

  /** A kind's first column is non-null exactly when the record holds
      that kind. */
  lemma FirstCellPresent(rec: Record, k: Kind)
    requires Processed(rec) && k != WatchMotion
    ensures Cell(rec, Col(k, 0)).Some? <==> k in rec.fragments
  {
    Schema(k);
    if k in rec.fragments {
      var x := ReadFields(k)[0];
      assert x in Elements(Fields(k));
      assert x in rec.fragments[k];
    }
  }

  /** The `i`-th column of a stored kind holds its `i`-th field. */
  lemma FieldCell(rec: Record, k: Kind, i: nat)
    requires Processed(rec) && k in rec.fragments && k != WatchMotion && i < |ReadFields(k)|
    ensures Cell(rec, Col(k, i)) == rec.fragments[k][ReadFields(k)[i]]
  {
    Schema(k);
    assert ReadFields(k)[i] in Elements(Fields(k));
  }

  /** The fragment rebuilt from a row that holds what `create` writes for
      `rec` is the fragment of `rec`. */
  lemma DecodedFragment(rec: Record, row: Row, k: Kind)
    requires Processed(rec) && Stored(rec, row) && k in rec.fragments && k != WatchMotion
    ensures DecodeFragment(row, k) == rec.fragments[k]
  {
    Schema(k);
    var f, g := DecodeFragment(row, k), rec.fragments[k];
    var fields := ReadFields(k);
    assert f.Keys == g.Keys;
    forall x | x in f ensures f[x] == g[x] {
      var i :| 0 <= i < |fields| && fields[i] == x;
      FieldRoundTrip(rec, row, k, i);
    }
    MapExtensionality(f, g);
  }

  /** The `i`-th column of a stored kind holds its `i`-th field. */
  lemma FieldRoundTrip(rec: Record, row: Row, k: Kind, i: nat)
    requires Processed(rec) && Stored(rec, row) && k in rec.fragments && k != WatchMotion && i < |ReadFields(k)|
    ensures Column(row, Col(k, i)) == rec.fragments[k][ReadFields(k)[i]]
  {
    FieldCell(rec, k, i);
    assert Column(row, Col(k, i)) == Cell(rec, Col(k, i));
  }

  /** Every record of every time group has the processed shape. */
  lemma {:induction false} GroupProcessed(p: seq<Reading>, t: int)
    ensures Processed(Group(p, t))
  {
    if p != [] {
      GroupProcessed(p[..|p| - 1], t);
    }
  }

  /** What the data route stores and `GET` reads back: every record of a
      batch round-trips except its watch-motion fragment. */
  lemma AggregateRoundTrip(message: SensorMessage, j: nat)
    requires j < |Aggregate(message.payload)|
    ensures var rec := Aggregate(message.payload)[j];
            Decode(Encode(message.deviceId, message.sessionId, rec)) == rec.(fragments := rec.fragments - {WatchMotion})
  {
    var keys := Distinct(Times(message.payload));
    GroupProcessed(message.payload, keys[j]);
    DecodeEncode(message.deviceId, message.sessionId, Aggregate(message.payload)[j]);
  }

  /** The hole: a record whose only fragment is watch motion is stored as a
      row without values and reads back with no fragment at all. */
  lemma WatchMotionIsDropped(rec: Record)
    requires rec.fragments.Keys == {WatchMotion}
    ensures Decode(Encode("", "", rec)).fragments == map[]
  {
    var row := Encode("", "", rec);
    var back := Decode(row);
    forall k | k != WatchMotion ensures Col(k, 0) !in row.cells {
      assert k !in rec.fragments;
    }
    assert back.fragments.Keys == {};
  }
}
