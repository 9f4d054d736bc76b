/** The two handlers of app/api/data/route.ts around `processSensorData`:
    POST stores a batch and then appends its records to the module-level
    buffer; GET reads records back from the store or, when the store query
    fails, from the buffer. The store is abstract: which of its calls
    throws, and what a query answers, are parameters. */
module DataRoute {
  import opened Wrappers
  import opened Seqs
  import opened SensorTypes
  import opened Aggregator
  import opened RowCodec
  import opened RecentBuffers
  import opened JsNumbers

  /** The store calls POST awaits, in order. `CreateRows` is the
      `Promise.all` of one `create` per record: when one of them throws,
      the records at the positions in `committed` may already be stored. */
  datatype StoreCall = UpsertDevice | UpsertSession | CreateReadings | CreateRows(committed: set<int>)

  /** The JSON answer of POST: the success counters, or the status-500 error. */
  datatype PostResponse =
    | Accepted(processed: nat, savedToDb: nat, bufferSize: nat, rawReadings: nat, sensorTypes: seq<string>)
    | Failed

  /** The sensor names of a payload, in payload order. */
  function Names(payload: seq<Reading>): (names: seq<string>)
    ensures |names| == |payload| && forall i :: 0 <= i < |payload| ==> names[i] == payload[i].name
  {
    seq(|payload|, i requires 0 <= i < |payload| => payload[i].name)
  }

  /** The processed-data rows POST creates, one per record, in record order. */
  function Rows(deviceId: string, sessionId: string, processed: seq<Record>): (rows: seq<Row>)
    ensures |rows| == |processed|
    ensures forall i :: 0 <= i < |rows| ==>
      rows[i].deviceId == deviceId && rows[i].sessionId == sessionId && rows[i].timestamp == processed[i].timestamp
    ensures forall i :: 0 <= i < |rows| ==> rows[i] == Encode(deviceId, sessionId, processed[i])
  {
    seq(|processed|, i requires 0 <= i < |processed| => Encode(deviceId, sessionId, processed[i]))
  }

  /** `POST`. `body` is `None` when the body is not a well-formed sensor
      message (`JSON.parse` or `payload.length` throws); `failing` names the
      store call that throws, if one does. `written` is the processed rows
      that reach the store. The buffer is written only after every store
      call has returned, so any failure leaves it unchanged. */
  method Post(buffer: RecentBuffer<Record>, body: Option<SensorMessage>, failing: Option<StoreCall>)
    returns (resp: PostResponse, written: seq<Row>)
    requires buffer.Valid()
    modifies buffer
    ensures buffer.Valid()
    ensures body.None? || failing.Some? ==> resp == Failed && buffer.items == old(buffer.items)
    ensures body.None? || (failing.Some? && !failing.value.CreateRows?) ==> written == []
    ensures body.Some? && failing.Some? && failing.value.CreateRows? ==>
      var m := body.value;
      written == Select(Rows(m.deviceId, m.sessionId, Aggregate(m.payload)), failing.value.committed, 0)
    ensures body.Some? && failing.None? ==>
      var m := body.value;
      var processed := Aggregate(m.payload);
      && buffer.items == Last(old(buffer.items) + processed, buffer.capacity)
      && written == Rows(m.deviceId, m.sessionId, processed)
      && resp == Accepted(|processed|, |processed|, |buffer.items|, |m.payload|, Distinct(Names(m.payload)))
  {
    if body.None? {
      return Failed, [];
    }
    var m := body.value;
    if failing.Some? && !failing.value.CreateRows? {
      // the upserts and `createMany` precede the processing
      return Failed, [];
    }
    var processed := ProcessSensorData(m);
    var rows := Rows(m.deviceId, m.sessionId, processed);
    if failing.Some? {
      return Failed, Select(rows, failing.value.committed, 0);
    }
    buffer.PushAll(processed);
    resp := Accepted(|processed|, |rows|, |buffer.items|, |m.payload|, Distinct(Names(m.payload)));
    written := rows;
  }

  /** What the store `findMany` answers: rows in the order it returns them
      and the matching row `count`, or a thrown error. */
  datatype StoreAnswer = Found(rows: seq<Row>, count: nat) | QueryFailed

  /** The JSON answer of GET: `source: 'database'` or `source: 'memory'`. */
  datatype GetResponse = FromStore(data: seq<Record>, total: nat) | FromMemory(data: seq<Record>, total: nat)

  /** `GET`. `limitParam` is the `limit` query parameter. A store answer is
      decoded row by row and reversed; a failed query falls back to
      `buffer.slice(-limit)` with the whole buffer length as `total`. */
  function Get(items: seq<Record>, limitParam: Option<string>, answer: StoreAnswer): (resp: GetResponse)
    ensures answer.Found? ==>
      && resp.FromStore? && resp.total == answer.count && |resp.data| == |answer.rows|
      && forall i :: 0 <= i < |answer.rows| ==> resp.data[i] == Decode(answer.rows[|answer.rows| - 1 - i])
    ensures answer.QueryFailed? ==>
      && resp.FromMemory? && resp.total == |items|
      && |resp.data| <= |items| && resp.data == items[|items| - |resp.data|..]
  {
    match answer
    case Found(rows, count) =>
      FromStore(Reverse(seq(|rows|, i requires 0 <= i < |rows| => Decode(rows[i]))), count)
    case QueryFailed =>
      FromMemory(ReadRecent(items, ParseLimit(limitParam)), |items|)
  }

  /** With no `limit` parameter the fallback serves the newest 100 records. */
  lemma GetDefaultLimit(items: seq<Record>)
    ensures Get(items, None, QueryFailed) == FromMemory(Last(items, 100), |items|)
    ensures Get(items, Some(""), QueryFailed) == FromMemory(Last(items, 100), |items|)
  {
    ParseLimitDefault(None);
    ParseLimitDefault(Some(""));
  }

  /** A positive decimal `limit` serves the newest `limit` records, in order. */
  lemma GetPositiveLimit(items: seq<Record>, n: nat)
    requires n > 0
    ensures Get(items, Some(ShowNat(n)), QueryFailed) == FromMemory(Last(items, n), |items|)
  {
    ParseIntShowNat(n, []);
    assert ShowNat(n) + [] == ShowNat(n);
  }

  /** `limit=0` serves the whole buffer: `slice(-0)` is `slice(0)`. */
  lemma GetZeroLimit(items: seq<Record>)
    ensures Get(items, Some("0"), QueryFailed) == FromMemory(items, |items|)
  {
    ParseLimitZero();
  }

  /** A `limit` that is not a number (`parseInt` gives `NaN`) also serves
      the whole buffer: `slice(NaN)` is `slice(0)`. */
  lemma GetNaNLimit(items: seq<Record>, s: string)
    requires s != [] && !IsJsSpace(s[0]) && s[0] != '-' && s[0] != '+' && !IsDigit(s[0], 10)
    ensures Get(items, Some(s), QueryFailed) == FromMemory(items, |items|)
  {
    ParseIntNaN(s);
  }

  /** A negative limit drops records from the oldest end instead:
      `slice(5)` keeps all but the five oldest. */
  lemma GetNegativeLimit(items: seq<Record>, n: nat)
    ensures Get(items, Some("-" + ShowNat(n)), QueryFailed) == FromMemory(items[Min(n, |items|)..], |items|)
  {
    ParseIntNegative(n);
  }

  /** Rows sorted newest first (`orderBy: { timestamp: 'desc' }`) come back
      oldest first: the reversal restores chronological order. */
  lemma StoreDataIsChronological(items: seq<Record>, limitParam: Option<string>, rows: seq<Row>, count: nat)
    requires forall i, j :: 0 <= i < j < |rows| ==> rows[i].timestamp >= rows[j].timestamp
    ensures var data := Get(items, limitParam, Found(rows, count)).data;
      forall i, j :: 0 <= i < j < |data| ==> data[i].timestamp <= data[j].timestamp
  {
    var data := Get(items, limitParam, Found(rows, count)).data;
    forall i, j | 0 <= i < j < |data|
      ensures data[i].timestamp <= data[j].timestamp
    {
      assert data[i] == Decode(rows[|rows| - 1 - i]);
      assert data[j] == Decode(rows[|rows| - 1 - j]);
    }
  }

  /** A record that POST writes to the store reads back through GET with the
      same timestamp and fragments, less the watchMotion one. */
  lemma PostThenGet(m: SensorMessage, count: nat)
    ensures var processed := Aggregate(m.payload);
      var rows := Rows(m.deviceId, m.sessionId, processed);
      var data := Get([], None, Found(Reverse(rows), count)).data;
      |data| == |processed| &&
      forall j :: 0 <= j < |processed| ==>
        data[j] == processed[j].(fragments := processed[j].fragments - {WatchMotion})
  {
    var processed := Aggregate(m.payload);
    var rows := Rows(m.deviceId, m.sessionId, processed);
    var data := Get([], None, Found(Reverse(rows), count)).data;
    forall j | 0 <= j < |processed|
      ensures data[j] == processed[j].(fragments := processed[j].fragments - {WatchMotion})
    {
      assert Reverse(rows)[|rows| - 1 - j] == rows[j];
      AggregateRoundTrip(m, j);
    }
  }
}
