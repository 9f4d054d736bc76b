/** The handlers of app/api/episode1/route.ts: POST appends a feature
    packet to the module-level `ep1FeatureBuffer` (capacity 1000) and then
    logs two of its fields; GET serves `buffer.slice(-limit)`. */
module Episode1Route {
  import opened Wrappers
  import opened Seqs
  import opened Json
  import opened RecentBuffers
  import opened JsNumbers

  /** The log line calls `toFixed(2)` on `lr_pan` and on `coherence`; it
      throws unless the packet is an object holding a number under both. */
  predicate LogLineSucceeds(features: Value) {
    && features.Obj?
    && "lr_pan" in features.fields && features.fields["lr_pan"].Num?
    && "coherence" in features.fields && features.fields["coherence"].Num?
  }

  /** The JSON answer of POST: the buffer size, or the status-500 error. */
  datatype PostResponse = Accepted(bufferSize: nat) | Failed

  /** `POST`. `body` is `None` when `request.json()` throws. The packet is
      pushed (and the buffer trimmed) before the log line runs, so a packet
      on which the log line throws stays in the buffer although the answer
      is the error. */
  method Post(buffer: RecentBuffer<Value>, body: Option<Value>) returns (resp: PostResponse)
    requires buffer.Valid()
    modifies buffer
    ensures buffer.Valid()
    ensures body.None? ==> resp == Failed && buffer.items == old(buffer.items)
    ensures body.Some? ==> buffer.items == Last(old(buffer.items) + [body.value], buffer.capacity)
    ensures body.Some? ==> resp == if LogLineSucceeds(body.value) then Accepted(|buffer.items|) else Failed
  {
    if body.None? {
      return Failed;
    }
    var features := body.value;
    buffer.Push(features);
    if !LogLineSucceeds(features) {
      return Failed;
    }
    resp := Accepted(|buffer.items|);
  }

  /** The JSON answer of GET. */
  datatype GetResponse = GetResponse(data: seq<Value>, total: nat)

  /** `GET`: the newest `limit` packets and the whole buffer length. */
  function Get(items: seq<Value>, limitParam: Option<string>): (resp: GetResponse)
    ensures resp.total == |items|
    ensures |resp.data| <= |items| && resp.data == items[|items| - |resp.data|..]
  {
    GetResponse(ReadRecent(items, ParseLimit(limitParam)), |items|)
  }

  /** Without a `limit` parameter GET serves the newest 100 packets. */
  lemma GetDefaultLimit(items: seq<Value>)
    ensures Get(items, None) == GetResponse(Last(items, 100), |items|)
  {
    ParseLimitDefault(None);
  }

  /** A positive decimal `limit` serves the newest `limit` packets. */
  lemma GetPositiveLimit(items: seq<Value>, n: nat)
    requires n > 0
    ensures Get(items, Some(ShowNat(n))) == GetResponse(Last(items, n), |items|)
  {
    ParseIntShowNat(n, []);
    assert ShowNat(n) + [] == ShowNat(n);
  }

  /** The packets the log line rejects: anything but an object, and an
      object missing either number (a string `lr_pan` has no `toFixed`). */
  lemma LogLineRejects(fields: map<string, Value>)
    ensures !LogLineSucceeds(Null) && !LogLineSucceeds(Num(0.5)) && !LogLineSucceeds(Str("x"))
    ensures "lr_pan" !in fields ==> !LogLineSucceeds(Obj(fields))
    ensures !LogLineSucceeds(Obj(fields["lr_pan" := Str("0.5")]))
  {
  }
}
