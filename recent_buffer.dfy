/** The bounded in-memory buffers of the two route handlers
    (`realtimeDataBuffer` in app/api/data/route.ts and `ep1FeatureBuffer`
    in app/api/episode1/route.ts): an array that is appended to and then
    cut back to its newest `capacity` elements with `slice(-capacity)`,
    and read back with `slice(-limit)`. */
module RecentBuffers {
  import opened Wrappers
  import opened Seqs

  /** The buffer capacity of both handlers (`MAX_BUFFER_SIZE`, `MAX_EP1_BUFFER`). */
  const MaxBufferSize: nat := 1000

  class RecentBuffer<T> {
    var items: seq<T>
    const capacity: nat

    /** `slice(-0)` would keep the whole array, so the bound needs a
        positive capacity. */
    ghost predicate Valid()
      reads this
    {
      1 <= capacity && |items| <= capacity
    }

    constructor (capacity: nat)
      requires 1 <= capacity
      ensures Valid()
      ensures this.capacity == capacity && items == []
    {
      this.capacity := capacity;
      items := [];
    }

    /** `buffer.push(...batch); if (buffer.length > capacity) buffer = buffer.slice(-capacity)`. */
    method PushAll(batch: seq<T>)
      requires Valid()
      modifies this
      ensures Valid()
      ensures items == Last(old(items) + batch, capacity)
    {
      items := items + batch;
      if |items| > capacity {
        items := JsSlice(items, -(capacity as int));
      }
    }

    /** `buffer.push(x)` followed by the same trim. */
    method Push(x: T)
      requires Valid()
      modifies this
      ensures Valid()
      ensures items == Last(old(items) + [x], capacity)
    {
      PushAll([x]);
    }
  }

  /** What a trimmed buffer holds: the newest `min(n, |s|)` elements of `s`,
      in their original order. */
  lemma LastIsNewestSuffix<T>(s: seq<T>, n: nat)
    ensures |Last(s, n)| == Min(n, |s|)
    ensures forall i :: 0 <= i < |Last(s, n)| ==> Last(s, n)[i] == s[|s| - |Last(s, n)| + i]
  {
  }

  /** After a push the new element is the newest one, and the elements
      before it are the previous buffer less its oldest entries. */
  lemma {:induction false} PushKeepsOrder<T>(s: seq<T>, x: T, n: nat)
    requires 1 <= n
    ensures var r := Last(s + [x], n); |r| >= 1 && r[|r| - 1] == x && r[..|r| - 1] == Last(s, n - 1)
  {
    var r := Last(s + [x], n);
    assert r == (s + [x])[|s| + 1 - Min(n, |s| + 1)..];
    assert r[..|r| - 1] == s[|s| - Min(n - 1, |s|)..];
  }

  /** Pushing one batch or its two halves in turn leaves the same buffer:
      the trim can be applied after every push or only at the end. */
  lemma PushAllInTwoSteps<T>(s: seq<T>, a: seq<T>, b: seq<T>, n: nat)
    ensures Last(Last(s + a, n) + b, n) == Last(s + (a + b), n)
  {
    LastOfConcat(s + a, b, n);
    assert s + a + b == s + (a + b);
  }

  /** `buffer.slice(-limit)`, where `None` is a `NaN` limit (`slice(NaN)` is
      `slice(0)`). Whatever the limit, the answer is a suffix of the buffer;
      a positive limit keeps the newest `limit` elements, a zero or `NaN`
      limit the whole buffer, and a negative one drops `-limit` elements
      from the oldest end. */
  function ReadRecent<T>(items: seq<T>, limit: Option<int>): (r: seq<T>)
    ensures limit.Some? && limit.value > 0 ==> r == Last(items, limit.value)
    ensures limit.None? || limit == Some(0) ==> r == items
    ensures limit.Some? && limit.value < 0 ==> r == items[Min(-limit.value, |items|)..]
    ensures |r| <= |items| && r == items[|items| - |r|..]
    ensures limit.Some? && limit.value > 0 ==> |r| == Min(limit.value, |items|)
  {
    match limit
    case None => items
    case Some(n) => JsSlice(items, -n)
  }
}
