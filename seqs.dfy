/** Sequence helpers shared by the model: the first-seen order of a JS `Map`
    or `Set` filled from a sequence, suffixes, and `Array.prototype.slice`. */
module Seqs {

  function Min(a: int, b: int): int {
    if a <= b then a else b
  }

  function Max(a: int, b: int): int {
    if a >= b then a else b
  }

  /** No element occurs twice. */
  ghost predicate NoDuplicates<T>(s: seq<T>) {
    forall i, j :: 0 <= i < j < |s| ==> s[i] != s[j]
  }

  /** The elements of `s` as a set. */
  ghost function Elements<T>(s: seq<T>): set<T> {
    set x | x in s
  }

  /** The index of the first occurrence of `x` in `s`. */
  function FirstIndex<T(==)>(s: seq<T>, x: T): (i: nat)
    requires x in s
    ensures i < |s| && s[i] == x
    ensures forall j :: 0 <= j < i ==> s[j] != x
  {
    if s[0] == x then 0 else 1 + FirstIndex(s[1..], x)
  }

  /** The distinct elements of `s`, each at the position of its first
      occurrence: what iterating a JS `Map` or `Set` whose keys were
      inserted in the order of `s` yields. */
  function Distinct<T(==)>(s: seq<T>): (r: seq<T>)
    ensures forall i :: 0 <= i < |r| ==> r[i] in s
    ensures forall i :: 0 <= i < |s| ==> s[i] in r
    ensures NoDuplicates(r)
  {
    if s == [] then []
    else
      var init, x := s[..|s| - 1], s[|s| - 1];
      if x in init then Distinct(init) else Distinct(init) + [x]
  }

  /** `Distinct` of a longer sequence only appends. */
  lemma {:induction false} DistinctSnoc<T>(s: seq<T>, x: T)
    ensures Distinct(s + [x]) == if x in s then Distinct(s) else Distinct(s) + [x]
  {
    assert (s + [x])[..|s + [x]| - 1] == s;
  }

  /** `Distinct(s)` has one element per distinct value of `s`. */
  lemma {:induction false} DistinctCardinality<T>(s: seq<T>)
    ensures |Distinct(s)| == |Elements(s)|
  {
    if s != [] {
      var init, x := s[..|s| - 1], s[|s| - 1];
      assert s == init + [x];
      DistinctCardinality(init);
      assert Elements(s) == Elements(init) + {x};
      if x !in init {
        assert x !in Elements(init);
      } else {
        assert Elements(s) == Elements(init);
      }
    }
  }

  /** `Distinct(s)` lists values in the order of their first occurrence in `s`. */
  lemma {:induction false} DistinctFirstSeenOrder<T>(s: seq<T>, i: nat, j: nat)
    requires i < j < |Distinct(s)|
    ensures FirstIndex(s, Distinct(s)[i]) < FirstIndex(s, Distinct(s)[j])
  {
    var init, x := s[..|s| - 1], s[|s| - 1];
    assert s == init + [x];
    var d := Distinct(init);
    FirstIndexPrefix(init, x, Distinct(s)[i]);
    if j < |d| {
      DistinctFirstSeenOrder(init, i, j);
      FirstIndexPrefix(init, x, Distinct(s)[j]);
    } else {
      // Distinct(s)[j] == x occurs first at the end of s
      assert x !in init && Distinct(s)[j] == x;
      assert FirstIndex(s, x) == |init| by {
        FirstIndexLast(init, x);
      }
    }
  }

  lemma {:induction false} FirstIndexPrefix<T>(s: seq<T>, x: T, y: T)
    requires y in s
    ensures y in s + [x] && FirstIndex(s + [x], y) == FirstIndex(s, y)
  {
    if s[0] != y {
      assert (s + [x])[1..] == s[1..] + [x];
      FirstIndexPrefix(s[1..], x, y);
    }
  }

  lemma {:induction false} FirstIndexLast<T>(s: seq<T>, x: T)
    requires x !in s
    ensures FirstIndex(s + [x], x) == |s|
  {
    if s != [] {
      assert (s + [x])[1..] == s[1..] + [x];
      FirstIndexLast(s[1..], x);
    }
  }

  /** The last `n` elements of `s` (all of `s` when it is shorter). */
  function Last<T>(s: seq<T>, n: nat): seq<T> {
    s[|s| - Min(n, |s|)..]
  }

  /** Keeping the last `n` of a prefix and then appending keeps the last `n`
      of the whole: trimming early or late gives the same buffer. */
  lemma LastOfConcat<T>(s: seq<T>, t: seq<T>, n: nat)
    ensures Last(Last(s, n) + t, n) == Last(s + t, n)
  {
    var a := Last(s, n);
    var u := s + t;
    assert a + t == u[|u| - |a + t|..];
  }

  /** JavaScript `Array.prototype.slice(start)` with an integer `start`:
      a negative start counts from the end. */
  function JsSlice<T>(s: seq<T>, start: int): (r: seq<T>)
    ensures start < 0 ==> r == Last(s, -start)
    ensures start >= 0 ==> r == s[Min(start, |s|)..]
  {
    var k := if start < 0 then Max(|s| + start, 0) else Min(start, |s|);
    s[k..]
  }

  /** The sequence in reverse order (JS `Array.prototype.reverse`). */
  function Reverse<T>(s: seq<T>): (r: seq<T>)
    ensures |r| == |s|
    ensures forall i :: 0 <= i < |s| ==> r[i] == s[|s| - 1 - i]
  {
    if s == [] then [] else Reverse(s[1..]) + [s[0]]
  }

  /** `sub` can be obtained from `s` by deleting elements (order kept). */
  predicate IsSubsequence<T(==)>(sub: seq<T>, s: seq<T>) {
    if sub == [] then true
    else if s == [] then false
    else if sub[0] == s[0] then IsSubsequence(sub[1..], s[1..])
    else IsSubsequence(sub, s[1..])
  }

  /** A subsequence of the tail is a subsequence of the whole. */
  lemma {:induction false} SubsequenceOfTail<T>(sub: seq<T>, s: seq<T>)
    requires s != [] && IsSubsequence(sub, s[1..])
    ensures IsSubsequence(sub, s)
    decreases |sub| + |s|, 1
  {
    if sub != [] && sub[0] == s[0] {
      SubsequenceDropHead(sub, s[1..]);
    }
  }

  /** Dropping the first element of a subsequence keeps it one. */
  lemma {:induction false} SubsequenceDropHead<T>(sub: seq<T>, s: seq<T>)
    requires sub != [] && IsSubsequence(sub, s)
    ensures IsSubsequence(sub[1..], s)
    decreases |sub| + |s|, 0
  {
    if sub[0] == s[0] {
      SubsequenceOfTail(sub[1..], s);
    } else {
      SubsequenceDropHead(sub, s[1..]);
      SubsequenceOfTail(sub[1..], s);
    }
  }

  /** The elements of `s` whose positions, counted from `from`, are in
      `keep`, in their order. */
  function Select<T>(s: seq<T>, keep: set<int>, from: int): (r: seq<T>)
    ensures IsSubsequence(r, s)
    ensures (forall i :: from <= i < from + |s| ==> i in keep) ==> r == s
    ensures (forall i :: from <= i < from + |s| ==> i !in keep) ==> r == []
    decreases |s|
  {
    if s == [] then []
    else
      var rest := Select(s[1..], keep, from + 1);
      SubsequenceOfTail(rest, s);
      if from in keep then [s[0]] + rest else rest
  }
}
