/**
 The two JavaScript array primitives `removeData` is built from, on values
 instead of mutable arrays: `Array.prototype.indexOf` (strict equality) and
 `Array.prototype.splice(start, 1)` with ECMAScript's treatment of a negative
 or too large start. `RemoveFirst` is an independent reference definition of
 "delete the first occurrence" that the two are proved against.
 */
module JsArray {

  /** `xs.indexOf(v)`: the first index holding `v`, or -1 when there is none. */
  function IndexOf<T(==)>(xs: seq<T>, v: T): (i: int)
    ensures -1 <= i < |xs|
    ensures i == -1 <==> v !in xs
    ensures 0 <= i ==> xs[i] == v && forall j :: 0 <= j < i ==> xs[j] != v
  {
    if |xs| == 0 then -1
    else if xs[0] == v then 0
    else
      var k := IndexOf(xs[1..], v);
      if k == -1 then -1 else k + 1
  }

  /** The actual start position `splice` uses for a requested `start` on an
      array of length `len`: negative values count back from the end and are
      clamped at 0, large values are clamped at `len`. */
  function SpliceStart(len: nat, start: int): (k: nat)
    ensures k <= len
    ensures 0 <= start <= len ==> k == start
    ensures start < 0 && 0 <= len + start ==> k == len + start
    ensures len + start < 0 ==> k == 0
    ensures len < start ==> k == len
  {
    if start < 0 then (if len + start < 0 then 0 else len + start)
    else if start < len then start
    else len
  }

  /** The array left behind by `xs.splice(start, 1)`: at most one element is
      deleted, at the position `SpliceStart` picks, when that is inside the array. */
  function SpliceOne<T>(xs: seq<T>, start: int): (r: seq<T>)
    ensures 0 <= start < |xs| ==> |r| == |xs| - 1 && r[..start] == xs[..start] && r[start..] == xs[start + 1..]
    ensures start == -1 && |xs| > 0 ==> r == xs[..|xs| - 1]
    ensures |xs| == 0 || start >= |xs| ==> r == xs
  {
    var k := SpliceStart(|xs|, start);
    if k < |xs| then xs[..k] + xs[k + 1..] else xs
  }

  /** Reference definition: `xs` without the first occurrence of `v`, or
      `xs` itself when `v` does not occur. */
  function RemoveFirst<T(==)>(xs: seq<T>, v: T): (r: seq<T>)
    ensures v !in xs ==> r == xs
    ensures v in xs ==> |r| == |xs| - 1
  {
    if |xs| == 0 then xs
    else if xs[0] == v then
      assert xs == [xs[0]] + xs[1..];
      xs[1..]
    else
      assert xs == [xs[0]] + xs[1..];
      [xs[0]] + RemoveFirst(xs[1..], v)
  }

  /** `RemoveFirst` takes away one copy of `v` and nothing else. */
  lemma {:induction false} RemoveFirstCounts<T>(xs: seq<T>, v: T)
    ensures multiset(RemoveFirst(xs, v)) == multiset(xs) - multiset{v}
  {
    if |xs| > 0 {
      assert xs == [xs[0]] + xs[1..];
      if xs[0] != v {
        RemoveFirstCounts(xs[1..], v);
      }
    }
  }

  /** `RemoveFirst` deletes exactly one element, the first `v`, and keeps the
      relative order of everything else. */
  lemma RemoveFirstDeletesFirstMatch<T>(xs: seq<T>, v: T)
    requires v in xs
    ensures exists i :: 0 <= i < |xs| && xs[i] == v && v !in xs[..i]
                        && RemoveFirst(xs, v) == xs[..i] + xs[i + 1..]
  {
    var i := IndexOf(xs, v);
    SpliceAtIndexOfRemovesFirst(xs, v);
    assert xs[i] == v && v !in xs[..i] && RemoveFirst(xs, v) == xs[..i] + xs[i + 1..];
  }

  /** `splice(indexOf(v), 1)` is "remove the first `v`" whenever `v` occurs. */
  lemma {:induction false} SpliceAtIndexOfRemovesFirst<T>(xs: seq<T>, v: T)
    requires v in xs
    ensures SpliceOne(xs, IndexOf(xs, v)) == RemoveFirst(xs, v)
  {
    if xs[0] == v {
      assert xs[..0] + xs[1..] == xs[1..];
    } else {
      var t := xs[1..];
      assert v in t by { assert xs == [xs[0]] + t; }
      SpliceAtIndexOfRemovesFirst(t, v);
      SpliceOneShift(xs, IndexOf(t, v));
    }
  }

  /** Splicing one position further into `xs` is splicing its tail and
      putting the head back in front. */
  lemma SpliceOneShift<T>(xs: seq<T>, k: nat)
    requires k + 1 < |xs|
    ensures SpliceOne(xs, k + 1) == [xs[0]] + SpliceOne(xs[1..], k)
  {
    assert xs[..k + 1] == [xs[0]] + xs[1..][..k];
    assert xs[k + 2..] == xs[1..][k + 1..];
  }

  /** `splice(indexOf(v), 1)` when `v` does not occur: `indexOf` gives -1,
      and the splice drops the last element instead of doing nothing. */
  lemma SpliceAtIndexOfAbsentDropsLast<T>(xs: seq<T>, v: T)
    requires v !in xs
    ensures |xs| > 0 ==> SpliceOne(xs, IndexOf(xs, v)) == xs[..|xs| - 1]
    ensures |xs| == 0 ==> SpliceOne(xs, IndexOf(xs, v)) == xs
  {
  }

  /** Appending `v` and then removing the first `v` undoes the append when
      `v` was absent; otherwise the earlier occurrence goes and the new one stays. */
  lemma {:induction false} RemoveFirstAfterAppend<T>(xs: seq<T>, v: T)
    ensures v !in xs ==> RemoveFirst(xs + [v], v) == xs
    ensures v in xs ==> RemoveFirst(xs + [v], v) == RemoveFirst(xs, v) + [v]
  {
    if |xs| == 0 {
      assert xs + [v] == [v];
    } else {
      var t := xs[1..];
      assert (xs + [v])[1..] == t + [v];
      if xs[0] != v {
        RemoveFirstAfterAppend(t, v);
        assert v in xs <==> v in t by { assert xs == [xs[0]] + t; }
      }
    }
  }
}
