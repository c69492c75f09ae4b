/** The array combinators the request handlers use (`filter`, `find`, and a
    `reduce` that keeps the strictly larger element), over Dafny sequences. */
module Seqs {
  import opened Wrappers

  /** `_ => true` */
  function Any<T>(): T -> bool
  {
    _ => true
  }

  /** `x => p(x) && q(x)` */
  function And<T>(p: T -> bool, q: T -> bool): T -> bool
  {
    x => p(x) && q(x)
  }

  /** `lo..hi` is a range of positions of `xs` whose elements all satisfy `p`. */
  predicate AllIn<T>(xs: seq<T>, lo: int, hi: int, p: T -> bool)
  {
    0 <= lo <= hi <= |xs| && forall k :: lo <= k < hi ==> p(xs[k])
  }

  /** The length of the run of elements satisfying `p` that `xs` starts with. */
  function LeadingRun<T>(xs: seq<T>, p: T -> bool): (n: nat)
    ensures AllIn(xs, 0, n, p)
    ensures n < |xs| ==> !p(xs[n])
    decreases |xs|
  {
    if xs != [] && p(xs[0]) then
      var n := 1 + LeadingRun(xs[1..], p);
      assert forall k :: 1 <= k < n ==> xs[k] == xs[1..][k - 1];
      n
    else 0
  }

  /** The length of the run of elements satisfying `p` that `xs` ends with. */
  function TrailingRun<T>(xs: seq<T>, p: T -> bool): (n: nat)
    ensures AllIn(xs, |xs| - n, |xs|, p)
    ensures n < |xs| ==> !p(xs[|xs| - n - 1])
    decreases |xs|
  {
    if xs != [] && p(xs[|xs| - 1]) then
      var init := xs[..|xs| - 1];
      var n := 1 + TrailingRun(init, p);
      assert forall k :: |xs| - n <= k < |xs| - 1 ==> xs[k] == init[k];
      n
    else 0
  }

  /** `xs` without the run of elements satisfying `p` at its end. */
  function StripEnd<T>(xs: seq<T>, p: T -> bool): (r: seq<T>)
    ensures exists j :: AllIn(xs, j, |xs|, p) && r == xs[..j]
    ensures r == [] || !p(r[|r| - 1])
  {
    xs[..|xs| - TrailingRun(xs, p)]
  }

  /** `xs` without the runs of elements satisfying `p` at both ends. */
  function StripEnds<T>(xs: seq<T>, p: T -> bool): (r: seq<T>)
    ensures exists i, j :: AllIn(xs, 0, i, p) && AllIn(xs, j, |xs|, p) && i <= j && r == xs[i..j]
    ensures r == [] || (!p(r[0]) && !p(r[|r| - 1]))
  {
    var i := LeadingRun(xs, p);
    if i == |xs| then
      assert AllIn(xs, |xs|, |xs|, p) && xs[|xs|..|xs|] == [];
      []
    else
      var j := |xs| - TrailingRun(xs, p);
      assert !p(xs[i]);
      assert i < j;
      var r := xs[i..j];
      assert r[0] == xs[i] && r[|r| - 1] == xs[j - 1];
      r
  }

  /** `xs.indexOf(x)`, with `|xs|` standing for -1. */
  function Position<T(==)>(xs: seq<T>, x: T): (i: nat)
    ensures i <= |xs|
    ensures i < |xs| ==> xs[i] == x
    ensures forall j :: 0 <= j < i && j < |xs| ==> xs[j] != x
    decreases |xs|
  {
    if xs == [] then 0
    else if xs[0] == x then 0
    else 1 + Position(xs[1..], x)
  }

  /** `xs.filter(p)`: the elements satisfying `p`, in their original order. */
  function Filter<T>(xs: seq<T>, p: T -> bool): (r: seq<T>)
    ensures |r| <= |xs|
    ensures forall i :: 0 <= i < |r| ==> p(r[i])
    decreases |xs|
  {
    if xs == [] then []
    else (if p(xs[0]) then [xs[0]] else []) + Filter(xs[1..], p)
  }

  /** Exactly the elements of `xs` that satisfy `p` survive the filter. */
  lemma {:induction false} FilterMembers<T>(xs: seq<T>, p: T -> bool)
    ensures forall i :: 0 <= i < |Filter(xs, p)| ==> Filter(xs, p)[i] in xs
    ensures forall j :: 0 <= j < |xs| && p(xs[j]) ==> xs[j] in Filter(xs, p)
    decreases |xs|
  {
    if xs != [] {
      FilterMembers(xs[1..], p);
      var ys := Filter(xs[1..], p);
      assert forall y :: y in ys ==> y in xs;
      forall j | 0 <= j < |xs| && p(xs[j])
        ensures xs[j] in Filter(xs, p)
      {
        if j > 0 { assert xs[j] == xs[1..][j - 1]; }
      }
    }
  }

  /** `i` is the position of the first element of `xs` satisfying `p`. */
  predicate IsFirst<T>(xs: seq<T>, i: int, p: T -> bool)
  {
    0 <= i < |xs| && p(xs[i]) && forall j :: 0 <= j < i ==> !p(xs[j])
  }

  lemma FirstIsUnique<T>(xs: seq<T>, i: int, j: int, p: T -> bool)
    requires IsFirst(xs, i, p) && IsFirst(xs, j, p)
    ensures i == j
  {
  }

  /** `i` is the position of the earliest element with the largest `key`
      among the elements of `xs` satisfying `p`. */
  predicate IsEarliestMax<T>(xs: seq<T>, i: int, p: T -> bool, key: T -> int)
  {
    && 0 <= i < |xs| && p(xs[i])
    && (forall j :: 0 <= j < |xs| && p(xs[j]) ==> key(xs[j]) <= key(xs[i]))
    && (forall j :: 0 <= j < i && p(xs[j]) ==> key(xs[j]) < key(xs[i]))
  }

  /** Index of the element `xs.find(p)` returns; `None` where `find` gives `undefined`. */
  function FirstIndex<T>(xs: seq<T>, p: T -> bool): (r: Option<nat>)
    ensures r.Some? ==> IsFirst(xs, r.value, p)
    ensures r.None? <==> forall j :: 0 <= j < |xs| ==> !p(xs[j])
    decreases |xs|
  {
    if xs == [] then None
    else if p(xs[0]) then Some(0)
    else match FirstIndex(xs[1..], p)
      case None => None
      case Some(i) => Some(i + 1)
  }

  /** Index of the element `xs.reduce((best, cur) => key(cur) > key(best) ? cur : best)`
      returns: a left fold that replaces the running best only on a strict increase. */
  function ReduceMax<T>(xs: seq<T>, key: T -> int): (i: nat)
    requires |xs| > 0
    ensures i < |xs|
    ensures forall j :: 0 <= j < |xs| ==> key(xs[j]) <= key(xs[i])
    ensures forall j :: 0 <= j < i ==> key(xs[j]) < key(xs[i])
    decreases |xs|
  {
    if |xs| == 1 then 0
    else
      var best := ReduceMax(xs[..|xs| - 1], key);
      if key(xs[|xs| - 1]) > key(xs[best]) then |xs| - 1 else best
  }

  /** The same reduce started from `null`: `None` on an empty array. */
  function BestBy<T>(xs: seq<T>, key: T -> int): (r: Option<T>)
    ensures r.None? <==> xs == []
    ensures r.Some? ==> exists i :: IsEarliestMax(xs, i, Any(), key) && xs[i] == r.value
  {
    if xs == [] then None
    else
      var i := ReduceMax(xs, key);
      assert IsEarliestMax(xs, i, Any(), key);
      Some(xs[i])
  }

  lemma {:induction false} FilterAppend<T>(a: seq<T>, b: seq<T>, p: T -> bool)
    ensures Filter(a + b, p) == Filter(a, p) + Filter(b, p)
    decreases |a|
  {
    if a == [] {
      assert a + b == b;
    } else {
      assert (a + b)[1..] == a[1..] + b;
      FilterAppend(a[1..], b, p);
    }
  }

  lemma {:induction false} FilterFilter<T>(xs: seq<T>, p: T -> bool, q: T -> bool)
    ensures Filter(Filter(xs, p), q) == Filter(xs, And(p, q))
    decreases |xs|
  {
    if xs != [] {
      FilterFilter(xs[1..], p, q);
      assert And(p, q)(xs[0]) == (p(xs[0]) && q(xs[0]));
      assert Filter(xs, And(p, q))
          == (if p(xs[0]) && q(xs[0]) then [xs[0]] else []) + Filter(xs[1..], And(p, q));
      if p(xs[0]) {
        var ys := Filter(xs, p);
        assert ys == [xs[0]] + Filter(xs[1..], p);
        assert ys[0] == xs[0];
        assert ys[1..] == Filter(xs[1..], p);
        assert Filter(ys, q) == (if q(ys[0]) then [ys[0]] else []) + Filter(ys[1..], q);
        assert Filter(ys, q) == Filter(xs, And(p, q));
      } else {
        assert Filter(xs, p) == Filter(xs[1..], p);
        assert Filter(xs, And(p, q)) == Filter(xs[1..], And(p, q));
      }
    }
  }

  /** Two tests that agree on every element filter alike. */
  lemma {:induction false} FilterAgree<T>(xs: seq<T>, p: T -> bool, q: T -> bool)
    requires forall i :: 0 <= i < |xs| ==> p(xs[i]) == q(xs[i])
    ensures Filter(xs, p) == Filter(xs, q)
    decreases |xs|
  {
    if xs != [] {
      assert forall i :: 0 <= i < |xs[1..]| ==> xs[1..][i] == xs[i + 1];
      FilterAgree(xs[1..], p, q);
    }
  }

  /** Finding in a filtered array finds the first element of the original
      array that passes both the filter and the search. */
  lemma {:induction false} FirstIndexOfFilter<T>(xs: seq<T>, p: T -> bool, q: T -> bool)
    ensures FirstIndex(Filter(xs, p), q).None? <==> FirstIndex(xs, And(p, q)).None?
    ensures FirstIndex(Filter(xs, p), q).Some? ==>
      Filter(xs, p)[FirstIndex(Filter(xs, p), q).value] == xs[FirstIndex(xs, And(p, q)).value]
    decreases |xs|
  {
    if xs != [] {
      FirstIndexOfFilter(xs[1..], p, q);
      var ys := Filter(xs, p);
      if p(xs[0]) {
        assert ys == [xs[0]] + Filter(xs[1..], p);
        assert ys[0] == xs[0];
        assert ys[1..] == Filter(xs[1..], p);
      } else {
        assert ys == Filter(xs[1..], p);
      }
    }
  }

  lemma EarliestMaxKeep<T>(xs: seq<T>, i: int, p: T -> bool, key: T -> int)
    requires |xs| > 0 && IsEarliestMax(xs[..|xs| - 1], i, p, key)
    requires p(xs[|xs| - 1]) ==> key(xs[|xs| - 1]) <= key(xs[i])
    ensures IsEarliestMax(xs, i, p, key)
  {
    assert forall j :: 0 <= j < |xs| - 1 ==> xs[..|xs| - 1][j] == xs[j];
  }

  lemma EarliestMaxLast<T>(xs: seq<T>, p: T -> bool, key: T -> int)
    requires |xs| > 0 && p(xs[|xs| - 1])
    requires forall j :: 0 <= j < |xs| - 1 && p(xs[j]) ==> key(xs[j]) < key(xs[|xs| - 1])
    ensures IsEarliestMax(xs, |xs| - 1, p, key)
  {
  }

  /** Inductive step of `ReduceMaxOfFilter` when no earlier element passes the filter. */
  lemma ReduceMaxOfFilterFirst<T>(xs: seq<T>, p: T -> bool, key: T -> int)
    requires |xs| > 0 && p(xs[|xs| - 1])
    requires forall j :: 0 <= j < |xs| - 1 ==> !p(xs[j])
    requires Filter(xs, p) == [xs[|xs| - 1]]
    ensures exists i :: IsEarliestMax(xs, i, p, key)
                        && xs[i] == Filter(xs, p)[ReduceMax(Filter(xs, p), key)]
  {
    EarliestMaxLast(xs, p, key);
  }

  /** Inductive step of `ReduceMaxOfFilter` when the filtered prefix is non-empty. */
  lemma ReduceMaxOfFilterStep<T>(xs: seq<T>, p: T -> bool, key: T -> int, i: int)
    requires |xs| > 0
    requires Filter(xs[..|xs| - 1], p) != []
    requires Filter(xs, p) == Filter(xs[..|xs| - 1], p)
                              + (if p(xs[|xs| - 1]) then [xs[|xs| - 1]] else [])
    requires IsEarliestMax(xs[..|xs| - 1], i, p, key)
    requires xs[i] == Filter(xs[..|xs| - 1], p)[ReduceMax(Filter(xs[..|xs| - 1], p), key)]
    ensures exists i' :: IsEarliestMax(xs, i', p, key)
                         && xs[i'] == Filter(xs, p)[ReduceMax(Filter(xs, p), key)]
  {
    var n := |xs|;
    var last := xs[n - 1];
    if !p(last) {
      assert Filter(xs, p) == Filter(xs[..n - 1], p);
      EarliestMaxKeep(xs, i, p, key);
    } else if key(last) > key(xs[i]) {
      ReduceMaxNewBest(xs, p, key, i);
    } else {
      ReduceMaxOldBest(xs, p, key, i);
    }
  }

  /** The last element passes the filter and beats the best so far. */
  lemma ReduceMaxNewBest<T>(xs: seq<T>, p: T -> bool, key: T -> int, i: int)
    requires |xs| > 0 && p(xs[|xs| - 1])
    requires Filter(xs[..|xs| - 1], p) != []
    requires Filter(xs, p) == Filter(xs[..|xs| - 1], p) + [xs[|xs| - 1]]
    requires IsEarliestMax(xs[..|xs| - 1], i, p, key)
    requires xs[i] == Filter(xs[..|xs| - 1], p)[ReduceMax(Filter(xs[..|xs| - 1], p), key)]
    requires key(xs[|xs| - 1]) > key(xs[i])
    ensures IsEarliestMax(xs, |xs| - 1, p, key)
    ensures xs[|xs| - 1] == Filter(xs, p)[ReduceMax(Filter(xs, p), key)]
  {
    var n := |xs|;
    var ys := Filter(xs, p);
    var zs := Filter(xs[..n - 1], p);
    assert ys[..|ys| - 1] == zs;
    assert ys[|ys| - 1] == xs[n - 1];
    assert ys[ReduceMax(zs, key)] == xs[i];
    assert ReduceMax(ys, key) == |ys| - 1;
    BeatsPrefix(xs, p, key, i);
    EarliestMaxLast(xs, p, key);
  }

  /** A last element beating the prefix's maximum beats every element of
      the prefix passing the filter. */
  lemma BeatsPrefix<T>(xs: seq<T>, p: T -> bool, key: T -> int, i: int)
    requires |xs| > 0 && IsEarliestMax(xs[..|xs| - 1], i, p, key)
    requires key(xs[|xs| - 1]) > key(xs[i])
    ensures forall j :: 0 <= j < |xs| - 1 && p(xs[j]) ==> key(xs[j]) < key(xs[|xs| - 1])
  {
    var pre := xs[..|xs| - 1];
    assert pre[i] == xs[i];
    forall j | 0 <= j < |xs| - 1 && p(xs[j])
      ensures key(xs[j]) < key(xs[|xs| - 1])
    {
      assert pre[j] == xs[j];
    }
  }

  /** The last element passes the filter but does not beat the best so far. */
  lemma ReduceMaxOldBest<T>(xs: seq<T>, p: T -> bool, key: T -> int, i: int)
    requires |xs| > 0 && p(xs[|xs| - 1])
    requires Filter(xs[..|xs| - 1], p) != []
    requires Filter(xs, p) == Filter(xs[..|xs| - 1], p) + [xs[|xs| - 1]]
    requires IsEarliestMax(xs[..|xs| - 1], i, p, key)
    requires xs[i] == Filter(xs[..|xs| - 1], p)[ReduceMax(Filter(xs[..|xs| - 1], p), key)]
    requires key(xs[|xs| - 1]) <= key(xs[i])
    ensures IsEarliestMax(xs, i, p, key)
    ensures xs[i] == Filter(xs, p)[ReduceMax(Filter(xs, p), key)]
  {
    var ys := Filter(xs, p);
    var zs := Filter(xs[..|xs| - 1], p);
    assert ys[..|ys| - 1] == zs;
    assert ReduceMax(ys, key) == ReduceMax(zs, key);
    EarliestMaxKeep(xs, i, p, key);
  }

  /** Reducing a filtered array to its earliest maximum picks the earliest
      maximum of the original array among the elements passing the filter. */
  lemma {:induction false} ReduceMaxOfFilter<T>(xs: seq<T>, p: T -> bool, key: T -> int)
    requires exists j :: 0 <= j < |xs| && p(xs[j])
    ensures |Filter(xs, p)| > 0
    ensures exists i :: IsEarliestMax(xs, i, p, key)
                        && xs[i] == Filter(xs, p)[ReduceMax(Filter(xs, p), key)]
    decreases |xs|
  {
    var n := |xs|;
    var init, last := xs[..n - 1], xs[n - 1];
    assert xs == init + [last];
    FilterAppend(init, [last], p);
    assert Filter([last], p) == if p(last) then [last] else [];
    FilterMembers(xs, p);
    FilterMembers(init, p);
    var j0 :| 0 <= j0 < |xs| && p(xs[j0]);
    assert xs[j0] in Filter(xs, p);
    var zs := Filter(init, p);
    if zs == [] {
      forall j | 0 <= j < n - 1
        ensures !p(xs[j])
      {
        assert init[j] == xs[j];
      }
      ReduceMaxOfFilterFirst(xs, p, key);
    } else {
      assert zs[0] in init && p(zs[0]);
      var k0 :| 0 <= k0 < |init| && init[k0] == zs[0];
      ReduceMaxOfFilter(init, p, key);
      var i :| IsEarliestMax(init, i, p, key) && init[i] == zs[ReduceMax(zs, key)];
      assert init[i] == xs[i];
      ReduceMaxOfFilterStep(xs, p, key, i);
    }
  }
}
