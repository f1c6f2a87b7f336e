/*
 * `Array.prototype.map` and `Array.prototype.filter`, stated once for any
 * function, with the facts the extractors rely on: what `filter` keeps,
 * that it keeps everything that qualifies, and that both keep order.
 */
module ListOps {

  /** `xs.map(f)`. */
  function Map<T, U>(xs: seq<T>, f: T -> U): (ys: seq<U>)
    ensures |ys| == |xs|
    ensures forall k :: 0 <= k < |xs| ==> ys[k] == f(xs[k])
  {
    seq(|xs|, k requires 0 <= k < |xs| => f(xs[k]))
  }

  /** Mapping a concatenation concatenates the mapped parts. */
  lemma MapAppend<T, U>(xs: seq<T>, ys: seq<T>, f: T -> U)
    ensures Map(xs + ys, f) == Map(xs, f) + Map(ys, f)
  {
  }

  /** Mapping one more element appends its image. */
  lemma MapPush<T, U>(xs: seq<T>, x: T, f: T -> U)
    ensures Map(xs + [x], f) == Map(xs, f) + [f(x)]
  {
  }

  /** Proof aid: concatenation regrouped, for steps the solver does not find alone. */
  lemma ConcatAssoc<T>(a: seq<T>, b: seq<T>, c: seq<T>)
    ensures a + (b + c) == a + b + c
  {
  }

  /** `xs.filter(p)`, the kept elements in their original order. */
  function Filter<T>(xs: seq<T>, p: T -> bool): (kept: seq<T>)
    ensures |kept| <= |xs|
  {
    if xs == [] then []
    else Filter(xs[..|xs| - 1], p) + if p(xs[|xs| - 1]) then [xs[|xs| - 1]] else []
  }

  /** Every kept element satisfies `p` and comes from `xs`. */
  lemma {:induction false} FilterSound<T>(xs: seq<T>, p: T -> bool)
    ensures forall k :: 0 <= k < |Filter(xs, p)| ==> p(Filter(xs, p)[k]) && Filter(xs, p)[k] in xs
    decreases |xs|
  {
    if xs != [] {
      var front := xs[..|xs| - 1];
      FilterSound(front, p);
      assert forall x :: x in front ==> x in xs;
    }
  }

  /** Every element that satisfies `p` is kept. */
  lemma {:induction false} FilterComplete<T>(xs: seq<T>, p: T -> bool, j: nat)
    requires j < |xs| && p(xs[j])
    ensures xs[j] in Filter(xs, p)
    decreases |xs|
  {
    var front := xs[..|xs| - 1];
    if j < |front| {
      assert front[j] == xs[j];
      FilterComplete(front, p, j);
    }
  }

  /** Every element that satisfies `p`, at any position, is kept. */
  lemma FilterKeepsAll<T>(xs: seq<T>, p: T -> bool)
    ensures forall j :: 0 <= j < |xs| && p(xs[j]) ==> xs[j] in Filter(xs, p)
  {
    forall j | 0 <= j < |xs| && p(xs[j])
      ensures xs[j] in Filter(xs, p)
    {
      FilterComplete(xs, p, j);
    }
  }

  /** The filter keeps nothing exactly when no element satisfies `p`. */
  lemma FilterEmpty<T>(xs: seq<T>, p: T -> bool)
    ensures Filter(xs, p) == [] <==> forall j :: 0 <= j < |xs| ==> !p(xs[j])
  {
    if exists j :: 0 <= j < |xs| && p(xs[j]) {
      var j :| 0 <= j < |xs| && p(xs[j]);
      FilterComplete(xs, p, j);
    } else {
      FilterSound(xs, p);
    }
  }

  /** The filter keeps order: filtering a concatenation concatenates the filtered parts. */
  lemma {:induction false} FilterAppend<T>(xs: seq<T>, ys: seq<T>, p: T -> bool)
    ensures Filter(xs + ys, p) == Filter(xs, p) + Filter(ys, p)
    decreases |ys|
  {
    if ys == [] {
      assert xs + ys == xs;
    } else {
      var ys' := ys[..|ys| - 1];
      assert (xs + ys)[..|xs + ys| - 1] == xs + ys';
      assert (xs + ys)[|xs + ys| - 1] == ys[|ys| - 1];
      FilterAppend(xs, ys', p);
    }
  }

  /** Filtering one more element appends it exactly when it satisfies `p`. */
  lemma FilterPush<T>(xs: seq<T>, x: T, p: T -> bool)
    ensures Filter(xs + [x], p) == Filter(xs, p) + if p(x) then [x] else []
  {
    assert (xs + [x])[..|xs|] == xs;
  }

  /** When every element satisfies `p`, the filter keeps them all. */
  lemma {:induction false} FilterAll<T>(xs: seq<T>, p: T -> bool)
    requires forall k :: 0 <= k < |xs| ==> p(xs[k])
    ensures Filter(xs, p) == xs
    decreases |xs|
  {
    if xs != [] {
      FilterAll(xs[..|xs| - 1], p);
    }
  }

  /** A one-element list is kept exactly when its element satisfies `p`. */
  lemma FilterSingle<T>(x: T, p: T -> bool)
    ensures Filter([x], p) == if p(x) then [x] else []
  {
    assert [x][..0] == [];
  }
}
