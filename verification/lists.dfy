/** Sequence combinators for the "loop that appends only when a condition
    holds" shape every scraper and the playlist builder share, and for
    concatenating batches. */
module Lists {
  import opened Wrappers

  /** The values `f` yields, in the order of `xs`, skipping the elements for
      which it yields None. Defined from the back, the way a left-to-right
      loop extends its result. */
  function FilterMap<X, Y>(xs: seq<X>, f: X -> Option<Y>): (r: seq<Y>)
    ensures |r| <= |xs|
    ensures |r| == 0 <==> forall i :: 0 <= i < |xs| ==> f(xs[i]).None?
    decreases |xs|
  {
    if |xs| == 0 then []
    else
      var init := FilterMap(xs[..|xs| - 1], f);
      assert forall i :: 0 <= i < |xs| - 1 ==> xs[..|xs| - 1][i] == xs[i];
      init + Kept(f(xs[|xs| - 1]))
  }

  /** The one-element contribution of a single loop step. */
  function Kept<Y>(o: Option<Y>): (r: seq<Y>)
    ensures |r| <= 1 && (|r| == 1 <==> o.Some?)
  {
    match o
    case Some(y) => [y]
    case None => []
  }

  /** Filtering commutes with concatenation: what survives from a page is what
      survives from its first part followed by what survives from the rest, so
      relative order is never changed. */
  lemma {:induction false} FilterMapAppend<X, Y>(a: seq<X>, b: seq<X>, f: X -> Option<Y>)
    ensures FilterMap(a + b, f) == FilterMap(a, f) + FilterMap(b, f)
    decreases |b|
  {
    if |b| > 0 {
      var b' := b[..|b| - 1];
      assert (a + b)[..|a + b| - 1] == a + b';
      assert (a + b)[|a + b| - 1] == b[|b| - 1];
      FilterMapAppend(a, b', f);
    } else {
      assert a + b == a;
    }
  }

  lemma FilterMapSingle<X, Y>(x: X, f: X -> Option<Y>)
    ensures FilterMap([x], f) == Kept(f(x))
  {
    assert [x][..0] == [];
  }

  /** An element that yields nothing drops out without disturbing its
      neighbours. */
  lemma FilterMapSkip<X, Y>(a: seq<X>, x: X, b: seq<X>, f: X -> Option<Y>)
    requires f(x).None?
    ensures FilterMap(a + [x] + b, f) == FilterMap(a, f) + FilterMap(b, f)
  {
    var m, fa := a + [x], FilterMap(a, f);
    assert FilterMap(m, f) == fa by {
      assert m[..|m| - 1] == a && m[|m| - 1] == x;
      assert fa + Kept(f(x)) == fa;
    }
    FilterMapAppend(m, b, f);
  }

  /** Every kept value comes from some element of the input, and distinct
      kept positions come from increasing input positions. */
  lemma {:induction false} FilterMapOrigin<X, Y>(xs: seq<X>, f: X -> Option<Y>, j: nat)
    requires j < |FilterMap(xs, f)|
    ensures exists i :: 0 <= i < |xs| && f(xs[i]) == Some(FilterMap(xs, f)[j])
    decreases |xs|
  {
    var init := FilterMap(xs[..|xs| - 1], f);
    if j < |init| {
      FilterMapOrigin(xs[..|xs| - 1], f, j);
      var i :| 0 <= i < |xs| - 1 && f(xs[..|xs| - 1][i]) == Some(init[j]);
      assert xs[..|xs| - 1][i] == xs[i];
    } else {
      assert f(xs[|xs| - 1]) == Some(FilterMap(xs, f)[j]);
    }
  }

  /** When `f` never fails, nothing is dropped. */
  lemma {:induction false} FilterMapTotal<X, Y>(xs: seq<X>, f: X -> Option<Y>)
    requires forall i :: 0 <= i < |xs| ==> f(xs[i]).Some?
    ensures |FilterMap(xs, f)| == |xs|
    decreases |xs|
  {
    if |xs| > 0 {
      var init := xs[..|xs| - 1];
      assert forall i :: 0 <= i < |init| ==> init[i] == xs[i];
      FilterMapTotal(init, f);
    }
  }

  /** When `f` never fails, the k-th kept value is f's value on the k-th
      element. */
  lemma {:induction false} FilterMapTotalAt<X, Y>(xs: seq<X>, f: X -> Option<Y>, k: nat)
    requires forall i :: 0 <= i < |xs| ==> f(xs[i]).Some?
    requires k < |xs|
    ensures |FilterMap(xs, f)| == |xs| && FilterMap(xs, f)[k] == f(xs[k]).value
    decreases |xs|
  {
    var init := xs[..|xs| - 1];
    assert forall i :: 0 <= i < |init| ==> init[i] == xs[i];
    FilterMapTotal(xs, f);
    FilterMapTotal(init, f);
    if k < |xs| - 1 {
      FilterMapTotalAt(init, f, k);
    }
  }

  /** Concatenation of a sequence of sequences. */
  function Flatten<T>(xss: seq<seq<T>>): seq<T>
    decreases |xss|
  {
    if |xss| == 0 then [] else xss[0] + Flatten(xss[1..])
  }

  lemma {:induction false} FlattenAppend<T>(a: seq<seq<T>>, b: seq<seq<T>>)
    ensures Flatten(a + b) == Flatten(a) + Flatten(b)
    decreases |a|
  {
    if |a| > 0 {
      assert (a + b)[1..] == a[1..] + b;
      FlattenAppend(a[1..], b);
    } else {
      assert a + b == b;
    }
  }

  /** The least index in [from, n) satisfying P, if any: what a regex search
      does when it tries each start position from the left. */
  function FirstWhere(n: nat, P: nat -> bool, from: nat): (r: Option<nat>)
    ensures r.Some? ==> from <= r.value < n && P(r.value)
    ensures r.Some? ==> forall k :: from <= k < r.value ==> !P(k)
    ensures r.None? ==> forall k :: from <= k < n ==> !P(k)
    decreases n - from
  {
    if from >= n then None
    else if P(from) then Some(from)
    else FirstWhere(n, P, from + 1)
  }

  /** The converse: an index satisfying P with none before it is found. */
  lemma FirstWhereIs(n: nat, P: nat -> bool, from: nat, i: nat)
    requires from <= i < n && P(i)
    requires forall k :: from <= k < i ==> !P(k)
    ensures FirstWhere(n, P, from) == Some(i)
  {
    var r := FirstWhere(n, P, from);
    assert r.Some?;
    assert r.value <= i;
  }
}
