/** The optional values that the source represents with Python's None or a missing key,
    and the filter-and-map walk that its row loops perform. */
module Wrappers {

  datatype Option<+T> = None | Some(value: T) {

    /** The carried value, or the default when there is none (Python's `x or default`
        when x is None). */
    function GetOr(default: T): T {
      match this
      case Some(v) => v
      case None => default
    }
  }

  /** The values f yields on the elements of xs, in order, the elements on which it yields
      None contributing nothing. */
  function FilterMap<T, U>(xs: seq<T>, f: T -> Option<U>): (r: seq<U>)
    ensures |r| <= |xs|
  {
    if xs == [] then []
    else
      FilterMap(xs[..|xs| - 1], f) +
        (match f(xs[|xs| - 1]) case None => [] case Some(y) => [y])
  }

  /** FilterMap works element by element: on a concatenation it is the concatenation. */
  lemma {:induction false} FilterMapConcat<T, U>(a: seq<T>, b: seq<T>, f: T -> Option<U>)
    ensures FilterMap(a + b, f) == FilterMap(a, f) + FilterMap(b, f)
    decreases |b|
  {
    if b == [] {
      assert a + b == a;
    } else {
      var b' := b[..|b| - 1];
      assert (a + b)[..|a + b| - 1] == a + b';
      FilterMapConcat(a, b', f);
    }
  }

  /** On one element FilterMap keeps f's value, if any. */
  lemma FilterMapSingle<T, U>(x: T, f: T -> Option<U>)
    ensures FilterMap([x], f) == match f(x) case None => [] case Some(y) => [y]
  {
    assert [x][..0] == [];
  }

  /** Every value FilterMap yields is f's value on some element. */
  lemma {:induction false} FilterMapFrom<T, U>(xs: seq<T>, f: T -> Option<U>, k: nat)
    requires k < |FilterMap(xs, f)|
    ensures exists i :: 0 <= i < |xs| && f(xs[i]) == Some(FilterMap(xs, f)[k])
  {
    var init := xs[..|xs| - 1];
    if k < |FilterMap(init, f)| {
      FilterMapFrom(init, f, k);
      var i :| 0 <= i < |init| && f(init[i]) == Some(FilterMap(init, f)[k]);
      assert xs[i] == init[i];
    } else {
      assert f(xs[|xs| - 1]) == Some(FilterMap(xs, f)[k]);
    }
  }

  /** Every value f yields on an element is among FilterMap's values. */
  lemma {:induction false} FilterMapTo<T, U>(xs: seq<T>, f: T -> Option<U>, i: nat)
    requires i < |xs| && f(xs[i]).Some?
    ensures f(xs[i]).value in FilterMap(xs, f)
  {
    var init := xs[..|xs| - 1];
    if i < |init| {
      FilterMapTo(init, f, i);
      assert xs[i] == init[i];
    }
  }
}
