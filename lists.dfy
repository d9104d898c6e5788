/** `Array.prototype.map` and `Array.prototype.filter` over sequences. */
module Lists {

  /** `xs.map(f)`: one result per element, in order. */
  function Map<A, B>(f: A -> B, xs: seq<A>): (ys: seq<B>)
    ensures |ys| == |xs|
    ensures forall i :: 0 <= i < |xs| ==> ys[i] == f(xs[i])
  {
    if xs == [] then [] else [f(xs[0])] + Map(f, xs[1..])
  }

  /** `xs.filter(p)`: exactly the elements that satisfy `p`, in order. */
  function Filter<A(!new)>(p: A -> bool, xs: seq<A>): (ys: seq<A>)
    ensures |ys| <= |xs|
    ensures forall i :: 0 <= i < |ys| ==> p(ys[i])
    ensures forall x :: x in ys <==> x in xs && p(x)
  {
    if xs == [] then []
    else if p(xs[0]) then [xs[0]] + Filter(p, xs[1..])
    else Filter(p, xs[1..])
  }

  lemma MapAppend<A, B>(f: A -> B, xs: seq<A>, ys: seq<A>)
    ensures Map(f, xs + ys) == Map(f, xs) + Map(f, ys)
  {
    var r := Map(f, xs + ys);
    forall i | 0 <= i < |r| ensures r[i] == (Map(f, xs) + Map(f, ys))[i] {
      if i >= |xs| {
        assert (xs + ys)[i] == ys[i - |xs|];
      }
    }
  }

  /** Filtering works element by element, so it keeps relative order across
      a concatenation. */
  lemma {:induction false} FilterAppend<A(!new)>(p: A -> bool, xs: seq<A>, ys: seq<A>)
    ensures Filter(p, xs + ys) == Filter(p, xs) + Filter(p, ys)
  {
    if xs == [] {
      assert xs + ys == ys;
    } else {
      var zs := xs + ys;
      assert zs[0] == xs[0];
      assert zs[1..] == xs[1..] + ys;
      FilterAppend(p, xs[1..], ys);
    }
  }

  /** Filtering the images keeps the same elements as filtering the
      originals first, when `p` holds of an image exactly when `q` holds of
      the original. */
  lemma {:induction false} FilterMap<A(!new), B(!new)>(p: B -> bool, f: A -> B, q: A -> bool, xs: seq<A>)
    requires forall x :: x in xs ==> (p(f(x)) <==> q(x))
    ensures Filter(p, Map(f, xs)) == Map(f, Filter(q, xs))
  {
    if xs != [] {
      FilterMap(p, f, q, xs[1..]);
      assert Map(f, xs)[1..] == Map(f, xs[1..]);
      assert Map(f, xs)[0] == f(xs[0]);
      if q(xs[0]) {
        assert Filter(q, xs) == [xs[0]] + Filter(q, xs[1..]);
        assert Map(f, Filter(q, xs))[1..] == Map(f, Filter(q, xs[1..]));
      }
    }
  }
}
