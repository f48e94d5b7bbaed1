/**
 * The parameter grids the searches walk: Ruby's Array#product (every
 * element of the first list paired with every element of the second, the
 * first list outermost) and the default list of candidate values.
 */
module Grids {

  /** The pairs (x, b) for every b of bs, in order. */
  function Row<A, B>(x: A, bs: seq<B>): (r: seq<(A, B)>)
    ensures |r| == |bs|
    ensures forall j :: 0 <= j < |bs| ==> r[j] == (x, bs[j])
  {
    seq(|bs|, j requires 0 <= j < |bs| => (x, bs[j]))
  }

  /** Array#product: the rows of every element of xs, the first element's row first. */
  function Product<A, B>(xs: seq<A>, bs: seq<B>): seq<(A, B)>
    decreases |xs|
  {
    if |xs| == 0 then [] else Product(xs[..|xs| - 1], bs) + Row(xs[|xs| - 1], bs)
  }

  /** The row of xs[i] starts at i * |bs|, and every index before the last row lies before it. */
  lemma RowStart(i: nat, j: nat, n: nat, m: nat)
    requires i < n && j < m
    ensures i * m + j < n * m
    ensures i < n - 1 ==> i * m + j < (n - 1) * m
  {
    assert i * m + j < i * m + m == (i + 1) * m;
    assert (i + 1) * m <= n * m;
    if i < n - 1 {
      assert (i + 1) * m <= (n - 1) * m;
    }
  }

  /** The product has one pair per element of xs and element of bs. */
  lemma {:induction false} ProductSize<A, B>(xs: seq<A>, bs: seq<B>)
    ensures |Product(xs, bs)| == |xs| * |bs|
    decreases |xs|
  {
    if |xs| > 0 {
      ProductSize(xs[..|xs| - 1], bs);
      assert (|xs| - 1) * |bs| + |bs| == |xs| * |bs|;
    }
  }

  /** The pair at i * |bs| + j is (xs[i], bs[j]): the first list is the outer loop, the second the inner. */
  lemma {:induction false} ProductIndex<A, B>(xs: seq<A>, bs: seq<B>, i: nat, j: nat)
    requires i < |xs| && j < |bs|
    ensures i * |bs| + j < |Product(xs, bs)|
    ensures Product(xs, bs)[i * |bs| + j] == (xs[i], bs[j])
    decreases |xs|
  {
    var n, m := |xs|, |bs|;
    var front := xs[..n - 1];
    var k := i * m + j;
    ProductSize(xs, bs);
    ProductSize(front, bs);
    RowStart(i, j, n, m);
    if i < n - 1 {
      ProductIndex(front, bs, i, j);
      assert front[i] == xs[i];
    } else {
      assert k - (n - 1) * m == j;
    }
  }

  /** A pair is in the product exactly when its first part is in xs and its second in bs. */
  lemma {:induction false} ProductMembers<A, B>(xs: seq<A>, bs: seq<B>, p: (A, B))
    ensures p in Product(xs, bs) <==> p.0 in xs && p.1 in bs
    decreases |xs|
  {
    if |xs| > 0 {
      var front := xs[..|xs| - 1];
      ProductMembers(front, bs, p);
      assert xs == front + [xs[|xs| - 1]];
      if p in Row(xs[|xs| - 1], bs) {
        var j :| 0 <= j < |bs| && Row(xs[|xs| - 1], bs)[j] == p;
        assert p.1 == bs[j];
      }
      if p.0 == xs[|xs| - 1] && p.1 in bs {
        var j :| 0 <= j < |bs| && bs[j] == p.1;
        assert Row(xs[|xs| - 1], bs)[j] == p;
      }
    }
  }

  /** The indices 0 .. n - 1, in order. */
  function Indices(n: nat): (r: seq<nat>)
    ensures |r| == n
    ensures forall k :: 0 <= k < n ==> r[k] == k
  {
    seq(n, k requires 0 <= k < n => k)
  }

  /** 2 raised to an integer power, exactly (Ruby's 2**-2 is the rational 1/4). */
  function Pow2(e: int): (r: real)
    ensures r > 0.0
    decreases if e < 0 then -e else e
  {
    if e == 0 then 1.0 else if e > 0 then 2.0 * Pow2(e - 1) else Pow2(e + 1) / 2.0
  }

  /** The default costs and gammas: 2**i for i in -2..3. */
  const DefaultValues: seq<real> := [0.25, 0.5, 1.0, 2.0, 4.0, 8.0]

  /** The default list is exactly the powers 2**-2 .. 2**3, in increasing order. */
  lemma DefaultValuesArePowers()
    ensures |DefaultValues| == 6
    ensures forall k :: 0 <= k < 6 ==> DefaultValues[k] == Pow2(k - 2)
    ensures forall k :: 0 <= k < 5 ==> DefaultValues[k] < DefaultValues[k + 1]
  {
    assert Pow2(-1) == 0.5;
    assert Pow2(-2) == 0.25;
    assert Pow2(3) == 8.0;
  }
}
