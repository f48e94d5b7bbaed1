/**
 * The helpers of the design-of-experiments search (Search#search): the
 * 13-point stencil around a centre, the search resolution and its
 * shrinking, the split of the feature vectors into folds, the
 * leave-others-out evaluation, the skipping of pairs already tested and the
 * choice of the next centre.  Coordinates are (cost, gamma) pairs of reals.
 */
module DoeSearch {
  import opened Errors
  import opened Parameters
  import opened Grids

  /** A (cost, gamma) point of the search. */
  type Pair = (real, real)

  /**
   * build_doe_pattern: the 3x3 product of (min, centre, max) in each
   * dimension, cost outermost, followed by the 2x2 product of the midpoints
   * between the centre and each bound.
   */
  function DoePattern(costMin: real, costMax: real, gammaMin: real, gammaMax: real,
                      costCenter: real, gammaCenter: real): seq<Pair>
  {
    Product([costMin, costCenter, costMax], [gammaMin, gammaCenter, gammaMax]) +
    Product([(costCenter + costMin) / 2.0, (costMax + costCenter) / 2.0],
            [(gammaCenter + gammaMin) / 2.0, (gammaMax + gammaCenter) / 2.0])
  }

  /** build_doe_pattern called without a centre: the centre is the midpoint of each dimension's bounds. */
  function DefaultCenterPattern(costMin: real, costMax: real, gammaMin: real, gammaMax: real): seq<Pair> {
    DoePattern(costMin, costMax, gammaMin, gammaMax, (costMax + costMin) / 2.0, (gammaMax + gammaMin) / 2.0)
  }

  /** The pattern point by point: nine grid points row by row in cost, then four half-step points. */
  lemma PatternPoints(cMin: real, cMax: real, gMin: real, gMax: real, c: real, g: real)
    ensures DoePattern(cMin, cMax, gMin, gMax, c, g) ==
      [(cMin, gMin), (cMin, g), (cMin, gMax),
       (c, gMin), (c, g), (c, gMax),
       (cMax, gMin), (cMax, g), (cMax, gMax),
       ((c + cMin) / 2.0, (g + gMin) / 2.0), ((c + cMin) / 2.0, (gMax + g) / 2.0),
       ((cMax + c) / 2.0, (g + gMin) / 2.0), ((cMax + c) / 2.0, (gMax + g) / 2.0)]
  {
    GridPoints([cMin, c, cMax], [gMin, g, gMax]);
    HalfStepPoints([(c + cMin) / 2.0, (cMax + c) / 2.0], [(g + gMin) / 2.0, (gMax + g) / 2.0]);
  }

  /** A 3x3 product, point by point. */
  lemma GridPoints(cs: seq<real>, gs: seq<real>)
    requires |cs| == 3 && |gs| == 3
    ensures Product(cs, gs) == [(cs[0], gs[0]), (cs[0], gs[1]), (cs[0], gs[2]), (cs[1], gs[0]), (cs[1], gs[1]),
                                (cs[1], gs[2]), (cs[2], gs[0]), (cs[2], gs[1]), (cs[2], gs[2])]
  {
    ProductSize(cs, gs);
    ProductIndex(cs, gs, 0, 0); ProductIndex(cs, gs, 0, 1); ProductIndex(cs, gs, 0, 2);
    ProductIndex(cs, gs, 1, 0); ProductIndex(cs, gs, 1, 1); ProductIndex(cs, gs, 1, 2);
    ProductIndex(cs, gs, 2, 0); ProductIndex(cs, gs, 2, 1); ProductIndex(cs, gs, 2, 2);
  }

  /** A 2x2 product, point by point. */
  lemma HalfStepPoints(hc: seq<real>, hg: seq<real>)
    requires |hc| == 2 && |hg| == 2
    ensures Product(hc, hg) == [(hc[0], hg[0]), (hc[0], hg[1]), (hc[1], hg[0]), (hc[1], hg[1])]
  {
    assert hc[..1][..0] == [];
    assert hc[..1] == [hc[0]];
    assert Product(hc[..1], hg) == Row(hc[0], hg);
    RowOfTwo(hc[0], hg);
    RowOfTwo(hc[1], hg);
  }

  lemma RowOfTwo(x: real, gs: seq<real>)
    requires |gs| == 2
    ensures Row(x, gs) == [(x, gs[0]), (x, gs[1])]
  {
  }

  /** Thirteen points, the centre fifth (index 4), every point inside the bounds when the centre is. */
  lemma PatternShape(cMin: real, cMax: real, gMin: real, gMax: real, c: real, g: real)
    requires cMin <= c <= cMax && gMin <= g <= gMax
    ensures |DoePattern(cMin, cMax, gMin, gMax, c, g)| == 13
    ensures DoePattern(cMin, cMax, gMin, gMax, c, g)[4] == (c, g)
    ensures forall p :: p in DoePattern(cMin, cMax, gMin, gMax, c, g) ==>
      cMin <= p.0 <= cMax && gMin <= p.1 <= gMax
  {
    PatternPoints(cMin, cMax, gMin, gMax, c, g);
  }

  /** With the centre strictly inside the bounds, the thirteen points are pairwise different. */
  lemma PatternDistinct(cMin: real, cMax: real, gMin: real, gMax: real, c: real, g: real)
    requires cMin < c < cMax && gMin < g < gMax
    ensures forall i, j :: 0 <= i < j < |DoePattern(cMin, cMax, gMin, gMax, c, g)| ==>
      DoePattern(cMin, cMax, gMin, gMax, c, g)[i] != DoePattern(cMin, cMax, gMin, gMax, c, g)[j]
  {
    PatternPoints(cMin, cMax, gMin, gMax, c, g);
    var p := DoePattern(cMin, cMax, gMin, gMax, c, g);
    // the five cost levels and the five gamma levels are strictly increasing
    assert cMin < (c + cMin) / 2.0 < c < (cMax + c) / 2.0 < cMax;
    assert gMin < (g + gMin) / 2.0 < g < (gMax + g) / 2.0 < gMax;
  }

  /**
   * build_doe_pattern_for_center: bounds at the centre plus and minus the
   * resolution in each dimension, with the given point as centre.
   */
  function PatternForCenter(cost: real, gamma: real, resolution: (real, real)): (r: seq<Pair>) {
    DoePattern(cost - resolution.0, cost + resolution.0, gamma - resolution.1, gamma + resolution.1, cost, gamma)
  }

  /**
   * The pattern around a centre is the default-centre pattern of its bounds
   * (the centre is their midpoint); the given point is element 4 and the
   * half-step points lie half a resolution away from it.
   */
  lemma ForCenterShape(cost: real, gamma: real, resolution: (real, real))
    requires resolution.0 >= 0.0 && resolution.1 >= 0.0
    ensures PatternForCenter(cost, gamma, resolution) ==
      DefaultCenterPattern(cost - resolution.0, cost + resolution.0, gamma - resolution.1, gamma + resolution.1)
    ensures |PatternForCenter(cost, gamma, resolution)| == 13
    ensures PatternForCenter(cost, gamma, resolution)[4] == (cost, gamma)
    ensures PatternForCenter(cost, gamma, resolution)[9..] ==
      [(cost - resolution.0 / 2.0, gamma - resolution.1 / 2.0), (cost - resolution.0 / 2.0, gamma + resolution.1 / 2.0),
       (cost + resolution.0 / 2.0, gamma - resolution.1 / 2.0), (cost + resolution.0 / 2.0, gamma + resolution.1 / 2.0)]
  {
    var r := resolution;
    assert ((cost + r.0) + (cost - r.0)) / 2.0 == cost;
    assert ((gamma + r.1) + (gamma - r.1)) / 2.0 == gamma;
    PatternPoints(cost - r.0, cost + r.0, gamma - r.1, gamma + r.1, cost, gamma);
  }

  /** With a positive resolution the points around a centre are pairwise different. */
  lemma ForCenterDistinct(cost: real, gamma: real, resolution: (real, real))
    requires resolution.0 > 0.0 && resolution.1 > 0.0
    ensures forall i, j :: 0 <= i < j < |PatternForCenter(cost, gamma, resolution)| ==>
      PatternForCenter(cost, gamma, resolution)[i] != PatternForCenter(cost, gamma, resolution)[j]
  {
    PatternDistinct(cost - resolution.0, cost + resolution.0, gamma - resolution.1, gamma + resolution.1, cost, gamma);
  }

  function RealAbs(x: real): real {
    if x < 0.0 then -x else x
  }

  /** The first resolution: half the sum of the absolute bounds, in each dimension. */
  function InitialResolution(costMin: real, costMax: real, gammaMin: real, gammaMax: real): (r: (real, real))
    ensures r.0 >= 0.0 && r.1 >= 0.0
    ensures r.0 == 0.0 <==> costMin == 0.0 && costMax == 0.0
    ensures r.1 == 0.0 <==> gammaMin == 0.0 && gammaMax == 0.0
  {
    ((RealAbs(costMin) + RealAbs(costMax)) / 2.0, (RealAbs(gammaMin) + RealAbs(gammaMax)) / 2.0)
  }

  /** With the default exponent bounds (-5, 15) and (-15, 9) the search starts at resolution (10, 12). */
  lemma DefaultResolution()
    ensures InitialResolution(-5.0, 15.0, -15.0, 9.0) == (10.0, 12.0)
  {
  }

  /** Math.sqrt(2) as the double it evaluates to. */
  const RootTwo: real := 1.4142135623730951

  /** resolution.map!{|e| e/Math.sqrt(2)}: every entry divided by the square root of two, in place. */
  method ShrinkResolution(resolution: array<real>)
    modifies resolution
    ensures forall i :: 0 <= i < resolution.Length ==> resolution[i] == old(resolution[i]) / RootTwo
  {
    var i := 0;
    while i < resolution.Length
      invariant 0 <= i <= resolution.Length
      invariant forall k :: 0 <= k < i ==> resolution[k] == old(resolution[k]) / RootTwo
      invariant forall k :: i <= k < resolution.Length ==> resolution[k] == old(resolution[k])
    {
      resolution[i] := resolution[i] / RootTwo;
      i := i + 1;
    }
  }

  /** A resolution entry after n iterations of the search. */
  function Shrunk(x: real, n: nat): real {
    if n == 0 then x else Shrunk(x, n - 1) / RootTwo
  }

  /** One shrink keeps a positive resolution positive and makes it strictly smaller. */
  lemma ShrinkDecreases(x: real)
    requires x > 0.0
    ensures 0.0 < x / RootTwo < x
  {
  }

  /** The n-th power of the square root of two. */
  function RootTwoPower(n: nat): (r: real)
    ensures r >= 1.0
  {
    if n == 0 then 1.0 else RootTwo * RootTwoPower(n - 1)
  }

  /** n shrinks divide by the n-th power of the square root of two. */
  lemma {:induction false} ShrunkIsDivision(x: real, n: nat)
    ensures Shrunk(x, n) == x / RootTwoPower(n)
  {
    if n > 0 {
      ShrunkIsDivision(x, n - 1);
      assert RootTwoPower(n) == RootTwo * RootTwoPower(n - 1);
    }
  }

  /** Bernoulli's inequality for the square root of two. */
  lemma {:induction false} RootTwoPowerGrows(n: nat)
    ensures RootTwoPower(n) >= 1.0 + (n as real) * (RootTwo - 1.0)
  {
    if n > 0 {
      RootTwoPowerGrows(n - 1);
      var p := RootTwoPower(n - 1);
      var q := 1.0 + ((n - 1) as real) * (RootTwo - 1.0);
      assert p >= q;
      assert RootTwo * p >= RootTwo * q;
      assert RootTwo * q == q + (RootTwo - 1.0) * q;
      assert (RootTwo - 1.0) * q >= RootTwo - 1.0;
    }
  }

  /** The resolution gets below any positive bound after enough iterations. */
  lemma ResolutionVanishes(x: real, bound: real) returns (n: nat)
    requires x >= 0.0 && bound > 0.0
    ensures Shrunk(x, n) < bound
  {
    n := EnoughSteps(x, bound * 0.4);
    RootTwoPowerGrows(n);
    ShrunkIsDivision(x, n);
    BelowBound(x, bound, n as real, RootTwoPower(n));
  }

  /** A count of steps of a given positive width that covers x. */
  lemma EnoughSteps(x: real, width: real) returns (n: nat)
    requires x >= 0.0 && width > 0.0
    ensures (n as real) * width > x
  {
    var q := x / width;
    assert q * width == x;
    var k := q.Floor;
    n := if k < 0 then 1 else k + 1;
    assert n as real > q;
    assert (n as real - q) * width > 0.0;
  }

  /** Dividing by p >= 1 + m (sqrt 2 - 1), where m steps of 0.4 bound cover x, lands below bound. */
  lemma BelowBound(x: real, bound: real, m: real, p: real)
    requires x >= 0.0 && bound > 0.0 && m >= 0.0 && m * (bound * 0.4) > x
    requires p >= 1.0 + m * (RootTwo - 1.0)
    ensures x / p < bound
  {
    assert p > m * 0.4;
    assert bound * p > bound * (m * 0.4);
    assert x < bound * p;
    assert (x / p) * p == x;
  }

  /** Ruby's Integer#/: the quotient rounded toward negative infinity. */
  function FloorDiv(a: int, b: int): int
    requires b != 0
  {
    if b > 0 then a / b else (-a) / (-b)
  }

  /** Array#each_slice(size): consecutive slices of size elements, the last one possibly shorter. */
  function EachSlice<T>(items: seq<T>, size: nat): seq<seq<T>>
    requires size > 0
    decreases |items|
  {
    if |items| == 0 then []
    else if |items| <= size then [items]
    else [items[..size]] + EachSlice(items[size..], size)
  }

  /** The slices joined back together. */
  function Concat<T>(slices: seq<seq<T>>): seq<T> {
    if |slices| == 0 then [] else slices[0] + Concat(slices[1..])
  }

  /**
   * each_slice loses nothing and reorders nothing, every slice but the last
   * is full, and the last holds the 1 .. size elements left over.
   */
  lemma {:induction false} SliceShape<T>(items: seq<T>, size: nat)
    requires size > 0
    ensures Concat(EachSlice(items, size)) == items
    ensures forall i :: 0 <= i < |EachSlice(items, size)| - 1 ==> |EachSlice(items, size)[i]| == size
    ensures |items| > 0 <==> |EachSlice(items, size)| > 0
    ensures |items| > 0 ==> 0 < |EachSlice(items, size)[|EachSlice(items, size)| - 1]| <= size
    decreases |items|
  {
    if |items| > size {
      var rest := items[size..];
      SliceShape(rest, size);
      var slices := EachSlice(items, size);
      assert slices[1..] == EachSlice(rest, size);
      assert items[..size] + rest == items;
    } else if |items| > 0 {
      assert Concat([items]) == items + Concat([]);
    }
  }

  /**
   * `*folds, _ = feature_vectors.each_slice(n / number_of_folds)`: the
   * slices of size n / number_of_folds (Ruby's integer division) without the
   * last one.  Division by zero raises ZeroDivisionError and a slice size
   * below one makes each_slice raise ArgumentError.
   */
  function SplitFolds<T>(items: seq<T>, numberOfFolds: int): Result<seq<seq<T>>> {
    if numberOfFolds == 0 then Err(ZeroDivisionError)
    else
      var size := FloorDiv(|items|, numberOfFolds);
      if size <= 0 then Err(ArgumentError("invalid slice size"))
      else
        Ok(DropLast(EachSlice(items, size)))
  }

  /** `*init, _ = slices`: all but the last slice (nothing for no slices). */
  function DropLast<T>(slices: seq<seq<T>>): seq<seq<T>> {
    if |slices| == 0 then [] else slices[..|slices| - 1]
  }

  /** The slice size of a split that succeeds: at least one when 0 < k <= n. */
  lemma SliceSize(n: nat, k: int)
    requires 0 < k <= n
    ensures FloorDiv(n, k) == n / k >= 1
  {
    assert n == k * (n / k) + n % k;
  }

  /**
   * The slices without the last: every one full, the vectors from the start
   * in order, and one to size vectors left over at the end.
   */
  lemma DropLastSlice<T>(items: seq<T>, size: nat)
    requires size > 0 && |items| > 0
    ensures var folds := DropLast(EachSlice(items, size));
      && (forall i :: 0 <= i < |folds| ==> |folds[i]| == size)
      && 0 < |items| - |Concat(folds)| <= size
      && Concat(folds) == items[..|Concat(folds)|]
  {
    var slices := EachSlice(items, size);
    SliceShape(items, size);
    var folds := slices[..|slices| - 1];
    var last := slices[|slices| - 1];
    assert slices == folds + [last];
    ConcatSnoc(folds, last);
  }

  /** A quotient of a non-positive number by a positive one is not positive. */
  lemma NonPositiveQuotient(a: int, b: int)
    requires a <= 0 < b
    ensures a / b <= 0
  {
    assert a == b * (a / b) + a % b;
  }

  /** The split fails exactly for a fold count that is zero, negative or larger than the number of vectors. */
  lemma SplitErrors<T>(items: seq<T>, k: int)
    ensures SplitFolds(items, k) == Err(ZeroDivisionError) <==> k == 0
    ensures SplitFolds(items, k) == Err(ArgumentError("invalid slice size")) <==> k < 0 || (0 < k && |items| < k)
  {
    if k < 0 {
      NonPositiveQuotient(-|items|, -k);
    } else if k > 0 && |items| < k {
      assert |items| / k == 0;
    } else if k > 0 {
      SliceSize(|items|, k);
    }
  }

  /**
   * A split that succeeds: every fold holds n / k vectors, the folds are the
   * vectors from the start in order, and what is dropped at the end is a
   * whole slice of one to n / k vectors.
   */
  lemma FoldShape<T>(items: seq<T>, k: int)
    requires SplitFolds(items, k).Ok?
    ensures var folds, size := SplitFolds(items, k).value, |items| / k;
      && (forall i :: 0 <= i < |folds| ==> |folds[i]| == size)
      && 0 < |items| - |Concat(folds)| <= size
      && Concat(folds) == items[..|Concat(folds)|]
  {
    SplitErrors(items, k);
    SliceSize(|items|, k);
    DropLastSlice(items, |items| / k);
  }

  /** Joining one more slice appends its elements. */
  lemma {:induction false} ConcatSnoc<T>(slices: seq<seq<T>>, last: seq<T>)
    ensures Concat(slices + [last]) == Concat(slices) + last
    decreases |slices|
  {
    if |slices| > 0 {
      ConcatSnoc(slices[1..], last);
      assert (slices + [last])[1..] == slices[1..] + [last];
    } else {
      assert Concat([last]) == last + Concat([]);
    }
  }

  /** Full slices of size elements join into j * size elements. */
  lemma {:induction false} ConcatFull<T>(slices: seq<seq<T>>, size: nat)
    requires forall i :: 0 <= i < |slices| ==> |slices[i]| == size
    ensures |Concat(slices)| == |slices| * size
    decreases |slices|
  {
    if |slices| > 0 {
      ConcatFull(slices[1..], size);
      assert (|slices| - 1) * size + size == |slices| * size;
    }
  }

  /** A fold count that divides the number of vectors loses a whole fold: k - 1 folds remain. */
  lemma ExactSplitDropsAFold<T>(items: seq<T>, k: int)
    requires 0 < k <= |items| && |items| % k == 0
    ensures SplitFolds(items, k).Ok? && |SplitFolds(items, k).value| == k - 1
  {
    SplitErrors(items, k);
    FoldShape(items, k);
    SliceSize(|items|, k);
    var folds := SplitFolds(items, k).value;
    ConcatFull(folds, |items| / k);
    assert |items| == k * (|items| / k) + |items| % k;
    WholeFolds(|items|, |items| / k, k, |folds|);
  }

  /** n = k * size vectors, of which f full folds leave between one and size over: f is k - 1. */
  lemma WholeFolds(n: int, size: int, k: int, f: int)
    requires size >= 1 && n == k * size
    requires 0 < n - f * size <= size
    ensures f == k - 1
  {
    assert (k - f) * size == n - f * size;
    ProductSign(k - f, size);
  }

  /** A multiple of a positive size is not positive for a factor of at most 0, and at least two sizes for a factor of at least 2. */
  lemma ProductSign(d: int, size: int)
    requires size >= 1
    ensures d <= 0 ==> d * size <= 0
    ensures d >= 2 ==> d * size >= 2 * size
  {
  }

  /** folds.select.with_index{|e, ii| index != ii}: every fold but the index-th, in order. */
  function OtherFolds<F>(folds: seq<F>, index: int): seq<F>
    decreases |folds|
  {
    if |folds| == 0 then []
    else OtherFolds(folds[..|folds| - 1], index) + (if |folds| - 1 != index then [folds[|folds| - 1]] else [])
  }

  /** Leaving out the index-th fold splices it out; an index outside the folds leaves them all. */
  lemma {:induction false} OtherFoldsSplice<F>(folds: seq<F>, index: int)
    ensures 0 <= index < |folds| ==> OtherFolds(folds, index) == folds[..index] + folds[index + 1..]
    ensures !(0 <= index < |folds|) ==> OtherFolds(folds, index) == folds
    decreases |folds|
  {
    if |folds| > 0 {
      var front := folds[..|folds| - 1];
      OtherFoldsSplice(front, index);
      if 0 <= index < |folds| - 1 {
        assert front[..index] == folds[..index];
        assert front[index + 1..] + [folds[|folds| - 1]] == folds[index + 1..];
      } else if index == |folds| - 1 {
        assert front == folds[..index];
        assert folds[index + 1..] == [];
      } else {
        assert front + [folds[|folds| - 1]] == folds;
      }
    }
  }

  function Sum(xs: seq<real>): real
    decreases |xs|
  {
    if |xs| == 0 then 0.0 else Sum(xs[..|xs| - 1]) + xs[|xs| - 1]
  }

  /** `scores.reduce(&:+) / scores.count`: the mean; with no scores reduce gives nil and nil has no `/`. */
  function FoldMean(scores: seq<real>): Result<real> {
    if |scores| == 0 then Err(NoMethodError("/")) else Ok(Sum(scores) / (|scores| as real))
  }

  /** The sum of scores that lie between lo and hi lies between n * lo and n * hi. */
  lemma {:induction false} SumBetween(scores: seq<real>, lo: real, hi: real)
    requires forall i :: 0 <= i < |scores| ==> lo <= scores[i] <= hi
    ensures (|scores| as real) * lo <= Sum(scores) <= (|scores| as real) * hi
    decreases |scores|
  {
    if |scores| > 0 {
      var m := |scores| - 1;
      assert forall i :: 0 <= i < m ==> scores[..m][i] == scores[i];
      SumBetween(scores[..m], lo, hi);
      assert (m as real) * lo + lo == (|scores| as real) * lo;
      assert (m as real) * hi + hi == (|scores| as real) * hi;
    }
  }

  /** The mean of scores between lo and hi lies between lo and hi; only the empty list fails. */
  lemma MeanBetween(scores: seq<real>, lo: real, hi: real)
    requires forall i :: 0 <= i < |scores| ==> lo <= scores[i] <= hi
    ensures FoldMean(scores).Err? <==> |scores| == 0
    ensures FoldMean(scores).Ok? ==> lo <= FoldMean(scores).value <= hi
  {
    if |scores| > 0 {
      SumBetween(scores, lo, hi);
      var n := |scores| as real;
      assert FoldMean(scores) == Ok(Sum(scores) / n);
      assert Sum(scores) / n >= lo by {
        assert n * lo <= Sum(scores);
      }
      assert Sum(scores) / n <= hi by {
        assert Sum(scores) <= n * hi;
      }
    }
  }

  /**
   * The worker's job for one fold: a model trained on that fold alone (with
   * libsvm's svm_train as `train`), scored on each other fold (evaluate_dataset
   * as `score`), and the scores averaged.
   */
  function FoldResult<F, M>(folds: seq<F>, index: nat, settings: Settings,
                            train: (F, Settings) -> M, score: (M, F) -> real): Result<real>
    requires index < |folds|
  {
    var model := train(folds[index], settings);
    var others := OtherFolds(folds, index);
    FoldMean(seq(|others|, i requires 0 <= i < |others| => score(model, others[i])))
  }

  /**
   * A fold's result fails exactly when it is the only fold; otherwise it is
   * the mean of the model's scores on the folds before and after it, and lies
   * between their lowest and highest.
   */
  lemma FoldResultSpec<F, M>(folds: seq<F>, index: nat, settings: Settings,
                             train: (F, Settings) -> M, score: (M, F) -> real, lo: real, hi: real)
    requires index < |folds|
    requires forall i :: 0 <= i < |folds| && i != index ==> lo <= score(train(folds[index], settings), folds[i]) <= hi
    ensures FoldResult(folds, index, settings, train, score).Err? <==> |folds| == 1
    ensures FoldResult(folds, index, settings, train, score).Ok? ==>
      lo <= FoldResult(folds, index, settings, train, score).value <= hi
  {
    var model := train(folds[index], settings);
    OtherFoldsSplice(folds, index);
    var others := OtherFolds(folds, index);
    var scores := seq(|others|, i requires 0 <= i < |others| => score(model, others[i]));
    forall i | 0 <= i < |scores|
      ensures lo <= scores[i] <= hi
    {
      if i < index {
        assert others[i] == folds[i];
      } else {
        assert others[i] == folds[i + 1];
      }
    }
    MeanBetween(scores, lo, hi);
  }

  /** The keys of a results hash, in insertion order. */
  function Keys(results: seq<(Pair, real)>): (r: seq<Pair>)
    ensures |r| == |results|
    ensures forall i :: 0 <= i < |results| ==> r[i] == results[i].0
  {
    seq(|results|, i requires 0 <= i < |results| => results[i].0)
  }

  /** The pairs of a pattern a round trains: `next if results.has_key?(pair)` skips the others. */
  function Untested(pairs: seq<Pair>, results: seq<(Pair, real)>): seq<Pair>
    decreases |pairs|
  {
    if |pairs| == 0 then []
    else
      var last := pairs[|pairs| - 1];
      Untested(pairs[..|pairs| - 1], results) + (if last in Keys(results) then [] else [last])
  }

  /** A pair is trained in a round exactly when it is in the pattern and has no result yet. */
  lemma {:induction false} UntestedMembers(pairs: seq<Pair>, results: seq<(Pair, real)>, p: Pair)
    ensures p in Untested(pairs, results) <==> p in pairs && p !in Keys(results)
    decreases |pairs|
  {
    if |pairs| > 0 {
      var front := pairs[..|pairs| - 1];
      UntestedMembers(front, results, p);
      assert pairs == front + [pairs[|pairs| - 1]];
    }
  }

  /** The inner loop of a round: one train job per fold, in fold order. */
  method DispatchFolds(pair: Pair, foldCount: nat) returns (jobs: seq<(Pair, nat)>)
    ensures jobs == Row(pair, Indices(foldCount))
  {
    jobs := [];
    var index := 0;
    while index < foldCount
      invariant 0 <= index <= foldCount
      invariant |jobs| == index
      invariant forall j :: 0 <= j < index ==> jobs[j] == (pair, j)
    {
      jobs := jobs + [(pair, index)];
      index := index + 1;
    }
  }

  /**
   * One round of the search: for each pair of the pattern not yet in the
   * results, one job per fold (the fold to train on), pairs outermost.
   */
  method DispatchRound(pairs: seq<Pair>, results: seq<(Pair, real)>, foldCount: nat)
    returns (jobs: seq<(Pair, nat)>)
    ensures jobs == Product(Untested(pairs, results), Indices(foldCount))
  {
    jobs := [];
    var i := 0;
    while i < |pairs|
      invariant 0 <= i <= |pairs|
      invariant jobs == Product(Untested(pairs[..i], results), Indices(foldCount))
    {
      assert pairs[..i + 1][..i] == pairs[..i];
      var done := Untested(pairs[..i], results);
      if pairs[i] !in Keys(results) {
        var row := DispatchFolds(pairs[i], foldCount);
        assert Untested(pairs[..i + 1], results) == done + [pairs[i]];
        assert (done + [pairs[i]])[..|done|] == done;
        assert Product(done + [pairs[i]], Indices(foldCount)) == Product(done, Indices(foldCount)) + row;
        jobs := jobs + row;
      } else {
        assert Untested(pairs[..i + 1], results) == done + [];
        assert done + [] == done;
      }
      i := i + 1;
    }
    assert pairs[..|pairs|] == pairs;
  }

  /**
   * A round trains every untested pair of the pattern on every fold, once,
   * and nothing else: (pair, fold) is a job exactly when the pair is in the
   * pattern, has no result yet and the fold exists.
   */
  lemma RoundJobs(pairs: seq<Pair>, results: seq<(Pair, real)>, foldCount: nat, job: (Pair, nat))
    ensures |Product(Untested(pairs, results), Indices(foldCount))| == |Untested(pairs, results)| * foldCount
    ensures job in Product(Untested(pairs, results), Indices(foldCount)) <==>
      job.0 in pairs && job.0 !in Keys(results) && job.1 < foldCount
  {
    ProductSize(Untested(pairs, results), Indices(foldCount));
    ProductMembers(Untested(pairs, results), Indices(foldCount), job);
    UntestedMembers(pairs, results, job.0);
    if job.1 < foldCount {
      assert Indices(foldCount)[job.1] == job.1;
    }
  }

  /** The values of a results hash, in insertion order. */
  function Values(results: seq<(Pair, real)>): (r: seq<real>)
    ensures |r| == |results|
    ensures forall i :: 0 <= i < |results| ==> r[i] == results[i].1
  {
    seq(|results|, i requires 0 <= i < |results| => results[i].1)
  }

  /** Array#max of a non-empty list: one of its elements, and none is larger. */
  function MaxValue(values: seq<real>): (m: real)
    requires |values| > 0
    ensures m in values
    ensures forall i :: 0 <= i < |values| ==> values[i] <= m
    decreases |values|
  {
    if |values| == 1 then values[0]
    else
      var front := values[..|values| - 1];
      var m := MaxValue(front);
      assert forall i :: 0 <= i < |front| ==> values[i] == front[i];
      if values[|values| - 1] > m then values[|values| - 1] else m
  }

  /**
   * `results.invert[v]`: invert maps each value to its key, a later key
   * overwriting an earlier one with the same value, so the lookup finds the
   * key of the last entry holding v, or nil.
   */
  function InvertLookup(results: seq<(Pair, real)>, v: real): Option<Pair>
    decreases |results|
  {
    if |results| == 0 then None
    else if results[|results| - 1].1 == v then Some(results[|results| - 1].0)
    else InvertLookup(results[..|results| - 1], v)
  }

  /**
   * The lookup finds a key exactly when some entry holds v, and the key it
   * finds is that of the last such entry.
   */
  lemma {:induction false} InvertLookupSpec(results: seq<(Pair, real)>, v: real)
    ensures InvertLookup(results, v).Some? <==> v in Values(results)
    ensures InvertLookup(results, v).Some? ==>
      exists i ::
        && 0 <= i < |results|
        && results[i] == (InvertLookup(results, v).value, v)
        && forall j :: i < j < |results| ==> results[j].1 != v
    decreases |results|
  {
    if |results| > 0 {
      var front := results[..|results| - 1];
      InvertLookupSpec(front, v);
      assert forall i :: 0 <= i < |front| ==> results[i] == front[i];
      if results[|results| - 1].1 != v && v in Values(results) {
        var i :| 0 <= i < |results| && Values(results)[i] == v;
        assert Values(front)[i] == v;
      }
    }
  }

  /**
   * `best_pair = results.invert[results.values.max]`, read with
   * best_pair[:cost]: indexing the nil an empty hash gives raises
   * NoMethodError.
   */
  function BestPair(results: seq<(Pair, real)>): Result<Pair> {
    if |results| == 0 then Err(NoMethodError("[]"))
    else
      match InvertLookup(results, MaxValue(Values(results)))
      case Some(p) => Ok(p)
      case None => Err(NoMethodError("[]"))
  }

  /**
   * The next centre: the key of an entry whose value no other entry
   * exceeds, and among the entries with that value the last one; only an
   * empty hash fails.
   */
  lemma BestPairSpec(results: seq<(Pair, real)>)
    ensures BestPair(results).Ok? <==> |results| > 0
    ensures BestPair(results).Ok? ==>
      exists i ::
        && 0 <= i < |results|
        && results[i].0 == BestPair(results).value
        && (forall j :: 0 <= j < |results| ==> results[j].1 <= results[i].1)
        && (forall j :: i < j < |results| ==> results[j].1 < results[i].1)
  {
    if |results| > 0 {
      var m := MaxValue(Values(results));
      InvertLookupSpec(results, m);
      var i :| 0 <= i < |results| && results[i] == (InvertLookup(results, m).value, m) &&
        forall j :: i < j < |results| ==> results[j].1 != m;
      assert forall j :: 0 <= j < |results| ==> results[j].1 == Values(results)[j];
    }
  }
}
