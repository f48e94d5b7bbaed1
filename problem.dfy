/**
 * The dataset container: libsvm's Problem object (a count, a 2-D array of
 * feature nodes and an array of labels) and the toolkit's operations on it.
 */
module Problems {
  import opened Errors

  /** One feature of one instance, as a value: its index and its value. */
  datatype Feature = Feature(index: int, value: real)

  /** libsvm's Node: an index/value pair whose fields are updated in place. */
  class Node {
    var index: int
    var value: real

    constructor (index: int, value: real)
      ensures this.index == index && this.value == value
    {
      this.index := index;
      this.value := value;
    }
  }

  /** Every instance has the same number of features as the first one. */
  predicate Rectangular(instances: seq<seq<real>>)
    requires |instances| > 0
  {
    forall i :: 0 <= i < |instances| ==> |instances[i]| == |instances[0]|
  }

  /**
   * The least entry of a non-empty sequence, as rescale_column scans for
   * it: the running least is replaced only by a strictly smaller entry.
   */
  function SeqMin(s: seq<real>): real
    requires |s| > 0
  {
    if |s| == 1 then s[0]
    else
      var m := SeqMin(s[..|s| - 1]);
      if s[|s| - 1] < m then s[|s| - 1] else m
  }

  /** The greatest entry of a non-empty sequence, scanned the same way. */
  function SeqMax(s: seq<real>): real
    requires |s| > 0
  {
    if |s| == 1 then s[0]
    else
      var m := SeqMax(s[..|s| - 1]);
      if s[|s| - 1] > m then s[|s| - 1] else m
  }

  /** The scans find an entry of the sequence that bounds every entry from below, and one from above. */
  lemma {:induction false} SeqMinMax(s: seq<real>)
    requires |s| > 0
    ensures SeqMin(s) in s && SeqMax(s) in s
    ensures forall k :: 0 <= k < |s| ==> SeqMin(s) <= s[k] <= SeqMax(s)
  {
    if |s| > 1 {
      var t := s[..|s| - 1];
      SeqMinMax(t);
      assert forall k :: 0 <= k < |t| ==> t[k] == s[k];
      assert s == t + [s[|s| - 1]];
    }
  }

  /** The linear map that sends lo to minValue and hi to maxValue. */
  function Scaled(v: real, lo: real, hi: real, minValue: real, maxValue: real): real
    requires lo != hi
  {
    (maxValue - minValue) * (v - lo) / (hi - lo) + minValue
  }

  /**
   * The rescaling map sends the column's minimum to minValue and its
   * maximum to maxValue, keeps every entry in between inside the target
   * range, and keeps the order of entries.
   */
  lemma ScaledRange(v: real, w: real, lo: real, hi: real, minValue: real, maxValue: real)
    requires lo < hi && minValue <= maxValue
    requires lo <= v <= w <= hi
    ensures Scaled(lo, lo, hi, minValue, maxValue) == minValue
    ensures Scaled(hi, lo, hi, minValue, maxValue) == maxValue
    ensures minValue <= Scaled(v, lo, hi, minValue, maxValue) <= Scaled(w, lo, hi, minValue, maxValue) <= maxValue
  {
    ScaledEnds(lo, hi, minValue, maxValue);
    ScaledMono(lo, v, lo, hi, minValue, maxValue);
    ScaledMono(v, w, lo, hi, minValue, maxValue);
    ScaledMono(w, hi, lo, hi, minValue, maxValue);
  }

  /** The ends of the old range go to the ends of the target range. */
  lemma ScaledEnds(lo: real, hi: real, minValue: real, maxValue: real)
    requires lo != hi
    ensures Scaled(lo, lo, hi, minValue, maxValue) == minValue
    ensures Scaled(hi, lo, hi, minValue, maxValue) == maxValue
  {
    var d, span := hi - lo, maxValue - minValue;
    assert span * (lo - lo) == 0.0;
    assert (span * d) / d == span;
  }

  /** For an increasing range onto a non-empty target the rescaling map keeps the order of values. */
  lemma ScaledMono(v: real, w: real, lo: real, hi: real, minValue: real, maxValue: real)
    requires lo < hi && minValue <= maxValue && v <= w
    ensures Scaled(v, lo, hi, minValue, maxValue) <= Scaled(w, lo, hi, minValue, maxValue)
  {
    var d, span := hi - lo, maxValue - minValue;
    MulMono(span, v - lo, w - lo);
    DivMono(span * (v - lo), span * (w - lo), d);
  }

  lemma DivMono(p: real, q: real, d: real)
    requires d > 0.0 && p <= q
    ensures p / d <= q / d
  {
  }

  lemma MulMono(s: real, a: real, b: real)
    requires s >= 0.0 && a <= b
    ensures s * a <= s * b
  {
  }

  /** libsvm's Problem object: l instances, their feature nodes x and their labels y. */
  class Problem {
    var l: nat
    var x: array2<Node?>
    var y: array<real>
    /** The node objects the problem holds. */
    ghost var Repr: set<Node>
    /** A position for each node; it names the cell of every node when no node is shared. */
    ghost var At: map<Node, (int, int)>

    /** One row of nodes per instance, one label per instance, and no missing node. */
    ghost predicate Valid()
      reads this, x
    {
      l == x.Length0 == y.Length &&
      forall i, j :: 0 <= i < x.Length0 && 0 <= j < x.Length1 ==> x[i, j] in Repr
    }

    /** Every cell holds its own node object: no node is shared between two cells. */
    ghost predicate Distinct()
      reads this, x
    {
      At.Keys <= Repr &&
      forall i, j :: 0 <= i < x.Length0 && 0 <= j < x.Length1 && x[i, j] != null ==> x[i, j] in At && At[x[i, j]] == (i, j)
    }

    constructor (l: nat, x: array2<Node?>, y: array<real>, ghost repr: set<Node>, ghost at: map<Node, (int, int)>)
      ensures this.l == l && this.x == x && this.y == y && Repr == repr && At == at
    {
      this.l, this.x, this.y := l, x, y;
      Repr, At := repr, at;
    }

    /** The values of column col, top to bottom. */
    ghost function Column(col: nat): (s: seq<real>)
      reads this, x, Repr
      requires Valid() && col < x.Length1
      ensures |s| == l
      ensures forall i :: 0 <= i < l ==> s[i] == x[i, col].value
    {
      seq(l, i requires 0 <= i < l && Valid() && col < x.Length1 reads this, x, Repr => x[i, col].value)
    }

    /** The nodes of instance i, as values, for its first n features. */
    function RowPrefix(i: nat, n: nat): (r: seq<Feature>)
      reads this, x, Repr
      requires Valid() && i < l && n <= x.Length1
      ensures |r| == n
      ensures forall j :: 0 <= j < n ==> r[j] == Feature(x[i, j].index, x[i, j].value)
    {
      if n == 0 then [] else RowPrefix(i, n - 1) + [Feature(x[i, n - 1].index, x[i, n - 1].value)]
    }

    /** The nodes of instance i, as values: what the problem hands to libsvm for that instance. */
    function Row(i: nat): (r: seq<Feature>)
      reads this, x, Repr
      requires Valid() && i < l
      ensures |r| == x.Length1
      ensures forall j :: 0 <= j < |r| ==> r[j] == Feature(x[i, j].index, x[i, j].value)
    {
      RowPrefix(i, x.Length1)
    }

    /** The number of instances: one per row and one per label. */
    function Size(): (n: nat)
      reads this, x
      requires Valid()
      ensures n == y.Length && n == x.Length0
    {
      l
    }

    /**
     * Problem.from_array: checks that there is one label per instance, at
     * least one instance and one common length, in that order; then builds
     * a fresh problem whose node (i, j) has index j and value instances[i][j]
     * and whose labels are the given labels.
     */
    static method FromArray(instances: seq<seq<real>>, labels: seq<real>) returns (r: Result<Problem>)
      ensures |instances| != |labels| ==>
        r == Err(ArgumentError("Number of instances must equal number of labels"))
      ensures |instances| == |labels| && |instances| == 0 ==>
        r == Err(ArgumentError("There must be at least one instance."))
      ensures |instances| == |labels| && |instances| > 0 && !Rectangular(instances) ==>
        r == Err(ArgumentError("All instances must have the same size"))
      ensures r.Ok? <==> |instances| == |labels| && |instances| > 0 && Rectangular(instances)
      ensures r.Ok? ==> fresh(r.value) && fresh(r.value.x) && fresh(r.value.y)
      ensures r.Ok? ==> r.value.Valid() && r.value.Distinct()
      ensures r.Ok? ==> r.value.l == |labels| && r.value.x.Length1 == |instances[0]| && r.value.y[..] == labels
      ensures r.Ok? ==> forall i, j :: 0 <= i < r.value.l && 0 <= j < r.value.x.Length1 ==>
        fresh(r.value.x[i, j]) && r.value.x[i, j].index == j && r.value.x[i, j].value == instances[i][j]
    {
      if |instances| != |labels| {
        return Err(ArgumentError("Number of instances must equal number of labels"));
      }
      if |instances| == 0 {
        return Err(ArgumentError("There must be at least one instance."));
      }
      if !Rectangular(instances) {
        return Err(ArgumentError("All instances must have the same size"));
      }
      var n, m := |instances|, |instances[0]|;
      var x := new Node?[n, m];
      ghost var at: map<Node, (int, int)> := map[];
      var i := 0;
      while i < n
        modifies x
        invariant 0 <= i <= n
        invariant forall node :: node in at ==> fresh(node)
        invariant forall i', j' :: 0 <= i' < i && 0 <= j' < m ==>
          x[i', j'] in at && at[x[i', j']] == (i', j') &&
          x[i', j'].index == j' && x[i', j'].value == instances[i'][j']
      {
        var j := 0;
        while j < m
          modifies x
          invariant 0 <= j <= m
          invariant forall node :: node in at ==> fresh(node)
          invariant forall i', j' :: (0 <= i' < i && 0 <= j' < m) || (i' == i && 0 <= j' < j) ==>
            x[i', j'] in at && at[x[i', j']] == (i', j') &&
            x[i', j'].index == j' && x[i', j'].value == instances[i'][j']
        {
          var node := new Node(j, instances[i][j]);
          x[i, j] := node;
          at := at[node := (i, j)];
          j := j + 1;
        }
        i := i + 1;
      }
      var y := new real[n];
      var k := 0;
      while k < n
        modifies y
        invariant 0 <= k <= n
        invariant forall k' :: 0 <= k' < k ==> y[k'] == labels[k']
      {
        y[k] := labels[k];
        k := k + 1;
      }
      var p := new Problem(n, x, y, at.Keys, at);
      return Ok(p);
    }

    /**
     * The first pass of rescale_column: the least and the greatest value of
     * column col. Nothing changes.
     */
    method ColumnRange(col: nat) returns (lo: real, hi: real)
      requires Valid() && 0 < l && col < x.Length1
      ensures lo == SeqMin(Column(col)) && hi == SeqMax(Column(col))
    {
      lo, hi := x[0, col].value, x[0, col].value;
      ghost var c := Column(col);
      var index := 0;
      while index < l
        invariant 0 <= index <= l
        invariant index == 0 ==> lo == c[0] && hi == c[0]
        invariant index > 0 ==> lo == SeqMin(c[..index]) && hi == SeqMax(c[..index])
      {
        if x[index, col].value < lo {
          lo := x[index, col].value;
        }
        if x[index, col].value > hi {
          hi := x[index, col].value;
        }
        assert c[..index + 1][..index] == c[..index];
        index := index + 1;
      }
      assert c[..l] == c;
    }

    /**
     * rescale_column: maps every value of column col linearly so that the
     * column's old minimum becomes minValue and its old maximum maxValue.
     * Only the nodes of column col change, and only their values.
     */
    method ScaleColumn(col: nat, lo: real, hi: real, minValue: real, maxValue: real)
      requires Valid() && Distinct() && col < x.Length1 && lo != hi
      modifies Repr
      ensures Valid() && Distinct()
      ensures forall i :: 0 <= i < l ==> x[i, col].value == Scaled(old(x[i, col].value), lo, hi, minValue, maxValue)
      ensures forall i, j :: 0 <= i < l && 0 <= j < x.Length1 && j != col ==> x[i, j].value == old(x[i, j].value)
      ensures forall i, j :: 0 <= i < l && 0 <= j < x.Length1 ==> x[i, j].index == old(x[i, j].index)
    {
      var index := 0;
      while index < l
        invariant 0 <= index <= l
        invariant forall i :: 0 <= i < index ==> x[i, col].value == Scaled(old(x[i, col].value), lo, hi, minValue, maxValue)
        invariant forall i, j :: 0 <= i < l && 0 <= j < x.Length1 && (j != col || index <= i) ==>
          x[i, j].value == old(x[i, j].value)
        invariant forall i, j :: 0 <= i < l && 0 <= j < x.Length1 ==> x[i, j].index == old(x[i, j].index)
      {
        var node := x[index, col];
        node.value := Scaled(node.value, lo, hi, minValue, maxValue);
        index := index + 1;
      }
    }

    method RescaleColumn(col: nat, minValue: real, maxValue: real)
      requires Valid() && Distinct() && 0 < l && col < x.Length1
      requires SeqMin(Column(col)) != SeqMax(Column(col))
      modifies Repr
      ensures Valid() && Distinct()
      ensures forall i :: 0 <= i < l ==>
        x[i, col].value == Scaled(old(x[i, col].value), old(SeqMin(Column(col))), old(SeqMax(Column(col))), minValue, maxValue)
      ensures forall i, j :: 0 <= i < l && 0 <= j < x.Length1 && j != col ==> x[i, j].value == old(x[i, j].value)
      ensures forall i, j :: 0 <= i < l && 0 <= j < x.Length1 ==> x[i, j].index == old(x[i, j].index)
    {
      var lo, hi := ColumnRange(col);
      ScaleColumn(col, lo, hi, minValue, maxValue);
    }

    /** Every column of a non-empty problem takes more than one value. */
    ghost predicate NoConstantColumn()
      reads this, x, Repr
      requires Valid()
    {
      l == 0 || forall col :: 0 <= col < x.Length1 ==> SeqMin(Column(col)) != SeqMax(Column(col))
    }

    /**
     * rescale: does nothing to an empty problem; otherwise rescales every
     * column to [minValue, maxValue] by that column's own old range. The
     * size and the node indices never change.
     */
    method Rescale(minValue: real, maxValue: real)
      requires Valid() && Distinct() && NoConstantColumn()
      modifies Repr
      ensures Valid() && Distinct() && Size() == old(Size())
      ensures forall i, j :: 0 <= i < l && 0 <= j < x.Length1 ==>
        x[i, j].value == Scaled(old(x[i, j].value), old(SeqMin(Column(j))), old(SeqMax(Column(j))), minValue, maxValue)
      ensures forall i, j :: 0 <= i < l && 0 <= j < x.Length1 ==> x[i, j].index == old(x[i, j].index)
    {
      if l == 0 {
        return;
      }
      var col := 0;
      while col < x.Length1
        invariant 0 <= col <= x.Length1
        invariant Valid() && Distinct()
        invariant forall i, j :: 0 <= i < l && 0 <= j < col ==>
          x[i, j].value == Scaled(old(x[i, j].value), old(SeqMin(Column(j))), old(SeqMax(Column(j))), minValue, maxValue)
        invariant forall i, j :: 0 <= i < l && col <= j < x.Length1 ==> x[i, j].value == old(x[i, j].value)
        invariant forall i, j :: 0 <= i < l && 0 <= j < x.Length1 ==> x[i, j].index == old(x[i, j].index)
      {
        assert Column(col) == old(Column(col));
        RescaleColumn(col, minValue, maxValue);
        col := col + 1;
      }
    }

    /**
     * merge: a fresh problem holding this problem's instances followed by
     * other's, and their labels in the same order. The rows hold the very
     * node objects of the two inputs, not copies. Raises when either problem
     * has no row 0 to read its width from, or when the widths differ.
     */
    method Merge(other: Problem) returns (r: Result<Problem>)
      requires Valid() && other.Valid()
      ensures l == 0 ==> r == Err(IndexError(0))
      ensures l > 0 && other.l == 0 ==> r == Err(IndexError(0))
      ensures l > 0 && other.l > 0 && x.Length1 != other.x.Length1 ==>
        r == Err(ArgumentError("Cannot merge two problems with different numbers of features"))
      ensures r.Ok? <==> l > 0 && other.l > 0 && x.Length1 == other.x.Length1
      ensures r.Ok? ==> fresh(r.value) && fresh(r.value.x) && fresh(r.value.y)
      ensures r.Ok? ==> r.value.Valid() && r.value.Size() == Size() + other.Size() && r.value.x.Length1 == x.Length1
      ensures r.Ok? ==> r.value.y[..] == y[..] + other.y[..]
      ensures r.Ok? ==> forall i, j {:trigger r.value.x[i, j]} :: 0 <= i < r.value.l && 0 <= j < x.Length1 ==>
        r.value.x[i, j] == if i < l then x[i, j] else other.x[i - l, j]
      ensures r.Ok? ==> r.value.Repr == Repr + other.Repr && r.value.At == MergedAt(At, other.At, l)
    {
      if l == 0 || other.l == 0 {
        return Err(IndexError(0));
      }
      if x.Length1 != other.x.Length1 {
        return Err(ArgumentError("Cannot merge two problems with different numbers of features"));
      }
      var nx := MergedNodes(other);
      var ny := MergedLabels(other);
      var p := new Problem(l + other.l, nx, ny, Repr + other.Repr, MergedAt(At, other.At, l));
      return Ok(p);
    }

    /** The feature loop of merge: a fresh grid holding this problem's nodes, then other's, row by row. */
    method MergedNodes(other: Problem) returns (nx: array2<Node?>)
      requires Valid() && other.Valid() && x.Length1 == other.x.Length1
      ensures fresh(nx) && nx.Length0 == l + other.l && nx.Length1 == x.Length1
      ensures forall i, j {:trigger nx[i, j]} :: 0 <= i < nx.Length0 && 0 <= j < nx.Length1 ==>
        nx[i, j] == if i < l then x[i, j] else other.x[i - l, j]
      ensures forall i, j :: 0 <= i < nx.Length0 && 0 <= j < nx.Length1 ==> nx[i, j] in Repr + other.Repr
    {
      var numFeatures := x.Length1;
      var size := l;
      var numInstances := size + other.l;
      nx := new Node?[numInstances, numFeatures];
      var i := 0;
      while i < numInstances
        modifies nx
        invariant 0 <= i <= numInstances
        invariant forall r, c {:trigger nx[r, c]} :: 0 <= r < i && 0 <= c < numFeatures ==>
          nx[r, c] == if r < size then x[r, c] else other.x[r - size, c]
      {
        var j := 0;
        while j < numFeatures
          modifies nx
          invariant 0 <= j <= numFeatures
          invariant forall r, c {:trigger nx[r, c]} :: 0 <= r < numInstances && 0 <= c < numFeatures && (r < i || (r == i && c < j)) ==>
            nx[r, c] == if r < size then x[r, c] else other.x[r - size, c]
        {
          if i < size {
            nx[i, j] := x[i, j];
          } else {
            nx[i, j] := other.x[i - size, j];
          }
          j := j + 1;
        }
        i := i + 1;
      }
    }

    /** The label loop of merge: a fresh array holding this problem's labels, then other's. */
    method MergedLabels(other: Problem) returns (ny: array<real>)
      requires Valid() && other.Valid()
      ensures fresh(ny) && ny[..] == y[..] + other.y[..]
    {
      var size := l;
      var numInstances := size + other.l;
      ny := new real[numInstances];
      var i := 0;
      while i < numInstances
        modifies ny
        invariant 0 <= i <= numInstances
        invariant forall r {:trigger ny[r]} :: 0 <= r < i ==> ny[r] == if r < size then y[r] else other.y[r - size]
      {
        if i < size {
          ny[i] := y[i];
        } else {
          ny[i] := other.y[i - size];
        }
        i := i + 1;
      }
      assert ny[..] == y[..] + other.y[..];
    }
  }

  /** The cell labels of a merged problem: the first problem's own, then the second's shifted down by size rows. */
  ghost function MergedAt(a: map<Node, (int, int)>, b: map<Node, (int, int)>, size: int): map<Node, (int, int)>
  {
    (map k | k in b :: (b[k].0 + size, b[k].1)) + a
  }

  /**
   * Merging two problems that share no node gives a problem that shares
   * no node either: rescaling it rescales every value once.
   */
  lemma MergedDistinct(p: Problem, a: Problem, b: Problem)
    requires a.Valid() && b.Valid() && a.Distinct() && b.Distinct() && a.Repr !! b.Repr
    requires p.x.Length0 == a.l + b.l && p.x.Length1 == a.x.Length1 == b.x.Length1
    requires forall i, j {:trigger p.x[i, j]} :: 0 <= i < p.x.Length0 && 0 <= j < p.x.Length1 ==>
      p.x[i, j] == if i < a.l then a.x[i, j] else b.x[i - a.l, j]
    requires p.Repr == a.Repr + b.Repr && p.At == MergedAt(a.At, b.At, a.l)
    ensures p.Distinct()
  {
    forall i, j | 0 <= i < p.x.Length0 && 0 <= j < p.x.Length1 && p.x[i, j] != null
      ensures p.x[i, j] in p.At && p.At[p.x[i, j]] == (i, j)
    {
      if i >= a.l {
        assert p.x[i, j] !in a.At;
      }
    }
  }

  /**
   * Merging a non-empty problem with itself puts the same node objects in
   * two rows: the result shares nodes, so rescaling it would rescale the
   * shared values twice.
   */
  lemma SelfMergeShares(p: Problem, a: Problem)
    requires a.Valid() && a.l > 0 && a.x.Length1 > 0
    requires p.x.Length0 == a.l + a.l && p.x.Length1 == a.x.Length1
    requires forall i, j {:trigger p.x[i, j]} :: 0 <= i < p.x.Length0 && 0 <= j < p.x.Length1 ==>
      p.x[i, j] == if i < a.l then a.x[i, j] else a.x[i - a.l, j]
    ensures !p.Distinct()
  {
    assert p.x[0, 0] == p.x[a.l, 0];
  }

  /**
   * What a rescaled column looks like: the old least value became
   * minValue, the old greatest value became maxValue, and two entries keep
   * their order. The column's new range is the target range.
   */
  lemma RescaledColumn(before: seq<real>, after: seq<real>, minValue: real, maxValue: real)
    requires |before| > 0 && |after| == |before| && minValue <= maxValue
    requires SeqMin(before) != SeqMax(before)
    requires forall i :: 0 <= i < |before| ==>
      after[i] == Scaled(before[i], SeqMin(before), SeqMax(before), minValue, maxValue)
    ensures SeqMin(after) == minValue && SeqMax(after) == maxValue
    ensures forall i, k :: 0 <= i < |before| && 0 <= k < |before| && before[i] <= before[k] ==> after[i] <= after[k]
  {
    var lo, hi := SeqMin(before), SeqMax(before);
    SeqMinMax(before);
    SeqMinMax(after);
    forall i, k | 0 <= i < |before| && 0 <= k < |before| && before[i] <= before[k]
      ensures after[i] <= after[k]
    {
      ScaledRange(before[i], before[k], lo, hi, minValue, maxValue);
    }
    var a :| 0 <= a < |before| && before[a] == lo;
    var b :| 0 <= b < |before| && before[b] == hi;
    ScaledEnds(lo, hi, minValue, maxValue);
    forall i | 0 <= i < |before|
      ensures minValue <= after[i] <= maxValue
    {
      ScaledRange(before[i], before[i], lo, hi, minValue, maxValue);
    }
    assert after[a] == minValue && after[b] == maxValue;
  }
}
