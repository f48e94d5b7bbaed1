/**
 * A trained SVM model (libsvm's Model object, as far as the toolkit reads
 * it) and the toolkit's helpers around it: evaluation over a dataset,
 * support-vector indices, w squared and the sizing of prediction results.
 * Training and prediction are libsvm's and enter as function parameters.
 */
module Models {
  import opened Errors
  import opened Parameters
  import opened Problems

  /** The fields of a libsvm model that the toolkit reads. */
  datatype Model = Model(param: Settings, nrClass: nat, svIndices: Option<seq<int>>, w2: seq<real>)

  /**
   * An evaluator class: the state of a new instance, `add_result(actual,
   * predicted)`, `better_than?(other)` (other is nil before any result) and
   * `value`.
   */
  datatype Evaluator<!E> = Evaluator(
    initial: E, addResult: (E, real, real) -> E, betterThan: (E, Option<E>) -> bool, value: E -> real)

  /** A value the toolkit returns either as one number or as an array of numbers. */
  datatype Numbers = Scalar(x: real) | Vector(xs: seq<real>)

  // The readers of the training parameters
  function SvmType(m: Model): int { m.param.svmType }
  function KernelType(m: Model): int { m.param.kernelType }
  function Degree(m: Model): int { m.param.degree }
  function Gamma(m: Model): real { m.param.gamma }
  function Cost(m: Model): real { m.param.C }
  function NumberClasses(m: Model): nat { m.nrClass }

  /** libsvm's svm_train stores the parameter it was given in the model it returns. */
  ghost predicate KeepsSettings<P>(train: (P, Settings) -> Model, data: P) {
    forall settings :: train(data, settings).param == settings
  }

  /**
   * A model trained with the searches' settings reports them back: a C-SVC
   * with an RBF kernel at that cost and gamma.
   */
  lemma SearchModelReadsBack<P>(train: (P, Settings) -> Model, data: P, cost: real, gamma: real)
    requires KeepsSettings(train, data)
    ensures var m := train(data, RbfSettings(cost, gamma));
      SvmType(m) == C_SVC && KernelType(m) == RBF && Cost(m) == cost && Gamma(m) == gamma && Degree(m) == 1
  {
  }

  /** An array of one element is returned as that element; any other array as itself. */
  function Unwrap(a: seq<real>): (r: Numbers)
    ensures r.Scalar? <==> |a| == 1
  {
    if |a| == 1 then Scalar(a[0]) else Vector(a)
  }

  /** The array a returned value stands for. */
  function Flatten(n: Numbers): seq<real> {
    match n
    case Scalar(x) => [x]
    case Vector(xs) => xs
  }

  /** Unwrapping loses nothing: the array is recovered from the returned value. */
  lemma UnwrapRoundTrip(a: seq<real>)
    ensures Flatten(Unwrap(a)) == a
  {
    if |a| == 1 {
      assert a == [a[0]];
    }
  }

  /** w_squared: the hyperplane's squared norm, one number for a two-class model, an array otherwise. */
  function WSquared(m: Model): (r: Numbers)
    ensures r.Scalar? <==> |m.w2| == 1
    ensures Flatten(r) == m.w2
  {
    UnwrapRoundTrip(m.w2);
    Unwrap(m.w2)
  }

  /** support_vector_indices: an in-order copy of the model's indices, or the empty list when it has none. */
  method SupportVectorIndices(m: Model) returns (result: seq<int>)
    ensures m.svIndices.None? ==> result == []
    ensures m.svIndices.Some? ==> |result| == |m.svIndices.value|
    ensures m.svIndices.Some? ==> forall i :: 0 <= i < |result| ==> result[i] == m.svIndices.value[i]
  {
    result := [];
    if m.svIndices.Some? {
      var indices := m.svIndices.value;
      var i := 0;
      while i < |indices|
        invariant 0 <= i <= |indices|
        invariant result == indices[..i]
      {
        result := result + [indices[i]];
        i := i + 1;
      }
    }
  }

  /** The number of decision boundaries one-against-one classification needs for n classes. */
  function DecisionCount(n: nat): nat {
    n * (n - 1) / 2
  }

  /** The number of unordered pairs of distinct classes among n, counted class by class. */
  function ClassPairs(n: nat): nat {
    if n == 0 then 0 else ClassPairs(n - 1) + (n - 1)
  }

  /** The slots predict_values allocates are one per pair of classes. */
  lemma {:induction false} DecisionCountIsPairs(n: nat)
    ensures DecisionCount(n) == ClassPairs(n)
  {
    if n > 0 {
      DecisionCountIsPairs(n - 1);
      assert n * (n - 1) == (n - 1) * (n - 2) + 2 * (n - 1);
    }
  }

  /** Exactly the two-class models have a single decision boundary. */
  lemma SingleBoundaryIff(n: nat)
    ensures DecisionCount(n) == 1 <==> n == 2
  {
    if n >= 3 {
      assert n * (n - 1) >= 3 * (n - 1);
    }
  }

  /**
   * predict_values: one slot per decision boundary, each filled by libsvm
   * (decide stands for the slot libsvm writes), returned as one number for
   * a two-class model and as an array otherwise.
   */
  function PredictValues(m: Model, nodes: seq<Feature>, decide: (Model, seq<Feature>, int) -> real): (r: Numbers)
    ensures |Flatten(r)| == DecisionCount(m.nrClass)
    ensures r.Scalar? <==> m.nrClass == 2
    ensures forall k :: 0 <= k < |Flatten(r)| ==> Flatten(r)[k] == decide(m, nodes, k)
  {
    var dist := seq(DecisionCount(m.nrClass), k => decide(m, nodes, k));
    UnwrapRoundTrip(dist);
    SingleBoundaryIff(m.nrClass);
    Unwrap(dist)
  }

  /**
   * predict_probability: libsvm's predicted label together with one
   * probability slot per class.
   */
  function PredictProbability(m: Model, nodes: seq<Feature>, classify: (Model, seq<Feature>) -> real,
                              probability: (Model, seq<Feature>, int) -> real): (r: (real, seq<real>))
    ensures r.0 == classify(m, nodes)
    ensures |r.1| == NumberClasses(m)
    ensures forall k :: 0 <= k < |r.1| ==> r.1[k] == probability(m, nodes, k)
  {
    (classify(m, nodes), seq(m.nrClass, k => probability(m, nodes, k)))
  }

  /** The evaluator's state after add_result(actual, predicted) for each pair in turn. */
  function Feed<E>(e: E, addResult: (E, real, real) -> E, outcomes: seq<(real, real)>): E
    decreases |outcomes|
  {
    if |outcomes| == 0 then e
    else Feed(addResult(e, outcomes[0].0, outcomes[0].1), addResult, outcomes[1..])
  }

  /** Feeding two runs of results is feeding the first, then the second. */
  lemma {:induction false} FeedAppend<E>(e: E, addResult: (E, real, real) -> E, a: seq<(real, real)>, b: seq<(real, real)>)
    ensures Feed(e, addResult, a + b) == Feed(Feed(e, addResult, a), addResult, b)
    decreases |a|
  {
    if |a| > 0 {
      var e' := addResult(e, a[0].0, a[0].1);
      assert (a + b)[0] == a[0];
      assert (a + b)[1..] == a[1..] + b;
      assert Feed(e, addResult, a + b) == Feed(e', addResult, a[1..] + b);
      assert Feed(e, addResult, a) == Feed(e', addResult, a[1..]);
      FeedAppend(e', addResult, a[1..], b);
    } else {
      assert a + b == b;
    }
  }

  /** An evaluator that logs its calls sees every pair, once each, in order. */
  lemma {:induction false} FeedLogs(log: seq<(real, real)>, outcomes: seq<(real, real)>)
    ensures Feed(log, (l: seq<(real, real)>, a: real, p: real) => l + [(a, p)], outcomes) == log + outcomes
    decreases |outcomes|
  {
    if |outcomes| > 0 {
      FeedLogs(log + [outcomes[0]], outcomes[1..]);
      assert log + [outcomes[0]] + outcomes[1..] == log + outcomes;
    }
  }

  /**
   * evaluate_dataset: a new evaluator receives, for every instance of the
   * data in index order, the true label and libsvm's prediction for the
   * instance's row of nodes; the evaluator is returned.
   */
  method EvaluateDataset<E>(m: Model, data: Problem, evaluator: Evaluator<E>,
                            predict: (Model, seq<Feature>) -> real) returns (performance: E)
    requires data.Valid()
    ensures performance == Feed(evaluator.initial, evaluator.addResult, Outcomes(m, data, predict))
  {
    var addResult := evaluator.addResult;
    performance := evaluator.initial;
    var i := 0;
    while i < data.l
      invariant 0 <= i <= data.l
      invariant Feed(evaluator.initial, addResult, Outcomes(m, data, predict)) ==
        Feed(performance, addResult, Outcomes(m, data, predict)[i..])
    {
      var pred := predict(m, data.Row(i));
      ghost var rest := Outcomes(m, data, predict)[i..];
      assert rest[0] == (data.y[i], pred);
      assert rest[1..] == Outcomes(m, data, predict)[i + 1..];
      performance := addResult(performance, data.y[i], pred);
      i := i + 1;
    }
  }

  /** The (true label, prediction) pairs of a dataset, in instance order. */
  ghost function Outcomes(m: Model, data: Problem, predict: (Model, seq<Feature>) -> real): (r: seq<(real, real)>)
    reads data, data.x, data.y, data.Repr
    requires data.Valid()
    ensures |r| == data.l
    ensures forall i :: 0 <= i < data.l ==> r[i] == (data.y[i], predict(m, data.Row(i)))
  {
    seq(data.l, i requires 0 <= i < data.l && data.Valid() reads data, data.x, data.y, data.Repr =>
      (data.y[i], predict(m, data.Row(i))))
  }

  /** The evaluator evaluate_dataset returns for a model on a dataset. */
  ghost function Score<E>(m: Model, data: Problem, evaluator: Evaluator<E>, predict: (Model, seq<Feature>) -> real): E
    reads data, data.x, data.y, data.Repr
    requires data.Valid()
  {
    Feed(evaluator.initial, evaluator.addResult, Outcomes(m, data, predict))
  }
}
