/**
 * Svm.cross_validation_search: train one RBF C-SVC per (gamma, cost) of the
 * grid on the training set, evaluate each on the cross-validation set, keep
 * the best model and a table of result values.
 */
module CrossValidation {
  import opened Errors
  import opened Parameters
  import opened Problems
  import opened Models
  import opened Grids
  import opened Ranking

  /**
   * What one search works with: the two datasets, the evaluator class,
   * libsvm's svm_train and svm_predict, and `evaluate`, the result
   * `model.evaluate_dataset(cross_valn_set, :evaluator => evaluator)` gives
   * for a model (see Evaluates).
   */
  datatype Setup<!E> = Setup(
    training: Problem, crossValn: Problem, evaluator: Evaluator<E>,
    train: (Problem, Settings) -> Model, predict: (Model, seq<Feature>) -> real, evaluate: Model -> E)

  /** `evaluate` is evaluate_dataset on the cross-validation set with the search's evaluator. */
  ghost predicate Evaluates<E>(s: Setup<E>)
    reads s.crossValn, s.crossValn.x, s.crossValn.y, s.crossValn.Repr
  {
    s.crossValn.Valid() && forall m :: s.evaluate(m) == Score(m, s.crossValn, s.evaluator, s.predict)
  }

  /** The model trained with some settings, and its evaluation. */
  function Run<E>(s: Setup<E>, settings: Settings): (Model, E) {
    var m := s.train(s.training, settings);
    (m, s.evaluate(m))
  }

  /** The model trained for a (gamma, cost) pair, and its evaluation. */
  function Trial<E>(s: Setup<E>, pair: (real, real)): (Model, E) {
    Run(s, RbfSettings(pair.1, pair.0))
  }

  /** The trials of a sequence of (gamma, cost) pairs, in order. */
  function Trials<E>(s: Setup<E>, pairs: seq<(real, real)>): (r: seq<(Model, E)>)
    ensures |r| == |pairs|
    ensures forall k :: 0 <= k < |pairs| ==> r[k] == Trial(s, pairs[k])
  {
    seq(|pairs|, k requires 0 <= k < |pairs| => Trial(s, pairs[k]))
  }

  /** The result value of each cost's trial at one gamma: one row of the results table. */
  function RowValues<E>(s: Setup<E>, gamma: real, costs: seq<real>): (r: seq<real>)
    ensures |r| == |costs|
    ensures forall b :: 0 <= b < |costs| ==> r[b] == s.evaluator.value(Trial(s, (gamma, costs[b])).1)
    decreases |costs|
  {
    if |costs| == 0 then []
    else RowValues(s, gamma, costs[..|costs| - 1]) + [s.evaluator.value(Trial(s, (gamma, costs[|costs| - 1])).1)]
  }

  /** A Parameter object for the search settings; construction cannot fail for them. */
  method SearchParameter(cost: real, gamma: real) returns (param: Parameter)
    ensures fresh(param) && param.Value() == RbfSettings(cost, gamma)
  {
    var r := Parameter.New(RbfArgs(cost, gamma));
    assert Configure(RbfArgs(cost, gamma)) == Ok(RbfSettings(cost, gamma));
    param := r.value;
  }

  /** Train with the given settings and evaluate the model on the cross-validation set. */
  method TrainAndEvaluate<E>(s: Setup<E>, settings: Settings) returns (model: Model, result: E)
    requires Evaluates(s)
    ensures (model, result) == Run(s, settings)
  {
    model := s.train(s.training, settings);
    result := EvaluateDataset(model, s.crossValn, s.evaluator, s.predict);
  }

  /** Train at (gamma, cost) and evaluate the model on the cross-validation set. */
  method RunTrial<E>(s: Setup<E>, gamma: real, cost: real) returns (model: Model, result: E)
    requires Evaluates(s)
    ensures (model, result) == Trial(s, (gamma, cost))
  {
    var param := SearchParameter(cost, gamma);
    model, result := TrainAndEvaluate(s, param.Value());
  }

  /**
   * The inner loop for one gamma: every cost in order, each trial taking over
   * the best model when better_than? the lowest error so far.
   */
  method SearchRow<E>(s: Setup<E>, gamma: real, costs: seq<real>, bestModel0: Option<Model>, lowestError0: Option<E>)
    returns (bestModel: Option<Model>, lowestError: Option<E>, row: seq<real>)
    requires Evaluates(s)
    ensures Leader(bestModel, lowestError) ==
      RaceFrom(Leader(bestModel0, lowestError0), Trials(s, Row(gamma, costs)), s.evaluator.betterThan)
    ensures row == RowValues(s, gamma, costs)
  {
    bestModel, lowestError := bestModel0, lowestError0;
    row := [];
    var j := 0;
    while j < |costs|
      invariant 0 <= j <= |costs|
      invariant Leader(bestModel, lowestError) ==
        RaceFrom(Leader(bestModel0, lowestError0), Trials(s, Row(gamma, costs[..j])), s.evaluator.betterThan)
      invariant row == RowValues(s, gamma, costs[..j])
    {
      bestModel, lowestError, row := SearchStep(s, gamma, costs, j, Leader(bestModel0, lowestError0), bestModel, lowestError, row);
      j := j + 1;
    }
    assert costs[..|costs|] == costs;
  }

  /**
   * One iteration of the inner loop at costs[j]: train and evaluate at
   * (gamma, cost), take over the best when the result is better_than? the
   * lowest error, and append the result's value to the row.
   */
  method SearchStep<E>(s: Setup<E>, gamma: real, costs: seq<real>, j: nat, start: Leader<Model, E>,
                       bestModel0: Option<Model>, lowestError0: Option<E>, row0: seq<real>)
    returns (bestModel: Option<Model>, lowestError: Option<E>, row: seq<real>)
    requires Evaluates(s) && j < |costs|
    requires Leader(bestModel0, lowestError0) == RaceFrom(start, Trials(s, Row(gamma, costs[..j])), s.evaluator.betterThan)
    requires row0 == RowValues(s, gamma, costs[..j])
    ensures Leader(bestModel, lowestError) == RaceFrom(start, Trials(s, Row(gamma, costs[..j + 1])), s.evaluator.betterThan)
    ensures row == RowValues(s, gamma, costs[..j + 1])
  {
    var model, result := RunTrial(s, gamma, costs[j]);
    bestModel, lowestError := bestModel0, lowestError0;
    if s.evaluator.betterThan(result, lowestError) {
      bestModel := Some(model);
      lowestError := Some(result);
    }
    row := row0 + [s.evaluator.value(result)];
    TrialsRowSnoc(s, gamma, costs, j, start);
  }

  /** One more cost in a row is one more trial at the end, and one more comparison. */
  lemma TrialsRowSnoc<E>(s: Setup<E>, gamma: real, costs: seq<real>, j: nat, l: Leader<Model, E>)
    requires j < |costs|
    ensures Trials(s, Row(gamma, costs[..j + 1])) == Trials(s, Row(gamma, costs[..j])) + [Trial(s, (gamma, costs[j]))]
    ensures RowValues(s, gamma, costs[..j + 1]) == RowValues(s, gamma, costs[..j]) + [s.evaluator.value(Trial(s, (gamma, costs[j])).1)]
    ensures
      RaceFrom(l, Trials(s, Row(gamma, costs[..j + 1])), s.evaluator.betterThan) ==
      Step(RaceFrom(l, Trials(s, Row(gamma, costs[..j])), s.evaluator.betterThan),
           Trial(s, (gamma, costs[j])).0, Trial(s, (gamma, costs[j])).1, s.evaluator.betterThan)
  {
    assert costs[..j + 1][..j] == costs[..j];
    var t := Trials(s, Row(gamma, costs[..j + 1]));
    assert t[..j] == Trials(s, Row(gamma, costs[..j]));
  }

  /** The trials of a concatenation are the trials of each part. */
  lemma TrialsAppend<E>(s: Setup<E>, a: seq<(real, real)>, b: seq<(real, real)>)
    ensures Trials(s, a + b) == Trials(s, a) + Trials(s, b)
  {
  }

  /** The grid of the first i + 1 gammas is the grid of the first i followed by the row of gammas[i]. */
  lemma GridSnoc<E>(s: Setup<E>, gammas: seq<real>, costs: seq<real>, i: nat)
    requires i < |gammas|
    ensures Race(Trials(s, Product(gammas[..i + 1], costs)), s.evaluator.betterThan) ==
      RaceFrom(Race(Trials(s, Product(gammas[..i], costs)), s.evaluator.betterThan),
               Trials(s, Row(gammas[i], costs)), s.evaluator.betterThan)
  {
    assert gammas[..i + 1][..i] == gammas[..i];
    TrialsAppend(s, Product(gammas[..i], costs), Row(gammas[i], costs));
    RaceFromAppend(Leader(None, None), Trials(s, Product(gammas[..i], costs)), Trials(s, Row(gammas[i], costs)),
                   s.evaluator.betterThan);
  }

  /**
   * cross_validation_search: gammas outermost, costs innermost.  The best
   * model is the running best over the trials of the grid in that order,
   * starting from nil.  The results table holds one row per gamma with one
   * value per cost; the search builds it but returns only the best model, so
   * it is a ghost out-parameter here.
   */
  method CrossValidationSearch<E>(s: Setup<E>, costs: seq<real>, gammas: seq<real>)
    returns (bestModel: Option<Model>, ghost results: seq<seq<real>>)
    requires Evaluates(s)
    ensures bestModel == Race(Trials(s, Product(gammas, costs)), s.evaluator.betterThan).best
    ensures |results| == |gammas|
    ensures forall i :: 0 <= i < |gammas| ==> results[i] == RowValues(s, gammas[i], costs)
  {
    var lowestError: Option<E> := None;
    bestModel := None;
    results := [];
    var i := 0;
    while i < |gammas|
      invariant 0 <= i <= |gammas|
      invariant Leader(bestModel, lowestError) == Race(Trials(s, Product(gammas[..i], costs)), s.evaluator.betterThan)
      invariant |results| == i
      invariant forall a :: 0 <= a < i ==> results[a] == RowValues(s, gammas[a], costs)
    {
      var row;
      bestModel, lowestError, row := SearchRow(s, gammas[i], costs, bestModel, lowestError);
      GridSnoc(s, gammas, costs, i);
      results := results + [row];
      i := i + 1;
    }
    assert gammas[..|gammas|] == gammas;
  }

  /**
   * What the search returns, for a better_than? that orders results: nil
   * exactly when the grid is empty (no model was trained), and otherwise a
   * model whose result no trial of the grid beats.
   */
  lemma SearchOutcome<E(!new)>(s: Setup<E>, costs: seq<real>, gammas: seq<real>)
    requires ScoreOrder(s.evaluator.betterThan)
    ensures Race(Trials(s, Product(gammas, costs)), s.evaluator.betterThan).best.None? <==> |gammas| == 0 || |costs| == 0
    ensures forall gamma, cost :: gamma in gammas && cost in costs ==>
      !s.evaluator.betterThan(Trial(s, (gamma, cost)).1, Race(Trials(s, Product(gammas, costs)), s.evaluator.betterThan).lowest)
  {
    var grid := Product(gammas, costs);
    var trials := Trials(s, grid);
    RaceStarted(trials, s.evaluator.betterThan);
    RaceMaximal(trials, s.evaluator.betterThan);
    if |gammas| > 0 && |costs| > 0 {
      ProductMembers(gammas, costs, (gammas[0], costs[0]));
    } else if |grid| > 0 {
      ProductMembers(gammas, costs, grid[0]);
    }
    forall gamma, cost | gamma in gammas && cost in costs
      ensures !s.evaluator.betterThan(Trial(s, (gamma, cost)).1, Race(trials, s.evaluator.betterThan).lowest)
    {
      ProductMembers(gammas, costs, (gamma, cost));
      var k :| 0 <= k < |grid| && grid[k] == (gamma, cost);
      assert trials[k] == Trial(s, (gamma, cost));
    }
  }

  /**
   * Every model of the search is trained as a C-SVC with an RBF kernel at its
   * pair's cost and gamma, and, as libsvm keeps the settings in the model,
   * reports that cost and gamma back.
   */
  lemma TrainedSettings<E>(s: Setup<E>, gamma: real, cost: real)
    ensures Trial(s, (gamma, cost)).0 == s.train(s.training, RbfSettings(cost, gamma))
    ensures RbfSettings(cost, gamma).svmType == C_SVC && RbfSettings(cost, gamma).kernelType == RBF
    ensures RbfSettings(cost, gamma).C == cost && RbfSettings(cost, gamma).gamma == gamma
    ensures KeepsSettings(s.train, s.training) ==>
      Cost(Trial(s, (gamma, cost)).0) == cost && Gamma(Trial(s, (gamma, cost)).0) == gamma
  {
    if KeepsSettings(s.train, s.training) {
      SearchModelReadsBack(s.train, s.training, cost, gamma);
    }
  }
}
