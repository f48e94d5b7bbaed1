/**
 * GridSearch#search and its SvmCollector: the same grid as the sequential
 * search, dispatched to workers; a collector receives the evaluated models in
 * whatever order the workers finish, keeps the running best, and signals
 * completion when the expected number of results has arrived.  Concurrency
 * is replaced by an explicit sequence of arrivals.
 */
module GridSearch {
  import opened Errors
  import opened Parameters
  import opened Models
  import opened Grids
  import opened Ranking
  import opened CrossValidation

  /** One entry of the collector's list: `{cost:, gamma:, result:}`. */
  datatype Record<E> = Record(cost: real, gamma: real, result: E)

  /** The record `collect` appends for a model and its result. */
  function RecordOf<E>(arrival: (Model, E)): Record<E> {
    Record(Cost(arrival.0), Gamma(arrival.0), arrival.1)
  }

  /** The records of a sequence of arrivals, in arrival order. */
  function Records<E>(arrivals: seq<(Model, E)>): (r: seq<Record<E>>)
    ensures |r| == |arrivals|
    ensures forall k :: 0 <= k < |arrivals| ==> r[k] == RecordOf(arrivals[k])
  {
    seq(|arrivals|, k requires 0 <= k < |arrivals| => RecordOf(arrivals[k]))
  }

  /** What finished_collecting carries: the best model and the full list of records. */
  type Payload<E> = (Option<Model>, seq<Record<E>>)

  /** The collector: an expected count, the records so far, and the running best. */
  class Collector<!E> {
    var count: nat
    var results: seq<Record<E>>
    var model: Option<Model>
    var lowestError: Option<E>
    const betterThan: (E, Option<E>) -> bool
    /** Every (model, result) collected so far, in arrival order. */
    ghost var arrivals: seq<(Model, E)>

    /** The records and the best model are those of the arrivals so far. */
    ghost predicate Valid()
      reads this
    {
      results == Records(arrivals) && Leader(model, lowestError) == Race(arrivals, betterThan)
    }

    /** SvmCollector.new(size: n): nothing collected yet, and nil as best. */
    constructor(size: nat, betterThan: (E, Option<E>) -> bool)
      ensures Valid() && count == size && arrivals == [] && this.betterThan == betterThan
    {
      count := size;
      results := [];
      model := None;
      lowestError := None;
      this.betterThan := betterThan;
      arrivals := [];
    }

    /** Still waiting for results. */
    predicate Collecting()
      reads this
    {
      |results| < count
    }

    /**
     * collect: take over the best when the result is better_than? the lowest
     * error, append the record, and return finished_collecting's payload
     * exactly when the record count reaches the expected count.
     */
    method Collect(m: Model, result: E) returns (finished: Option<Payload<E>>)
      requires Valid()
      modifies this
      ensures Valid()
      ensures count == old(count)
      ensures arrivals == old(arrivals) + [(m, result)]
      ensures finished.Some? <==> |arrivals| == count
      ensures finished.Some? ==> finished.value == (model, results)
    {
      RaceSnoc(arrivals, m, result, betterThan);
      if betterThan(result, lowestError) {
        model := Some(m);
        lowestError := Some(result);
      }
      results := results + [Record(Cost(m), Gamma(m), result)];
      arrivals := arrivals + [(m, result)];
      if |results| == count {
        finished := Some((model, results));
      } else {
        finished := None;
      }
    }
  }

  /**
   * A collector expecting `count` results fed `arrivals` one by one: the
   * indices at which it signals and whether it is still collecting after each
   * arrival.  It signals once, on the count-th arrival and with the best of
   * the first count arrivals and their records, and never before or after;
   * with count 0 it never signals.
   */
  method RunCollector<E>(count: nat, betterThan: (E, Option<E>) -> bool, arrivals: seq<(Model, E)>)
    returns (signals: seq<(nat, Payload<E>)>, collecting: seq<bool>)
    ensures signals == if 1 <= count <= |arrivals|
      then [(count - 1, (Race(arrivals[..count], betterThan).best, Records(arrivals[..count])))]
      else []
    ensures |collecting| == |arrivals|
    ensures forall k :: 0 <= k < |arrivals| ==> (collecting[k] <==> k + 1 < count)
  {
    var c := new Collector(count, betterThan);
    signals := [];
    collecting := [];
    var k := 0;
    while k < |arrivals|
      invariant 0 <= k <= |arrivals|
      invariant c.Valid() && c.count == count && c.betterThan == betterThan
      invariant c.arrivals == arrivals[..k]
      invariant signals == if 1 <= count <= k
        then [(count - 1, (Race(arrivals[..count], betterThan).best, Records(arrivals[..count])))]
        else []
      invariant |collecting| == k
      invariant forall t :: 0 <= t < k ==> (collecting[t] <==> t + 1 < count)
    {
      var finished := c.Collect(arrivals[k].0, arrivals[k].1);
      assert arrivals[..k + 1] == arrivals[..k] + [arrivals[k]];
      if finished.Some? {
        signals := signals + [(k, finished.value)];
      }
      collecting := collecting + [c.Collecting()];
      k := k + 1;
    }
  }

  /** The settings of the jobs for a sequence of (gamma, cost) pairs. */
  function JobSettings(pairs: seq<(real, real)>): (r: seq<Settings>)
    ensures |r| == |pairs|
    ensures forall k :: 0 <= k < |pairs| ==> r[k] == RbfSettings(pairs[k].1, pairs[k].0)
  {
    seq(|pairs|, k requires 0 <= k < |pairs| => RbfSettings(pairs[k].1, pairs[k].0))
  }

  /** The jobs for one gamma: one per cost, in cost order. */
  method DispatchRow(gamma: real, costs: seq<real>) returns (jobs: seq<Settings>)
    ensures jobs == JobSettings(Row(gamma, costs))
  {
    jobs := [];
    var j := 0;
    while j < |costs|
      invariant 0 <= j <= |costs|
      invariant jobs == JobSettings(Row(gamma, costs[..j]))
    {
      var param := SearchParameter(costs[j], gamma);
      assert costs[..j + 1][..j] == costs[..j];
      jobs := jobs + [param.Value()];
      j := j + 1;
    }
    assert costs[..|costs|] == costs;
  }

  /**
   * The dispatch loop of search: one train job per (gamma, cost), gammas
   * outermost, each with a C-SVC, RBF Parameter for its cost and gamma.
   */
  method Dispatch(costs: seq<real>, gammas: seq<real>) returns (jobs: seq<Settings>)
    ensures jobs == JobSettings(Product(gammas, costs))
  {
    jobs := [];
    var i := 0;
    while i < |gammas|
      invariant 0 <= i <= |gammas|
      invariant jobs == JobSettings(Product(gammas[..i], costs))
    {
      var row := DispatchRow(gammas[i], costs);
      assert gammas[..i + 1][..i] == gammas[..i];
      jobs := jobs + row;
      i := i + 1;
    }
    assert gammas[..|gammas|] == gammas;
  }

  /** The (model, result) pairs the workers deliver, job order[k] finishing k-th. */
  function Deliveries<E>(s: Setup<E>, jobs: seq<Settings>, order: seq<nat>): (r: seq<(Model, E)>)
    requires forall k :: 0 <= k < |order| ==> order[k] < |jobs|
    ensures |r| == |order|
    ensures forall k :: 0 <= k < |order| ==> r[k] == Run(s, jobs[order[k]])
  {
    seq(|order|, k requires 0 <= k < |order| && order[k] < |jobs| => Run(s, jobs[order[k]]))
  }

  /** order lists every job index exactly once: each dispatched job reports back once. */
  predicate Permutation(order: seq<nat>, n: nat) {
    |order| == n && (forall k :: 0 <= k < |order| ==> order[k] < n) && multiset(order) == multiset(Indices(n))
  }

  /** A permutation of the job indices names every job. */
  lemma PermutationIndices(order: seq<nat>, n: nat)
    requires Permutation(order, n)
    ensures forall job :: 0 <= job < n ==> job in order
  {
    forall job | 0 <= job < n
      ensures job in order
    {
      assert Indices(n)[job] == job;
      assert job in multiset(Indices(n));
    }
  }

  /**
   * search: a collector expecting |gammas| * |costs| results, the dispatch,
   * then the workers' results collected in the order they finish.  The
   * search ends with finished_collecting's payload exactly when the grid is
   * not empty; the payload holds the running best over the arrivals and
   * every record.
   */
  method Search<E>(s: Setup<E>, costs: seq<real>, gammas: seq<real>, order: seq<nat>)
    returns (finished: Option<Payload<E>>)
    requires Evaluates(s)
    requires Permutation(order, |Product(gammas, costs)|)
    ensures finished.Some? <==> |order| > 0
    ensures finished.Some? ==>
      finished.value == (Race(Deliveries(s, JobSettings(Product(gammas, costs)), order), s.evaluator.betterThan).best,
                         Records(Deliveries(s, JobSettings(Product(gammas, costs)), order)))
  {
    ProductSize(gammas, costs);
    var c := new Collector(|gammas| * |costs|, s.evaluator.betterThan);
    var jobs := Dispatch(costs, gammas);
    finished := Work(s, jobs, order, c);
  }

  /**
   * The workers' side of search: job order[k] is trained and evaluated k-th
   * and its model and result handed to the collector, which answers with
   * finished_collecting on the last one.
   */
  method Work<E>(s: Setup<E>, jobs: seq<Settings>, order: seq<nat>, c: Collector<E>)
    returns (finished: Option<Payload<E>>)
    requires Evaluates(s)
    requires forall k :: 0 <= k < |order| ==> order[k] < |jobs|
    requires c.Valid() && c.count == |order| && c.arrivals == [] && c.betterThan == s.evaluator.betterThan
    modifies c
    ensures c.Valid() && c.arrivals == Deliveries(s, jobs, order)
    ensures finished.Some? <==> |order| > 0
    ensures finished.Some? ==> finished.value == (Race(c.arrivals, c.betterThan).best, Records(c.arrivals))
  {
    ghost var all := Deliveries(s, jobs, order);
    finished := None;
    var k := 0;
    while k < |order|
      invariant 0 <= k <= |order|
      invariant c.Valid() && c.count == |order| && c.betterThan == s.evaluator.betterThan
      invariant c.arrivals == all[..k]
      invariant finished == if k == |order| && k > 0 then Some((c.model, c.results)) else None
    {
      var model, result := TrainAndEvaluate(s, jobs[order[k]]);
      assert all[..k + 1] == all[..k] + [(model, result)];
      finished := c.Collect(model, result);
      k := k + 1;
    }
    assert all[..|order|] == all;
  }

  /** The trial of every pair of the grid is delivered by some worker. */
  lemma Delivered<E>(s: Setup<E>, costs: seq<real>, gammas: seq<real>, order: seq<nat>, gamma: real, cost: real)
    returns (k: nat)
    requires Permutation(order, |Product(gammas, costs)|)
    requires gamma in gammas && cost in costs
    ensures k < |order| && Deliveries(s, JobSettings(Product(gammas, costs)), order)[k] == Trial(s, (gamma, cost))
  {
    var grid := Product(gammas, costs);
    ProductMembers(gammas, costs, (gamma, cost));
    var job :| 0 <= job < |grid| && grid[job] == (gamma, cost);
    PermutationIndices(order, |grid|);
    assert job in order;
    var i :| 0 <= i < |order| && order[i] == job;
    k := i;
  }

  /**
   * Whatever order the workers finish in, the best model the search reports
   * (for a better_than? that orders results) scored a result no trial of the
   * grid beats, and every pair of the grid has its record in the list; as
   * libsvm keeps the settings in the model, that record carries the pair's own
   * cost and gamma.
   */
  lemma SearchOutcomeAnyOrder<E(!new)>(s: Setup<E>, costs: seq<real>, gammas: seq<real>, order: seq<nat>)
    requires ScoreOrder(s.evaluator.betterThan)
    requires Permutation(order, |Product(gammas, costs)|)
    ensures forall gamma, cost :: gamma in gammas && cost in costs ==>
      !s.evaluator.betterThan(Trial(s, (gamma, cost)).1,
        Race(Deliveries(s, JobSettings(Product(gammas, costs)), order), s.evaluator.betterThan).lowest)
    ensures forall gamma, cost :: gamma in gammas && cost in costs ==>
      RecordOf(Trial(s, (gamma, cost))) in Records(Deliveries(s, JobSettings(Product(gammas, costs)), order))
    ensures KeepsSettings(s.train, s.training) ==> forall gamma, cost :: gamma in gammas && cost in costs ==>
      Record(cost, gamma, Trial(s, (gamma, cost)).1) in Records(Deliveries(s, JobSettings(Product(gammas, costs)), order))
  {
    var arrivals := Deliveries(s, JobSettings(Product(gammas, costs)), order);
    RaceMaximal(arrivals, s.evaluator.betterThan);
    forall gamma, cost | gamma in gammas && cost in costs
      ensures !s.evaluator.betterThan(Trial(s, (gamma, cost)).1, Race(arrivals, s.evaluator.betterThan).lowest)
      ensures RecordOf(Trial(s, (gamma, cost))) in Records(arrivals)
      ensures KeepsSettings(s.train, s.training) ==> Record(cost, gamma, Trial(s, (gamma, cost)).1) in Records(arrivals)
    {
      var k := Delivered(s, costs, gammas, order, gamma, cost);
      assert Records(arrivals)[k] == RecordOf(arrivals[k]);
      if KeepsSettings(s.train, s.training) {
        SearchModelReadsBack(s.train, s.training, cost, gamma);
      }
    }
  }
}
