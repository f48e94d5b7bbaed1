/**
 * The running best the searches keep: an evaluation result replaces the
 * current best when `result.better_than?(lowest_error)` holds, starting from
 * nil.  The order `better_than?` is the evaluator's and stays abstract.
 */
module Ranking {
  import opened Errors

  /** The best model so far and the result it scored; nil (None) before the first replacement. */
  datatype Leader<M, S> = Leader(best: Option<M>, lowest: Option<S>)

  /** One comparison: the candidate takes over only when it is better than the current result. */
  function Step<M, S>(l: Leader<M, S>, m: M, s: S, better: (S, Option<S>) -> bool): Leader<M, S> {
    if better(s, l.lowest) then Leader(Some(m), Some(s)) else l
  }

  /**
   * The leader after comparing every (model, result) in order, starting from
   * a given leader: either that leader, or one of the entries.
   */
  function RaceFrom<M, S>(start: Leader<M, S>, entries: seq<(M, S)>, better: (S, Option<S>) -> bool): (r: Leader<M, S>)
    ensures r == start || (r.best.Some? && r.lowest.Some? &&
      exists i :: 0 <= i < |entries| && entries[i] == (r.best.value, r.lowest.value))
    decreases |entries|
  {
    if |entries| == 0 then start
    else
      var front := entries[..|entries| - 1];
      var last := entries[|entries| - 1];
      assert forall i :: 0 <= i < |front| ==> entries[i] == front[i];
      Step(RaceFrom(start, front, better), last.0, last.1, better)
  }

  /** The leader after comparing every entry in order, starting from nil: still nil, or one of the entries. */
  function Race<M, S>(entries: seq<(M, S)>, better: (S, Option<S>) -> bool): (r: Leader<M, S>)
    ensures r.best.Some? <==> r.lowest.Some?
    ensures r.lowest.Some? ==> exists i :: 0 <= i < |entries| && entries[i] == (r.best.value, r.lowest.value)
  {
    RaceFrom(Leader(None, None), entries, better)
  }

  /** One more entry is one more comparison. */
  lemma RaceSnoc<M, S>(entries: seq<(M, S)>, m: M, r: S, better: (S, Option<S>) -> bool)
    ensures Race(entries + [(m, r)], better) == Step(Race(entries, better), m, r, better)
  {
    assert (entries + [(m, r)])[..|entries|] == entries;
  }

  /** Comparing two runs of entries is comparing the first, then the second from where the first left off. */
  lemma {:induction false} RaceFromAppend<M, S>(start: Leader<M, S>, a: seq<(M, S)>, b: seq<(M, S)>, better: (S, Option<S>) -> bool)
    ensures RaceFrom(start, a + b, better) == RaceFrom(RaceFrom(start, a, better), b, better)
    decreases |b|
  {
    if |b| == 0 {
      assert a + b == a;
    } else {
      var front := b[..|b| - 1];
      RaceFromAppend(start, a, front, better);
      assert (a + b)[..|a + b| - 1] == a + front;
      assert (a + b)[|a + b| - 1] == b[|b| - 1];
    }
  }

  /**
   * What the searches rely on in `better_than?`: every result beats nil, no
   * result beats itself, and beating is transitive.
   */
  ghost predicate ScoreOrder<S(!new)>(better: (S, Option<S>) -> bool) {
    && (forall s :: better(s, None))
    && (forall s :: !better(s, Some(s)))
    && (forall a, b, c :: better(a, Some(b)) && better(b, Some(c)) ==> better(a, Some(c)))
  }

  /** Under such an order the leader is nil exactly when there was nothing to compare. */
  lemma {:induction false} RaceStarted<M, S(!new)>(entries: seq<(M, S)>, better: (S, Option<S>) -> bool)
    requires ScoreOrder(better)
    ensures Race(entries, better).lowest.None? <==> |entries| == 0
  {
    if |entries| > 0 {
      var front := entries[..|entries| - 1];
      var last := entries[|entries| - 1];
      if Race(front, better).lowest.None? {
        assert better(last.1, None);
      }
    }
  }

  /** Under such an order no entry is better than the final leader's result. */
  lemma {:induction false} RaceMaximal<M, S(!new)>(entries: seq<(M, S)>, better: (S, Option<S>) -> bool)
    requires ScoreOrder(better)
    ensures forall i :: 0 <= i < |entries| ==> !better(entries[i].1, Race(entries, better).lowest)
    decreases |entries|
  {
    if |entries| > 0 {
      var front := entries[..|entries| - 1];
      var last := entries[|entries| - 1];
      RaceMaximal(front, better);
      RaceStarted(entries, better);
      var l := Race(front, better);
      var w := Race(entries, better).lowest;
      forall i | 0 <= i < |entries|
        ensures !better(entries[i].1, w)
      {
        if i < |entries| - 1 {
          assert entries[i] == front[i];
        }
      }
    }
  }

  /** A higher-is-better score (an accuracy) ordered by `>`, with nil beaten by everything. */
  function HigherIsBetter(s: real, o: Option<real>): bool {
    o.None? || s > o.value
  }

  /** A lower-is-better score (an error count) ordered by `<`, with nil beaten by everything. */
  function LowerIsBetter(s: real, o: Option<real>): bool {
    o.None? || s < o.value
  }

  /**
   * Both numeric orders qualify; under `>` an equal later score does not take
   * over, so the first model reaching the top score is kept.
   */
  lemma NumericOrders()
    ensures ScoreOrder(HigherIsBetter) && ScoreOrder(LowerIsBetter)
    ensures forall s: real :: !HigherIsBetter(s, Some(s))
  {
  }
}
