/**
 * The SvmCollector of the design-of-experiments search: workers announce a
 * job with one_more and deliver its model and result with collect; the
 * collector files results under their (cost, gamma) key and, when as many
 * results arrived as jobs were announced, emits the mean result per key.
 * The actor messaging is replaced by an explicit sequence of calls.
 */
module DoeCollection {
  import opened Errors
  import opened Parameters
  import opened Grids
  import opened Models
  import opened DoeSearch

  /** The results filed under one key, in arrival order. */
  function ResultsFor(log: seq<(Pair, real)>, key: Pair): seq<real>
    decreases |log|
  {
    if |log| == 0 then []
    else ResultsFor(log[..|log| - 1], key) + (if log[|log| - 1].0 == key then [log[|log| - 1].1] else [])
  }

  /** The keys of the hash: the log's keys in order of first arrival. */
  function FirstSeen(log: seq<(Pair, real)>): seq<Pair>
    decreases |log|
  {
    if |log| == 0 then []
    else
      var front := FirstSeen(log[..|log| - 1]);
      var key := log[|log| - 1].0;
      front + (if key in front then [] else [key])
  }

  /**
   * Every key of the log appears once among the hash's keys, nothing else
   * does, and exactly the keys of the log have results filed under them.
   */
  lemma {:induction false} FirstSeenSpec(log: seq<(Pair, real)>)
    ensures forall k :: k in FirstSeen(log) <==> k in Keys(log)
    ensures forall k :: k in Keys(log) <==> |ResultsFor(log, k)| > 0
    ensures forall i, j :: 0 <= i < j < |FirstSeen(log)| ==> FirstSeen(log)[i] != FirstSeen(log)[j]
    decreases |log|
  {
    if |log| > 0 {
      var front := log[..|log| - 1];
      FirstSeenSpec(front);
      assert Keys(log) == Keys(front) + [log[|log| - 1].0];
    }
  }

  /** `v.reduce(:+) / v.size.to_f` for a non-empty list. */
  function Mean(xs: seq<real>): real
    requires |xs| > 0
  {
    Sum(xs) / (|xs| as real)
  }

  /** `results.map{|k, v| {k => mean of v}}` over the hash's keys and lists. */
  function MeansOfHash(keys: seq<Pair>, lists: map<Pair, seq<real>>): seq<(Pair, real)>
    requires forall k :: k in keys ==> k in lists && |lists[k]| > 0
  {
    seq(|keys|, i requires 0 <= i < |keys| => (keys[i], Mean(lists[keys[i]])))
  }

  /** The next log entry extends the first-seen keys and the results of its own key only. */
  lemma LogSnoc(log: seq<(Pair, real)>, key: Pair, result: real)
    ensures FirstSeen(log + [(key, result)]) == FirstSeen(log) + (if key in FirstSeen(log) then [] else [key])
    ensures forall k :: ResultsFor(log + [(key, result)], k) == ResultsFor(log, k) + (if k == key then [result] else [])
  {
    assert (log + [(key, result)])[..|log|] == log;
  }

  /** The hash's keys and lists file exactly the log's results, by key, in arrival order. */
  ghost predicate Files(keys: seq<Pair>, lists: map<Pair, seq<real>>, log: seq<(Pair, real)>) {
    && keys == FirstSeen(log)
    && (forall k :: k in lists <==> k in keys)
    && (forall k :: k in lists ==> lists[k] == ResultsFor(log, k))
  }

  /** Appending a result to its key's list, creating the key at the end when new, files one more log entry. */
  lemma FileStep(keys: seq<Pair>, lists: map<Pair, seq<real>>, log: seq<(Pair, real)>, key: Pair, result: real)
    requires Files(keys, lists, log)
    ensures key in lists ==> Files(keys, lists[key := lists[key] + [result]], log + [(key, result)])
    ensures key !in lists ==> Files(keys + [key], lists[key := [result]], log + [(key, result)])
  {
    LogSnoc(log, key, result);
    FirstSeenSpec(log);
  }

  /** A hash that files the log's results emits the log's means. */
  lemma HashMeans(keys: seq<Pair>, lists: map<Pair, seq<real>>, log: seq<(Pair, real)>)
    requires Files(keys, lists, log)
    ensures forall k :: k in keys ==> k in lists && |lists[k]| > 0
    ensures MeansOfHash(keys, lists) == MeansOf(log)
  {
    FirstSeenSpec(log);
  }

  /** What the collector emits for a log: each key, in order of first arrival, with the mean of its results. */
  function MeansOf(log: seq<(Pair, real)>): seq<(Pair, real)> {
    FirstSeenSpec(log);
    var keys := FirstSeen(log);
    seq(|keys|, i requires 0 <= i < |keys| => (keys[i], Mean(ResultsFor(log, keys[i]))))
  }

  /**
   * The emitted hash has one entry per key collected, no key twice, and
   * each mean lies between the lowest and the highest result collected.
   */
  lemma MeansOfSpec(log: seq<(Pair, real)>, lo: real, hi: real)
    requires forall i :: 0 <= i < |log| ==> lo <= log[i].1 <= hi
    ensures forall k :: k in Keys(MeansOf(log)) <==> k in Keys(log)
    ensures forall i, j :: 0 <= i < j < |MeansOf(log)| ==> MeansOf(log)[i].0 != MeansOf(log)[j].0
    ensures forall i :: 0 <= i < |MeansOf(log)| ==> lo <= MeansOf(log)[i].1 <= hi
  {
    FirstSeenSpec(log);
    var keys := FirstSeen(log);
    var means := MeansOf(log);
    assert Keys(means) == keys;
    forall i | 0 <= i < |means|
      ensures lo <= means[i].1 <= hi
    {
      ResultsBetween(log, keys[i], lo, hi);
      MeanBetween(ResultsFor(log, keys[i]), lo, hi);
    }
  }

  /**
   * The log of a round whose jobs arrive in the order `arrived`: each job's
   * model is trained on its fold at the job's (cost, gamma) and filed under
   * the model's own cost and gamma, with the job's score.
   */
  function RoundLog<F>(arrived: seq<(Pair, nat)>, folds: seq<F>, train: (F, Settings) -> Model,
                       score: (Model, nat) -> real): seq<(Pair, real)>
    requires forall k :: 0 <= k < |arrived| ==> arrived[k].1 < |folds|
  {
    seq(|arrived|, k requires 0 <= k < |arrived| && arrived[k].1 < |folds| =>
      var m := train(folds[arrived[k].1], RbfSettings(arrived[k].0.0, arrived[k].0.1));
      ((Cost(m), Gamma(m)), score(m, arrived[k].1)))
  }

  /**
   * Whatever order a round's jobs arrive in, and as libsvm keeps the settings
   * in the model, the means emitted have a key exactly for each pattern pair
   * the round trained: the pairs in the pattern without a result yet.
   */
  lemma RoundMeansKeys<F>(pairs: seq<Pair>, results: seq<(Pair, real)>, folds: seq<F>,
                          train: (F, Settings) -> Model, score: (Model, nat) -> real, arrived: seq<(Pair, nat)>)
    requires |folds| > 0
    requires forall i :: 0 <= i < |folds| ==> KeepsSettings(train, folds[i])
    requires forall job :: job in arrived <==> job in Product(Untested(pairs, results), Indices(|folds|))
    requires forall k :: 0 <= k < |arrived| ==> arrived[k].1 < |folds|
    ensures forall p :: p in Keys(MeansOf(RoundLog(arrived, folds, train, score))) <==>
      p in pairs && p !in Keys(results)
  {
    var log := RoundLog(arrived, folds, train, score);
    FirstSeenSpec(log);
    assert Keys(MeansOf(log)) == FirstSeen(log);
    forall k | 0 <= k < |arrived|
      ensures Keys(log)[k] == arrived[k].0
    {
      var job := arrived[k];
      SearchModelReadsBack(train, folds[job.1], job.0.0, job.0.1);
    }
    forall p
      ensures p in Keys(log) <==> p in pairs && p !in Keys(results)
    {
      RoundJobs(pairs, results, |folds|, (p, 0));
      if p in Keys(log) {
        var k :| 0 <= k < |log| && Keys(log)[k] == p;
        RoundJobs(pairs, results, |folds|, arrived[k]);
      }
    }
  }

  /** The results filed under a key are among the log's results. */
  lemma {:induction false} ResultsBetween(log: seq<(Pair, real)>, key: Pair, lo: real, hi: real)
    requires forall i :: 0 <= i < |log| ==> lo <= log[i].1 <= hi
    ensures forall i :: 0 <= i < |ResultsFor(log, key)| ==> lo <= ResultsFor(log, key)[i] <= hi
    decreases |log|
  {
    if |log| > 0 {
      var front := log[..|log| - 1];
      assert forall i :: 0 <= i < |front| ==> front[i] == log[i];
      ResultsBetween(front, key, lo, hi);
    }
  }

  /** The collector: announced jobs, received results, and the results filed by key. */
  class DoeCollector {
    /** Jobs announced by one_more. */
    var count: int
    var received: nat
    /** The hash's keys in insertion order, and the list under each key. */
    var keys: seq<Pair>
    var lists: map<Pair, seq<real>>
    /** Every (key, result) collected so far, in arrival order. */
    ghost var log: seq<(Pair, real)>

    /** The hash holds exactly the log's results, filed by key in arrival order. */
    ghost predicate Valid()
      reads this
    {
      received == |log| && Files(keys, lists, log)
    }

    /** SvmCollector.new: no jobs, no results, an empty auto-expanding hash. */
    constructor()
      ensures Valid() && count == 0 && log == []
    {
      count := 0;
      received := 0;
      keys := [];
      lists := map[];
      log := [];
    }

    /** one_more, as evidently intended: one more job to wait for. */
    method OneMore()
      requires Valid()
      modifies this
      ensures Valid() && count == old(count) + 1 && log == old(log)
    {
      count := count + 1;
    }

    /**
     * one_more as written: `count += 1` assigns a new local variable, which
     * is nil when `+` is sent to it, so the call raises NoMethodError and the
     * collector's count is left as it was.
     */
    method OneMoreAsWritten() returns (outcome: Result<int>)
      ensures outcome == Err(NoMethodError("+"))
    {
      // `count += 1` sends `+` to the method-local `count`, which is still nil
      outcome := Err(NoMethodError("+"));
    }

    /**
     * collect: count the result, append it under the model's (cost, gamma)
     * key (creating the key at the end of the hash on its first result), and
     * emit the per-key means when as many results arrived as jobs were
     * announced, and at least one.
     */
    method Collect(m: Model, result: real) returns (emitted: Option<seq<(Pair, real)>>)
      requires Valid()
      modifies this
      ensures Valid() && count == old(count)
      ensures log == old(log) + [((Cost(m), Gamma(m)), result)]
      ensures emitted.Some? <==> received == count && count > 0
      ensures emitted.Some? ==> emitted.value == MeansOf(log)
    {
      received := received + 1;
      var key := (Cost(m), Gamma(m));
      FileStep(keys, lists, log, key, result);
      log := log + [(key, result)];
      if key in lists {
        lists := lists[key := lists[key] + [result]];
      } else {
        keys := keys + [key];
        lists := lists[key := [result]];
      }
      if received == count && count > 0 {
        HashMeans(keys, lists, log);
        emitted := Some(MeansOfHash(keys, lists));
      } else {
        emitted := None;
      }
    }
  }

  /** A call the collector receives: one_more, or collect with a model and its result. */
  datatype Event = OneMoreCall | Arrival(model: Model, result: real)

  /** The number of one_more calls among the events. */
  function Announced(events: seq<Event>): nat
    decreases |events|
  {
    if |events| == 0 then 0
    else Announced(events[..|events| - 1]) + (if events[|events| - 1].OneMoreCall? then 1 else 0)
  }

  /** The number of collect calls among the events. */
  function Delivered(events: seq<Event>): nat
    decreases |events|
  {
    if |events| == 0 then 0
    else Delivered(events[..|events| - 1]) + (if events[|events| - 1].Arrival? then 1 else 0)
  }

  /** The collector emits at event k: a collect after which deliveries equal announcements, at least one. */
  predicate Fires(events: seq<Event>, k: nat)
    requires k < |events|
  {
    events[k].Arrival? && Delivered(events[..k + 1]) == Announced(events[..k + 1]) && Announced(events[..k + 1]) > 0
  }

  /** A collector fed a sequence of calls: whether it emits at each of them. */
  method RunEvents(events: seq<Event>) returns (emits: seq<bool>)
    ensures |emits| == |events|
    ensures forall k :: 0 <= k < |events| ==> (emits[k] <==> Fires(events, k))
  {
    var c := new DoeCollector();
    emits := [];
    var k := 0;
    while k < |events|
      invariant 0 <= k <= |events|
      invariant c.Valid() && c.count == Announced(events[..k]) && c.received == Delivered(events[..k])
      invariant |emits| == k
      invariant forall t :: 0 <= t < k ==> (emits[t] <==> Fires(events, t))
    {
      CountsSnoc(events, k);
      match events[k] {
        case OneMoreCall =>
          c.OneMore();
          emits := emits + [false];
        case Arrival(m, result) =>
          var emitted := c.Collect(m, result);
          emits := emits + [emitted.Some?];
      }
      assert emits[k] <==> Fires(events, k);
      k := k + 1;
    }
  }

  /** One more call counts once, as an announcement or as a delivery. */
  lemma CountsSnoc(events: seq<Event>, k: nat)
    requires k < |events|
    ensures Announced(events[..k + 1]) == Announced(events[..k]) + (if events[k].OneMoreCall? then 1 else 0)
    ensures Delivered(events[..k + 1]) == Delivered(events[..k]) + (if events[k].Arrival? then 1 else 0)
  {
    assert events[..k + 1][..k] == events[..k];
  }

  /** Counts over a concatenation add up. */
  lemma {:induction false} CountsAppend(a: seq<Event>, b: seq<Event>)
    ensures Announced(a + b) == Announced(a) + Announced(b)
    ensures Delivered(a + b) == Delivered(a) + Delivered(b)
    decreases |b|
  {
    if |b| == 0 {
      assert a + b == a;
    } else {
      var front := b[..|b| - 1];
      CountsAppend(a, front);
      assert (a + b)[..|a + b| - 1] == a + front;
    }
  }

  /** n one_more calls. */
  function Announcements(n: nat): (r: seq<Event>)
    ensures |r| == n && forall i :: 0 <= i < n ==> r[i] == OneMoreCall
  {
    seq(n, i => OneMoreCall)
  }

  /** Only one_more calls: as many announcements as calls, no deliveries. */
  lemma {:induction false} AnnouncementsCount(n: nat)
    ensures Announced(Announcements(n)) == n && Delivered(Announcements(n)) == 0
  {
    if n > 0 {
      AnnouncementsCount(n - 1);
      assert Announcements(n)[..n - 1] == Announcements(n - 1);
    }
  }

  /** Only collect calls: as many deliveries as calls, no announcements. */
  lemma {:induction false} ArrivalsCount(arrivals: seq<Event>)
    requires forall i :: 0 <= i < |arrivals| ==> arrivals[i].Arrival?
    ensures Announced(arrivals) == 0 && Delivered(arrivals) == |arrivals|
    decreases |arrivals|
  {
    if |arrivals| > 0 {
      ArrivalsCount(arrivals[..|arrivals| - 1]);
    }
  }

  /**
   * When every job is announced before any result arrives, the collector
   * emits exactly once, on the last result, and never for an empty round.
   */
  lemma OrderlyRound(n: nat, arrivals: seq<Event>)
    requires |arrivals| == n
    requires forall i :: 0 <= i < n ==> arrivals[i].Arrival?
    ensures forall k :: 0 <= k < 2 * n ==> (Fires(Announcements(n) + arrivals, k) <==> k == 2 * n - 1)
  {
    var events := Announcements(n) + arrivals;
    forall k | 0 <= k < 2 * n
      ensures Fires(events, k) <==> k == 2 * n - 1
    {
      if k >= n {
        var got := arrivals[..k + 1 - n];
        assert events[..k + 1] == Announcements(n) + got;
        CountsAppend(Announcements(n), got);
        AnnouncementsCount(n);
        ArrivalsCount(got);
      } else {
        assert events[k] == OneMoreCall;
      }
    }
  }

  /**
   * When a worker's result arrives before the next job is announced, the
   * collector emits early: with one announcement and one result it already
   * emits, and it emits again after the second pair of calls.
   */
  lemma InterleavedRoundFiresEarly(a: Model, x: real, b: Model, y: real)
    ensures Fires([OneMoreCall, Arrival(a, x), OneMoreCall, Arrival(b, y)], 1)
    ensures Fires([OneMoreCall, Arrival(a, x), OneMoreCall, Arrival(b, y)], 3)
  {
    var events := [OneMoreCall, Arrival(a, x), OneMoreCall, Arrival(b, y)];
    assert events[..1] == [OneMoreCall];
    assert events[..1][..0] == [];
    assert Announced(events[..1]) == 1 && Delivered(events[..1]) == 0;
    assert events[..2][..1] == events[..1];
    assert Announced(events[..2]) == 1 && Delivered(events[..2]) == 1;
    assert events[..4][..3] == events[..3];
    assert events[..3][..2] == events[..2];
    assert Announced(events[..3]) == 2 && Delivered(events[..3]) == 1;
    assert Announced(events[..4]) == 2 && Delivered(events[..4]) == 2;
  }

  /**
   * one_more as written against one_more as intended: a collector whose job
   * announcement raised NoMethodError keeps a count of 0 and does not emit
   * on the job's result, where the intended collector emits that result.
   */
  method OneMoreFinding(m: Model, result: real)
    returns (raised: Result<int>, asWritten: Option<seq<(Pair, real)>>, intended: Option<seq<(Pair, real)>>)
    ensures raised == Err(NoMethodError("+"))
    ensures asWritten == None
    ensures intended == Some([((Cost(m), Gamma(m)), result)])
  {
    var broken := new DoeCollector();
    raised := broken.OneMoreAsWritten();
    asWritten := broken.Collect(m, result);
    var fixed := new DoeCollector();
    fixed.OneMore();
    intended := fixed.Collect(m, result);
    SingleResult((Cost(m), Gamma(m)), result);
  }

  /** One result emits itself as its key's mean. */
  lemma SingleResult(key: Pair, result: real)
    ensures MeansOf([(key, result)]) == [(key, result)]
  {
    var log := [(key, result)];
    assert log[..0] == [];
    assert FirstSeen(log) == [key];
    assert ResultsFor(log, key) == [result];
    assert [result][..0] == [];
    assert Sum([result]) == result;
  }
}
