/**
 A run in which the estimate is too high: the aggregator reads its pods before its sync times, sees a pod that was
 admitted in between, and drops the bucket of the admission.
 */
module SnapshotRace {
  import opened Common
  import opened PodProtector
  import opened PoolAdapter
  import opened Reexecution
  import opened BucketFacts
  import opened AdmissionProtocol
  import opened AdmissionSafety
  import Aggregator
  import Quota

  const POD := Pod("c", "u")
  const VIEWS := [Aggregator.PodView(true, true, true, true, false, false)]
  const ENV := Env(Config(1, 0, (c, n) => false), c => 1, n => 0, p => "")
  const REVIEW := Item("c", "u", "", Quota.PodStatus(Quota.Available, true, true, true, true))
  const ADMISSION := Bucket(5, Some("u"), "", None, None)

  // One set for every status.
  function All<T>(pods: set<T>): ByStatus<T> {
    ByStatus(pods, pods, pods, pods)
  }

  // The sync time of the only shard, and the pod in view.
  function Seen(time: Time): Informer {
    Informer(All({"u"}), [time])
  }

  // The pod no longer in view.
  function Gone(time: Time): Informer {
    Informer(All({}), [time])
  }

  // The status counted from Seen(time), with a history.
  function Counted(buckets: seq<Bucket>, time: Time): Ppr {
    var cells := [Cell("c", Aggregator.CountPods(VIEWS, Some(time)), buckets)];
    Ppr(0, cells, SummaryOf(cells))
  }

  const EMPTY := Ppr(0, [], SummaryOf([]))
  const FRESH := Counted([], 0)
  const ADMITTED := Counted([ADMISSION], 0)
  const PRUNED := Counted([], 10)

  const COUNT := AggregatorCall(0, Seen(0), Some(FRESH))
  const ADMIT := WebhookCall(1, [REVIEW], 5, ADMITTED, [NewDisruption])
  const PRUNE := AggregatorCall(2, Seen(10), Some(PRUNED))

  const NONE: ByStatus<Pod> := All({})
  const ONE: ByStatus<Pod> := All({POD})

  const RUN: seq<State> := [
    State([EMPTY], NONE, NONE, map[], map[], map[], map[], map[], map[]),
    State([EMPTY], ONE, ONE, map[], map[], map[], map[], map[], map[]),
    State([EMPTY], ONE, ONE, map[], map["c" := Seen(0)], map[], map[], map[], map[]),
    State([EMPTY], ONE, ONE, map[], map["c" := Seen(0)], map["c" := Seen(0)], map[], map[], map[]),
    State([EMPTY], ONE, ONE, map[], map["c" := Seen(0)], map[], map[], map["c" := COUNT], map[]),
    State([EMPTY, FRESH], ONE, ONE, map[], map["c" := Seen(0)], map[], map[], map[], map["c" := Seen(0)]),
    State([EMPTY, FRESH], ONE, ONE, map[], map["c" := Seen(0)], map[], map[0 := ADMIT], map[], map["c" := Seen(0)]),
    State([EMPTY, FRESH, ADMITTED], ONE, ONE, map[POD := 5], map["c" := Seen(0)], map[], map[], map[],
      map["c" := Seen(0)]),
    State([EMPTY, FRESH, ADMITTED], ONE, ONE, map[POD := 5], map["c" := Seen(0)], map["c" := Seen(0)], map[], map[],
      map["c" := Seen(0)]),
    State([EMPTY, FRESH, ADMITTED], NONE, ONE, map[POD := 5], map["c" := Seen(0)], map["c" := Seen(0)], map[], map[],
      map["c" := Seen(0)]),
    State([EMPTY, FRESH, ADMITTED], NONE, ONE, map[POD := 5], map["c" := Gone(10)], map["c" := Seen(0)], map[], map[],
      map["c" := Seen(0)]),
    State([EMPTY, FRESH, ADMITTED], NONE, ONE, map[POD := 5], map["c" := Gone(10)], map[], map[], map["c" := PRUNE],
      map["c" := Seen(0)]),
    State([EMPTY, FRESH, ADMITTED, PRUNED], NONE, ONE, map[POD := 5], map["c" := Gone(10)], map[], map[], map[],
      map["c" := Seen(10)])
  ]

  lemma CountedOnePod(buckets: seq<Bucket>, time: Time, q: Quota.Criterion)
    requires buckets == [] || buckets == [ADMISSION]
    ensures Quota.CountIn(Counted(buckets, time).summary, q) == 1
    ensures Estimate(Counted(buckets, time).summary, q) == 1 - |buckets|
  {
    var cells := Counted(buckets, time).cells;
    SummaryCounts(cells, q);
    Aggregator.CountsArePods(VIEWS, Some(time));
    ViewsMatch(time);
    assert cells[1..] == [] && Seen(time).view.Of(q) == {"u"};
    assert BucketsLag(buckets) == |buckets| by {
      if buckets != [] {
        assert buckets[0] == ADMISSION && buckets[1..] == [];
      }
    }
  }

  // A history of at most one bucket is as it is after compaction.
  lemma NothingToCompact(buckets: seq<Bucket>, time: Time)
    requires |buckets| <= 1
    ensures CellsCompactTo(1, Counted(buckets, time).cells, Counted(buckets, time).cells)
  {
    assert SortOf(buckets, buckets) && CompactSorted(1, buckets) == buckets;
    assert CompactsTo(1, buckets, buckets);
    hide SummaryOf, CompactSorted, SortOf, CompactsTo;
  }

  // The one pod listed has the statuses the informer shows it with.
  lemma ViewsMatch(time: Time)
    ensures forall q :: |Aggregator.Having(VIEWS, q)| == |Seen(time).view.Of(q)|
  {
    forall q ensures Aggregator.Having(VIEWS, q) == {0} && Seen(time).view.Of(q) == {"u"} {
      assert VIEWS[0].Has(q);
    }
  }

  lemma FirstCount()
    ensures AggregatorComputes(ENV, EMPTY, "c", COUNT)
  {
    var shards := Aggregator.Shards([0], ENV.hash);
    var cell := Cell("c", NO_AGGREGATION, []);
    assert Aggregator.Kept(shards, []) == [];
    assert Aggregator.ReconciledCell(cell, VIEWS, shards) == FRESH.cells[0];
    assert Aggregator.WithCell([], "c") == [cell] && [cell][0 := FRESH.cells[0]] == FRESH.cells;
    NothingToCompact([], 0);
    ViewsMatch(0);
    hide CellsCompactTo, SummaryOf, Aggregator.Kept;
    assert Aggregator.Reconciles(ENV.cfg, EMPTY, "c", VIEWS, shards, Some(FRESH));
  }

  lemma Prune()
    ensures AggregatorComputes(ENV, ADMITTED, "c", PRUNE)
  {
    var cell, shards := ADMITTED.cells[0], Aggregator.Shards([10], ENV.hash);
    assert [ADMISSION][..0] == [] && Aggregator.Kept(shards, [ADMISSION]) == [];
    assert Aggregator.ReconciledCell(cell, VIEWS, shards) == PRUNED.cells[0];
    assert Aggregator.WithCell([cell], "c") == [cell] && [cell][0 := PRUNED.cells[0]] == PRUNED.cells;
    NothingToCompact([], 10);
    ViewsMatch(10);
    hide CellsCompactTo, SummaryOf, Aggregator.Kept;
    assert Aggregator.Reconciles(ENV.cfg, ADMITTED, "c", VIEWS, shards, Some(PRUNED));
  }

  // One pod available, no lag, no minimum: the deletion may proceed.
  lemma Judged(t: Quota.Tally)
    requires t == TallyOf(ENV.cfg, 0, FRESH.cells)
    ensures AdmitAll(ENV.cfg, FRESH.cells, t, [REVIEW], 5) == ADMITTED.cells
    ensures Quota.Verdicts(t, Statuses([REVIEW])) == [Quota.Ok]
  {
    CountedOnePod([], 0, Quota.Available);
    assert t.Verdict(REVIEW.status) == Quota.Ok;
    hide SummaryOf;
    assert [REVIEW][..0] == [] && Statuses([REVIEW]) == [REVIEW.status];
    assert [] + [ADMISSION] == [ADMISSION] && NewBucket(ENV.cfg, REVIEW, 5) == ADMISSION;
    var cell := FRESH.cells[0];
    assert [cell][0 := cell.(buckets := [ADMISSION])] == [cell.(buckets := [ADMISSION])];
    assert AddBucket(ENV.cfg, FRESH.cells, REVIEW, 5) == ADMITTED.cells;
  }

  lemma Admit()
    ensures WebhookComputes(ENV, FRESH, ADMIT)
  {
    Judged(TallyOf(ENV.cfg, 0, FRESH.cells));
    NothingToCompact([], 0);
    NothingToCompact([ADMISSION], 0);
    assert [REVIEW][..0] == [] && !HasBucket(FRESH.cells, REVIEW);
    assert Undetermined(FRESH.cells, [REVIEW]) == [0];
    assert UndeterminedItems(FRESH.cells, [REVIEW]) == [REVIEW];
    assert RefreshAll(FRESH.cells, [REVIEW], 5) == FRESH.cells;
    hide SummaryOf, AdmitAll, Quota.Verdicts, CellsCompactTo, RefreshAll, TallyOf;
    assert Round(ENV.cfg, FRESH, [REVIEW], 5, FRESH.cells, ADMITTED.cells, ADMITTED, [NewDisruption]);
    assert Within(1, ADMITTED.cells);
  }

  lemma Starts()
    ensures |RUN| == 13 && ENV.Valid() && Init(ENV, RUN[0]) && StepTo(ENV, RUN, 1) && StepTo(ENV, RUN, 2)
  {
    hide SummaryOf;
    assert forall q :: NONE.Of(q) == {} && ONE.Of(q) == {POD};
    assert PodsChange(RUN[0], RUN[1], ONE);
    assert InformerAdvances(ENV, RUN[1], RUN[2], "c", Seen(0));
  }

  lemma Counts()
    ensures |RUN| == 13 && StepTo(ENV, RUN, 3) && StepTo(ENV, RUN, 4) && StepTo(ENV, RUN, 5)
  {
    FirstCount();
    hide SummaryOf, AggregatorComputes;
    assert AggregatorLists(RUN[2], RUN[3], "c");
    assert AggregatorReads(ENV, RUN[3], RUN[4], "c", COUNT);
    assert AggregatorCommits(RUN[4], RUN[5], "c");
  }

  lemma Admits()
    ensures |RUN| == 13 && StepTo(ENV, RUN, 6) && StepTo(ENV, RUN, 7)
  {
    Admit();
    hide SummaryOf, WebhookComputes;
    assert WebhookExecutes(ENV, RUN[5], RUN[6], 0, ADMIT);
    assert ADMIT.results[0].Admits() && PodOf(ADMIT.args[0]) == POD;
    assert AdmittedBy(ADMIT) == {POD};
    assert WebhookCommits(RUN[6], RUN[7], 0);
  }

  // The pod goes away between the list and the sync time.
  lemma Goes()
    ensures |RUN| == 13 && StepTo(ENV, RUN, 8) && StepTo(ENV, RUN, 9) && StepTo(ENV, RUN, 10)
  {
    hide SummaryOf;
    assert AggregatorLists(RUN[7], RUN[8], "c");
    assert forall q :: NONE.Of(q) == {} && ONE.Of(q) == {POD};
    assert PodsChange(RUN[8], RUN[9], NONE);
    assert InformerAdvances(ENV, RUN[9], RUN[10], "c", Gone(10));
  }

  lemma Prunes()
    ensures |RUN| == 13 && StepTo(ENV, RUN, 11) && StepTo(ENV, RUN, 12)
    ensures RUN[11].Valid() && AggregatorCommits(RUN[11], RUN[12], "c")
  {
    Prune();
    hide SummaryOf, AggregatorComputes;
    assert AggregatorReads(ENV, RUN[10], RUN[11], "c", PRUNE);
    assert AggregatorCommits(RUN[11], RUN[12], "c");
  }

  // Both states of the informer are sound; what the aggregator made of them is not.
  lemma Ends(q: Quota.Criterion)
    ensures |RUN| == 13 && ENV.Valid() && RUN[11].Valid() && RUN[12].Valid() && |PRUNE.informer.sync| == 1
    ensures SnapshotSound(ENV, RUN[7].admitted, "c", Seen(0), q)
    ensures SnapshotSound(ENV, RUN[11].admitted, "c", Gone(10), q)
    ensures !SnapshotSound(ENV, RUN[11].admitted, "c", PRUNE.informer, q)
    ensures Estimate(RUN[12].Current().summary, q) == 1 && RUN[12].Unadmitted(q) == {}
  {
    CountedOnePod([], 10, q);
    hide SummaryOf;
    assert RUN[11].admitted[POD] == 5 && ENV.Horizon(PRUNE.informer.sync, POD) == 10;
  }

  lemma AllSteps(env: Env, run: seq<State>)
    requires |run| == 13 && Init(env, run[0])
    requires StepTo(env, run, 1) && StepTo(env, run, 2) && StepTo(env, run, 3) && StepTo(env, run, 4)
    requires StepTo(env, run, 5) && StepTo(env, run, 6) && StepTo(env, run, 7) && StepTo(env, run, 8)
    requires StepTo(env, run, 9) && StepTo(env, run, 10) && StepTo(env, run, 11) && StepTo(env, run, 12)
    ensures IsRun(env, run)
  {
    hide Init, StepTo;
    forall i | 0 < i < |run| ensures StepTo(env, run, i) {
      assert i in {1, 2, 3, 4, 5, 6, 7, 8, 9, 10, 11, 12};
    }
  }

  // From the initial state, with informers that are sound throughout, the estimate comes to count a pod as left that
  // was admitted and is gone: the update combines pods listed before it went with a sync time read after.
  lemma UnsoundSnapshotOverestimates(q: Quota.Criterion)
    ensures IsRun(ENV, RUN) && |RUN| == 13 && RUN[11].Valid() && RUN[12].Valid()
    ensures SnapshotSound(ENV, RUN[7].admitted, "c", Seen(0), q)
    ensures SnapshotSound(ENV, RUN[11].admitted, "c", Gone(10), q)
    ensures AggregatorCommits(RUN[11], RUN[12], "c") && !SnapshotSound(ENV, RUN[11].admitted, "c", PRUNE.informer, q)
    ensures Estimate(RUN[12].Current().summary, q) == 1 && RUN[12].Unadmitted(q) == {}
  {
    hide *;
    Starts();
    Counts();
    Admits();
    Goes();
    Prunes();
    Ends(q);
    AllSteps(ENV, RUN);
  }
}
