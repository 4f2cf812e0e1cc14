/**
 A batch may be executed again on a status that already holds its effect, for instance when the
 reply to the first write was lost. Re-execution admits nothing new.
 */
module Reexecution {
  import opened Common
  import opened PodProtector
  import opened PoolAdapter
  import Quota

  // ----- which requests have a bucket -----

  predicate Same(x: Item, y: Item) {
    x.cell == y.cell && x.uid == y.uid
  }

  lemma HasBucketIff(cells: seq<Cell>, item: Item)
    ensures HasBucket(cells, item) <==>
      var c := FindCell(cells, item.cell);
      c >= 0 && exists b :: b in cells[c].buckets && b.uid == Some(item.uid)
  {
    var c := FindCell(cells, item.cell);
    if c >= 0 {
      var i := FindUid(cells[c].buckets, item.uid);
      FindUidFirst(cells[c].buckets, item.uid, i);
      if i >= 0 {
        assert cells[c].buckets[i] in cells[c].buckets;
      }
    }
  }

  lemma AddBucketHas(cfg: Config, cells: seq<Cell>, x: Item, now: Time, y: Item)
    ensures HasBucket(AddBucket(cfg, cells, x, now), y) <==> HasBucket(cells, y) || Same(x, y)
  {
    var after := AddBucket(cfg, cells, x, now);
    HasBucketIff(cells, y);
    HasBucketIff(after, y);
    var c, d := FindCell(cells, x.cell), FindCell(cells, y.cell);
    FindCellFirst(cells, x.cell, c);
    FindCellFirst(cells, y.cell, d);
    var e := if d < 0 && x.cell == y.cell then |cells| else d;
    FindCellFirst(after, y.cell, e);
    if x.cell == y.cell {
      var added := NewBucket(cfg, x, now);
      assert added in after[e].buckets;
      assert forall b :: b in after[e].buckets <==> b == added || (d >= 0 && b in cells[d].buckets);
    }
  }

  ghost predicate Admitted(t: Quota.Tally, items: seq<Item>, y: Item) {
    SomeAdmitted(items, Quota.Verdicts(t, Statuses(items)), y)
  }

  lemma AdmittedLast(t: Quota.Tally, items: seq<Item>, y: Item)
    requires items != []
    ensures var last := items[|items| - 1];
      Admitted(t, items, y) <==>
        || Admitted(t.After(last.status), items[..|items| - 1], y)
        || (Same(last, y) && t.Verdict(last.status).ShouldDisrupt())
  {
    hide *;
    var n := |items| - 1;
    var t', rest := t.After(items[n].status), items[..n];
    var verdicts := Quota.Verdicts(t', Statuses(rest));
    VerdictsLast(t, items);
    assert rest + [items[n]] == items;
    AdmittedSnoc(rest, items[n], verdicts, t.Verdict(items[n].status), y);
    AdmittedMeans(t, items, y);
    AdmittedMeans(t', rest, y);
  }

  lemma AdmittedMeans(t: Quota.Tally, items: seq<Item>, y: Item)
    ensures Admitted(t, items, y) <==> SomeAdmitted(items, Quota.Verdicts(t, Statuses(items)), y)
  {
  }

  lemma VerdictsLast(t: Quota.Tally, items: seq<Item>)
    requires items != []
    ensures var n := |items| - 1;
      Quota.Verdicts(t, Statuses(items)) ==
        Quota.Verdicts(t.After(items[n].status), Statuses(items[..n])) + [t.Verdict(items[n].status)]
  {
    StatusesInit(items);
    assert Statuses(items)[..|items| - 1] == Statuses(items[..|items| - 1]);
    hide Statuses;
  }

  ghost predicate SomeAdmitted(items: seq<Item>, verdicts: seq<Quota.Result>, y: Item)
    requires |verdicts| == |items|
  {
    exists k :: 0 <= k < |items| && Same(items[k], y) && verdicts[k].ShouldDisrupt()
  }

  lemma AdmittedSnoc(items: seq<Item>, last: Item, verdicts: seq<Quota.Result>, verdict: Quota.Result, y: Item)
    requires |verdicts| == |items|
    ensures SomeAdmitted(items + [last], verdicts + [verdict], y) <==>
      SomeAdmitted(items, verdicts, y) || (Same(last, y) && verdict.ShouldDisrupt())
  {
    hide Same;
    var n, all, v := |items|, items + [last], verdicts + [verdict];
    if SomeAdmitted(items, verdicts, y) {
      var k :| 0 <= k < n && Same(items[k], y) && verdicts[k].ShouldDisrupt();
      assert Same(all[k], y) && v[k].ShouldDisrupt();
    }
    if Same(last, y) && verdict.ShouldDisrupt() {
      assert Same(all[n], y) && v[n].ShouldDisrupt();
    }
    if SomeAdmitted(all, v, y) {
      var k :| 0 <= k < |all| && Same(all[k], y) && v[k].ShouldDisrupt();
      assert k < n ==> Same(items[k], y) && verdicts[k].ShouldDisrupt();
    }
  }

  lemma {:induction false} AdmitAllHas(cfg: Config, cells: seq<Cell>, t: Quota.Tally, items: seq<Item>, now: Time,
                                       y: Item)
    ensures HasBucket(AdmitAll(cfg, cells, t, items, now), y) <==> HasBucket(cells, y) || Admitted(t, items, y)
    decreases |items|
  {
    if items != [] {
      var last := |items| - 1;
      AdmittedLast(t, items, y);
      AdmitAllHas(cfg, AdmitOne(cfg, cells, t, items[last], now), t.After(items[last].status), items[..last], now, y);
      AddBucketHas(cfg, cells, items[last], now, y);
    }
  }

  // ----- what the summary counts -----

  // A count of every cell that neither loop of the adapter touches.
  ghost predicate Untouched(f: Cell -> int) {
    f == TotalOf || f == AvailableOf || f == ReadyOf || f == ScheduledOf || f == RunningOf
  }

  lemma SumUpdate<T>(f: T -> int, s: seq<T>, i: nat, x: T)
    requires i < |s|
    ensures Sum(f, s[i := x]) == Sum(f, s) - f(s[i]) + f(x)
  {
    SumSplit(f, s, i);
    SumSplit(f, s[i := x], i);
    assert s[i := x][..i] == s[..i] && s[i := x][i + 1..] == s[i + 1..];
  }

  lemma {:induction false} SumPointwise<T>(f: T -> int, a: seq<T>, b: seq<T>)
    requires |a| == |b| && forall i :: 0 <= i < |a| ==> f(a[i]) == f(b[i])
    ensures Sum(f, a) == Sum(f, b)
  {
    if a != [] {
      SumPointwise(f, a[1..], b[1..]);
    }
  }

  lemma AddBucketSums(cfg: Config, cells: seq<Cell>, x: Item, now: Time, f: Cell -> int)
    requires Untouched(f)
    ensures Sum(f, AddBucket(cfg, cells, x, now)) == Sum(f, cells)
    ensures Sum(AdmissionsOf, AddBucket(cfg, cells, x, now)) == Sum(AdmissionsOf, cells) + 1
  {
    var c, added := FindCell(cells, x.cell), NewBucket(cfg, x, now);
    if c < 0 {
      var cell := Cell(x.cell, NO_AGGREGATION, [added]);
      SumConcat(f, cells, [cell]);
      SumConcat(AdmissionsOf, cells, [cell]);
    } else {
      var cell := cells[c].(buckets := cells[c].buckets + [added]);
      SumConcat(CountOf, cells[c].buckets, [added]);
      SumUpdate(f, cells, c, cell);
      SumUpdate(AdmissionsOf, cells, c, cell);
    }
  }

  lemma {:induction false} AdmitAllSums(cfg: Config, cells: seq<Cell>, t: Quota.Tally, items: seq<Item>, now: Time,
                                        f: Cell -> int)
    requires Untouched(f)
    ensures Sum(f, AdmitAll(cfg, cells, t, items, now)) == Sum(f, cells)
    ensures Sum(AdmissionsOf, AdmitAll(cfg, cells, t, items, now)) ==
      Sum(AdmissionsOf, cells) + Quota.Disruptions(t, Statuses(items))
    decreases |items|
  {
    if items != [] {
      var last := |items| - 1;
      AdmitAllSums(cfg, AdmitOne(cfg, cells, t, items[last], now), t.After(items[last].status), items[..last], now, f);
      AddBucketSums(cfg, cells, items[last], now, f);
      assert Statuses(items)[..last] == Statuses(items[..last]);
    }
  }

  lemma SameButStartSums(a: seq<Cell>, b: seq<Cell>, f: Cell -> int)
    requires SameButStart(a, b) && Untouched(f)
    ensures Sum(f, a) == Sum(f, b) && Sum(AdmissionsOf, a) == Sum(AdmissionsOf, b)
  {
    forall i | 0 <= i < |a| ensures AdmissionsOf(a[i]) == AdmissionsOf(b[i]) {
      SumPointwise(CountOf, a[i].buckets, b[i].buckets);
    }
    SumPointwise(AdmissionsOf, a, b);
    SumPointwise(f, a, b);
  }

  // ----- Summarize without compaction only permutes histories -----

  ghost predicate Within(threshold: int, cells: seq<Cell>) {
    forall i :: 0 <= i < |cells| ==> |cells[i].buckets| <= threshold
  }

  ghost predicate Permuted(a: seq<Cell>, b: seq<Cell>) {
    && |a| == |b|
    && forall i :: 0 <= i < |a| ==>
      a[i].id == b[i].id && a[i].aggregation == b[i].aggregation && multiset(a[i].buckets) == multiset(b[i].buckets)
  }

  lemma WithinIsPermuted(threshold: int, a: seq<Cell>, b: seq<Cell>)
    requires threshold >= 1 && Within(threshold, a) && CellsCompactTo(threshold, a, b)
    ensures Permuted(a, b) && Within(threshold, b)
  {
    forall i | 0 <= i < |a|
      ensures a[i].id == b[i].id && a[i].aggregation == b[i].aggregation
      ensures multiset(a[i].buckets) == multiset(b[i].buckets) && |a[i].buckets| == |b[i].buckets|
    {
      assert CellCompactsTo(threshold, a[i], b[i]);
      var sorted :| SortOf(a[i].buckets, sorted) && b[i].buckets == CompactSorted(threshold, sorted);
      SortOfLength(a[i].buckets, sorted);
    }
  }

  lemma PermutedKeeps(a: seq<Cell>, b: seq<Cell>, f: Cell -> int, y: Item)
    requires Permuted(a, b) && Untouched(f)
    ensures Sum(f, a) == Sum(f, b) && Sum(AdmissionsOf, a) == Sum(AdmissionsOf, b)
    ensures HasBucket(a, y) == HasBucket(b, y)
  {
    forall i | 0 <= i < |a| ensures AdmissionsOf(a[i]) == AdmissionsOf(b[i]) {
      SumPermutes(CountOf, a[i].buckets, b[i].buckets);
    }
    SumPointwise(AdmissionsOf, a, b);
    SumPointwise(f, a, b);
    HasBucketIff(a, y);
    HasBucketIff(b, y);
    var c := FindCell(a, y.cell);
    FindCellFirst(a, y.cell, c);
    FindCellFirst(b, y.cell, c);
    if c >= 0 {
      assert forall x :: x in a[c].buckets <==> x in multiset(b[c].buckets);
    }
  }

  lemma {:induction false} PermutedCounts(a: seq<Cell>, b: seq<Cell>, c: Quota.Criterion)
    requires Permuted(a, b)
    ensures CountInCells(a, c) == CountInCells(b, c) && Lag(a) == Lag(b)
  {
    if a != [] {
      PermutedCounts(a[1..], b[1..], c);
      BucketsLagIsAdmissions(a[0].buckets);
      BucketsLagIsAdmissions(b[0].buckets);
      SumPermutes(CountOf, a[0].buckets, b[0].buckets);
    }
  }

  // ----- the promise of MaxConcurrentLag -----

  // The admissions stored by a round that is not compacted.
  lemma StoredAdmissions(cfg: Config, read: Ppr, args: seq<Item>, now: Time, counted: seq<Cell>, extended: seq<Cell>,
                         written: Ppr, results: seq<ItemResult>)
    requires cfg.compactThreshold >= 1
    requires Round(cfg, read, args, now, counted, extended, written, results) && Permuted(extended, written.cells)
    ensures var t := TallyOf(cfg, read.minAvailable, counted);
      Sum(AdmissionsOf, written.cells) ==
        Sum(AdmissionsOf, counted) + Quota.Disruptions(t, Statuses(UndeterminedItems(counted, args)))
  {
    var y: Item :| true;
    var refreshed := RefreshAll(counted, args, now);
    RefreshAllKeepsUids(counted, args, now);
    SameButStartSums(counted, refreshed, AvailableOf);
    AdmitAllSums(cfg, refreshed, TallyOf(cfg, read.minAvailable, counted), UndeterminedItems(counted, args), now,
                 AvailableOf);
    PermutedKeeps(extended, written.cells, AvailableOf, y);
  }

  // MaxConcurrentLag is documented as the maximum of the stored counters at any point. A round stores no more than
  // that exactly when they already were at the maximum, or the requests judged by the quota fit: those for pods
  // already unhealthy and the room that the count leaves for the others.
  lemma StoredWithinLagIff(cfg: Config, read: Ppr, args: seq<Item>, now: Time, counted: seq<Cell>, extended: seq<Cell>,
                           written: Ppr, results: seq<ItemResult>, c: Quota.Criterion)
    requires cfg.compactThreshold >= 1 && cfg.maxConcurrentLag != 0
    requires Round(cfg, read, args, now, counted, extended, written, results)
    requires Within(cfg.compactThreshold, extended)
    requires Quota.OneCriterion(Statuses(UndeterminedItems(counted, args)), c)
    ensures
      var t, pods := TallyOf(cfg, read.minAvailable, counted), Statuses(UndeterminedItems(counted, args));
      var unhealthy, room := |pods| - Quota.Contributors(pods), Max(0, t.Count(c) - t.Floor());
      Sum(AdmissionsOf, written.cells) <= cfg.maxConcurrentLag <==>
        || Sum(AdmissionsOf, counted) == cfg.maxConcurrentLag
        || Sum(AdmissionsOf, counted) + unhealthy + Min(Quota.Contributors(pods), room) <= cfg.maxConcurrentLag
  {
    hide *;
    var t, pods := TallyOf(cfg, read.minAvailable, counted), Statuses(UndeterminedItems(counted, args));
    RoundCompacts(cfg, read, args, now, counted, extended, written, results);
    WithinIsPermuted(cfg.compactThreshold, extended, written.cells);
    StoredAdmissions(cfg, read, args, now, counted, extended, written, results);
    Quota.DisruptionsExactly(t, c, pods);
    ExhaustedIff(cfg, read.minAvailable, counted);
    AdmittedIs(t, c, Quota.Contributors(pods));
  }

  lemma RoundCompacts(cfg: Config, read: Ppr, args: seq<Item>, now: Time, counted: seq<Cell>, extended: seq<Cell>,
                      written: Ppr, results: seq<ItemResult>)
    requires cfg.compactThreshold >= 1 && Round(cfg, read, args, now, counted, extended, written, results)
    ensures CellsCompactTo(cfg.compactThreshold, extended, written.cells)
  {
  }

  lemma ExhaustedIff(cfg: Config, minAvailable: int, cells: seq<Cell>)
    requires cfg.maxConcurrentLag != 0
    ensures TallyOf(cfg, minAvailable, cells).Exhausted() <==> Sum(AdmissionsOf, cells) == cfg.maxConcurrentLag
  {
  }

  lemma AdmittedIs(t: Quota.Tally, c: Quota.Criterion, n: nat)
    ensures Quota.Admitted(t, c, n) == if t.Exhausted() then 0 else Min(n, Max(0, t.Count(c) - t.Floor()))
  {
  }

  // ----- the quota in the second round -----

  lemma {:induction false} CountsFallByDisruptions(t: Quota.Tally, pods: seq<Quota.PodStatus>, c: Quota.Criterion)
    ensures Quota.TallyAfter(t, pods).Count(c) >= t.Count(c) - Quota.Disruptions(t, pods)
    ensures t.Exhausted() ==> Quota.Disruptions(t, pods) == 0
    decreases |pods|
  {
    if pods != [] {
      CountsFallByDisruptions(t.After(pods[|pods| - 1]), pods[..|pods| - 1], c);
    }
  }

  lemma {:induction false} DisruptionsOfSuffix(t: Quota.Tally, pods: seq<Quota.PodStatus>, i: nat)
    requires i <= |pods|
    ensures Quota.Disruptions(t, pods[i..]) <= Quota.Disruptions(t, pods)
    decreases |pods|
  {
    if pods != [] && i < |pods| {
      var last := |pods| - 1;
      DisruptionsOfSuffix(t.After(pods[last]), pods[..last], i);
      assert pods[i..][..last - i] == pods[..last][i..];
    }
  }

  // The tally of the second round: same counts, a larger lag, a smaller budget.
  ghost predicate LaggedBy(t: Quota.Tally, t2: Quota.Tally, k: nat) {
    var remaining := match t.threshold.remaining { case None => None case Some(r) => Some(r - k) };
    t2 == t.(threshold := Quota.Threshold(t.threshold.reject, t.threshold.retry + k, remaining))
  }

  lemma LaggedBySums(cfg: Config, minAvailable: int, a: seq<Cell>, b: seq<Cell>, k: nat)
    requires Sum(AvailableOf, a) == Sum(AvailableOf, b) && Sum(ReadyOf, a) == Sum(ReadyOf, b)
    requires Sum(ScheduledOf, a) == Sum(ScheduledOf, b) && Sum(RunningOf, a) == Sum(RunningOf, b)
    requires Sum(AdmissionsOf, b) == Sum(AdmissionsOf, a) + k
    ensures LaggedBy(TallyOf(cfg, minAvailable, a), TallyOf(cfg, minAvailable, b), k)
  {
  }

  lemma RefusedAgain(t: Quota.Tally, pods: seq<Quota.PodStatus>, p: nat, t2: Quota.Tally)
    requires p < |pods| && !Quota.Verdicts(t, pods)[p].ShouldDisrupt()
    requires LaggedBy(t, t2, Quota.Disruptions(t, pods)) && t.threshold.retry >= t.threshold.reject
    ensures !t2.Verdict(pods[p]).ShouldDisrupt()
  {
    var c := pods[p].criterion;
    Quota.VerdictAt(t, pods, p);
    Quota.TallyOnlyFalls(t, pods[p + 1..]);
    CountsFallByDisruptions(t, pods[p + 1..], c);
    CountsFallByDisruptions(t, pods, c);
    DisruptionsOfSuffix(t, pods, p + 1);
  }

  lemma {:induction false} AllRefused(cfg: Config, cells: seq<Cell>, t: Quota.Tally, items: seq<Item>, now: Time)
    requires forall k :: 0 <= k < |items| ==> !t.Verdict(items[k].status).ShouldDisrupt()
    ensures AdmitAll(cfg, cells, t, items, now) == cells
    ensures forall k :: 0 <= k < |items| ==> !Quota.Verdicts(t, Statuses(items))[k].ShouldDisrupt()
    decreases |items|
  {
    if items != [] {
      var last := |items| - 1;
      AllRefused(cfg, cells, t, items[..last], now);
      assert Statuses(items)[..last] == Statuses(items[..last]);
    }
  }

  // ----- the theorem -----

  // Another request of the batch for the same pod was admitted.
  ghost predicate TwinAdmitted(args: seq<Item>, results: seq<ItemResult>, i: nat)
    requires i < |args| == |results|
  {
    exists j :: 0 <= j < |args| && Same(args[j], args[i]) && results[j].Admits()
  }

  // The four lists of cells a round goes through, when nothing is compacted after its first Summarize.
  ghost predicate UncompactedRound(cfg: Config, read: Ppr, args: seq<Item>, now: Time, counted: seq<Cell>,
                                   extended: seq<Cell>, written: Ppr, results: seq<ItemResult>, counted2: seq<Cell>)
    requires cfg.compactThreshold >= 1
  {
    && Round(cfg, read, args, now, counted, extended, written, results)
    && Permuted(extended, written.cells) && Permuted(written.cells, counted2)
  }

  lemma SecondSum(cfg: Config, read: Ppr, args: seq<Item>, now: Time, counted: seq<Cell>, extended: seq<Cell>,
                  written: Ppr, results: seq<ItemResult>, counted2: seq<Cell>, f: Cell -> int)
    requires cfg.compactThreshold >= 1 && Untouched(f)
    requires UncompactedRound(cfg, read, args, now, counted, extended, written, results, counted2)
    ensures Sum(f, counted2) == Sum(f, counted)
    ensures
      var t := TallyOf(cfg, read.minAvailable, counted);
      Sum(AdmissionsOf, counted2) ==
        Sum(AdmissionsOf, counted) + Quota.Disruptions(t, Statuses(UndeterminedItems(counted, args)))
  {
    var y: Item :| true;
    var refreshed := RefreshAll(counted, args, now);
    RefreshAllKeepsUids(counted, args, now);
    SameButStartSums(counted, refreshed, f);
    AdmitAllSums(cfg, refreshed, TallyOf(cfg, read.minAvailable, counted), UndeterminedItems(counted, args), now, f);
    PermutedKeeps(extended, written.cells, f, y);
    PermutedKeeps(written.cells, counted2, f, y);
  }

  lemma SecondTally(cfg: Config, read: Ppr, args: seq<Item>, now: Time, counted: seq<Cell>, extended: seq<Cell>,
                    written: Ppr, results: seq<ItemResult>, counted2: seq<Cell>)
    requires cfg.compactThreshold >= 1
    requires UncompactedRound(cfg, read, args, now, counted, extended, written, results, counted2)
    ensures
      var t := TallyOf(cfg, read.minAvailable, counted);
      LaggedBy(t, TallyOf(cfg, read.minAvailable, counted2),
               Quota.Disruptions(t, Statuses(UndeterminedItems(counted, args))))
  {
    SecondSum(cfg, read, args, now, counted, extended, written, results, counted2, AvailableOf);
    SecondSum(cfg, read, args, now, counted, extended, written, results, counted2, ReadyOf);
    SecondSum(cfg, read, args, now, counted, extended, written, results, counted2, ScheduledOf);
    SecondSum(cfg, read, args, now, counted, extended, written, results, counted2, RunningOf);
    var t := TallyOf(cfg, read.minAvailable, counted);
    LaggedBySums(cfg, read.minAvailable, counted, counted2,
                 Quota.Disruptions(t, Statuses(UndeterminedItems(counted, args))));
  }

  // A request has a bucket after the first round exactly when it had one before or it, or another
  // request for the same pod, was newly admitted.
  lemma BucketsAfterRound(cfg: Config, read: Ppr, args: seq<Item>, now: Time,
                          counted: seq<Cell>, extended: seq<Cell>, written: Ppr, results: seq<ItemResult>,
                          counted2: seq<Cell>, y: Item)
    requires cfg.compactThreshold >= 1
    requires UncompactedRound(cfg, read, args, now, counted, extended, written, results, counted2)
    ensures HasBucket(counted2, y) <==>
      HasBucket(counted, y) ||
      Admitted(TallyOf(cfg, read.minAvailable, counted), UndeterminedItems(counted, args), y)
  {
    var t := TallyOf(cfg, read.minAvailable, counted);
    RefreshAllKeepsUids(counted, args, now);
    SameUidsSameBuckets(counted, RefreshAll(counted, args, now), y);
    AdmitAllHas(cfg, RefreshAll(counted, args, now), t, UndeterminedItems(counted, args), now, y);
    PermutedKeeps(extended, written.cells, AvailableOf, y);
    PermutedKeeps(written.cells, counted2, AvailableOf, y);
  }

  // Only an Ok is a new disruption, only a denial a rejection, and only what is to be retried needs a retry.
  predicate Means(answer: ItemResult, verdict: Quota.Result) {
    && answer.NewDisruption? == verdict.Ok? && answer.AlreadyUnhealthy? == verdict.AlreadyUnhealthy?
    && answer.NeedRetry? == verdict.Retry? && answer.Rejected? == verdict.Denied?
  }

  // What Decides says of one request, in terms of its own verdict.
  lemma AnswerOf(cells: seq<Cell>, t: Quota.Tally, args: seq<Item>, results: seq<ItemResult>, i: nat)
    requires Decides(cells, t, args, results) && i < |args|
    ensures HasBucket(cells, args[i]) ==> results[i] == AlreadyHasBucket
    ensures !HasBucket(cells, args[i]) ==>
      exists k :: 0 <= k < |UndeterminedItems(cells, args)| && UndeterminedItems(cells, args)[k] == args[i] &&
        results[i] == ToItemResult(VerdictsOf(cells, t, args)[k]) && Means(results[i], VerdictsOf(cells, t, args)[k])
  {
    UndeterminedExactly(cells, args);
    hide Means, HasBucket, ToItemResult;
    if !HasBucket(cells, args[i]) {
      var u := Undetermined(cells, args);
      var k :| 0 <= k < |u| && u[k] == i;
      assert UndeterminedItems(cells, args)[k] == args[i];
      MeansVerdict(VerdictsOf(cells, t, args)[k]);
      hide Undetermined, VerdictsOf, Pick;
    }
  }

  lemma MeansVerdict(verdict: Quota.Result)
    ensures Means(ToItemResult(verdict), verdict)
  {
  }

  // A request that is newly admitted is admitted as an item of the batch.
  lemma AdmittedAnswers(cells: seq<Cell>, t: Quota.Tally, args: seq<Item>, results: seq<ItemResult>, y: Item)
    requires Decides(cells, t, args, results) && Admitted(t, UndeterminedItems(cells, args), y)
    ensures exists j :: 0 <= j < |args| && Same(args[j], y) && results[j].Admits()
  {
    var u, items := Undetermined(cells, args), UndeterminedItems(cells, args);
    var k :| 0 <= k < |items| && Same(items[k], y) && Quota.Verdicts(t, Statuses(items))[k].ShouldDisrupt();
    assert Same(args[u[k]], y) && results[u[k]].Admits();
  }

  // Every request still undetermined in the second round is refused in it.
  lemma UndeterminedRefusedAgain(cfg: Config, read: Ppr, args: seq<Item>, now: Time, counted: seq<Cell>,
                                 extended: seq<Cell>, written: Ppr, results: seq<ItemResult>,
                                 counted2: seq<Cell>, k: nat)
    requires cfg.compactThreshold >= 1
    requires UncompactedRound(cfg, read, args, now, counted, extended, written, results, counted2)
    requires SummaryOf(counted).estimated <= SummaryOf(counted).available
    requires k < |UndeterminedItems(counted2, args)|
    ensures var t := TallyOf(cfg, read.minAvailable, counted2);
      !t.Verdict(UndeterminedItems(counted2, args)[k].status).ShouldDisrupt()
  {
    var t, t2 := TallyOf(cfg, read.minAvailable, counted), TallyOf(cfg, read.minAvailable, counted2);
    var items, y := UndeterminedItems(counted, args), UndeterminedItems(counted2, args)[k];
    UndeterminedExactly(counted2, args);
    var i := Undetermined(counted2, args)[k];
    assert y == args[i];
    BucketsAfterRound(cfg, read, args, now, counted, extended, written, results, counted2, y);
    AnswerOf(counted, t, args, results, i);
    var p :| 0 <= p < |items| && items[p] == y;
    assert Same(items[p], y);
    SecondTally(cfg, read, args, now, counted, extended, written, results, counted2);
    RefusedAgain(t, Statuses(items), p, t2);
  }

  // Executing the same batch again on what the first execution wrote adds no bucket: what was
  // admitted now has a bucket, and what was denied or told to retry is refused again, unless
  // another request of the batch for the same pod was admitted.
  lemma ReexecutionAddsNothing(cfg: Config, read: Ppr, args: seq<Item>, now: Time,
                               counted: seq<Cell>, extended: seq<Cell>, written: Ppr, results: seq<ItemResult>,
                               now2: Time, counted2: seq<Cell>, extended2: seq<Cell>, written2: Ppr,
                               results2: seq<ItemResult>)
    requires cfg.compactThreshold >= 1
    requires Round(cfg, read, args, now, counted, extended, written, results)
    requires Round(cfg, written, args, now2, counted2, extended2, written2, results2)
    requires Within(cfg.compactThreshold, extended)
    requires SummaryOf(counted).estimated <= SummaryOf(counted).available
    ensures extended2 == RefreshAll(counted2, args, now2)
    ensures Permuted(written.cells, counted2) && SameButStart(counted2, extended2)
    ensures Permuted(extended2, written2.cells)
    ensures forall i :: 0 <= i < |args| && results[i].Admits() ==> results2[i] == AlreadyHasBucket
    ensures forall i :: 0 <= i < |args| && !results[i].Admits() ==>
      !results2[i].Admits() || (results2[i] == AlreadyHasBucket && TwinAdmitted(args, results, i))
  {
    WithinIsPermuted(cfg.compactThreshold, extended, written.cells);
    WithinIsPermuted(cfg.compactThreshold, written.cells, counted2);
    var t2, items2 := TallyOf(cfg, read.minAvailable, counted2), UndeterminedItems(counted2, args);
    forall k | 0 <= k < |items2| ensures !t2.Verdict(items2[k].status).ShouldDisrupt() {
      UndeterminedRefusedAgain(cfg, read, args, now, counted, extended, written, results, counted2, k);
    }
    AllRefused(cfg, RefreshAll(counted2, args, now2), t2, items2, now2);
    RefreshAllKeepsUids(counted2, args, now2);
    assert Within(cfg.compactThreshold, extended2);
    WithinIsPermuted(cfg.compactThreshold, extended2, written2.cells);
    forall i | 0 <= i < |args|
      ensures results[i].Admits() ==> results2[i] == AlreadyHasBucket
      ensures !results[i].Admits() ==>
        !results2[i].Admits() || (results2[i] == AlreadyHasBucket && TwinAdmitted(args, results, i))
    {
      AnswerAgain(cfg, read, args, now, counted, extended, written, results, counted2, results2, i);
    }
  }

  // The answers to request i in both rounds.
  lemma AnswerAgain(cfg: Config, read: Ppr, args: seq<Item>, now: Time, counted: seq<Cell>, extended: seq<Cell>,
                    written: Ppr, results: seq<ItemResult>, counted2: seq<Cell>, results2: seq<ItemResult>, i: nat)
    requires cfg.compactThreshold >= 1
    requires UncompactedRound(cfg, read, args, now, counted, extended, written, results, counted2)
    requires i < |args|
    requires
      var t2 := TallyOf(cfg, read.minAvailable, counted2);
      && Decides(counted2, t2, args, results2)
      && forall k :: 0 <= k < |UndeterminedItems(counted2, args)| ==> !VerdictsOf(counted2, t2, args)[k].ShouldDisrupt()
    ensures results[i].Admits() ==> results2[i] == AlreadyHasBucket
    ensures !results[i].Admits() ==>
      !results2[i].Admits() || (results2[i] == AlreadyHasBucket && TwinAdmitted(args, results, i))
  {
    assert Decides(counted, TallyOf(cfg, read.minAvailable, counted), args, results);
    var t, t2 := TallyOf(cfg, read.minAvailable, counted), TallyOf(cfg, read.minAvailable, counted2);
    BucketsAfterRound(cfg, read, args, now, counted, extended, written, results, counted2, args[i]);
    AnswerOf(counted2, t2, args, results2, i);
    if HasBucket(counted2, args[i]) {
      if !HasBucket(counted, args[i]) {
        AdmittedAnswers(counted, t, args, results, args[i]);
      }
    } else {
      NotAdmitted(counted, t, args, results, i);
    }
  }

  lemma NotAdmitted(cells: seq<Cell>, t: Quota.Tally, args: seq<Item>, results: seq<ItemResult>, i: nat)
    requires Decides(cells, t, args, results) && i < |args|
    requires !HasBucket(cells, args[i]) && !Admitted(t, UndeterminedItems(cells, args), args[i])
    ensures !results[i].Admits()
  {
    var items := UndeterminedItems(cells, args);
    AnswerOf(cells, t, args, results, i);
    var k :| 0 <= k < |items| && items[k] == args[i] && results[i] == ToItemResult(VerdictsOf(cells, t, args)[k]);
    assert Same(items[k], args[i]);
  }
}
