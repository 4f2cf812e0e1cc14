/**
 The status of a PodProtector and the two functions every writer runs over it:
 CompactBuckets, which caps the length of an admission history, and Summarize, which
 recomputes the totals (util/podprotector/podprotector.go).
 */
module PodProtector {
  import opened Common

  type Time = int // nanoseconds
  type CellId = string
  type Uid = string

  const NANOS_PER_MILLI := 1_000_000

  datatype Bucket = Bucket(start: Time, uid: Option<Uid>, name: string, end: Option<Time>, counter: Option<int>) {
    // The end of the interval the bucket stands for.
    function EndTime(): Time {
      GetOr(end, start)
    }

    // Webhooks write single-pod buckets without a counter; only compaction writes the other kind.
    predicate WellFormed() {
      if uid.Some? then counter.None? && end.None? else end.Some?
    }
  }

  datatype Aggregation = Aggregation(
    total: int, available: int, ready: int, scheduled: int, running: int,
    pending: Option<int>, unscheduledPending: Option<int>, lastEventTime: Option<Time>)

  const NO_AGGREGATION := Aggregation(0, 0, 0, 0, 0, None, None, None)

  datatype Cell = Cell(id: CellId, aggregation: Aggregation, buckets: seq<Bucket>)

  datatype Summary = Summary(
    total: int, available: int, ready: int, scheduled: int, running: int, maxLatencyMillis: int, estimated: int)

  // ----- compaction -----

  function StartsBefore(a: Bucket, b: Bucket): bool {
    a.start < b.start
  }

  // What sort.Slice may return: it promises no order between equal start times.
  ghost predicate SortOf(buckets: seq<Bucket>, sorted: seq<Bucket>) {
    multiset(sorted) == multiset(buckets) && Sorted(StartsBefore, sorted)
  }

  ghost predicate AllWellFormed(buckets: seq<Bucket>) {
    forall b :: b in multiset(buckets) ==> b.WellFormed()
  }

  function LatestEnd(t: Time, buckets: seq<Bucket>): Time {
    if buckets == [] then t
    else Max(LatestEnd(t, buckets[..|buckets| - 1]), buckets[|buckets| - 1].EndTime())
  }

  // The oldest bucket, rewritten to stand for those after it.
  function CompactHead(first: Bucket, merged: seq<Bucket>): Bucket {
    var head := if first.uid.Some? then Bucket(first.start, None, "", Some(first.start), Some(1)) else first;
    head.(end := Some(LatestEnd(head.EndTime(), merged)))
  }

  function CompactSorted(threshold: int, sorted: seq<Bucket>): seq<Bucket>
    requires threshold >= 1
  {
    var delta := |sorted| - threshold;
    if delta <= 0 then sorted
    else [CompactHead(sorted[0], sorted[1..delta + 1])] + sorted[delta + 1..]
  }

  ghost predicate CompactsTo(threshold: int, buckets: seq<Bucket>, kept: seq<Bucket>)
    requires threshold >= 1
  {
    exists sorted :: SortOf(buckets, sorted) && kept == CompactSorted(threshold, sorted)
  }

  lemma SortByStart(buckets: seq<Bucket>)
    ensures SortOf(buckets, Sort(StartsBefore, buckets))
  {
    assert OrderOn(StartsBefore, multiset(buckets));
    SortSorts(StartsBefore, buckets);
  }

  method CompactBuckets(threshold: int, buckets: seq<Bucket>) returns (kept: seq<Bucket>)
    requires threshold >= 1 && AllWellFormed(buckets)
    ensures CompactsTo(threshold, buckets, kept)
  {
    kept := Sort(StartsBefore, buckets);
    SortByStart(buckets);
    ghost var sorted := kept;
    var delta := |kept| - threshold;
    if delta > 0 {
      assert kept[0] in multiset(sorted);
      var compactBucket := MergeInto(kept, delta);
      kept := [compactBucket] + kept[delta + 1..];
    }
    assert kept == CompactSorted(threshold, sorted);
  }

  // The oldest bucket with the next delta merged into it.
  method MergeInto(sorted: seq<Bucket>, delta: nat) returns (compactBucket: Bucket)
    requires 0 < delta < |sorted| && sorted[0].WellFormed()
    ensures compactBucket == CompactHead(sorted[0], sorted[1..delta + 1])
  {
    compactBucket := sorted[0];
    if compactBucket.uid.Some? {
      compactBucket := Bucket(compactBucket.start, None, "", Some(compactBucket.start), Some(1));
    }
    ghost var head := compactBucket;
    for bucketId := 1 to delta + 1
      invariant compactBucket == head.(end := Some(LatestEnd(head.EndTime(), sorted[1..bucketId])))
    {
      assert sorted[1..bucketId + 1][..bucketId - 1] == sorted[1..bucketId];
      var bucketEndTime := sorted[bucketId].EndTime();
      if bucketEndTime > compactBucket.end.value {
        compactBucket := compactBucket.(end := Some(bucketEndTime));
      }
    }
  }

  lemma {:induction false} LatestEndCovers(t: Time, buckets: seq<Bucket>)
    ensures t <= LatestEnd(t, buckets)
    ensures forall b :: b in buckets ==> b.EndTime() <= LatestEnd(t, buckets)
    ensures LatestEnd(t, buckets) == t || exists b :: b in buckets && b.EndTime() == LatestEnd(t, buckets)
  {
    if buckets != [] {
      var n := |buckets| - 1;
      LatestEndCovers(t, buckets[..n]);
      assert buckets == buckets[..n] + [buckets[n]];
    }
  }

  lemma SortOfLength(buckets: seq<Bucket>, sorted: seq<Bucket>)
    requires SortOf(buckets, sorted)
    ensures |sorted| == |buckets|
  {
    assert |multiset(sorted)| == |multiset(buckets)|;
  }

  // Compaction returns min(length, threshold) buckets in start order and keeps the newest
  // threshold - 1 as they were; within the threshold it only sorts.
  lemma CompactionKeepsNewest(threshold: int, buckets: seq<Bucket>, sorted: seq<Bucket>)
    requires threshold >= 1 && AllWellFormed(buckets) && SortOf(buckets, sorted)
    ensures var kept := CompactSorted(threshold, sorted);
      && |kept| == Min(|buckets|, threshold)
      && Sorted(StartsBefore, kept) && AllWellFormed(kept)
      && (|buckets| <= threshold ==> multiset(kept) == multiset(buckets))
      && (|buckets| > threshold ==> kept[1..] == sorted[|sorted| - threshold + 1..])
  {
    SortOfLength(buckets, sorted);
    var delta := |sorted| - threshold;
    if delta > 0 {
      var kept := CompactSorted(threshold, sorted);
      assert sorted[0] in multiset(sorted);
      forall b: Bucket | b in multiset(kept) ensures b.WellFormed() {
        if b != kept[0] {
          assert b in sorted[delta + 1..];
          assert b in multiset(sorted);
        }
      }
      forall i, j | 0 <= i < j < |kept| ensures !StartsBefore(kept[j], kept[i]) {
        assert kept[j] == sorted[delta + j];
        assert kept[i] == sorted[delta + i] || i == 0;
      }
    }
  }

  // The head of a compacted history covers exactly the interval of the buckets it replaces.
  lemma CompactHeadCovers(first: Bucket, merged: seq<Bucket>)
    requires first.WellFormed()
    requires forall b :: b in merged ==> first.start <= b.start
    ensures var head := CompactHead(first, merged);
      && head.uid.None? && head.WellFormed() && head.start == first.start
      && (if first.uid.Some? then head.name == "" && head.counter == Some(1)
          else head.name == first.name && head.counter == first.counter)
      && (forall b :: b in [first] + merged ==> head.start <= b.start && b.EndTime() <= head.EndTime())
      && exists b :: b in [first] + merged && b.EndTime() == head.EndTime()
  {
    LatestEndCovers(first.EndTime(), merged);
    var head := CompactHead(first, merged);
    assert first in [first] + merged;
    if head.EndTime() != first.EndTime() {
      var b :| b in merged && b.EndTime() == head.EndTime();
      assert b in [first] + merged;
    }
  }

  // How many admissions a bucket stands for.
  function CountOf(b: Bucket): int {
    GetOr(b.counter, 1)
  }

  // The admissions a history stands for.
  function Admissions(buckets: seq<Bucket>): int {
    Sum(CountOf, buckets)
  }

  lemma {:induction false} AdmissionsPositive(buckets: seq<Bucket>)
    requires forall b :: b in buckets ==> CountOf(b) >= 1
    ensures Admissions(buckets) >= |buckets|
  {
    if buckets != [] {
      assert buckets[0] in buckets;
      AdmissionsPositive(buckets[1..]);
    }
  }

  // Compaction loses exactly the admissions of the merged buckets after the first: the head
  // keeps the count it had.
  lemma CompactionLosesMergedCounters(threshold: int, buckets: seq<Bucket>, sorted: seq<Bucket>)
    requires threshold >= 1 && AllWellFormed(buckets) && SortOf(buckets, sorted)
    ensures |sorted| == |buckets|
    ensures var delta := Max(0, |sorted| - threshold);
      Admissions(buckets) - Admissions(CompactSorted(threshold, sorted)) ==
         (if delta == 0 then 0 else Admissions(sorted[1..delta + 1]))
  {
    SumPermutes(CountOf, buckets, sorted);
    assert |multiset(sorted)| == |multiset(buckets)|;
    var delta := |buckets| - threshold;
    if delta > 0 {
      assert sorted[0] in multiset(sorted);
      var kept := CompactSorted(threshold, sorted);
      SumSplit(CountOf, sorted, 0);
      assert sorted[1..] == sorted[1..delta + 1] + sorted[delta + 1..];
      SumConcat(CountOf, sorted[1..delta + 1], sorted[delta + 1..]);
      assert kept[1..] == sorted[delta + 1..];
    }
  }

  // So the documented meaning of a counter survives compaction exactly when none happens.
  lemma AdmissionsConservedIffWithinThreshold(threshold: int, buckets: seq<Bucket>, kept: seq<Bucket>)
    requires threshold >= 1 && AllWellFormed(buckets) && CompactsTo(threshold, buckets, kept)
    requires forall b :: b in buckets ==> CountOf(b) >= 1
    ensures Admissions(kept) == Admissions(buckets) <==> |buckets| <= threshold
  {
    var sorted :| SortOf(buckets, sorted) && kept == CompactSorted(threshold, sorted);
    CompactionLosesMergedCounters(threshold, buckets, sorted);
    assert |multiset(sorted)| == |multiset(buckets)|;
    var delta := |buckets| - threshold;
    if delta > 0 {
      forall b | b in sorted[1..delta + 1] ensures CountOf(b) >= 1 {
        assert b in multiset(sorted);
        assert b in multiset(buckets);
      }
      AdmissionsPositive(sorted[1..delta + 1]);
    }
  }

  // ----- the summary -----

  function TotalOf(c: Cell): int { c.aggregation.total }
  function AvailableOf(c: Cell): int { c.aggregation.available }
  function ReadyOf(c: Cell): int { c.aggregation.ready }
  function ScheduledOf(c: Cell): int { c.aggregation.scheduled }
  function RunningOf(c: Cell): int { c.aggregation.running }
  function AdmissionsOf(c: Cell): int { Admissions(c.buckets) }

  // Go's Duration.Milliseconds: integer division truncates toward zero.
  function Milliseconds(d: Time): int {
    if d >= 0 then d / NANOS_PER_MILLI else -(-d / NANOS_PER_MILLI)
  }

  function LagMillis(c: Cell): int {
    if c.buckets == [] || c.aggregation.lastEventTime.None? then 0
    else Milliseconds(c.buckets[|c.buckets| - 1].start - c.aggregation.lastEventTime.value)
  }

  function MaxLag(cells: seq<Cell>): int {
    if cells == [] then 0 else Max(MaxLag(cells[..|cells| - 1]), LagMillis(cells[|cells| - 1]))
  }

  // The summary a reader of the cells would compute.
  function SummaryOf(cells: seq<Cell>): Summary {
    Summary(
      Sum(TotalOf, cells), Sum(AvailableOf, cells), Sum(ReadyOf, cells), Sum(ScheduledOf, cells),
      Sum(RunningOf, cells), MaxLag(cells), Sum(AvailableOf, cells) - Sum(AdmissionsOf, cells))
  }

  ghost predicate CellsWellFormed(cells: seq<Cell>) {
    forall i :: 0 <= i < |cells| ==> AllWellFormed(cells[i].buckets)
  }

  ghost predicate CellCompactsTo(threshold: int, before: Cell, after: Cell)
    requires threshold >= 1
  {
    && after.id == before.id
    && after.aggregation == before.aggregation
    && CompactsTo(threshold, before.buckets, after.buckets)
  }

  // Summarize changes the histories by compaction only.
  ghost predicate CellsCompactTo(threshold: int, before: seq<Cell>, after: seq<Cell>)
    requires threshold >= 1
  {
    && |before| == |after|
    && forall i :: 0 <= i < |before| ==> CellCompactsTo(threshold, before[i], after[i])
  }

  lemma SumSnoc<T>(f: T -> int, s: seq<T>, n: nat)
    requires n < |s|
    ensures Sum(f, s[..n + 1]) == Sum(f, s[..n]) + f(s[n])
  {
    assert s[..n + 1] == s[..n] + [s[n]];
    SumConcat(f, s[..n], [s[n]]);
  }

  // One cell more, before the admissions are deducted.
  function AddCell(s: Summary, c: Cell): Summary {
    Summary(
      s.total + TotalOf(c), s.available + AvailableOf(c), s.ready + ReadyOf(c), s.scheduled + ScheduledOf(c),
      s.running + RunningOf(c), Max(s.maxLatencyMillis, LagMillis(c)), 0)
  }

  lemma SummarySnoc(cells: seq<Cell>, n: nat)
    requires n < |cells|
    ensures SummaryOf(cells[..n + 1]).(estimated := 0) == AddCell(SummaryOf(cells[..n]), cells[n])
  {
    SumSnoc(TotalOf, cells, n);
    SumSnoc(AvailableOf, cells, n);
    SumSnoc(ReadyOf, cells, n);
    SumSnoc(ScheduledOf, cells, n);
    SumSnoc(RunningOf, cells, n);
    assert cells[..n + 1][..n] == cells[..n];
  }

  // A local copy of a PodProtector, which Summarize and its callers update in place.
  class StatusObject {
    var minAvailable: int
    var cells: seq<Cell>
    var summary: Summary

    constructor (minAvailable: int, cells: seq<Cell>, summary: Summary)
      ensures this.minAvailable == minAvailable && this.cells == cells && this.summary == summary
    {
      this.minAvailable, this.cells, this.summary := minAvailable, cells, summary;
    }

    method Summarize(threshold: int)
      requires threshold >= 1 && CellsWellFormed(cells)
      modifies this`cells, this`summary
      ensures CellsCompactTo(threshold, old(cells), cells)
      ensures summary == SummaryOf(cells)
    {
      AddCells(threshold);
      summary := summary.(estimated := summary.available);
      DeductAdmissions();
    }

    // The first loop of Summarize.
    method AddCells(threshold: int)
      requires threshold >= 1 && CellsWellFormed(cells)
      modifies this`cells, this`summary
      ensures CellsCompactTo(threshold, old(cells), cells)
      ensures summary == SummaryOf(cells).(estimated := 0)
    {
      summary := Summary(0, 0, 0, 0, 0, 0, 0);
      for cellId := 0 to |cells|
        invariant |cells| == |old(cells)|
        invariant forall i :: 0 <= i < cellId ==> CellCompactsTo(threshold, old(cells)[i], cells[i])
        invariant forall i :: cellId <= i < |cells| ==> cells[i] == old(cells)[i]
        invariant summary == SummaryOf(cells[..cellId]).(estimated := 0)
      {
        assert AllWellFormed(cells[cellId].buckets);
        hide CellCompactsTo, SummaryOf;
        AddOneCell(threshold, cellId);
      }
      assert cells[..|cells|] == cells;
    }

    // The turn of that loop for one cell.
    method AddOneCell(threshold: int, cellId: nat)
      requires threshold >= 1 && cellId < |cells| && AllWellFormed(cells[cellId].buckets)
      requires summary == SummaryOf(cells[..cellId]).(estimated := 0)
      modifies this`cells, this`summary
      ensures |cells| == |old(cells)| && CellCompactsTo(threshold, old(cells)[cellId], cells[cellId])
      ensures forall i :: 0 <= i < |cells| && i != cellId ==> cells[i] == old(cells)[i]
      ensures summary == SummaryOf(cells[..cellId + 1]).(estimated := 0)
    {
      var cell := cells[cellId];
      var buckets := CompactBuckets(threshold, cell.buckets);
      ghost var done := cells[..cellId];
      cells := cells[cellId := cell.(buckets := buckets)];
      assert cells[..cellId] == done;
      SummarySnoc(cells, cellId);
      MaxLagNonNegative(done);
      assert CellCompactsTo(threshold, cell, cells[cellId]);
      hide CellCompactsTo, CompactsTo;

      var lag := 0;
      if |buckets| > 0 && cell.aggregation.lastEventTime.Some? {
        lag := buckets[|buckets| - 1].start - cell.aggregation.lastEventTime.value;
      }
      summary := Summary(
        summary.total + cell.aggregation.total,
        summary.available + cell.aggregation.available,
        summary.ready + cell.aggregation.ready,
        summary.scheduled + cell.aggregation.scheduled,
        summary.running + cell.aggregation.running,
        if |buckets| > 0 then Max(summary.maxLatencyMillis, Milliseconds(lag)) else summary.maxLatencyMillis,
        summary.estimated);
    }

    // The second loop of Summarize.
    method DeductAdmissions()
      modifies this`summary
      ensures summary == old(summary).(estimated := old(summary).estimated - Sum(AdmissionsOf, cells))
    {
      for cellId := 0 to |cells|
        invariant summary == old(summary).(estimated := old(summary).estimated - Sum(AdmissionsOf, cells[..cellId]))
      {
        var buckets := cells[cellId].buckets;
        for bucketId := 0 to |buckets|
          invariant summary == old(summary).(estimated :=
            old(summary).estimated - Sum(AdmissionsOf, cells[..cellId]) - Admissions(buckets[..bucketId]))
        {
          SumSnoc(CountOf, buckets, bucketId);
          summary := summary.(estimated := summary.estimated - GetOr(buckets[bucketId].counter, 1));
        }
        assert buckets[..|buckets|] == buckets;
        SumSnoc(AdmissionsOf, cells, cellId);
      }
      assert cells[..|cells|] == cells;
    }
  }

  // The pods of all cells.
  function PodsIn(cells: seq<Cell>): int {
    if cells == [] then 0 else cells[0].aggregation.total + PodsIn(cells[1..])
  }

  // How long after the last event of its cell the last admission was.
  function Delay(cell: Cell): Option<Time> {
    if cell.buckets == [] || cell.aggregation.lastEventTime.None? then None
    else Some(cell.buckets[|cell.buckets| - 1].start - cell.aggregation.lastEventTime.value)
  }

  // The whole milliseconds in the longest such delay, or zero.
  ghost predicate LongestDelay(cells: seq<Cell>, millis: int) {
    && millis >= 0
    && (forall c :: c in cells && Delay(c).Some? ==> Delay(c).value < (millis + 1) * NANOS_PER_MILLI)
    && (millis > 0 ==> exists c :: c in cells && Delay(c).Some? && Delay(c).value >= millis * NANOS_PER_MILLI)
  }

  lemma SummaryMeans(cells: seq<Cell>)
    ensures SummaryOf(cells).total == PodsIn(cells)
    ensures LongestDelay(cells, SummaryOf(cells).maxLatencyMillis)
  {
    TotalIsPods(cells);
    MaxLagMeans(cells);
  }

  lemma {:induction false} TotalIsPods(cells: seq<Cell>)
    ensures Sum(TotalOf, cells) == PodsIn(cells)
  {
    if cells != [] {
      TotalIsPods(cells[1..]);
    }
  }

  lemma {:induction false} MaxLagMeans(cells: seq<Cell>)
    ensures LongestDelay(cells, MaxLag(cells))
  {
    if cells != [] {
      var n := |cells| - 1;
      var rest, last, before := cells[..n], cells[n], MaxLag(cells[..n]);
      assert cells == rest + [last];
      MaxLagMeans(rest);
      if Delay(last).Some? {
        WholeMillis(Delay(last).value);
      }
      if before > 0 {
        var c :| c in rest && Delay(c).Some? && Delay(c).value >= before * NANOS_PER_MILLI;
        assert c in cells;
      }
      assert last in cells;
    }
  }

  // Truncation keeps the whole milliseconds of a positive duration.
  lemma WholeMillis(d: Time)
    ensures d < (Max(0, Milliseconds(d)) + 1) * NANOS_PER_MILLI
    ensures Milliseconds(d) > 0 ==> d >= Milliseconds(d) * NANOS_PER_MILLI
  {
  }

  lemma {:induction false} MaxLagNonNegative(cells: seq<Cell>)
    ensures MaxLag(cells) >= 0
    ensures forall i :: 0 <= i < |cells| ==> LagMillis(cells[i]) <= MaxLag(cells)
  {
    if cells != [] {
      var n := |cells| - 1;
      MaxLagNonNegative(cells[..n]);
      assert forall i :: 0 <= i < n ==> cells[i] == cells[..n][i];
    }
  }
}
